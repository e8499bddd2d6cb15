/** Encoding arrays of scalars. The length of a packed array is found in advance, by a product or by a counting pass, and is
    written in front of the elements; the methods are proved to write the bytes of the specification, so that the length is
    that of what follows. */
module Encoder {
  import opened Bits
  import opened Varint
  import opened Integers
  import opened Descriptor
  import opened Message
  import opened EncodeSpec
  import opened Allocation
  import opened OutputStream
  import opened FieldIterator
  import opened SourceStruct
  import opened Writer

  /** One more part of a sequence has been attempted. */
  lemma StepLoop(a: OState, b: OState, c: OState, ok: bool, done: bytes, x: Result<bytes>, rest: Result<bytes>)
    requires Step(a, b, true, Success(done)) && Step(b, c, ok, x)
    ensures ok ==> x.Success? && Step(a, c, true, Success(done + x.value)) &&
                   Cat(Success(done), Cat(x, rest)) == Cat(Success(done + x.value), rest)
    ensures !ok ==> Step(a, c, false, Cat(Success(done), Cat(x, rest)))
  {
    hide Kept;
    StepThen(a, b, c, ok, Success(done), x);
    if ok {
      if rest.Success? {
        assert done + (x.value + rest.value) == done + x.value + rest.value;
      }
    } else {
      StepFails(a, c, Cat(Success(done), x), rest);
      CatAssociates(Success(done), x, rest);
    }
  }

  lemma CatAssociates(x: Result<bytes>, y: Result<bytes>, z: Result<bytes>)
    ensures Cat(Cat(x, y), z) == Cat(x, Cat(y, z))
  {
    if x.Success? && y.Success? && z.Success? {
      assert x.value + y.value + z.value == x.value + (y.value + z.value);
    }
  }

  /** What a successful step says about the counter. */
  lemma StepCount(a: OState, b: OState, ok: bool, enc: Result<bytes>)
    requires Step(a, b, ok, enc)
    ensures Proper(b) && b.sizing == a.sizing && b.maxSize == a.maxSize
    ensures ok ==> enc.Success? && b.bytesWritten == a.bytesWritten + |enc.value|
    ensures ok <==> enc.Success? && (a.sizing || a.bytesWritten + |enc.value| <= a.maxSize)
  {
  }

  // ---- arrays ----

  /** The elements of a packed array. */
  method EncodeScalars(s: OStream, f: Field, items: seq<Value>) returns (ok: bool)
    requires Proper(s.Now()) && forall j :: 0 <= j < |items| ==> items[j].Scalar?
    requires s.bytesWritten + OfScalars(f, items) <= SIZE_MAX
    modifies s, s.buf
    ensures Step(old(s.Now()), s.Now(), ok, EncScalars(f, items))
  {
    hide Step, EncScalar, Cat, OfScalars, Proper, EncScalars;
    ghost var a, done := s.Now(), [];
    StepNothing(a);
    var i := 0;
    NothingDone(EncScalars(f, items));
    assert items[0..] == items;
    while i < |items|
      invariant 0 <= i <= |items|
      invariant Step(a, s.Now(), true, Success(done)) && Proper(s.Now())
      invariant EncScalars(f, items) == Cat(Success(done), EncScalars(f, items[i..]))
      invariant s.bytesWritten + OfScalars(f, items[i..]) <= SIZE_MAX
    {
      ghost var b, x := s.Now(), EncScalar(f, items[i].n);
      ScalarsStep(f, items[i..]);
      ok := EncodeScalar(s, f, items[i].n);
      StepLoop(a, b, s.Now(), ok, done, x, EncScalars(f, items[i..][1..]));
      StepCount(b, s.Now(), ok, x);
      if !ok {
        return;
      }
      assert items[i..][1..] == items[i + 1..];
      done := done + x.value;
      i := i + 1;
    }
    assert items[i..] == [];
    AllDone(f, done);
    return true;
  }

  lemma NothingDone(enc: Result<bytes>)
    ensures Cat(Success([]), enc) == enc
  {
    if enc.Success? {
      assert [] + enc.value == enc.value;
    }
  }

  lemma AllDone(f: Field, done: bytes)
    ensures Cat(Success(done), EncScalars(f, [])) == Success(done)
  {
    assert done + [] == done;
  }

  lemma ScalarsStep(f: Field, items: seq<Value>)
    requires items != [] && items[0].Scalar?
    ensures EncScalars(f, items) == Cat(EncScalar(f, items[0].n), EncScalars(f, items[1..]))
    ensures EncScalar(f, items[0].n).Success? ==> |EncScalar(f, items[0].n).value| + OfScalars(f, items[1..]) == OfScalars(f, items)
    ensures Size(EncScalar(f, items[0].n)) <= OfScalars(f, items)
  {
    hide EncScalar;
    OfScalarsStep(f, items);
  }

  lemma {:induction false} FixedSize(f: Field, items: seq<Value>)
    requires f.ltype.Fixed32? || f.ltype.Fixed64?
    requires forall j :: 0 <= j < |items| ==> items[j].Scalar?
    ensures EncScalars(f, items).Success?
    ensures |EncScalars(f, items).value| == |items| * if f.ltype.Fixed32? then 4 else 8
  {
    if items != [] {
      FixedSize(f, items[1..]);
    }
  }

  /** The size of a packed array: a product for fixed-width elements, otherwise a counting pass. */
  method PackedSize(f: Field, items: seq<Value>) returns (ok: bool, size: nat)
    requires forall j :: 0 <= j < |items| ==> items[j].Scalar?
    requires OfScalars(f, items) <= SIZE_MAX
    ensures ok <==> EncScalars(f, items).Success?
    ensures ok ==> size == |EncScalars(f, items).value|
  {
    hide EncScalars, OfScalars, Proper, Step;
    if f.ltype.Fixed32? {
      FixedSize(f, items);
      return true, 4 * |items|;
    } else if f.ltype.Fixed64? {
      FixedSize(f, items);
      return true, 8 * |items|;
    }
    var sizer := new OStream.Sizing();
    ghost var a := sizer.Now();
    ok := EncodeScalars(sizer, f, items);
    StepCount(a, sizer.Now(), ok, EncScalars(f, items));
    size := sizer.bytesWritten;
  }

  /** The contents of a counted prefix: written, or only counted. */
  method EncodePackedBody(s: OStream, f: Field, items: seq<Value>, size: nat) returns (ok: bool)
    requires Proper(s.Now()) && forall j :: 0 <= j < |items| ==> items[j].Scalar?
    requires s.bytesWritten + OfScalars(f, items) <= SIZE_MAX
    requires EncScalars(f, items).Success? && size == |EncScalars(f, items).value|
    modifies s, s.buf
    ensures Step(old(s.Now()), s.Now(), ok, EncScalars(f, items))
  {
    hide EncScalars;
    assert OfScalars(f, items) == size by { OfScalarsSize(f, items); }
    hide OfScalars;
    if s.sizing {
      ok := s.Count(size);
    } else {
      ok := EncodeScalars(s, f, items);
    }
  }

  lemma OfScalarsSize(f: Field, items: seq<Value>)
    requires EncScalars(f, items).Success?
    ensures OfScalars(f, items) == |EncScalars(f, items).value|
  {
  }

  /** An array with a single tag: the length in front is exactly the length of what follows. */
  method EncodePacked(s: OStream, S: Schema, f: Field, items: seq<Value>) returns (ok: bool)
    requires Proper(s.Now()) && f.tag < U32 && items != [] && Packable(f.ltype)
    requires FixedCount(f) ==> |items| == f.arraySize
    requires f.atype.Static? ==> |items| <= f.arraySize
    requires forall j :: 0 <= j < |items| ==> items[j].Scalar?
    requires s.bytesWritten + OfArray(S, f, items) <= SIZE_MAX
    modifies s, s.buf
    ensures Step(old(s.Now()), s.Now(), ok, EncArray(S, f, items))
  {
    PackedParts(S, f, items);
    hide Step, EncScalars, OfScalars, OfArray, EncArray, EncTag, Proper, Cat;
    ghost var a, e := s.Now(), EncScalars(f, items);
    ok := EncodeTag(s, 2, f.tag);
    StepCount(a, s.Now(), ok, Success(EncTag(f.tag, 2)));
    if !ok {
      StepFails(a, s.Now(), Success(EncTag(f.tag, 2)), Prefixed(e));
      return;
    }
    ghost var b := s.Now();
    StepNothing(b);
    var size;
    ok, size := PackedSize(f, items);
    if !ok {
      StepThen(a, b, b, false, Success(EncTag(f.tag, 2)), Failure);
      return;
    }
    PrefixedParts(e);
    ok := EncodeVarint(s, size);
    StepCount(b, s.Now(), ok, Success(EncVarint(size)));
    if !ok {
      StepFails(b, s.Now(), Success(EncVarint(size)), e);
    } else {
      ghost var c := s.Now();
      ok := EncodePackedBody(s, f, items, size);
      StepThen(b, c, s.Now(), ok, Success(EncVarint(size)), e);
    }
    StepThen(a, b, s.Now(), ok, Success(EncTag(f.tag, 2)), Prefixed(e));
  }

  lemma PrefixedParts(e: Result<bytes>)
    requires e.Success?
    ensures Prefixed(e) == Cat(Success(EncVarint(|e.value|)), e)
  {
  }

  lemma PackedParts(S: Schema, f: Field, items: seq<Value>)
    requires items != [] && Packable(f.ltype)
    requires FixedCount(f) ==> |items| == f.arraySize
    requires f.atype.Static? ==> |items| <= f.arraySize
    ensures EncArray(S, f, items) == Cat(Success(EncTag(f.tag, 2)), Prefixed(EncScalars(f, items)))
    ensures |EncTag(f.tag, 2)| + OfScalars(f, items) <= OfArray(S, f, items)
    ensures EncScalars(f, items).Success? ==>
              |EncTag(f.tag, 2)| + |Prefixed(EncScalars(f, items)).value| <= OfArray(S, f, items)
    ensures EncScalars(f, items).Success? ==> OfScalars(f, items) == |EncScalars(f, items).value|
  {
    hide EncTag;
  }
}
