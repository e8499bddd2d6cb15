/** The encoder for messages. Submessages are encoded twice, once for their size and once into the stream, and each method
    is proved against the function of EncodeSpec: it succeeds exactly when there are bytes and they fit, and then they stand
    behind what was there. */
module MessageEncoder {
  import opened Bits
  import opened Varint
  import opened Integers
  import opened Descriptor
  import opened Message
  import opened EncodeSpec
  import opened Allocation
  import opened OutputStream
  import opened FieldIterator
  import opened SourceStruct
  import opened Writer
  import opened Encoder
  import Framing

  // ---- items ----

  /** One item without tag, by its type. */
  method EncodeItem(s: OStream, S: Schema, f: Field, v: Value) returns (ok: bool)
    requires SchemaOk(S) && Proper(s.Now()) && FilledItem(S, f, v)
    requires s.bytesWritten + OfItem(S, f, v) <= SIZE_MAX
    modifies s, s.buf
    ensures Step(old(s.Now()), s.Now(), ok, EncItem(S, f, v))
    decreases v, 0
  {
    ItemParts(S, f, v);
    hide Step, EncMessage, Prefixed, EncBlob, EncScalar, Proper, Filled, SchemaOk, OfItem, OfMessage;
    if Packable(f.ltype) {
      ok := EncodeScalar(s, f, v.n);
    } else if f.ltype.Bytes? {
      ok := EncodeBytesField(s, f, v.data);
    } else if f.ltype.String? {
      ok := EncodeStringField(s, f, v.data);
    } else if f.ltype.FixedLengthBytes? {
      ok := EncodeFixedLengthBytes(s, f, v.data);
    } else {
      ok := EncodeSubmessage(s, S, f.ptr.id, v.slots);
    }
  }

  lemma ItemParts(S: Schema, f: Field, v: Value)
    requires FilledItem(S, f, v)
    ensures Size(EncItem(S, f, v)) <= OfItem(S, f, v)
    ensures v.Blob? ==> |v.data| <= SIZE_MAX
    ensures v.Sub? ==> OfMessage(S, f.ptr.id, v.slots) <= OfItem(S, f, v)
  {
    hide EncMessage, EncScalar, EncBlob, OfMessage;
    if v.Sub? && EncMessage(S, f.ptr.id, v.slots).Success? {
      ProducedSize(S, f.ptr.id, v.slots);
    }
  }

  /** A submessage is sized by a first pass and written by a second one, which can write no more than that. Both passes
      agree, so the size cannot have changed. */
  method EncodeSubmessage(s: OStream, S: Schema, t: nat, m: Slots) returns (ok: bool)
    requires SchemaOk(S) && Proper(s.Now()) && t < |S| && Filled(S, t, m)
    requires OfMessage(S, t, m) <= SIZE_MAX
    requires s.bytesWritten + Size(Prefixed(EncMessage(S, t, m))) <= SIZE_MAX
    modifies s, s.buf
    ensures Step(old(s.Now()), s.Now(), ok, Prefixed(EncMessage(S, t, m)))
    decreases m, 6
  {
    hide Step, EncMessage, EncVarint, Proper, Filled, SchemaOk, OfMessage;
    ghost var a, e := s.Now(), EncMessage(S, t, m);
    StepNothing(a);
    var sizer := new OStream.Sizing();
    ghost var z := sizer.Now();
    ok := Encode(sizer, S, t, m);
    StepCount(z, sizer.Now(), ok, e);
    if !ok {
      return;
    }
    var size := sizer.bytesWritten;
    PrefixedParts(e);
    ok := EncodeVarint(s, size);
    StepCount(a, s.Now(), ok, Success(EncVarint(size)));
    if !ok {
      StepFails(a, s.Now(), Success(EncVarint(size)), e);
      return;
    }
    ok := EncodeSized(s, S, t, m, size, a);
  }

  /** The payload behind its length. */
  method EncodeSized(s: OStream, S: Schema, t: nat, m: Slots, size: nat, ghost a: OState) returns (ok: bool)
    requires SchemaOk(S) && Proper(s.Now()) && t < |S| && Filled(S, t, m)
    requires OfMessage(S, t, m) <= SIZE_MAX && EncMessage(S, t, m).Success? && size == |EncMessage(S, t, m).value|
    requires s.bytesWritten + size <= SIZE_MAX
    requires Step(a, s.Now(), true, Success(EncVarint(size)))
    modifies s, s.buf
    ensures Step(a, s.Now(), ok, Prefixed(EncMessage(S, t, m)))
    decreases m, 5
  {
    hide EncMessage, EncVarint, Filled, SchemaOk, OfMessage, Cat, Kept, Prefixed;
    ghost var b, e := s.Now(), EncMessage(S, t, m);
    PrefixedParts(e);
    if s.sizing {
      ok := s.Count(size);
      StepThen(a, b, s.Now(), ok, Success(EncVarint(size)), e);
      return;
    }
    if (s.bytesWritten + size) % U64 > s.maxSize {
      StepNothing(b);
      StepThen(a, b, b, false, Success(EncVarint(size)), e);
      return false;
    }
    var sub := new OStream.Window(s, size);
    ghost var c := sub.Now();
    ok := Encode(sub, S, t, m);
    s.bytesWritten := (s.bytesWritten + sub.bytesWritten) % U64;
    s.state := sub.state;
    WindowDone(b, c, sub.Now(), s.Now(), ok, e);
    if sub.bytesWritten != size {
      assert false;
      ok := false;
    }
    StepThen(a, b, s.Now(), ok, Success(EncVarint(size)), e);
  }

  /** A window of exactly the size of the payload takes it, and moves the parent behind it. */
  lemma WindowDone(b: OState, c: OState, d: OState, b': OState, ok: bool, e: Result<bytes>)
    requires Proper(b) && !b.sizing && e.Success? && b.bytesWritten + |e.value| <= b.maxSize
    requires c == OState(false, |e.value|, 0, b.state, b.image) && Step(c, d, ok, e)
    requires b' == OState(false, b.maxSize, b.bytesWritten + d.bytesWritten, d.state, d.image)
    ensures ok && d.bytesWritten == |e.value| && Step(b, b', true, e)
  {
    assert b'.image[Limit(b)..] == d.image[Limit(c)..][Limit(b) - Limit(c)..];
    assert b.image[Limit(b)..] == c.image[Limit(c)..][Limit(b) - Limit(c)..];
  }

  // ---- arrays ----

  /** One record for each item. */
  method EncodeEach(s: OStream, S: Schema, f: Field, items: seq<Value>) returns (ok: bool)
    requires SchemaOk(S) && Proper(s.Now()) && f.tag < U32 && forall j :: 0 <= j < |items| ==> FilledItem(S, f, items[j])
    requires s.bytesWritten + OfEach(S, f, items) <= SIZE_MAX
    modifies s, s.buf
    ensures Step(old(s.Now()), s.Now(), ok, EncEach(S, f, items))
    decreases items, 0
  {
    hide Step, EncTagged, Cat, OfEach, OfTagged, Proper, EncEach, FilledItem, SchemaOk;
    ghost var a, done := s.Now(), [];
    StepNothing(a);
    var i := 0;
    NothingDone(EncEach(S, f, items));
    assert items[0..] == items;
    while i < |items|
      invariant 0 <= i <= |items|
      invariant Step(a, s.Now(), true, Success(done)) && Proper(s.Now())
      invariant EncEach(S, f, items) == Cat(Success(done), EncEach(S, f, items[i..]))
      invariant s.bytesWritten + OfEach(S, f, items[i..]) <= SIZE_MAX
    {
      ghost var b, x := s.Now(), EncTagged(S, f, items[i]);
      EachStep(S, f, items[i..]);
      ok := EncodeTagged(s, S, f, items[i]);
      StepLoop(a, b, s.Now(), ok, done, x, EncEach(S, f, items[i..][1..]));
      StepCount(b, s.Now(), ok, x);
      if !ok {
        return;
      }
      assert items[i..][1..] == items[i + 1..];
      done := done + x.value;
      i := i + 1;
    }
    assert items[i..] == [];
    EachDone(S, f, done);
    return true;
  }

  lemma EachDone(S: Schema, f: Field, done: bytes)
    ensures Cat(Success(done), EncEach(S, f, [])) == Success(done)
  {
    assert done + [] == done;
  }

  lemma EachStep(S: Schema, f: Field, items: seq<Value>)
    requires items != []
    ensures EncEach(S, f, items) == Cat(EncTagged(S, f, items[0]), EncEach(S, f, items[1..]))
    ensures EncTagged(S, f, items[0]).Success? ==>
              |EncTagged(S, f, items[0]).value| + OfEach(S, f, items[1..]) == OfEach(S, f, items)
    ensures OfTagged(S, f, items[0]) <= OfEach(S, f, items)
  {
    hide EncItem, EncFieldTag;
    OfEachStep(S, f, items);
  }

  /** A tag and an item. */
  method EncodeTagged(s: OStream, S: Schema, f: Field, v: Value) returns (ok: bool)
    requires SchemaOk(S) && Proper(s.Now()) && f.tag < U32 && FilledItem(S, f, v)
    requires s.bytesWritten + OfTagged(S, f, v) <= SIZE_MAX
    modifies s, s.buf
    ensures Step(old(s.Now()), s.Now(), ok, EncTagged(S, f, v))
    decreases v, 1
  {
    hide Step, EncFieldTag, EncItem, OfItem, Cat, Proper, FilledItem, SchemaOk;
    ghost var a := s.Now();
    ok := EncodeTagForField(s, f);
    StepCount(a, s.Now(), ok, EncFieldTag(f));
    if !ok {
      StepFails(a, s.Now(), EncFieldTag(f), EncItem(S, f, v));
      return;
    }
    ghost var b := s.Now();
    ok := EncodeItem(s, S, f, v);
    StepThen(a, b, s.Now(), ok, EncFieldTag(f), EncItem(S, f, v));
  }

  /** An array, packed when the type allows it. */
  method EncodeArray(s: OStream, S: Schema, f: Field, items: seq<Value>) returns (ok: bool)
    requires SchemaOk(S) && Proper(s.Now()) && f.tag < U32 && FilledSlot(S, f, Many(items))
    requires s.bytesWritten + OfArray(S, f, items) <= SIZE_MAX
    modifies s, s.buf
    ensures Step(old(s.Now()), s.Now(), ok, EncArray(S, f, items))
    decreases items, 1
  {
    ArrayParts(S, f, items);
    hide Step, EncScalars, EncEach, OfEach, OfScalars, OfArray, Cat, Proper, FilledItem, SchemaOk, EncTag;
    StepNothing(s.Now());
    if items == [] {
      return true;
    }
    if !f.atype.Pointer? && |items| > f.arraySize {
      return false;
    }
    if Packable(f.ltype) {
      ok := EncodePacked(s, S, f, items);
    } else {
      ok := EncodeEach(s, S, f, items);
    }
  }

  lemma ArrayParts(S: Schema, f: Field, items: seq<Value>)
    requires FilledSlot(S, f, Many(items))
    ensures FixedCount(f) ==> |items| == f.arraySize
    ensures forall j :: 0 <= j < |items| ==> FilledItem(S, f, items[j]) && (Packable(f.ltype) ==> items[j].Scalar?)
    ensures !Packable(f.ltype) && items != [] && EncArray(S, f, items).Success? ==> OfEach(S, f, items) == OfArray(S, f, items)
    ensures !Packable(f.ltype) && EncArray(S, f, items).Failure? ==> OfEach(S, f, items) <= OfArray(S, f, items)
  {
    hide EncItem, OfTagged;
  }

  // ---- fields ----

  /** The proto3 test for a zero value. */
  method CheckProto3Default(S: Schema, table: Table, m: Slots, i: nat) returns (zero: bool)
    requires i < |table| == |m|
    ensures zero == IsZeroField(S, table, m, i)
    decreases m, 1
  {
    hide NoneSelected, AllZero;
    var f := table[i];
    if f.ltype.Extension? {
      return true;
    } else if f.htype.Required? {
      return false;
    } else if f.htype.Repeated? {
      return !FixedCount(f) && m[i].Many? && |m[i].items| == 0;
    } else if !m[i].One? {
      return false;
    } else if f.htype.Oneof? {
      return NoneSelected(table, m, f.htype, 0);
    } else if f.sizeOffset != 0 || f.atype.Pointer? {
      return !m[i].has;
    }
    var v := m[i].v;
    assert v < m[i];
    if v.Blob? {
      if f.ltype.Bytes? {
        return |v.data| == 0;
      } else if f.ltype.String? {
        return |v.data| == 0 || v.data[0] == 0;
      }
      return f.ltype.FixedLengthBytes? && f.dataSize == 0 && |v.data| == 0;
    } else if v.Sub? {
      if !(f.ltype.Submessage? && f.ptr.Table? && f.ptr.id < |S| && |S[f.ptr.id]| == |v.slots|) {
        return false;
      }
      zero := CheckSubmessageZero(S, S[f.ptr.id], v.slots);
    } else {
      return v.Scalar? && Packable(f.ltype) && v.n == 0;
    }
  }

  /** Looks for a field that is not zero. */
  method CheckSubmessageZero(S: Schema, table: Table, m: Slots) returns (zero: bool)
    requires |table| == |m|
    ensures zero == AllZero(S, table, m, 0)
    decreases m, 2
  {
    hide IsZeroField;
    var iter := new FieldIter.Begin(table, 0);
    var more := table != [];
    while more
      invariant iter.Valid() && iter.table == table
      invariant more ==> iter.pos < |table|
      invariant AllZero(S, table, m, 0) == AllZero(S, table, m, if more then iter.pos else |table|)
      decreases more, |table| - iter.pos
    {
      var fieldZero := CheckProto3Default(S, table, m, iter.pos);
      if !fieldZero {
        return false;
      }
      more := iter.Next();
    }
    return true;
  }

  /** One field: left out, written, or refused. */
  method EncodeField(s: OStream, S: Schema, table: Table, m: Slots, i: nat) returns (ok: bool)
    requires SchemaOk(S) && Proper(s.Now()) && i < |table| == |m| && table[i].tag < U32
    requires !table[i].ltype.Extension? && FilledSlot(S, table[i], m[i])
    requires s.bytesWritten + OfField(S, table, m, i) <= SIZE_MAX
    modifies s, s.buf
    ensures Step(old(s.Now()), s.Now(), ok, EncField(S, table, m, i))
    decreases m, 3
  {
    FieldParts(S, table, m, i);
    var f := table[i];
    hide Step, EncTagged, EncArray, OfTagged, OfArray, OfField, Proper, FilledItem, SchemaOk, IsZeroField;
    StepNothing(s.Now());
    if f.htype.Repeated? {
      ok := EncodeArray(s, S, f, m[i].items);
      return;
    }
    var implicitHas := true;
    if f.htype.Optional? && f.sizeOffset == 0 {
      var zero := CheckProto3Default(S, table, m, i);
      implicitHas := !zero;
    }
    if f.atype.Pointer? {
      implicitHas := m[i].has;
    }
    assert m[i].v < m[i];
    match f.htype
    case Required =>
      if f.atype.Pointer? && !m[i].has {
        return false;
      }
      ok := EncodeTagged(s, S, f, m[i].v);
    case Optional =>
      if f.sizeOffset != 0 {
        implicitHas := m[i].has;
      }
      if implicitHas {
        ok := EncodeTagged(s, S, f, m[i].v);
      } else {
        ok := true;
      }
    case Oneof(_) =>
      if m[i].has {
        ok := EncodeTagged(s, S, f, m[i].v);
      } else {
        ok := true;
      }
  }

  lemma FieldParts(S: Schema, table: Table, m: Slots, i: nat)
    requires i < |table| == |m| && !table[i].ltype.Extension? && FilledSlot(S, table[i], m[i])
    ensures table[i].htype.Repeated? <==> m[i].Many?
    ensures m[i].Many? ==> OfArray(S, table[i], m[i].items) == OfField(S, table, m, i)
    ensures m[i].One? && (m[i].has || AlwaysThere(table[i])) ==> FilledItem(S, table[i], m[i].v)
    ensures m[i].One? && (Present(S, table, m, i) || EncField(S, table, m, i).Failure?) ==>
              OfTagged(S, table[i], m[i].v) == OfField(S, table, m, i)
  {
    hide EncItem, EncArray, EncFieldTag, Present;
    if m[i].One? {
      assert m[i].v < m[i];
      TaggedSize(S, table[i], m[i].v);
    }
  }

  lemma TaggedSize(S: Schema, f: Field, v: Value)
    ensures EncTagged(S, f, v).Success? ==> OfTagged(S, f, v) == |EncTagged(S, f, v).value|
  {
    hide EncItem, EncFieldTag;
  }

  // ---- messages ----

  /** All fields of a struct, in table order. An extension placeholder has nothing attached. */
  method Encode(s: OStream, S: Schema, t: nat, m: Slots) returns (ok: bool)
    requires SchemaOk(S) && Proper(s.Now()) && t < |S| && Filled(S, t, m)
    requires s.bytesWritten + OfMessage(S, t, m) <= SIZE_MAX
    modifies s, s.buf
    ensures Step(old(s.Now()), s.Now(), ok, EncMessage(S, t, m))
    decreases m, 4
  {
    var table := S[t];
    MessageParts(S, t, m);
    hide Step, EncField, Cat, OfFrom, OfField, Proper, EncFrom, FilledSlot, SchemaOk, Filled, OfMessage;
    ghost var a, done := s.Now(), [];
    StepNothing(a);
    NothingDone(EncFrom(S, table, m, 0));
    var iter := new FieldIter.Begin(table, 0);
    var more := table != [];
    while more
      invariant iter.Valid() && iter.table == table && (more ==> iter.pos < |table|)
      invariant Step(a, s.Now(), true, Success(done)) && Proper(s.Now())
      invariant var i := if more then iter.pos else |table|;
                EncFrom(S, table, m, 0) == Cat(Success(done), EncFrom(S, table, m, i)) &&
                s.bytesWritten + OfFrom(S, table, m, i) <= SIZE_MAX
      decreases more, |table| - iter.pos
    {
      ghost var b, i, x := s.Now(), iter.pos, EncField(S, table, m, iter.pos);
      FromStep(S, table, m, i);
      if table[iter.pos].ltype.Extension? {
        StepNothing(b);
        ok := true;
      } else {
        ok := EncodeField(s, S, table, m, iter.pos);
      }
      StepLoop(a, b, s.Now(), ok, done, x, EncFrom(S, table, m, i + 1));
      StepCount(b, s.Now(), ok, x);
      if !ok {
        return;
      }
      done := done + x.value;
      more := iter.Next();
    }
    FromDone(S, table, m, done);
    return true;
  }

  lemma FromDone(S: Schema, table: Table, m: Slots, done: bytes)
    requires |table| == |m|
    ensures Cat(Success(done), EncFrom(S, table, m, |m|)) == Success(done)
  {
    assert done + [] == done;
  }

  lemma FromStep(S: Schema, table: Table, m: Slots, i: nat)
    requires i < |table| == |m|
    ensures EncFrom(S, table, m, i) == Cat(EncField(S, table, m, i), EncFrom(S, table, m, i + 1))
    ensures EncField(S, table, m, i).Success? ==>
              |EncField(S, table, m, i).value| + OfFrom(S, table, m, i + 1) == OfFrom(S, table, m, i)
    ensures OfField(S, table, m, i) <= OfFrom(S, table, m, i)
    ensures table[i].ltype.Extension? ==> EncField(S, table, m, i) == Success([])
  {
    OfFromStep(S, table, m, i);
  }

  lemma MessageParts(S: Schema, t: nat, m: Slots)
    requires SchemaOk(S) && t < |S| && Filled(S, t, m)
    ensures |m| == |S[t]| && EncMessage(S, t, m) == EncFrom(S, S[t], m, 0)
    ensures OfMessage(S, t, m) == OfFrom(S, S[t], m, 0)
    ensures forall i :: 0 <= i < |m| ==> S[t][i].tag < U32 && (!S[t][i].ltype.Extension? ==> FilledSlot(S, S[t][i], m[i]))
  {
    assert TableOk(S, t, S[t]);
    assert forall i :: 0 <= i < |m| ==> FieldOk(S, t, S[t][i]);
  }

  // ---- sizes and framing ----

  /** The size of the encoding, found by a counting pass. */
  method GetEncodedSize(S: Schema, t: nat, m: Slots) returns (ok: bool, size: nat)
    requires SchemaOk(S) && t < |S| && Filled(S, t, m) && OfMessage(S, t, m) <= SIZE_MAX
    ensures ok <==> EncMessage(S, t, m).Success?
    ensures ok ==> size == |EncMessage(S, t, m).value|
  {
    hide Step, Proper, EncMessage, OfMessage, Filled, SchemaOk;
    var s := new OStream.Sizing();
    ghost var a := s.Now();
    ok := Encode(s, S, t, m);
    StepCount(a, s.Now(), ok, EncMessage(S, t, m));
    size := s.bytesWritten;
  }

  /** A message behind its length. */
  method EncodeDelimited(s: OStream, S: Schema, t: nat, m: Slots) returns (ok: bool)
    requires SchemaOk(S) && Proper(s.Now()) && t < |S| && Filled(S, t, m)
    requires OfMessage(S, t, m) <= SIZE_MAX
    requires s.bytesWritten + Size(Framing.EncDelimited(S, t, m)) <= SIZE_MAX
    modifies s, s.buf
    ensures Step(old(s.Now()), s.Now(), ok, Framing.EncDelimited(S, t, m))
  {
    hide Step;
    ok := EncodeSubmessage(s, S, t, m);
  }

  /** A message with a zero byte behind it. */
  method EncodeNullTerminated(s: OStream, S: Schema, t: nat, m: Slots) returns (ok: bool)
    requires SchemaOk(S) && Proper(s.Now()) && t < |S| && Filled(S, t, m)
    requires s.bytesWritten + OfMessage(S, t, m) + 1 <= SIZE_MAX
    modifies s, s.buf
    ensures Step(old(s.Now()), s.Now(), ok, Framing.EncNullTerminated(S, t, m))
  {
    hide Step, EncMessage, Proper, Filled, SchemaOk, Cat;
    ghost var a := s.Now();
    ok := Encode(s, S, t, m);
    StepCount(a, s.Now(), ok, EncMessage(S, t, m));
    if !ok {
      StepFails(a, s.Now(), EncMessage(S, t, m), Success([0]));
      return;
    }
    ProducedSize(S, t, m);
    ghost var b := s.Now();
    ok := s.Write([0]);
    StepThen(a, b, s.Now(), ok, EncMessage(S, t, m), Success([0]));
  }

  /** The size announced by the counting pass is the exact need of the writing pass: with the same bytes to write, a
      buffer of n bytes is enough precisely when n is at least that size, and exactly so many bytes are written. */
  lemma SizingIsExact(z: OState, z': OState, sized: bool, a: OState, b: OState, written: bool, enc: Result<bytes>)
    requires z.sizing && z.bytesWritten == 0 && Step(z, z', sized, enc)
    requires !a.sizing && a.bytesWritten == 0 && a.state == 0 && Step(a, b, written, enc)
    ensures written <==> sized && z'.bytesWritten <= a.maxSize
    ensures written ==> b.bytesWritten == z'.bytesWritten && b.image[..z'.bytesWritten] == enc.value
    ensures b.image[a.maxSize..] == a.image[a.maxSize..]
  {
  }
}
