/** Writing primitive values: varints through their ten-byte buffer, little-endian words, tags and the scalar, string and
    byte fields. Each method writes the bytes of its function, or fails when there are none or they do not fit, and touches
    no other memory. */
module Writer {
  import opened Bits
  import opened Varint
  import opened Integers
  import opened Descriptor
  import opened EncodeSpec
  import opened Allocation
  import opened OutputStream

  // ---- varints ----

  /** The groups of seven bits go into a buffer of ten bytes, each with the continuation bit, which the last one loses
      at the end. */
  method EncodeVarint(s: OStream, value: nat) returns (ok: bool)
    requires Proper(s.Now()) && value < U64 && s.bytesWritten + |EncVarint(value)| <= SIZE_MAX
    modifies s, s.buf
    ensures Step(old(s.Now()), s.Now(), ok, Success(EncVarint(value)))
  {
    hide Step;
    EncVarintFits(value);
    var buffer := new byte[10];
    var i, v := 0, value;
    if value <= 127 {
      ok := s.Write([value]);
      return;
    }
    while v != 0
      invariant v != 0 ==> i + |EncVarint(v)| <= 10 && EncVarint(value) == buffer[..i] + EncVarint(v)
      invariant v == 0 ==> 0 < i <= 10 && EncVarint(value) == buffer[..i - 1] + [buffer[i - 1] % 128]
      modifies buffer
    {
      buffer[i] := v % 128 + 128;
      v := v / 128;
      i := i + 1;
    }
    buffer[i - 1] := buffer[i - 1] % 128;
    assert buffer[..i] == EncVarint(value);
    ok := s.Write(buffer[..i]);
  }

  /** A signed number in zigzag form. */
  method EncodeSvarint(s: OStream, value: int) returns (ok: bool)
    requires Proper(s.Now()) && FitsSigned(8, value) && s.bytesWritten + |EncVarint(ZigZag(value))| <= SIZE_MAX
    modifies s, s.buf
    ensures Step(old(s.Now()), s.Now(), ok, Success(EncVarint(ZigZag(value))))
  {
    hide Step, EncVarint;
    ZigZagBijection(value, 0);
    var zigzagged := ToUnsigned(8, value) * 2 % U64;
    if value < 0 {
      zigzagged := Not64(zigzagged);
    }
    ok := EncodeVarint(s, zigzagged);
  }

  // ---- fixed-width words ----

  lemma {:induction false} EncFixedStep(n: nat, v: nat, k: nat)
    requires k < n
    ensures EncFixed(n, v)[k] == Shifted(v, 8 * k) % 256
    decreases n
  {
    if k > 0 {
      EncFixedStep(n - 1, v / 256, k - 1);
      ShiftedTwice(v, 8 * (k - 1));
    }
  }

  /** v >> n */
  function Shifted(v: nat, n: nat): nat {
    if n == 0 then v else Shifted(v / 2, n - 1)
  }

  lemma {:induction false} ShiftedTwice(v: nat, n: nat)
    ensures Shifted(v / 256, n) == Shifted(v, n + 8)
  {
    ShiftedSum(v, 8, n);
    ShiftedSum(v, 4, 4);
    ShiftedFour(v);
    ShiftedFour(v / 16);
  }

  lemma ShiftedTwo(v: nat)
    ensures Shifted(v, 2) == v / 4
  {
    assert Shifted(v, 2) == Shifted(v / 2, 1) == Shifted(v / 2 / 2, 0);
  }

  lemma ShiftedFour(v: nat)
    ensures Shifted(v, 4) == v / 16
  {
    ShiftedSum(v, 2, 2);
    ShiftedTwo(v);
    ShiftedTwo(v / 4);
  }

  lemma {:induction false} ShiftedSum(v: nat, m: nat, n: nat)
    ensures Shifted(v, m + n) == Shifted(Shifted(v, m), n)
  {
    if m > 0 {
      ShiftedSum(v / 2, m - 1, n);
    }
  }

  /** A word of 4 or 8 bytes, the lowest byte first. */
  method EncodeFixed(s: OStream, size: nat, value: nat) returns (ok: bool)
    requires Proper(s.Now()) && s.bytesWritten + size <= SIZE_MAX
    modifies s, s.buf
    ensures Step(old(s.Now()), s.Now(), ok, Success(EncFixed(size, value)))
  {
    hide Step, EncFixed;
    var data := new byte[size];
    var k := 0;
    while k < size
      invariant 0 <= k <= size
      invariant data[..k] == EncFixed(size, value)[..k]
      modifies data
    {
      EncFixedStep(size, value, k);
      data[k] := Shifted(value, 8 * k) % 256;
      k := k + 1;
    }
    assert data[..size] == EncFixed(size, value);
    ok := s.Write(data[..size]);
  }

  // ---- tags and byte strings ----

  method EncodeTag(s: OStream, wireType: nat, tag: nat) returns (ok: bool)
    requires Proper(s.Now()) && wireType < 8 && tag < U32 && s.bytesWritten + |EncTag(tag, wireType)| <= SIZE_MAX
    modifies s, s.buf
    ensures Step(old(s.Now()), s.Now(), ok, Success(EncTag(tag, wireType)))
  {
    hide Step, EncVarint;
    TagWord(tag, wireType);
    ok := EncodeVarint(s, BitOr(Shl(tag, 3), wireType));
  }

  /** The wire type is or-ed into the bits that the shift leaves free. */
  lemma TagWord(tag: nat, wireType: nat)
    requires wireType < 8
    ensures BitOr(Shl(tag, 3), wireType) == tag * 8 + wireType
  {
    assert Shl(tag, 1) == 2 * tag;
    assert Shl(tag, 3) == 8 * tag;
    Commutes(Shl(tag, 3), wireType);
    assert Shl(1, 1) == 2;
    assert Shl(1, 3) == 8;
    BitOrDisjoint(wireType, tag, 3);
  }

  lemma {:induction false} Commutes(a: nat, b: nat)
    ensures BitOr(a, b) == BitOr(b, a)
  {
    if a != 0 && b != 0 {
      Commutes(a / 2, b / 2);
    }
  }

  method EncodeTagForField(s: OStream, f: Field) returns (ok: bool)
    requires Proper(s.Now()) && f.tag < U32
    requires EncFieldTag(f).Success? ==> s.bytesWritten + |EncFieldTag(f).value| <= SIZE_MAX
    modifies s, s.buf
    ensures Step(old(s.Now()), s.Now(), ok, EncFieldTag(f))
  {
    hide Step, EncTag;
    match f.ltype
    case Bool => ok := EncodeTag(s, 0, f.tag);
    case Varint => ok := EncodeTag(s, 0, f.tag);
    case UVarint => ok := EncodeTag(s, 0, f.tag);
    case SVarint => ok := EncodeTag(s, 0, f.tag);
    case Fixed32 => ok := EncodeTag(s, 5, f.tag);
    case Fixed64 => ok := EncodeTag(s, 1, f.tag);
    case Extension =>
      StepNothing(s.Now());
      ok := false;
    case _ => ok := EncodeTag(s, 2, f.tag);
  }

  /** A length and that many bytes. */
  method EncodeString(s: OStream, data: bytes) returns (ok: bool)
    requires Proper(s.Now()) && s.bytesWritten + |EncVarint(|data|)| + |data| <= SIZE_MAX
    modifies s, s.buf
    ensures Step(old(s.Now()), s.Now(), ok, Prefixed(Success(data)))
  {
    hide EncVarint;
    ghost var a := s.Now();
    ok := EncodeVarint(s, |data|);
    if !ok {
      StepFails(a, s.Now(), Success(EncVarint(|data|)), Success(data));
      return;
    }
    ghost var b := s.Now();
    ok := s.Write(data);
    StepThen(a, b, s.Now(), ok, Success(EncVarint(|data|)), Success(data));
  }

  // ---- scalars ----

  /** The encoders of the scalar field types. */
  method EncodeScalar(s: OStream, f: Field, n: int) returns (ok: bool)
    requires Proper(s.Now())
    requires EncScalar(f, n).Success? ==> s.bytesWritten + |EncScalar(f, n).value| <= SIZE_MAX
    modifies s, s.buf
    ensures Step(old(s.Now()), s.Now(), ok, EncScalar(f, n))
  {
    hide Step, EncVarint, EncFixed, ZigZag, ToSigned;
    StepNothing(s.Now());
    match f.ltype
    case Bool => ok := EncodeVarint(s, if n != 0 then 1 else 0);
    case Varint =>
      if f.dataSize != 1 && f.dataSize != 2 && f.dataSize != 4 && f.dataSize != 8 {
        return false;
      }
      ok := EncodeVarint(s, ToUnsigned(8, n));
    case UVarint =>
      if f.dataSize != 1 && f.dataSize != 2 && f.dataSize != 4 && f.dataSize != 8 {
        return false;
      }
      ok := EncodeVarint(s, ToUnsigned(8, n));
    case SVarint =>
      if f.dataSize != 1 && f.dataSize != 2 && f.dataSize != 4 && f.dataSize != 8 {
        return false;
      }
      SignedCast(8, n);
      ok := EncodeSvarint(s, ToSigned(8, n));
    case Fixed32 => ok := EncodeFixed(s, 4, ToUnsigned(4, n));
    case Fixed64 => ok := EncodeFixed(s, 8, ToUnsigned(8, n));
    case _ => ok := false;
  }

  // ---- byte strings of a field ----

  /** The sized byte array of a field; the size of the array struct must not overflow. */
  method EncodeBytesField(s: OStream, f: Field, data: bytes) returns (ok: bool)
    requires Proper(s.Now()) && f.ltype.Bytes?
    requires EncBlob(f, data).Success? ==> s.bytesWritten + |EncBlob(f, data).value| <= SIZE_MAX
    modifies s, s.buf
    ensures Step(old(s.Now()), s.Now(), ok, EncBlob(f, data))
  {
    hide Step, EncVarint;
    StepNothing(s.Now());
    var allocSize := (|data| + BYTES_OFFSET) % U64;
    if allocSize < |data| || (f.atype.Static? && allocSize > f.dataSize) {
      return false;
    }
    ok := EncodeString(s, data);
  }

  lemma {:induction false} UpToNulPrefix(data: bytes, n: nat)
    requires n <= |data| && (n == |data| || data[n] == 0) && forall k :: 0 <= k < n ==> data[k] != 0
    ensures UpToNul(data) == data[..n]
  {
    if n > 0 {
      UpToNulPrefix(data[1..], n - 1);
      assert data[..n] == [data[0]] + data[1..][..n - 1];
    }
  }

  /** The characters up to the terminator; the array of a static field need not have one. Memory behind `data` is
      taken to hold the terminator. */
  method EncodeStringField(s: OStream, f: Field, data: bytes) returns (ok: bool)
    requires Proper(s.Now()) && f.ltype.String? && |data| <= SIZE_MAX
    requires EncBlob(f, data).Success? ==> s.bytesWritten + |EncBlob(f, data).value| <= SIZE_MAX
    modifies s, s.buf
    ensures Step(old(s.Now()), s.Now(), ok, EncBlob(f, data))
  {
    hide Step, EncVarint, UpToNul;
    var maxSize := if f.atype.Pointer? then SIZE_MAX else f.dataSize;
    var size := 0;
    while size < maxSize && size < |data| && data[size] != 0
      invariant 0 <= size <= maxSize && size <= |data|
      invariant forall k :: 0 <= k < size ==> data[k] != 0
    {
      size := size + 1;
    }
    ghost var shown := if f.atype.Static? && f.dataSize < |data| then data[..f.dataSize] else data;
    UpToNulPrefix(shown, size);
    assert Characters(f, data) == data[..size];
    ok := EncodeString(s, data[..size]);
  }

  /** A byte string of fixed length; its memory always holds exactly that many bytes. */
  method EncodeFixedLengthBytes(s: OStream, f: Field, data: bytes) returns (ok: bool)
    requires Proper(s.Now()) && f.ltype.FixedLengthBytes?
    requires EncBlob(f, data).Success? ==> s.bytesWritten + |EncBlob(f, data).value| <= SIZE_MAX
    modifies s, s.buf
    ensures Step(old(s.Now()), s.Now(), ok, EncBlob(f, data))
  {
    hide Step, EncVarint;
    StepNothing(s.Now());
    if |data| != f.dataSize {
      return false;
    }
    assert data[..f.dataSize] == data;
    ok := EncodeString(s, data[..f.dataSize]);
  }
}
