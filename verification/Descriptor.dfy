/** Field descriptor tables, and the values a message struct holds for them. */
module Descriptor {
  import opened Bits
  import opened Varint
  import opened Integers

  datatype LType =
    | Bool | Varint | UVarint | SVarint | Fixed32 | Fixed64
    | Bytes | String | Submessage | Extension | FixedLengthBytes

  /** The members of one union carry the same union number. */
  datatype HType = Required | Optional | Repeated | Oneof(union: nat)

  datatype AType = Static | Pointer

  /** What the descriptor's untyped pointer refers to: nothing, a default value, or the table of a submessage,
      given by its number in the schema. */
  datatype Target = Null | Default(value: Value) | Table(id: nat)

  datatype Field = Field(
    tag: nat, ltype: LType, htype: HType, atype: AType,
    dataOffset: nat, sizeOffset: int, dataSize: nat, arraySize: nat, ptr: Target)

  /** A table lists the fields of one message type; the terminator entry is not part of the sequence. */
  type Table = seq<Field>

  /** All message types, numbered. Message types may refer to each other, also recursively, through pointer fields. */
  type Schema = seq<Table>

  /** One item of field data. Indeterminate stands for memory that has not been given a value. */
  datatype Value =
    | Indeterminate
    | Scalar(n: int)
    | Blob(data: bytes)
    | Sub(slots: Slots)

  /** The storage of one field. `One` is a single item with its presence: the has flag of an optional field, the
      union selector of a oneof member, the pointer being non-null for a pointer field; a required or singular
      static field is always present. `Many` is the counted prefix of an array, or a whole fixed-count array. */
  datatype Slot =
    | One(has: bool, v: Value)
    | Many(items: seq<Value>)

  /** A message struct: one slot for each field of the table. */
  type Slots = seq<Slot>

  /** The number type of struct sizes and array counts has 32 bits. */
  const PB_SIZE_MAX: nat := 0xFFFF_FFFF

  /** The byte array struct starts with its size. */
  const BYTES_OFFSET: nat := 4

  predicate Packable(l: LType) {
    l.Bool? || l.Varint? || l.UVarint? || l.SVarint? || l.Fixed32? || l.Fixed64?
  }

  /** A repeated static field without a count next to it: the array is always full. */
  predicate FixedCount(f: Field) {
    f.htype.Repeated? && f.atype.Static? && f.sizeOffset == 0
  }

  /** A required or singular static field is always there. */
  predicate AlwaysThere(f: Field) {
    f.atype.Static? && (f.htype.Required? || (f.htype.Optional? && f.sizeOffset == 0))
  }

  /** How many items of a repeated field the decoder accepts. */
  function Capacity(f: Field): nat {
    if f.atype.Static? then f.arraySize else PB_SIZE_MAX
  }

  /** The wire type of a field's single records; extension placeholders have none. */
  function WireType(l: LType): Option<nat> {
    match l
    case Bool => Some(0)
    case Varint => Some(0)
    case UVarint => Some(0)
    case SVarint => Some(0)
    case Fixed32 => Some(5)
    case Fixed64 => Some(1)
    case Extension => None
    case _ => Some(2)
  }

  // ---- scalars ----

  /** The bytes of one scalar, without tag. */
  function EncScalar(f: Field, n: int): Result<bytes> {
    match f.ltype
    case Bool => Success(EncVarint(if n != 0 then 1 else 0))
    case Varint =>
      if IntegerSize(f.dataSize) then Success(EncVarint(ToUnsigned(8, n))) else Failure
    case UVarint =>
      if IntegerSize(f.dataSize) then Success(EncVarint(ToUnsigned(8, n))) else Failure
    case SVarint =>
      if IntegerSize(f.dataSize) then Success(EncVarint(ZigZag(ToSigned(8, n)))) else Failure
    case Fixed32 => Success(EncFixed(4, ToUnsigned(4, n)))
    case Fixed64 => Success(EncFixed(8, ToUnsigned(8, n)))
    case _ => Failure
  }

  /** A signed varint field first takes the low 32 bits when it is narrower than 64, and then must fit. */
  function NarrowVarint(size: nat, v: nat): Option<int> {
    var wide := if size == 8 then ToSigned(8, v) else ToSigned(4, v);
    if IntegerSize(size) && ToSigned(size, wide) == wide then Some(wide) else None
  }

  function NarrowUnsigned(size: nat, v: nat): Option<int> {
    if IntegerSize(size) && ToUnsigned(size, v) == v then Some(v) else None
  }

  function NarrowSigned(size: nat, n: int): Option<int> {
    if IntegerSize(size) && ToSigned(size, n) == n then Some(n) else None
  }

  function Keep(n: Option<int>, rest: bytes): Parsed<int> {
    match n
    case Some(value) => Ok(value, rest)
    case None => Fail
  }

  /** Reading one scalar from the front of b. */
  function DecScalar(f: Field, b: bytes): (p: Parsed<int>)
    ensures p.Ok? ==> |p.rest| < |b|
  {
    match f.ltype
    case Bool =>
      (match DecVarint32(b)
       case Ok(v, rest) => Ok(if v != 0 then 1 else 0, rest)
       case Fail => Fail)
    case Varint =>
      (match DecVarint(b)
       case Ok(v, rest) => Keep(NarrowVarint(f.dataSize, v), rest)
       case Fail => Fail)
    case UVarint =>
      (match DecVarint(b)
       case Ok(v, rest) => Keep(NarrowUnsigned(f.dataSize, v), rest)
       case Fail => Fail)
    case SVarint =>
      (match DecVarint(b)
       case Ok(v, rest) => Keep(NarrowSigned(f.dataSize, UnZigZag(v)), rest)
       case Fail => Fail)
    case Fixed32 => (match DecFixed(4, b) case Ok(v, rest) => Ok(v, rest) case Fail => Fail)
    case Fixed64 => (match DecFixed(8, b) case Ok(v, rest) => Ok(v, rest) case Fail => Fail)
    case _ => Fail
  }

  /** The numbers the memory of a scalar field can hold. */
  predicate InRange(f: Field, n: int) {
    match f.ltype
    case Bool => 0 <= n < 256
    case Varint => IntegerSize(f.dataSize) && FitsSigned(f.dataSize, n)
    case UVarint => IntegerSize(f.dataSize) && FitsUnsigned(f.dataSize, n)
    case SVarint => IntegerSize(f.dataSize) && FitsSigned(f.dataSize, n)
    case Fixed32 => FitsUnsigned(4, n)
    case Fixed64 => FitsUnsigned(8, n)
    case _ => false
  }

  /** What a receiver sees of a scalar: a boolean counts only as zero or not. */
  function Normal(f: Field, n: int): int {
    if f.ltype.Bool? then (if n == 0 then 0 else 1) else n
  }

  lemma DecScalarFrame(f: Field, b: bytes, tail: bytes)
    requires DecScalar(f, b).Ok?
    ensures DecScalar(f, b + tail) == Ok(DecScalar(f, b).value, DecScalar(f, b).rest + tail)
  {
    hide DecVarint, DecVarint32, DecFixed, NarrowVarint, NarrowUnsigned, NarrowSigned, UnZigZag;
    match f.ltype
    case Bool => DecVarint32Frame(b, tail);
    case Fixed32 => DecFixedFrame(4, b, tail);
    case Fixed64 => DecFixedFrame(8, b, tail);
    case _ => DecVarintFrame(b, tail);
  }

  /** Every number a scalar field can hold comes back, whatever bytes follow. */
  lemma ScalarRoundTrip(f: Field, n: int, tail: bytes)
    requires InRange(f, n)
    ensures EncScalar(f, n).Success?
    ensures DecScalar(f, EncScalar(f, n).value + tail) == Ok(Normal(f, n), tail)
  {
    hide DecVarint, DecVarint32, DecFixed, EncVarint, EncFixed, ZigZag, UnZigZag, ToSigned, Shl;
    match f.ltype
    case Bool => Varint32RoundTrip(if n != 0 then 1 else 0, tail);
    case Varint =>
      VarintRoundTrip(ToUnsigned(8, n), tail);
      NarrowVarintInverts(f.dataSize, n);
    case UVarint =>
      VarintRoundTrip(n, tail);
      UnsignedCast(f.dataSize, n);
      UnsignedCast(8, n);
    case SVarint =>
      ZigZagBijection(n, 0);
      SignedCast(8, n);
      VarintRoundTrip(ZigZag(n), tail);
      SignedCast(f.dataSize, n);
    case Fixed32 =>
      ShlWords();
      UnsignedCast(4, n);
      FixedRoundTrip(4, n, tail);
    case Fixed64 =>
      ShlWords();
      UnsignedCast(8, n);
      FixedRoundTrip(8, n, tail);
  }

  lemma NarrowVarintInverts(size: nat, n: int)
    requires IntegerSize(size) && FitsSigned(size, n)
    ensures NarrowVarint(size, ToUnsigned(8, n)) == Some(n)
  {
    SignedCast(size, n);
    SignedCast(8, n);
    SignedCast(4, n);
    Low32(n);
  }

  lemma Low32(n: int)
    ensures ToSigned(4, ToUnsigned(8, n)) == ToSigned(4, n)
  {
    LowHalf(n);
  }

  /** When a number on the wire is accepted: an unsigned or zigzag number exactly when it fits the field; a plain
      signed number is cut to 32 bits first, so that 32-bit fields accept every number. */
  lemma NarrowAccepts(size: nat, v: nat)
    requires IntegerSize(size) && v < U64
    ensures NarrowUnsigned(size, v) == if FitsUnsigned(size, v) then Some(v as int) else None
    ensures NarrowSigned(size, UnZigZag(v)) == if FitsSigned(size, UnZigZag(v)) then Some(UnZigZag(v)) else None
    ensures size == 8 ==> NarrowVarint(size, v) == Some(ToSigned(8, v))
    ensures size == 4 ==> NarrowVarint(size, v) == Some(ToSigned(4, v))
    ensures size < 4 ==> NarrowVarint(size, v) == if FitsSigned(size, ToSigned(4, v)) then Some(ToSigned(4, v)) else None
  {
    hide ToSigned, UnZigZag;
    UnsignedCast(size, v);
    SignedCast(size, UnZigZag(v));
    SignedCast(8, v);
    SignedCast(8, ToSigned(8, v));
    SignedCast(4, v);
    SignedCast(4, ToSigned(4, v));
    SignedCast(size, ToSigned(4, v));
  }
}
