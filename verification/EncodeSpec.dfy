/** The bytes of a message, as a function of its table and its struct. */
module EncodeSpec {
  import opened Bits
  import opened Varint
  import opened Integers
  import opened Descriptor
  import opened Message

  function Cat(a: Result<bytes>, b: Result<bytes>): Result<bytes> {
    if a.Success? && b.Success? then Success(a.value + b.value) else Failure
  }

  /** A payload behind its length. */
  function Prefixed(payload: Result<bytes>): Result<bytes> {
    if payload.Success? then Success(EncVarint(|payload.value|) + payload.value) else Failure
  }

  /** The tag word of a record. */
  function EncTag(tag: nat, wireType: nat): bytes {
    EncVarint(tag * 8 + wireType)
  }

  function EncFieldTag(f: Field): Result<bytes> {
    match WireType(f.ltype)
    case Some(w) => Success(EncTag(f.tag, w))
    case None => Failure
  }

  function UpToNul(data: bytes): (s: bytes)
    ensures |s| <= |data|
  {
    if data == [] || data[0] == 0 then [] else [data[0]] + UpToNul(data[1..])
  }

  /** The characters of a string: up to the terminator, and within the array of a static field. */
  function Characters(f: Field, data: bytes): (s: bytes)
    ensures |s| <= |data|
  {
    UpToNul(if f.atype.Static? && f.dataSize < |data| then data[..f.dataSize] else data)
  }

  // ---- proto3 presence ----

  /** Singular fields have no presence flag; this is the "zero" test that decides whether one is left out. Pointers
      count as zero when they are null. */
  predicate IsZeroField(S: Schema, table: Table, m: Slots, i: nat)
    requires i < |table| == |m|
    decreases m, |m| - i, 0
  {
    var f := table[i];
    if f.ltype.Extension? then true
    else if f.htype.Required? then false
    else if f.htype.Repeated? then m[i].Many? && m[i].items == [] && !FixedCount(f)
    else if !m[i].One? then false
    else if f.htype.Oneof? then NoneSelected(table, m, f.htype, 0)
    else if f.sizeOffset != 0 || f.atype.Pointer? then !m[i].has
    else assert m[i].v < m[i]; IsZeroItem(S, f, m[i].v)
  }

  predicate IsZeroItem(S: Schema, f: Field, v: Value)
    decreases v
  {
    match v
    case Indeterminate => false
    case Scalar(n) => Packable(f.ltype) && n == 0
    case Blob(data) =>
      if f.ltype.FixedLengthBytes? then f.dataSize == 0 && data == []
      else if f.ltype.String? then data == [] || data[0] == 0
      else f.ltype.Bytes? && data == []
    case Sub(slots) =>
      f.ltype.Submessage? && f.ptr.Table? && f.ptr.id < |S| && |S[f.ptr.id]| == |slots| &&
      AllZero(S, S[f.ptr.id], slots, 0)
  }

  predicate AllZero(S: Schema, table: Table, m: Slots, i: nat)
    requires i <= |table| == |m|
    decreases m, |m| - i, 1
  {
    i == |m| || (IsZeroField(S, table, m, i) && AllZero(S, table, m, i + 1))
  }

  /** No member from position i on of the union is selected. */
  predicate NoneSelected(table: Table, m: Slots, union: HType, i: nat)
    requires i <= |table| == |m|
    decreases |m| - i
  {
    i == |m| ||
    (!(table[i].htype == union && m[i].One? && m[i].has) && NoneSelected(table, m, union, i + 1))
  }

  /** A single field is written when it is required, selected, flagged, non-null, or not zero. */
  predicate Present(S: Schema, table: Table, m: Slots, i: nat)
    requires i < |table| == |m|
  {
    var f := table[i];
    !f.ltype.Extension? && m[i].One? &&
    (f.htype.Required? ||
     if f.htype.Optional? && f.atype.Static? && f.sizeOffset == 0 then !IsZeroField(S, table, m, i) else m[i].has)
  }

  // ---- fields ----

  function EncScalars(f: Field, items: seq<Value>): Result<bytes> {
    if items == [] then Success([])
    else if items[0].Scalar? then Cat(EncScalar(f, items[0].n), EncScalars(f, items[1..]))
    else Failure
  }

  function EncBlob(f: Field, data: bytes): Result<bytes> {
    match f.ltype
    case Bytes =>
      if |data| + BYTES_OFFSET >= U64 || (f.atype.Static? && |data| + BYTES_OFFSET > f.dataSize) then Failure
      else Prefixed(Success(data))
    case String => Prefixed(Success(Characters(f, data)))
    case FixedLengthBytes =>
      if |data| == f.dataSize then Prefixed(Success(data)) else Failure
    case _ => Failure
  }

  /** One item, without tag. */
  function EncItem(S: Schema, f: Field, v: Value): Result<bytes>
    decreases v, 0
  {
    match v
    case Indeterminate => Failure
    case Scalar(n) => EncScalar(f, n)
    case Blob(data) => EncBlob(f, data)
    case Sub(slots) =>
      if f.ltype.Submessage? && f.ptr.Table? && f.ptr.id < |S| then
        Prefixed(EncMessage(S, f.ptr.id, slots))
      else Failure
  }

  function EncTagged(S: Schema, f: Field, v: Value): Result<bytes>
    decreases v, 1
  {
    Cat(EncFieldTag(f), EncItem(S, f, v))
  }

  function EncEach(S: Schema, f: Field, items: seq<Value>): Result<bytes>
    decreases items, 0
  {
    if items == [] then Success([])
    else Cat(EncTagged(S, f, items[0]), EncEach(S, f, items[1..]))
  }

  /** Packed when the type allows it; otherwise one record for each item. */
  function EncArray(S: Schema, f: Field, items: seq<Value>): Result<bytes>
    decreases items, 1
  {
    if FixedCount(f) && |items| != f.arraySize then Failure
    else if items == [] then Success([])
    else if f.atype.Static? && |items| > f.arraySize then Failure
    else if Packable(f.ltype) then Cat(Success(EncTag(f.tag, 2)), Prefixed(EncScalars(f, items)))
    else EncEach(S, f, items)
  }

  function EncField(S: Schema, table: Table, m: Slots, i: nat): Result<bytes>
    requires i < |table| == |m|
    decreases m, |m| - i, 0
  {
    var f := table[i];
    if f.ltype.Extension? then Success([])
    else
      match m[i]
      case Many(items) => if f.htype.Repeated? then EncArray(S, f, items) else Failure
      case One(has, v) =>
        if f.htype.Repeated? || (f.htype.Required? && f.atype.Pointer? && !has) then Failure
        else if Present(S, table, m, i) then assert m[i].v < m[i]; EncTagged(S, f, v)
        else Success([])
  }

  function EncFrom(S: Schema, table: Table, m: Slots, i: nat): Result<bytes>
    requires i <= |table| == |m|
    decreases m, |m| - i, 1
  {
    if i == |m| then Success([])
    else Cat(EncField(S, table, m, i), EncFrom(S, table, m, i + 1))
  }

  /** The encoding of a struct of message type t: its fields in table order. */
  function EncMessage(S: Schema, t: nat, m: Slots): Result<bytes>
    requires t < |S|
    decreases m, |m| + 1
  {
    if |m| == |S[t]| then EncFrom(S, S[t], m, 0) else Failure
  }
}
