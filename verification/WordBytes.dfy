/** Which of the first bytes of a struct stay when it is released, record by record. */
module WordBytes {
  import opened Bits
  import opened Varint
  import opened Descriptor
  import opened Message
  import opened DecodeSpec
  import opened FieldIterator
  import opened Stale

  // ---- bytes of an item ----

  /** The size of a pointer. */
  const WORD: nat := 8

  /** Byte p of a little-endian number. */
  function ByteOf(n: int, p: nat): nat
    decreases p
  {
    if p == 0 then n % 256 else ByteOf(n / 256, p - 1)
  }

  /** Byte p is a nonzero byte of the count or selector n at z. */
  predicate InWord(n: nat, z: int, p: nat) {
    z <= p < z + COUNT_SIZE && ByteOf(n, p - z) != 0
  }

  /** The bytes that a number takes. */
  function Width(f: Field): nat {
    match f.ltype
    case Bool => 1
    case Fixed32 => 4
    case Fixed64 => 8
    case _ => f.dataSize
  }

  /** Storing the item, which is no submessage, writes byte p. A string ends with a zero, a byte array starts with its
      size. */
  predicate Written(f: Field, v: Value, p: nat) {
    match v
    case Scalar(_) => p < Width(f)
    case Blob(data) =>
      if f.ltype.Bytes? then p < BYTES_OFFSET + |data| else if f.ltype.String? then p <= |data| else p < |data|
    case _ => false
  }

  /** Byte p of the item is not zero. */
  predicate Nonzero(f: Field, v: Value, p: nat) {
    match v
    case Scalar(n) => p < Width(f) && ByteOf(n, p) != 0
    case Blob(data) =>
      if !f.ltype.Bytes? then p < |data| && data[p] != 0
      else if p < BYTES_OFFSET then ByteOf(|data|, p) != 0
      else p - BYTES_OFFSET < |data| && data[p - BYTES_OFFSET] != 0
    case _ => false
  }

  // ---- storing ----

  // A set of positions below WORD stands for the bytes of a struct that are not zero once it has been released: the
  // release sets its pointers to NULL and the counts of its pointer arrays to zero, at every depth, and nothing else.

  function Clear(left: set<nat>, from: int, n: nat): set<nat> {
    set p | p in left && !(from <= p < from + n)
  }

  /** The bytes of the part of n bytes at d, seen from the start of the part. */
  function Inside(left: set<nat>, d: nat, n: nat): set<nat> {
    set p: nat | p < WORD && PartOf(left, d, n, p)
  }

  predicate PartOf(left: set<nat>, d: nat, n: nat, p: nat) {
    p < n && p + d in left
  }

  function Replace(left: set<nat>, d: nat, n: nat, inner: set<nat>): set<nat> {
    Clear(left, d, n) + set p: nat | p < WORD && Lands(inner, d, n, p)
  }

  predicate Lands(inner: set<nat>, d: nat, n: nat, p: nat) {
    d <= p < d + n && p - d in inner
  }

  function StoreWord(n: nat, z: int, left: set<nat>): set<nat> {
    Clear(left, z, COUNT_SIZE) + set p: nat | p < WORD && InWord(n, z, p)
  }

  function StoreFlag(has: bool, z: int, left: set<nat>): set<nat> {
    Clear(left, z, 1) + if has && 0 <= z < WORD then {z} else {}
  }

  function StoreLeaf(f: Field, v: Value, d: nat, left: set<nat>): set<nat> {
    (set p | p in left && !WrittenAt(f, v, d, p)) + set p: nat | p < WORD && NonzeroAt(f, v, d, p)
  }

  predicate WrittenAt(f: Field, v: Value, d: nat, p: nat) {
    d <= p && Written(f, v, p - d)
  }

  predicate NonzeroAt(f: Field, v: Value, d: nat, p: nat) {
    d <= p && Nonzero(f, v, p - d)
  }

  /** Elements n to n' of an array. */
  function StoreLeaves(f: Field, items: seq<Value>, n: nat, n': nat, d: nat, left: set<nat>): set<nat>
    decreases n' - n
  {
    if n >= n' || n >= |items| then left
    else StoreLeaves(f, items, n + 1, n', d, StoreLeaf(f, items[n], d + n * f.dataSize, left))
  }

  // ---- initialisation ----

  /** Initialisation clears pointers, counts, flags and selectors and stores the default values; the contents of arrays and
      of unions stay. */
  function InitBytes(S: Schema, t: nat, left: set<nat>): set<nat>
    requires t < |S|
    decreases t, |S[t]| + 1
  {
    InitFrom(S, t, 0, left)
  }

  function InitFrom(S: Schema, t: nat, i: nat, left: set<nat>): set<nat>
    requires t < |S| && i <= |S[t]|
    decreases t, |S[t]| - i
  {
    if i == |S[t]| then left else InitFrom(S, t, i + 1, InitField(S, t, i, left))
  }

  function InitField(S: Schema, t: nat, i: nat, left: set<nat>): set<nat>
    requires t < |S| && i < |S[t]|
    decreases t, 0
  {
    var f, d, z := S[t][i], DataWalk(S[t], i), SizeWalk(S[t], i);
    if f.ltype.Extension? then left
    else if f.atype.Pointer? then
      if f.htype.Repeated? || f.htype.Oneof? then Clear(Clear(left, d, WORD), z, COUNT_SIZE) else Clear(left, d, WORD)
    else if f.htype.Repeated? || f.htype.Oneof? then Clear(left, z, COUNT_SIZE)
    else
      var flagged := if f.htype.Optional? && f.sizeOffset != 0 then StoreFlag(false, z, left) else left;
      if !f.ltype.Submessage? then StoreLeaf(f, DefaultItem(S, t, f), d, Clear(flagged, d, f.dataSize))
      else if f.ptr.Table? && f.ptr.id < t then
        Replace(flagged, d, f.dataSize, InitBytes(S, f.ptr.id, Inside(flagged, d, f.dataSize)))
      else flagged
  }

  // ---- records ----

  /** The struct behind a record of field i. */
  function RecordBytes(S: Schema, t: nat, run: Run, run': Run, i: nat, left: set<nat>, b: bytes): set<nat>
    requires t < |S| && i < |S[t]| == |run.m| == |run'.m|
    decreases |b|, 2
  {
    match run'.m[i]
    case One(_, v) => SingleBytes(S, S[t], i, run.m[i], v, left, b)
    case Many(items) =>
      var n := if run.m[i].Many? then CountOf(S[t], run, i) else |items|;
      ArrayBytes(S, S[t], i, items, n, if FixedCount(S[t][i]) then run'.fixedCount else |items|, left, b)
  }

  /** A single item: a submessage in place is decoded into what is there, and a union member is cleared and initialised. */
  function SingleBytes(S: Schema, table: Table, i: nat, was: Slot, v: Value, left: set<nat>, b: bytes): set<nat>
    requires i < |table|
    decreases |b|, 1
  {
    var f, d, z := table[i], DataWalk(table, i), SizeWalk(table, i);
    if f.atype.Pointer? then
      if f.htype.Oneof? then StoreWord(f.tag, z, Clear(left, d, WORD)) else Clear(left, d, WORD)
    else
      var marked := if f.htype.Oneof? then StoreWord(f.tag, z, left)
                    else if f.htype.Optional? && f.sizeOffset != 0 then StoreFlag(true, z, left)
                    else left;
      if !f.ltype.Submessage? then StoreLeaf(f, v, d, marked)
      else if !was.One? then marked
      else
        var inner := if f.htype.Oneof? && f.ptr.Table? && f.ptr.id < |S| then InitBytes(S, f.ptr.id, {})
                     else Inside(marked, d, f.dataSize);
        Replace(marked, d, f.dataSize, PayloadInto(S, f, StartOf(S, f, was), inner, b))
  }

  /** Items n to n' of an array: an element that is a submessage is initialised first. */
  function ArrayBytes(S: Schema, table: Table, i: nat, items: seq<Value>, n: nat, n': nat, left: set<nat>, b: bytes): set<nat>
    requires i < |table|
    decreases |b|, 1
  {
    var f, d, z := table[i], DataWalk(table, i), SizeWalk(table, i);
    if f.atype.Pointer? then Clear(Clear(left, d, WORD), z, COUNT_SIZE)
    else
      var counted := if f.sizeOffset != 0 then StoreWord(|items|, z, left) else left;
      if !f.ltype.Submessage? then StoreLeaves(f, items, n, n', d, counted)
      else
        var at := d + n * f.dataSize;
        var inner := Inside(counted, at, f.dataSize);
        var ready := if f.ptr.Table? && f.ptr.id < |S| then InitBytes(S, f.ptr.id, inner) else inner;
        Replace(counted, at, f.dataSize, PayloadInto(S, f, Fresh(S, f), ready, b))
  }

  /** The payload in front of b, decoded into a struct. */
  function PayloadInto(S: Schema, f: Field, start: Slots, inner: set<nat>, b: bytes): set<nat>
    decreases |b|, 0
  {
    if f.ptr.Table? && f.ptr.id < |S| && DecPrefixed(b).Ok? then
      BytesAfter(S, f.ptr.id, Start(start), inner, DecPrefixed(b).value)
    else inner
  }

  /** The struct when b has been decoded, as far as it goes. */
  function BytesAfter(S: Schema, t: nat, run: Run, left: set<nat>, b: bytes): set<nat>
    requires t < |S|
    decreases |b|, 3
  {
    if |run.m| != |S[t]| || b == [] || !DecTag(b).Tag? then left
    else
      var w := DecTag(b);
      var p := DecRecord(S, S[t], run, w.tag, w.wireType, w.rest);
      if p.Fail? then left
      else
        var left' := match Find(S[t], w.tag)
                     case Some(i) => RecordBytes(S, t, run, p.value, i, left, w.rest)
                     case None => left;
        BytesAfter(S, t, p.value, left', p.rest)
  }

  /** An item that stands in front of b is stored at the start of a union. */
  function UnionBytes(S: Schema, f: Field, v: Value, left: set<nat>, b: bytes): set<nat> {
    if !f.ltype.Submessage? then StoreLeaf(f, v, 0, left)
    else if f.ptr.Table? && f.ptr.id < |S| && DecPrefixed(b).Ok? then
      Replace(left, 0, f.dataSize,
              BytesAfter(S, f.ptr.id, Start(Fresh(S, f)), InitBytes(S, f.ptr.id, {}), DecPrefixed(b).value))
    else left
  }

  /** What was there before adds nothing but its own bytes. */
  lemma UnionBytesGrow(S: Schema, f: Field, v: Value, left: set<nat>, b: bytes)
    ensures UnionBytes(S, f, v, {}, b) <= UnionBytes(S, f, v, left, b) <= UnionBytes(S, f, v, {}, b) + left
  {
    hide BytesAfter, InitBytes, DecPrefixed, Nonzero, Written;
  }
}
