/** What a union holds when it is taken for a pointer. */
module Unions {
  import opened Bits
  import opened Varint
  import opened Integers
  import opened Descriptor
  import opened Message
  import opened EncodeSpec
  import opened DecodeSpec
  import opened FieldIterator
  import opened Wire
  import opened WordBytes
  import opened Ownership
  import Concat
  import Layout
  import Transfer

  predicate Member(f: Field, u: HType) {
    u.Oneof? && f.htype == u && !f.ltype.Extension?
  }

  // ---- pointers in a member in place ----

  /** Byte p of the item belongs to a pointer that is set, or is a nonzero byte of the count of a pointer array: the release
      clears it. */
  predicate PointerItem(S: Schema, f: Field, v: Value, p: nat)
    decreases v, 0
  {
    v.Sub? && p < f.dataSize && f.ptr.Table? && f.ptr.id < |S| && |v.slots| == |S[f.ptr.id]| &&
    exists k :: 0 <= k < |v.slots| && PointerSlot(S, S[f.ptr.id], k, v.slots[k], p)
  }

  predicate PointerSlot(S: Schema, table: Table, k: int, slot: Slot, p: nat)
    requires 0 <= k < |table|
    decreases slot, 1
  {
    var f, d, z := table[k], DataWalk(table, k), SizeWalk(table, k);
    !f.ltype.Extension? &&
    match slot
    case One(has, v) =>
      if f.atype.Pointer? then has && d <= p < d + WORD
      else (f.htype.Oneof? ==> has) && d <= p && PointerItem(S, f, v, p - d)
    case Many(items) =>
      if f.atype.Pointer? then items != [] && (d <= p < d + WORD || InWord(|items|, z, p))
      else exists e :: 0 <= e < |items| && ElementAt(f, d, e, p) && PointerItem(S, f, items[e], p - d - e * f.dataSize)
  }

  predicate ElementAt(f: Field, d: nat, e: nat, p: nat) {
    d + e * f.dataSize <= p
  }

  /** The bytes of the word that the release of the item clears. */
  function ClearedBy(S: Schema, f: Field, v: Value): set<nat> {
    set p: nat | p < WORD && PointerItem(S, f, v, p)
  }

  // ---- what a pointer member finds ----

  /** Every time a pointer member of union u is selected while b is decoded, the memory of the union holds an address, or
      NULL. `left` are the bytes of the word that are not zero when the member in place is released. */
  ghost predicate FindsPointers(S: Schema, t: nat, u: HType, run: Run, left: set<nat>, b: bytes)
    requires t < |S|
    decreases |b|
  {
    |run.m| == |S[t]| && b != [] && DecTag(b).Tag? ==>
      var w := DecTag(b);
      var p := DecRecord(S, S[t], run, w.tag, w.wireType, w.rest);
      var found := Find(S[t], w.tag);
      && (found.Some? && PointerMember(S[t], u, found.value) ==> left == {})
      && (p.Ok? ==> FindsPointers(S, t, u, p.value, LeftAfter(S, S[t], u, found, p.value.m, left, w.rest), p.rest))
  }

  /** The bytes left behind a record of the field found. A member in place is stored over what there is. */
  function LeftAfter(S: Schema, table: Table, u: HType, found: Option<nat>, m: Slots, left: set<nat>, b: bytes): set<nat> {
    if found.None? || found.value >= |table| || !Member(table[found.value], u) then left
    else if table[found.value].atype.Pointer? then {}
    else if found.value < |m| && m[found.value].One? then UnionBytes(S, table[found.value], m[found.value].v, left, b)
    else left
  }

  predicate InPlaceMember(table: Table, u: HType, i: int) {
    0 <= i < |table| && Member(table[i], u) && table[i].atype.Static?
  }

  predicate PointerMember(table: Table, u: HType, j: int) {
    0 <= j < |table| && Member(table[j], u) && table[j].atype.Pointer?
  }

  /** In a union of one kind of members, no input and no earlier contents of the struct make the decoder take anything but
      an address for a pointer. */
  lemma {:induction false} UniformFinds(S: Schema, t: nat, u: HType, run: Run, left: set<nat>, b: bytes)
    requires t < |S| && UniformUnions(S[t]) && (left != {} ==> exists i :: InPlaceMember(S[t], u, i))
    ensures FindsPointers(S, t, u, run, left, b)
    decreases |b|
  {
    hide DecTag, DecRecord, Find, UnionBytes;
    if |run.m| == |S[t]| && b != [] && DecTag(b).Tag? {
      var w := DecTag(b);
      var p := DecRecord(S, S[t], run, w.tag, w.wireType, w.rest);
      var found := Find(S[t], w.tag);
      if p.Ok? {
        var left' := LeftAfter(S, S[t], u, found, p.value.m, left, w.rest);
        if left' != {} && left == {} {
          assert InPlaceMember(S[t], u, found.value);
        }
        UniformFinds(S, t, u, p.value, left', p.rest);
      }
    }
  }

  // ---- unions of both kinds ----

  /** An item that field f accepts. */
  predicate Item(S: Schema, f: Field, e: bytes) {
    DecItem(S, f, Fresh(S, f), e).Ok? && DecItem(S, f, Fresh(S, f), e).rest == []
  }

  /** An item that leaves a nonzero byte in the word, also when it has been released. */
  ghost predicate MarkingItem(S: Schema, f: Field, e: bytes) {
    Item(S, f, e) && UnionBytes(S, f, DecItem(S, f, Fresh(S, f), e).value, {}, e) != {}
  }

  /** Some record of the field leaves a nonzero byte where a pointer would be. */
  ghost predicate CanMark(S: Schema, f: Field) {
    exists e :: MarkingItem(S, f, e)
  }

  lemma PointerAfterBytes(S: Schema, t: nat, u: HType, run: Run, left: set<nat>, j: nat, b: bytes)
    requires t < |S| && TableOk(S, t, S[t]) && |run.m| == |S[t]| && PointerMember(S[t], u, j)
    requires left != {}
    ensures !FindsPointers(S, t, u, run, left, EncTag(S[t][j].tag, 2) + b)
  {
    hide DecTag, EncTag, DecRecord, Find;
    Transfer.TagFound(S, t, j, 2, b);
  }

  /** A record of the member in place that leaves a nonzero byte and then the tag of the pointer member: the second takes
      the bytes of the first for an address. */
  lemma MixedFinds(S: Schema, t: nat, u: HType, run: Run, left: set<nat>, i: nat, e: bytes, j: nat, b: bytes)
    requires t < |S| && TableOk(S, t, S[t]) && |run.m| == |S[t]| && InPlaceMember(S[t], u, i) && PointerMember(S[t], u, j)
    requires run.m[i].One? && MarkingItem(S, S[t][i], e)
    ensures !FindsPointers(S, t, u, run, left, EncTag(S[t][i].tag, 0) + (e + (EncTag(S[t][j].tag, 2) + b)))
  {
    var f, tail := S[t][i], EncTag(S[t][j].tag, 2) + b;
    Transfer.TagFound(S, t, i, 0, e + tail);
    assert StartOf(S, f, run.m[i]) == Fresh(S, f);
    hide DecTag, EncTag, Find, DecItem, Fresh, UnionBytes;
    Concat.DecItemFrame(S, f, Fresh(S, f), e, tail);
    assert [] + tail == tail;
    var p := DecField(S, S[t], run, i, 0, e + tail);
    assert p.Ok? && p.rest == tail && p.value.m[i] == One(true, DecItem(S, f, Fresh(S, f), e).value);
    var left' := LeftAfter(S, S[t], u, Some(i), p.value.m, left, e + tail);
    UnionBytesGrow(S, f, p.value.m[i].v, left, e + tail);
    SameUnionBytes(S, f, Fresh(S, f), p.value.m[i].v, e, tail);
    hide DecField;
    PointerAfterBytes(S, t, u, p.value, left', j, b);
  }

  /** What the item leaves does not depend on what follows it. */
  lemma SameUnionBytes(S: Schema, f: Field, start: Slots, v: Value, e: bytes, tail: bytes)
    requires DecItem(S, f, start, e).Ok?
    ensures UnionBytes(S, f, v, {}, e + tail) == UnionBytes(S, f, v, {}, e)
  {
    hide DecPrefixed, BytesAfter, InitBytes, DecMessage, DecScalar;
    if f.ltype.Submessage? {
      Concat.DecPrefixedFrame(e, tail);
    }
  }

  /** Unions in a fresh struct: the decoder always finds addresses if and only if the union does not have both a pointer
      member and a member in place of which some record leaves a nonzero byte in the word, also after its release. */
  lemma UnionExact(S: Schema, t: nat, u: HType)
    requires t < |S| && TableOk(S, t, S[t]) && u.Oneof?
    ensures (forall b :: FindsPointers(S, t, u, Start(Defaults(S, t)), {}, b)) <==>
            !(exists i, j :: InPlaceMember(S[t], u, i) && PointerMember(S[t], u, j) && CanMark(S, S[t][i]))
  {
    hide FindsPointers, TableOk, MarkingItem, Defaults;
    if i, j :| InPlaceMember(S[t], u, i) && PointerMember(S[t], u, j) && CanMark(S, S[t][i]) {
      var e :| MarkingItem(S, S[t][i], e);
      FreshUnion(S, t, u, i);
      MixedFinds(S, t, u, Start(Defaults(S, t)), {}, i, e, j, []);
    } else {
      forall b
        ensures FindsPointers(S, t, u, Start(Defaults(S, t)), {}, b)
      {
        SeparateFinds(S, t, u, Start(Defaults(S, t)), {}, b);
      }
    }
  }

  lemma FreshUnion(S: Schema, t: nat, u: HType, i: nat)
    requires t < |S| && InPlaceMember(S[t], u, i)
    ensures Defaults(S, t)[i] == One(false, Indeterminate)
  {
    assert Defaults(S, t)[i] == DefaultSlot(S, t, S[t][i]);
  }

  lemma {:induction false} SeparateFinds(S: Schema, t: nat, u: HType, run: Run, left: set<nat>, b: bytes)
    requires t < |S| && u.Oneof? && (left != {} ==> !exists j :: PointerMember(S[t], u, j))
    requires !(exists i, j :: InPlaceMember(S[t], u, i) && PointerMember(S[t], u, j) && CanMark(S, S[t][i]))
    ensures FindsPointers(S, t, u, run, left, b)
    decreases |b|
  {
    hide DecTag, DecRecord, Find, CanMark, UnionBytes;
    if |run.m| == |S[t]| && b != [] && DecTag(b).Tag? {
      var w := DecTag(b);
      var p := DecRecord(S, S[t], run, w.tag, w.wireType, w.rest);
      var found := Find(S[t], w.tag);
      if p.Ok? {
        var left' := LeftAfter(S, S[t], u, found, p.value.m, left, w.rest);
        if left' != {} && left == {} {
          assert InPlaceMember(S[t], u, found.value);
          RecordMarks(S, t, u, run, w.tag, w.wireType, w.rest);
        }
        SeparateFinds(S, t, u, p.value, left', p.rest);
      }
    }
  }

  lemma RecordMarks(S: Schema, t: nat, u: HType, run: Run, tag: nat, w: nat, b: bytes)
    requires t < |S| && |run.m| == |S[t]| && u.Oneof? && Find(S[t], tag).Some? && Member(S[t][Find(S[t], tag).value], u)
    requires DecRecord(S, S[t], run, tag, w, b).Ok?
    requires var i, m := Find(S[t], tag).value, DecRecord(S, S[t], run, tag, w, b).value.m;
             i < |m| && m[i].One? && UnionBytes(S, S[t][i], m[i].v, {}, b) != {}
    ensures CanMark(S, S[t][Find(S[t], tag).value])
  {
    var i := Find(S[t], tag).value;
    hide DecItem, DecRepeated, Find, UnionBytes;
    assert StartOf(S, S[t][i], run.m[i]) == Fresh(S, S[t][i]);
    var e := ItemBytes(S, S[t][i], Fresh(S, S[t][i]), b);
    PayloadBytes(S, S[t][i], DecRecord(S, S[t], run, tag, w, b).value.m[i].v, e, b);
    assert MarkingItem(S, S[t][i], e);
  }

  lemma PayloadBytes(S: Schema, f: Field, v: Value, e: bytes, b: bytes)
    requires f.ltype.Submessage? ==>
               DecPrefixed(e).Ok? && DecPrefixed(b).Ok? && DecPrefixed(e).value == DecPrefixed(b).value
    ensures UnionBytes(S, f, v, {}, e) == UnionBytes(S, f, v, {}, b)
  {
    hide DecPrefixed, BytesAfter, InitBytes;
  }

  // ---- the bytes of an item ----

  lemma {:induction false} VarintLenBytes(b: bytes)
    requires VarintLen(b) > 0
    ensures VarintLen(b[..VarintLen(b)]) == VarintLen(b)
  {
    var n := VarintLen(b);
    if b[0] >= 128 {
      VarintLenBytes(b[1..]);
      assert b[..n][1..] == b[1..][..n - 1];
    }
  }

  lemma VarintBytes(b: bytes) returns (e: bytes)
    requires DecVarint(b).Ok?
    ensures DecVarint(e) == Ok(DecVarint(b).value, []) && e + DecVarint(b).rest == b
  {
    VarintLenBytes(b);
    e := b[..VarintLen(b)];
    assert e[..VarintLen(b)] == e;
  }

  lemma ScalarBytes(f: Field, b: bytes) returns (e: bytes)
    requires DecScalar(f, b).Ok?
    ensures DecScalar(f, e) == Ok(DecScalar(f, b).value, [])
  {
    hide DecVarint, DecVarint32, NarrowVarint, NarrowUnsigned, NarrowSigned, UnZigZag;
    match f.ltype
    case Bool => e := Varint32Bytes(b);
    case Fixed32 =>
      e := b[..4];
      assert e[..4] == e;
    case Fixed64 =>
      e := b[..8];
      assert e[..8] == e;
    case _ => e := VarintBytes(b);
  }

  lemma PrefixedBytes(b: bytes) returns (e: bytes)
    requires DecPrefixed(b).Ok?
    ensures DecPrefixed(e) == Ok(DecPrefixed(b).value, [])
  {
    hide DecVarint32;
    var n := Varint32Bytes(b);
    var size, rest := DecVarint32(b).value, DecVarint32(b).rest;
    e := n + rest[..size];
    DecVarint32Frame(n, rest[..size]);
    assert [] + rest[..size] == rest[..size] && rest[..size][..size] == rest[..size];
  }

  lemma BlobBytes(f: Field, b: bytes) returns (e: bytes)
    requires DecBlob(f, b).Ok?
    ensures DecBlob(f, e) == Ok(DecBlob(f, b).value, [])
  {
    hide DecVarint32, BlobFits;
    var n := Varint32Bytes(b);
    var size, rest := DecVarint32(b).value, DecVarint32(b).rest;
    var body := if f.ltype.FixedLengthBytes? && size == 0 then [] else rest[..size];
    e := n + body;
    DecVarint32Frame(n, body);
    assert [] + body == body && (|body| == size ==> body[..size] == body);
  }

  /** The bytes an item takes, alone, are the same item. */
  lemma ItemBytes(S: Schema, f: Field, start: Slots, b: bytes) returns (e: bytes)
    requires DecItem(S, f, start, b).Ok?
    ensures DecItem(S, f, start, e) == Ok(DecItem(S, f, start, b).value, [])
    ensures f.ltype.Submessage? ==> DecPrefixed(e).Ok? && DecPrefixed(b).Ok? && DecPrefixed(e).value == DecPrefixed(b).value
  {
    hide DecScalar, DecPrefixed, DecBlob, DecMessage;
    if Packable(f.ltype) {
      e := ScalarBytes(f, b);
    } else if f.ltype.Submessage? {
      e := PrefixedBytes(b);
    } else {
      e := BlobBytes(f, b);
    }
  }

  // ---- which members can leave something ----

  /** The sizes in the descriptor are those of a field of its type. */
  predicate WellSized(f: Field) {
    match f.ltype
    case Varint => IntegerSize(f.dataSize)
    case UVarint => IntegerSize(f.dataSize)
    case SVarint => IntegerSize(f.dataSize)
    case Bytes => f.dataSize >= BYTES_OFFSET
    case String => f.dataSize >= 1
    case FixedLengthBytes => f.dataSize < U32
    case _ => true
  }

  /** There is room for some data besides the size or the terminator. */
  predicate HasRoom(f: Field) {
    match f.ltype
    case Bytes => f.dataSize > BYTES_OFFSET
    case String => f.dataSize > 1
    case FixedLengthBytes => f.dataSize > 0
    case _ => true
  }

  /** A member in place that is no submessage can leave a nonzero byte exactly when it has room for any. */
  lemma PlainMarks(S: Schema, f: Field)
    requires WellSized(f) && f.atype.Static? && !f.ltype.Submessage? && !f.ltype.Extension?
    ensures CanMark(S, f) <==> HasRoom(f)
  {
    if Packable(f.ltype) {
      NumberOne(S, f);
    } else if HasRoom(f) {
      OneByte(S, f);
    } else {
      forall e
        ensures !MarkingItem(S, f, e)
      {
        if DecBlob(f, e).Ok? {
          NoRoom(f, e);
          NothingLeft(S, f, e);
        }
      }
    }
  }

  lemma {:induction false} ZeroBytes(p: nat)
    ensures ByteOf(0, p) == 0
    decreases p
  {
    if p > 0 {
      ZeroBytes(p - 1);
    }
  }

  lemma NothingLeft(S: Schema, f: Field, e: bytes)
    requires !f.ltype.Submessage?
    ensures UnionBytes(S, f, Blob([]), {}, e) == {}
  {
    forall p: nat | p < WORD
      ensures !NonzeroAt(f, Blob([]), 0, p)
    {
      ZeroBytes(p);
    }
  }

  lemma NumberOne(S: Schema, f: Field)
    requires WellSized(f) && Packable(f.ltype)
    ensures CanMark(S, f)
  {
    ScalarRoundTrip(f, 1, []);
    var e := EncScalar(f, 1).value;
    hide EncScalar, DecScalar;
    assert e + [] == e;
    assert NonzeroAt(f, Scalar(1), 0, 0);
    assert 0 in UnionBytes(S, f, Scalar(1), {}, e);
    assert MarkingItem(S, f, e);
  }

  lemma NoRoom(f: Field, e: bytes)
    requires DecBlob(f, e).Ok? && f.atype.Static? && !HasRoom(f) && WellSized(f)
    ensures DecBlob(f, e).value == []
  {
    hide DecVarint32;
  }

  lemma OneByte(S: Schema, f: Field)
    requires WellSized(f) && HasRoom(f) && f.atype.Static?
    requires f.ltype.Bytes? || f.ltype.String? || f.ltype.FixedLengthBytes?
    ensures CanMark(S, f)
  {
    var size := if f.ltype.FixedLengthBytes? then f.dataSize else 1;
    var data := seq(size, _ => 1);
    var e := EncVarint(size) + data;
    Varint32RoundTrip(size, data);
    assert data[..size] == data && data[size..] == [];
    hide EncVarint, DecVarint32;
    assert DecBlob(f, e) == Ok(data, []);
    assert NonzeroAt(f, Blob(data), 0, 0) by {
      assert data[0] == 1;
    }
    assert 0 in UnionBytes(S, f, Blob(data), {}, e);
    assert MarkingItem(S, f, e);
  }

  /** A submessage can leave something when its type accepts a payload that does. */
  lemma SubmessageMarks(S: Schema, f: Field, payload: bytes)
    requires f.ltype.Submessage? && f.ptr.Table? && f.ptr.id < |S| && |payload| < U32 && DecFresh(S, f.ptr.id, payload).Ok?
    requires exists p :: 0 <= p < WORD && p < f.dataSize && p in Sent(S, f.ptr.id, payload)
    ensures CanMark(S, f)
  {
    hide DecPrefixed, DecMessage, EncVarint, BytesAfter, InitBytes;
    Transfer.PrefixedRoundTrip(payload, []);
    var e := EncVarint(|payload|) + payload;
    assert e + [] == e;
    var p :| 0 <= p < WORD && p < f.dataSize && p in Sent(S, f.ptr.id, payload);
    assert Lands(Sent(S, f.ptr.id, payload), 0, f.dataSize, p);
    assert p in UnionBytes(S, f, DecItem(S, f, Fresh(S, f), e).value, {}, e);
    assert MarkingItem(S, f, e);
  }

  /** The bytes left by a payload in cleared memory. */
  function Sent(S: Schema, id: nat, payload: bytes): set<nat>
    requires id < |S|
  {
    BytesAfter(S, id, Start(Defaults(S, id)), InitBytes(S, id, {}), payload)
  }

  /** The struct consists of pointers, in itself and in its submessages in place, without flags, counts or selectors that
      would tell which are set. */
  predicate OnlyPointers(S: Schema, t: nat)
    requires t < |S|
    decreases t
  {
    forall i :: 0 <= i < |S[t]| ==>
      var f := S[t][i];
      !f.htype.Oneof? &&
      (f.atype.Pointer? ||
       (f.ltype.Submessage? && !f.htype.Repeated? && !(f.htype.Optional? && f.sizeOffset != 0) &&
        f.ptr.Table? && f.ptr.id < t && OnlyPointers(S, f.ptr.id)))
  }

  lemma {:induction false} PointersInit(S: Schema, t: nat, i: nat)
    requires t < |S| && OnlyPointers(S, t) && i <= |S[t]|
    ensures InitFrom(S, t, i, {}) == {}
    decreases t, |S[t]| - i
  {
    hide DataWalk, SizeWalk;
    if i < |S[t]| {
      var f, d, z := S[t][i], DataWalk(S[t], i), SizeWalk(S[t], i);
      assert Clear({}, d, WORD) == {} && Clear({}, z, COUNT_SIZE) == {};
      if f.atype.Static? {
        PointersInit(S, f.ptr.id, 0);
        assert Inside({}, d, f.dataSize) == {} && Replace({}, d, f.dataSize, {}) == {};
      }
      assert InitField(S, t, i, {}) == {};
      PointersInit(S, t, i + 1);
    }
  }

  lemma {:induction false} PointersRecord(S: Schema, t: nat, run: Run, run': Run, i: nat, b: bytes)
    requires SchemaOk(S) && t < |S| && OnlyPointers(S, t) && i < |S[t]| && Shaped(S, t, run.m) && Shaped(S, t, run'.m)
    requires |run.m| == |run'.m| == |S[t]| && !S[t][i].ltype.Extension?
    ensures RecordBytes(S, t, run, run', i, {}, b) == {}
    decreases |b|, 0
  {
    hide SchemaOk, DataWalk, SizeWalk, BytesAfter, InitBytes, DecPrefixed;
    var f, d, z := S[t][i], DataWalk(S[t], i), SizeWalk(S[t], i);
    assert ShapedSlot(S, t, f, run.m[i]) && ShapedSlot(S, t, f, run'.m[i]);
    assert Clear({}, d, WORD) == {} && Clear({}, z, COUNT_SIZE) == {};
    if f.atype.Static? {
      assert Inside({}, d, f.dataSize) == {} && Replace({}, d, f.dataSize, {}) == {};
      var start := StartOf(S, f, run.m[i]);
      if DecPrefixed(b).Ok? {
        PointersStay(S, f.ptr.id, Start(start), DecPrefixed(b).value);
      }
      assert PayloadInto(S, f, start, {}, b) == {};
      assert SingleBytes(S, S[t], i, run.m[i], run'.m[i].v, {}, b) == {};
    } else if run'.m[i].One? {
      assert SingleBytes(S, S[t], i, run.m[i], run'.m[i].v, {}, b) == {};
    }
  }

  lemma {:induction false} PointersStay(S: Schema, t: nat, run: Run, b: bytes)
    requires SchemaOk(S) && t < |S| && OnlyPointers(S, t) && Shaped(S, t, run.m)
    ensures BytesAfter(S, t, run, {}, b) == {}
    decreases |b|, 1
  {
    hide SchemaOk, DecTag, DecRecord, RecordBytes, OnlyPointers, Shaped;
    if |run.m| == |S[t]| && b != [] && DecTag(b).Tag? {
      var w := DecTag(b);
      var p := DecRecord(S, S[t], run, w.tag, w.wireType, w.rest);
      if p.Ok? {
        Layout.RecordShaped(S, t, run, w.tag, w.wireType, w.rest);
        if Find(S[t], w.tag).Some? {
          PointersRecord(S, t, run, p.value, Find(S[t], w.tag).value, w.rest);
        }
        PointersStay(S, t, p.value, p.rest);
      }
    }
  }

  /** Such a message leaves nothing, whatever it is sent: its release sets all that it holds to NULL. */
  lemma PointersMarkNothing(S: Schema, f: Field)
    requires SchemaOk(S) && f.ltype.Submessage? && f.ptr.Table? && f.ptr.id < |S| && OnlyPointers(S, f.ptr.id)
    ensures !CanMark(S, f)
  {
    hide SchemaOk, OnlyPointers, DecItem, DecPrefixed, BytesAfter, InitFrom, Defaults, Shaped;
    forall e
      ensures !MarkingItem(S, f, e)
    {
      if DecPrefixed(e).Ok? {
        DefaultsShaped(S, f.ptr.id);
        PointersInit(S, f.ptr.id, 0);
        PointersStay(S, f.ptr.id, Start(Defaults(S, f.ptr.id)), DecPrefixed(e).value);
      }
    }
  }

  /** A message without fields leaves nothing. */
  lemma EmptyMarksNothing(S: Schema, f: Field)
    requires f.ltype.Submessage? && f.ptr.Table? && f.ptr.id < |S| && S[f.ptr.id] == []
    ensures !CanMark(S, f)
  {
    hide DecItem, DecPrefixed, BytesAfter, Defaults;
    forall e
      ensures !MarkingItem(S, f, e)
    {
      if DecPrefixed(e).Ok? && Item(S, f, e) {
        EmptyStays(S, f.ptr.id, Start(Defaults(S, f.ptr.id)), DecPrefixed(e).value);
        assert InitBytes(S, f.ptr.id, {}) == {};
        assert UnionBytes(S, f, DecItem(S, f, Fresh(S, f), e).value, {}, e) == {};
      }
    }
  }

  lemma {:induction false} EmptyStays(S: Schema, t: nat, run: Run, b: bytes)
    requires t < |S| && S[t] == []
    ensures BytesAfter(S, t, run, {}, b) == {}
    decreases |b|
  {
    hide DecTag, DecRecord;
    if |run.m| == |S[t]| && b != [] && DecTag(b).Tag? {
      var w := DecTag(b);
      var p := DecRecord(S, S[t], run, w.tag, w.wireType, w.rest);
      if p.Ok? {
        EmptyStays(S, t, p.value, p.rest);
      }
    }
  }

  // ---- the memory of a union ----

  /** What the first bytes of a union are: an address, 0 for NULL, or bytes of a member in place. Of these some stay when
      the member is released, and the others are those of pointers and counts in a submessage, which become zero. */
  datatype Word = Address(block: nat) | Foreign(left: set<nat>, pointers: set<nat>)

  datatype Memory = Memory(selected: Option<nat>, word: Word)

  function OwnedBy(mem: Memory): multiset<nat> {
    if mem.word.Address? then Own(mem.word.block) else multiset{}
  }

  function LeftIn(word: Word): set<nat> {
    if word.Address? then {} else word.left
  }

  /** A word without nonzero bytes is NULL. */
  function WordOf(left: set<nat>, pointers: set<nat>): Word {
    if left == {} && pointers == {} then Address(0) else Foreign(left, pointers)
  }

  /** The selector names a member, or none when the union is empty. Only a pointer member owns the block at the word. */
  ghost predicate MemoryOk(table: Table, u: HType, mem: Memory) {
    && (mem.word.Foreign? ==> mem.word == WordOf(mem.word.left, mem.word.pointers))
    && match mem.selected
       case None => if mem.word.Address? then mem.word.block == 0 else mem.word.pointers == {}
       case Some(i) =>
         i < |table| && Member(table[i], u) &&
         if table[i].atype.Pointer? then mem.word.Address? else mem.word.Address? ==> mem.word.block == 0
  }

  /** Another member is about to be selected: what a pointer member points to is freed and the pointer is NULL. Of a member
      in place the pointers and the counts of pointer arrays become zero; its other data stays. */
  method ReleaseUnion(table: Table, u: HType, i: nat, mem: Memory, heap: Heap, ghost rest: multiset<nat>)
    returns (mem': Memory)
    requires MemoryOk(table, u, mem) && heap.Accounts(rest + OwnedBy(mem))
    modifies heap
    ensures heap.Accounts(rest + OwnedBy(mem')) && heap.lost == old(heap.lost)
    ensures mem'.selected == mem.selected && MemoryOk(table, u, mem')
    ensures mem.selected == Some(i) ==> mem' == mem && heap.live == old(heap.live)
    ensures mem.selected != Some(i) ==> mem'.word == WordOf(LeftIn(mem.word), {})
    ensures mem.selected != Some(i) && mem.word.Address? ==> heap.live == old(heap.live) - {mem.word.block}
  {
    mem' := mem;
    if mem.selected == None || mem.selected == Some(i) {
      assert mem.selected != Some(i) && mem.word.Address? ==> 0 !in heap.live;
      return;
    }
    if mem.word.Address? {
      OwnedIsLive(heap, rest, mem.word.block);
      heap.Free(mem.word.block, rest);
    }
    mem' := mem.(word := WordOf(LeftIn(mem.word), {}));
    assert rest + OwnedBy(mem') == rest;
  }

  /** A record of member i, decoded to v from the front of b. A pointer member gets storage by reallocating what its slot
      points to: the slot must hold the address of a live block,
               or NULL. A member in place is stored over what the release has left. */
  method SelectMember(S: Schema, table: Table, u: HType, i: nat, mem: Memory, accepted: bool, v: Value, b: bytes,
                      heap: Heap,
                      ghost rest: multiset<nat>)
    returns (ok: bool, mem': Memory)
    requires i < |table| && Member(table[i], u) && MemoryOk(table, u, mem) && heap.Accounts(rest + OwnedBy(mem))
    requires table[i].atype.Pointer? ==> LeftIn(mem.word) == {}
    modifies heap
    ensures heap.Accounts(rest + OwnedBy(mem')) && heap.lost == old(heap.lost)
    ensures (ok ==> accepted) && (accepted && (heap.reliable || table[i].atype.Static?) ==> ok)
    ensures ok ==> MemoryOk(table, u, mem') && mem'.selected == Some(i)
    ensures ok ==>
            LeftIn(mem'.word) == if table[i].atype.Pointer? then {} else UnionBytes(S, table[i], v, LeftIn(mem.word), b)
  {
    hide UnionBytes, ClearedBy, MemoryOk, WordOf;
    mem' := ReleaseUnion(table, u, i, mem, heap, rest);
    PointerWord(table, u, i, mem');
    WordFacts(LeftIn(mem.word), {});
    if table[i].atype.Static? {
      InPlaceOwnsNothing(table, u, i, mem');
      assert rest + OwnedBy(mem') == rest;
      var word := WordOf(UnionBytes(S, table[i], v, LeftIn(mem'.word), b), ClearedBy(S, table[i], v));
      WordFacts(UnionBytes(S, table[i], v, LeftIn(mem'.word), b), ClearedBy(S, table[i], v));
      mem' := Memory(Some(i), word);
      SelectedOk(table, u, i, word);
      ok := accepted;
    } else {
      var block := heap.Realloc(mem'.word.block, rest);
      if block == 0 {
        return false, mem'.(selected := Some(i));
      }
      mem' := Memory(Some(i), Address(block));
      SelectedOk(table, u, i, Address(block));
      ok := accepted;
    }
  }

  lemma WordFacts(left: set<nat>, pointers: set<nat>)
    ensures LeftIn(WordOf(left, pointers)) == left
    ensures WordOf(left, pointers).Address? ==> WordOf(left, pointers) == Address(0)
    ensures WordOf({}, {}) == Address(0)
    ensures var word := WordOf(left, pointers); word.Foreign? ==> word == WordOf(word.left, word.pointers)
  {
  }

  lemma PointerWord(table: Table, u: HType, i: nat, mem: Memory)
    requires MemoryOk(table, u, mem) && i < |table|
    ensures mem.selected == Some(i) && table[i].atype.Pointer? ==> mem.word.Address?
  {
  }

  lemma InPlaceOwnsNothing(table: Table, u: HType, i: nat, mem: Memory)
    requires MemoryOk(table, u, mem) && i < |table| && table[i].atype.Static?
    requires mem.selected != Some(i) ==> mem.word == WordOf(LeftIn(mem.word), {})
    ensures OwnedBy(mem) == multiset{}
  {
  }

  lemma SelectedOk(table: Table, u: HType, i: nat, word: Word)
    requires i < |table| && Member(table[i], u)
    requires if table[i].atype.Pointer? then word.Address? else word.Address? ==> word == Address(0)
    requires word.Foreign? ==> word == WordOf(word.left, word.pointers)
    ensures MemoryOk(table, u, Memory(Some(i), word))
  {
  }

  /** Follows one union through a message. Whenever a pointer member finds an address, the account of its blocks is kept,
      for every input and every failing allocation. */
  method FollowUnion(S: Schema, t: nat, u: HType, m: Slots, b: bytes, mem: Memory, heap: Heap, ghost rest: multiset<nat>)
    returns (ok: bool, mem': Memory)
    requires t < |S| && u.Oneof? && |m| == |S[t]| && MemoryOk(S[t], u, mem) && heap.Accounts(rest + OwnedBy(mem))
    requires FindsPointers(S, t, u, Start(m), LeftIn(mem.word), b)
    modifies heap
    ensures heap.Accounts(rest + OwnedBy(mem')) && heap.lost == old(heap.lost)
    ensures ok ==> DecLoop(S, S[t], Start(m), b).End? && MemoryOk(S[t], u, mem')
    ensures heap.reliable && DecLoop(S, S[t], Start(m), b).End? ==> ok
  {
    hide DecTag, DecRecord, Find, MemoryOk, OwnedBy, DecLoop, FindsPointers, UnionBytes;
    mem' := mem;
    var run, left, stop := Start(m), b, false;
    ok := true;
    while ok && !stop && left != []
      invariant |run.m| == |S[t]| && heap.Accounts(rest + OwnedBy(mem')) && heap.lost == old(heap.lost)
      invariant ok ==> MemoryOk(S[t], u, mem')
      invariant !ok && heap.reliable ==> DecLoop(S, S[t], Start(m), b) == Bad
      invariant ok && !stop ==> FindsPointers(S, t, u, run, LeftIn(mem'.word), left)
      invariant ok ==> if stop then DecLoop(S, S[t], Start(m), b).End?
                       else DecLoop(S, S[t], Start(m), b) == DecLoop(S, S[t], run, left)
      decreases ok, !stop, |left|
    {
      Turn(S, t, u, run, LeftIn(mem'.word), left);
      match DecTag(left)
      case NoTag => ok := false;
      case Terminator(_) => stop := true;
      case Tag(tag, w, after) =>
        var p := DecRecord(S, S[t], run, tag, w, after);
        var found := Find(S[t], tag);
        if found.Some? && Member(S[t][found.value], u) {
          MemberIsOne(S, S[t], run, tag, w, after);
          var v := if p.Ok? then p.value.m[found.value].v else Indeterminate;
          ok, mem' := SelectMember(S, S[t], u, found.value, mem', p.Ok?, v, after, heap, rest);
        } else {
          ok := p.Ok?;
        }
        if ok {
          run, left := p.value, p.rest;
        }
    }
    if ok && !stop {
      Transfer.EmptyLoop(S, S[t], run);
    }
  }

  lemma MemberIsOne(S: Schema, table: Table, run: Run, tag: nat, w: nat, b: bytes)
    requires |run.m| == |table| && Find(table, tag).Some? && table[Find(table, tag).value].htype.Oneof?
    ensures var i, p := Find(table, tag).value, DecRecord(S, table, run, tag, w, b);
            p.Ok? ==> |p.value.m| == |table| && p.value.m[i].One?
  {
    hide DecItem, Find;
  }

  lemma Turn(S: Schema, t: nat, u: HType, run: Run, left: set<nat>, b: bytes)
    requires t < |S| && |run.m| == |S[t]| && b != [] && FindsPointers(S, t, u, run, left, b)
    ensures DecTag(b).Terminator? ==> DecLoop(S, S[t], run, b).End?
    ensures DecTag(b).NoTag? ==> DecLoop(S, S[t], run, b) == Bad
    ensures var w := DecTag(b);
            w.Tag? ==>
              var p := DecRecord(S, S[t], run, w.tag, w.wireType, w.rest);
              var found := Find(S[t], w.tag);
              && (found.Some? && PointerMember(S[t], u, found.value) ==> left == {})
              && (p.Ok? ==> FindsPointers(S, t, u, p.value, LeftAfter(S, S[t], u, found, p.value.m, left, w.rest), p.rest))
              && DecLoop(S, S[t], run, b) == if p.Ok? then DecLoop(S, S[t], p.value, p.rest) else Bad
  {
    hide DecTag, DecRecord, Find, LeftAfter;
  }

  // ---- five bytes ----

  /** A number in place and a string behind a pointer in one union. */
  const COUNT: Field := Field(1, UVarint, HType.Oneof(0), Static, 4, -4, 4, 0, Null)
  const LABEL: Field := Field(2, String, HType.Oneof(0), AType.Pointer, PB_SIZE_MAX, -4, 1, 0, Null)
  const MIXED: Schema := [[COUNT, LABEL]]

  /** The number 5 and then the string "a". As far as values are concerned this is an ordinary message; but when the string
      arrives, the union holds the number, and it is taken for the address of a block to be enlarged. */
  lemma FiveBytes()
    ensures SchemaOk(MIXED) && !UniformUnions(MIXED[0])
    ensures DecFresh(MIXED, 0, [0x08, 5, 0x12, 1, 0x61]) == Ok([One(false, Indeterminate), One(true, Blob([0x61]))], [])
    ensures !FindsPointers(MIXED, 0, HType.Oneof(0), Start(Defaults(MIXED, 0)), {}, [0x08, 5, 0x12, 1, 0x61])
  {
    var table := [COUNT, LABEL];
    MixedTable();
    hide TableOk, UniformUnions, SchemaOk, DecRecord, DecTag, DecVarint32, Defaults, StoreOne;
    var m, b := Defaults(MIXED, 0), [0x08, 5, 0x12, 1, 0x61];
    FiveTags();
    CountRecord(m);
    assert NonzeroAt(table[0], Scalar(5), 0, 0);
    var left := UnionBytes(MIXED, table[0], Scalar(5), {}, [5, 0x12, 1, 0x61]);
    assert 0 in left;
    assert InPlaceMember(table, HType.Oneof(0), 0) && PointerMember(table, HType.Oneof(0), 1);
    var run1 := Start(m).(m := [One(true, Scalar(5)), One(false, Indeterminate)]);
    LabelRecord(run1);
    var run2 := run1.(m := [One(false, Indeterminate), One(true, Blob([0x61]))]);
    Transfer.EmptyLoop(MIXED, table, run2);
    assert DecLoop(MIXED, table, run1, [0x12, 1, 0x61]) == End(run2, [], false);
    assert !FindsPointers(MIXED, 0, HType.Oneof(0), run1, left, [0x12, 1, 0x61]);
    assert LeftAfter(MIXED, table, HType.Oneof(0), Some(0), run1.m, {}, [5, 0x12, 1, 0x61]) == left;
  }

  lemma FiveTags()
    ensures DecTag([0x08, 5, 0x12, 1, 0x61]) == Tag(1, 0, [5, 0x12, 1, 0x61])
    ensures DecTag([0x12, 1, 0x61]) == Tag(2, 2, [1, 0x61])
  {
    var b := [0x08, 5, 0x12, 1, 0x61];
    assert b[1..] == [5, 0x12, 1, 0x61] && [0x12, 1, 0x61][1..] == [1, 0x61];
  }

  lemma MixedTable()
    ensures MIXED[0] == [COUNT, LABEL] && TableOk(MIXED, 0, MIXED[0])
    ensures !UniformUnions(MIXED[0]) && SchemaOk(MIXED)
    ensures Defaults(MIXED, 0) == [One(false, Indeterminate), One(false, Indeterminate)]
    ensures FixedComplete(MIXED[0], Start([])) && forall seen :: RequiredSeen(MIXED[0], seen)
  {
    var table := MIXED[0];
    assert table[0].htype == table[1].htype && table[0].atype != table[1].atype;
  }

  lemma CountRecord(m: Slots)
    requires m == [One(false, Indeterminate), One(false, Indeterminate)]
    ensures DecRecord(MIXED, [COUNT, LABEL], Start(m), 1, 0, [5, 0x12, 1, 0x61])
            == Ok(Start(m).(m := [One(true, Scalar(5)), One(false, Indeterminate)]), [0x12, 1, 0x61])
    ensures Find([COUNT, LABEL], 1) == Some(0)
  {
    var table, b := [COUNT, LABEL], [5, 0x12, 1, 0x61];
    assert FindFrom(table, 1, 0) == Some(0);
    assert b[..1] == [5] && [5][1..] == [] && b[1..] == [0x12, 1, 0x61];
    assert DecVarint(b) == Ok(5, [0x12, 1, 0x61]);
    assert DecScalar(COUNT, b) == Ok(5, [0x12, 1, 0x61]);
    hide DecScalar, DecVarint;
    assert StoreOne(table, m, 0, Scalar(5)) == [One(true, Scalar(5)), One(false, Indeterminate)];
  }

  lemma LabelRecord(run: Run)
    requires run.m == [One(true, Scalar(5)), One(false, Indeterminate)]
    ensures DecRecord(MIXED, [COUNT, LABEL], run, 2, 2, [1, 0x61])
            == Ok(run.(m := [One(false, Indeterminate), One(true, Blob([0x61]))]), [])
    ensures Find([COUNT, LABEL], 2) == Some(1)
  {
    var table, b := [COUNT, LABEL], [1, 0x61];
    assert FindFrom(table, 2, 1) == Some(1);
    assert FindFrom(table, 2, 0) == Some(1);
    assert b[1..] == [0x61] && [0x61][..1] == [0x61] && [0x61][1..] == [];
    assert DecBlob(LABEL, b) == Ok([0x61], []);
    hide DecBlob;
    assert StoreOne(table, run.m, 1, Blob([0x61])) == [One(false, Indeterminate), One(true, Blob([0x61]))];
  }

  // ---- a message of pointers in a union ----

  /** A message with one string behind a pointer, and the union of this message in place and a string behind a pointer. */
  const NAME: Field := Field(1, String, Optional, AType.Pointer, 0, 0, 1, 0, Null)
  const NAMED: Field := Field(1, Submessage, HType.Oneof(0), Static, 8, -8, 8, 0, Table(0))
  const TITLE: Field := Field(2, String, HType.Oneof(0), AType.Pointer, PB_SIZE_MAX, -8, 1, 0, Null)
  const TITLED: Schema := [[NAME], [NAMED, TITLE]]

  /** This union has members of both kinds, but no input goes wrong: before the title is decoded the name is released, and
      the union holds NULL. */
  lemma TitledFinds(b: bytes)
    ensures SchemaOk(TITLED) && !UniformUnions(TITLED[1])
    ensures FindsPointers(TITLED, 1, HType.Oneof(0), Start(Defaults(TITLED, 1)), {}, b)
  {
    TitledOk();
    hide CanMark, FindsPointers, SchemaOk, TableOk, Defaults, UniformUnions;
    var u := HType.Oneof(0);
    PointersMarkNothing(TITLED, NAMED);
    forall i | InPlaceMember(TITLED[1], u, i)
      ensures !CanMark(TITLED, TITLED[1][i])
    {
    }
    UnionExact(TITLED, 1, u);
  }

  lemma TitledOk()
    ensures TITLED[0] == [NAME] && TITLED[1] == [NAMED, TITLE]
    ensures SchemaOk(TITLED) && TableOk(TITLED, 1, TITLED[1]) && !UniformUnions(TITLED[1]) && OnlyPointers(TITLED, 0)
  {
    assert TITLED[0] == [NAME] && TITLED[1] == [NAMED, TITLE];
    assert TableOk(TITLED, 0, [NAME]) && TableOk(TITLED, 1, [NAMED, TITLE]);
    var table := TITLED[1];
    assert table[0].htype == table[1].htype && table[0].atype != table[1].atype;
  }
}
