/** What a receiver makes of records on the wire, whoever wrote them. */
module WireReading {
  import opened Bits
  import opened Varint
  import opened Integers
  import opened Descriptor
  import opened Message
  import opened EncodeSpec
  import opened DecodeSpec
  import opened Wire
  import opened Presence
  import opened WireRecords
  import Concat
  import Transfer

  // ---- numbers ----

  /** The number a field makes of a 64-bit varint x. Narrow signed fields look at its low half only. */
  function VarintMeaning(f: Field, x: nat): Option<int> {
    match f.ltype
    case UVarint => Within(0, Span(f.dataSize), x)
    case SVarint => Within(-(Span(f.dataSize) / 2), Span(f.dataSize) / 2, if x % 2 == 0 then x / 2 else -(x / 2) - 1)
    case _ =>
      if f.dataSize == 8 then Some(if x < 0x8000_0000_0000_0000 then x else x - 0x1_0000_0000_0000_0000)
      else
        var low := x % 0x1_0000_0000;
        Within(-(Span(f.dataSize) / 2), Span(f.dataSize) / 2, if low < 0x8000_0000 then low else low - 0x1_0000_0000)
  }

  function Span(size: nat): nat {
    match size
    case 1 => 0x100
    case 2 => 0x1_0000
    case 4 => 0x1_0000_0000
    case _ => 0x1_0000_0000_0000_0000
  }

  function Within(low: int, high: int, n: int): Option<int> {
    if low <= n < high then Some(n) else None
  }

  lemma VarintAt(u: bytes, tail: bytes)
    requires IsVarint(u)
    ensures DecVarint(u + tail) == if |u| <= 10 then Ok(Base128(u) % U64, tail) else Fail
  {
    VarintLenOf(u, tail);
    assert (u + tail)[..|u|] == u && (u + tail)[|u|..] == tail;
  }

  /** Integers of every width, from a varint of any form: longer ones than ten bytes and numbers out of range are refused. */
  lemma IntegerRead(f: Field, u: bytes, tail: bytes)
    requires (f.ltype.Varint? || f.ltype.UVarint? || f.ltype.SVarint?) && IntegerSize(f.dataSize) && IsVarint(u)
    ensures DecScalar(f, u + tail) ==
            if |u| > 10 then Fail
            else match VarintMeaning(f, Base128(u) % 0x1_0000_0000_0000_0000)
                 case Some(n) => Ok(n, tail)
                 case None => Fail
  {
    hide DecVarint, IsVarint, NarrowVarint, NarrowUnsigned, NarrowSigned, UnZigZag, ToSigned, Base128;
    VarintAt(u, tail);
    var x := Base128(u) % U64;
    NarrowAccepts(f.dataSize, x);
    UnZigZagValue(x);
    SignedValue(x);
  }

  lemma SignedValue(x: nat)
    requires x < U64
    ensures ToSigned(8, x) == if x < 0x8000_0000_0000_0000 then x else x - 0x1_0000_0000_0000_0000
    ensures ToSigned(4, x) ==
            var low := x % 0x1_0000_0000; if low < 0x8000_0000 then low else low - 0x1_0000_0000
  {
  }

  /** A boolean is true when one of the low 32 bits is set, whatever the others are; which varints the 32-bit reader takes is
      said by `Varint32Accepts`. */
  lemma BoolRead(f: Field, u: bytes, tail: bytes)
    requires f.ltype.Bool? && IsVarint(u) && |u| <= 10 && DecVarint32(u).Ok?
    ensures DecScalar(f, u + tail) == Ok(if Base128(u) % 0x1_0000_0000 == 0 then 0 else 1, tail)
  {
    hide DecVarint, DecVarint32, IsVarint, Base128;
    assert u + [] == u;
    VarintLenOf(u, []);
    VarintAt(u, []);
    ReadersAgree(u);
    DecVarint32Frame(u, tail);
    assert [] + tail == tail;
    LowHalf(Base128(u));
  }

  function LowFirst(a: int, b: int, c: int, d: int): int {
    a + 0x100 * b + 0x1_0000 * c + 0x100_0000 * d
  }

  /** Words of fixed width start with their lowest byte. */
  lemma WordRead(f: Field, u: bytes, tail: bytes)
    ensures f.ltype.Fixed32? && |u| == 4 ==>
              DecScalar(f, u + tail) == Ok(LowFirst(u[0], u[1], u[2], u[3]), tail)
    ensures f.ltype.Fixed64? && |u| == 8 ==>
              DecScalar(f, u + tail) ==
              Ok(LowFirst(u[0], u[1], u[2], u[3]) + 0x1_0000_0000 * LowFirst(u[4], u[5], u[6], u[7]), tail)
  {
    if |u| == 4 {
      assert (u + tail)[..4] == u && (u + tail)[4..] == tail;
      FourBytes(u);
    }
    if |u| == 8 {
      assert (u + tail)[..8] == u && (u + tail)[8..] == tail;
      FourBytes(u);
      FourBytes(u[4..]);
    }
  }

  lemma FourBytes(u: bytes)
    requires |u| >= 4
    ensures Base256(u) == LowFirst(u[0], u[1], u[2], u[3]) + 0x1_0000_0000 * Base256(u[4..])
    ensures Base256([]) == 0
  {
    assert u[1..][1..] == u[2..] && u[2..][1..] == u[3..] && u[3..][1..] == u[4..];
    assert Base256(u[3..]) == u[3] + 0x100 * Base256(u[4..]);
    assert Base256(u[2..]) == u[2] + 0x100 * Base256(u[3..]);
    assert Base256(u[1..]) == u[1] + 0x100 * Base256(u[2..]);
  }

  // ---- byte strings ----

  /** The receiver's memory has room: the size of a byte array and the terminator of a string are stored as well. */
  predicate Room(f: Field, n: nat) {
    match f.ltype
    case Bytes => f.atype.Static? ==> 4 + n <= f.dataSize
    case String => if f.atype.Static? then n + 1 <= f.dataSize else n + 1 < 0x1_0000_0000
    case _ => n == f.dataSize
  }

  /** A byte string is taken as it is exactly when there is room; nothing stands for the zero bytes of a fixed length. */
  lemma BytesRead(f: Field, data: bytes, tail: bytes)
    requires (f.ltype.Bytes? || f.ltype.String? || f.ltype.FixedLengthBytes?) && |data| < U32 && f.dataSize < U32
    ensures DecBlob(f, EncVarint(|data|) + data + tail) ==
            if f.ltype.FixedLengthBytes? && data == [] then Ok(seq(f.dataSize, _ => 0), tail)
            else if Room(f, |data|) then Ok(data, tail)
            else Fail
  {
    hide EncVarint, DecVarint32;
    Varint32RoundTrip(|data|, data + tail);
    assert EncVarint(|data|) + data + tail == EncVarint(|data|) + (data + tail);
    assert (data + tail)[..|data|] == data && (data + tail)[|data|..] == tail;
  }

  /** An empty payload stands for the value that a byte string of fixed length has by default. */
  lemma EmptyIsDefault(S: Schema, t: nat, f: Field, tail: bytes)
    requires t < |S| && f.ltype.FixedLengthBytes? && !f.ptr.Default? && f.dataSize < U32
    ensures DecItem(S, f, Fresh(S, f), [0] + tail) == Ok(DefaultItem(S, t, f), tail)
  {
    hide DecVarint32;
    Varint32RoundTrip(0, tail);
    assert EncVarint(0) == [0];
  }

  /** Of a string the characters up to the terminator are sent, or all that the array has. */
  lemma {:induction false} CharactersExact(f: Field, data: bytes)
    ensures var s := Characters(f, data);
            && s <= data && 0 !in s
            && (f.atype.Static? ==> |s| <= f.dataSize)
            && (|s| == |data| || data[|s|] == 0 || (f.atype.Static? && |s| == f.dataSize))
  {
    hide UpToNul;
    UpToNulExact(if f.atype.Static? && f.dataSize < |data| then data[..f.dataSize] else data);
  }

  lemma {:induction false} UpToNulExact(data: bytes)
    ensures var s := UpToNul(data);
            s <= data && 0 !in s && (|s| == |data| || data[|s|] == 0)
  {
    if data != [] && data[0] != 0 {
      UpToNulExact(data[1..]);
    }
  }

  // ---- records ----

  /** The record has a tag and a payload that a 32-bit length can announce. */
  predicate Proper(r: Record) {
    0 < r.tag < 0x2000_0000 &&
    match r.payload
    case VarintOf(n) => n < 0x1_0000_0000_0000_0000
    case Fixed64Of(n) => n < 0x1_0000_0000_0000_0000
    case Delimited(data) => |data| < 0x1_0000_0000
    case Fixed32Of(n) => n < 0x1_0000_0000
  }

  lemma {:induction false} VarintIs(n: nat)
    ensures IsVarint(EncVarint(n))
  {
    if n >= 128 {
      EncVarintUnfold(n);
      VarintIs(n / 128);
      assert EncVarint(n) == [n % 128 + 128] + EncVarint(n / 128);
    }
  }

  /** A tag word has the wire type in its three low bits; only the word zero ends a message. */
  lemma TagWord(tag: nat, w: nat, tail: bytes)
    requires tag < 0x2000_0000 && w < 8
    ensures DecTag(EncVarint(8 * tag + w) + tail) ==
            if tag == 0 && w == 0 then Terminator(tail) else Tag(tag, w, tail)
  {
    hide EncVarint, DecVarint32;
    Varint32RoundTrip(8 * tag + w, tail);
  }

  /** Any receiver reads the tag word of a record and can tell from it where the record ends. */
  lemma RecordEnds(r: Record, tail: bytes)
    requires Proper(r)
    ensures DecTag(Write(r) + tail) == Tag(r.tag, Number(r.payload), Body(r.payload) + tail)
    ensures IsPayload(Number(r.payload), Body(r.payload))
    ensures Skip(Number(r.payload), Body(r.payload) + tail) == Some(tail)
  {
    hide EncVarint, DecTag, IsVarint, Skip, EncFixed;
    var w, body := Number(r.payload), Body(r.payload);
    assert 8 * r.tag + w == r.tag * 8 + w;
    assert EncVarint(8 * r.tag + w) + body + tail == EncVarint(8 * r.tag + w) + (body + tail);
    Transfer.TagRoundTrip(r.tag, w, body + tail);
    match r.payload {
      case VarintOf(n) => VarintIs(n);
      case Delimited(data) =>
        var n := |EncVarint(|data|)|;
        Varint32RoundTrip(|data|, []);
        assert EncVarint(|data|) + [] == EncVarint(|data|) == body[..n];
        assert IsLength(body, n);
      case _ =>
    }
    SkipsPayload(w, body, tail);
  }

  predicate AllProper(rs: seq<Record>) {
    forall k :: 0 <= k < |rs| ==> Proper(rs[k])
  }

  /** The bytes determine the records. */
  lemma {:induction false} RecordsUnique(rs: seq<Record>, rs': seq<Record>)
    requires AllProper(rs) && AllProper(rs') && WriteAll(rs) == WriteAll(rs')
    ensures rs == rs'
  {
    hide DecTag, Proper, Skip, Number, Body, IsPayload;
    forall r
      ensures Write(r) != []
    {
      RecordNotEmpty(r);
    }
    if rs != [] && rs' != [] {
      var r, r' := rs[0], rs'[0];
      RecordEnds(r, WriteAll(rs[1..]));
      RecordEnds(r', WriteAll(rs'[1..]));
      hide Write;
      RecordsUnique(rs[1..], rs'[1..]);
      SameFront(Body(r.payload), Body(r'.payload), WriteAll(rs[1..]));
      SamePayload(r, r');
      assert rs == [r] + rs[1..] && rs' == [r'] + rs'[1..];
    }
  }

  lemma RecordNotEmpty(r: Record)
    ensures Write(r) != []
  {
    hide EncVarint, Body;
  }

  lemma SameFront(a: bytes, b: bytes, tail: bytes)
    requires a + tail == b + tail
    ensures a == b
  {
    assert |a| == |b|;
    assert a == (a + tail)[..|a|] && b == (b + tail)[..|b|];
  }

  lemma SamePayload(r: Record, r': Record)
    requires Proper(r) && Proper(r') && Number(r.payload) == Number(r'.payload) && Body(r.payload) == Body(r'.payload)
    ensures r.payload == r'.payload
  {
    hide EncVarint, EncFixed, DecVarint, DecVarint32;
    var p, p' := r.payload, r'.payload;
    match p
    case VarintOf(n) =>
      VarintRoundTrip(n, []);
      VarintRoundTrip(p'.n, []);
    case Delimited(data) =>
      Varint32RoundTrip(|data|, data);
      Varint32RoundTrip(|p'.data|, p'.data);
    case Fixed64Of(n) =>
      ShlWords();
      EncFixedSpells(8, n);
      EncFixedSpells(8, p'.n);
    case Fixed32Of(n) =>
      ShlWords();
      EncFixedSpells(4, n);
      EncFixedSpells(4, p'.n);
  }

  // ---- records of fields that the receiver does not know ----

  predicate Foreign(table: Table, rs: seq<Record>) {
    forall k :: 0 <= k < |rs| ==> Proper(rs[k]) && Find(table, rs[k].tag).None?
  }

  /** They are passed over one by one, and nothing changes. */
  lemma {:induction false} ForeignRecords(S: Schema, table: Table, run: Run, rs: seq<Record>, b: bytes)
    requires |table| == |run.m| && Foreign(table, rs)
    ensures DecLoop(S, table, run, WriteAll(rs) + b) == DecLoop(S, table, run, b)
    decreases |rs|
  {
    hide DecLoop, Find, Proper, Write;
    if rs == [] {
      assert WriteAll(rs) + b == b;
    } else {
      var more := WriteAll(rs[1..]) + b;
      assert WriteAll(rs) + b == Write(rs[0]) + more;
      ForeignRecords(S, table, run, rs[1..], b);
      ForeignStep(S, table, run, rs[0], more);
    }
  }

  lemma ForeignStep(S: Schema, table: Table, run: Run, r: Record, b: bytes)
    requires |table| == |run.m| && Proper(r) && Find(table, r.tag).None?
    ensures DecLoop(S, table, run, Write(r) + b) == DecLoop(S, table, run, b)
  {
    hide DecTag, Find, Body, Number, IsPayload;
    RecordEnds(r, []);
    assert Write(r) + [] == Write(r) && Body(r.payload) + [] == Body(r.payload);
    Concat.UnknownStep(S, table, run, Write(r), b);
  }

  // ---- the records of an encoding ----

  lemma ItemProper(S: Schema, t: nat, f: Field, v: Value)
    requires FieldOk(S, t, f) && RangedItem(S, f, v) && |Write(Record(f.tag, ItemPayload(S, f, v)))| < U32
    ensures Proper(Record(f.tag, ItemPayload(S, f, v)))
  {
    hide EncVarint, EncFixed, MessageRecords, Ranged, Characters;
  }

  lemma {:induction false} ItemsProper(S: Schema, t: nat, f: Field, items: seq<Value>)
    requires FieldOk(S, t, f) && forall k :: 0 <= k < |items| ==> RangedItem(S, f, items[k])
    requires |WriteAll(ItemRecords(S, f, items))| < U32
    ensures forall r :: r in ItemRecords(S, f, items) ==> Proper(r) && r.tag == f.tag
  {
    hide FieldOk, RangedItem, ItemPayload, Write, Proper;
    if items != [] {
      ItemProper(S, t, f, items[0]);
      ItemsProper(S, t, f, items[1..]);
    }
  }

  lemma SlotProper(S: Schema, t: nat, f: Field, slot: Slot)
    requires FieldOk(S, t, f) && RangedSlot(S, f, slot) && |WriteAll(SlotRecords(S, f, slot))| < U32
    ensures forall r :: r in SlotRecords(S, f, slot) ==> Proper(r) && r.tag == f.tag && !f.ltype.Extension?
  {
    hide RangedItem, ItemPayload, EncVarint, BlankSlot, ItemRecords, ScalarBodies;
    match slot
    case One(_, v) =>
      hide FieldOk;
      OneRecord(Record(f.tag, ItemPayload(S, f, v)));
      if SlotRecords(S, f, slot) != [] {
        ItemProper(S, t, f, v);
      }
    case Many(items) =>
      if Packable(f.ltype) {
        OneRecord(Record(f.tag, Delimited(ScalarBodies(f, items))));
      } else if SlotRecords(S, f, slot) != [] {
        ItemsProper(S, t, f, items);
      }
  }

  /** The field of the table that the record belongs to. */
  predicate OfTable(table: Table, r: Record) {
    exists i :: 0 <= i < |table| && table[i].tag == r.tag && !table[i].ltype.Extension?
  }

  lemma {:induction false} FromProper(S: Schema, t: nat, m: Slots, i: nat)
    requires SchemaOk(S) && Ranged(S, t, m) && i <= |m| && |WriteAll(RecordsFrom(S, S[t], m, i))| < U32
    ensures forall r :: r in RecordsFrom(S, S[t], m, i) ==> Proper(r) && OfTable(S[t], r)
    decreases |m| - i
  {
    hide SlotRecords, Write, Proper, RangedSlot, FieldOk;
    if i < |m| {
      WriteBoth(SlotRecords(S, S[t][i], m[i]), RecordsFrom(S, S[t], m, i + 1));
      assert TableOk(S, t, S[t]);
      SlotProper(S, t, S[t][i], m[i]);
      FromProper(S, t, m, i + 1);
    }
  }

  /** A receiver whose table has none of the fields passes over the whole encoding: the struct and all verdicts stay as they
      are, and every byte is used. */
  lemma ForeignMessage(S: Schema, t: nat, m: Slots, S': Schema, table: Table, run: Run, b: bytes)
    requires SchemaOk(S) && Ranged(S, t, m) && EncMessage(S, t, m).Success? && |EncMessage(S, t, m).value| < U32
    requires forall i :: 0 <= i < |S[t]| && !S[t][i].ltype.Extension? ==> Find(table, S[t][i].tag).None?
    requires |table| == |run.m|
    ensures DecLoop(S', table, run, EncMessage(S, t, m).value + b) == DecLoop(S', table, run, b)
    ensures DecLoop(S', table, run, EncMessage(S, t, m).value) == End(run, [], false)
  {
    hide EncMessage, DecLoop, Find, RecordsFrom, Proper, RangedSlot, SchemaOk, Encodable;
    MessageWritten(S, t, m);
    var rs := MessageRecords(S, Table(t), m);
    assert rs == RecordsFrom(S, S[t], m, 0);
    FromProper(S, t, m, 0);
    assert forall k :: 0 <= k < |rs| ==> rs[k] in rs;
    ForeignRecords(S', table, run, rs, b);
    ForeignRecords(S', table, run, rs, []);
    assert WriteAll(rs) + [] == WriteAll(rs);
    Transfer.EmptyLoop(S', table, run);
  }
}
