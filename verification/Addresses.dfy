/** Where all unions, at every depth, hold addresses. */
module Addresses {
  import opened Bits
  import opened Varint
  import opened Integers
  import opened Descriptor
  import opened Message
  import opened EncodeSpec
  import opened DecodeSpec
  import opened Merge
  import opened RoundTrip
  import opened Stale
  import opened WordBytes
  import opened Unions
  import Concat
  import Transfer

  /** The bytes left in the words of the unions of a struct, by number, and in those of its submessages in place, by
      field. */
  datatype Dirt = Dirt(words: map<nat, set<nat>>, parts: map<nat, Dirt>)

  /** Nothing is left: after initialisation the word of a union with a pointer member is NULL. */
  const NoDirt: Dirt := Dirt(map[], map[])

  function WordAt(d: Dirt, u: nat): set<nat> {
    if u in d.words then d.words[u] else {}
  }

  function PartAt(d: Dirt, i: nat): Dirt {
    if i in d.parts then d.parts[i] else NoDirt
  }

  // ---- addresses at every depth ----

  /** The submessage in front of b, if the item is one, finds addresses. */
  ghost predicate ItemFinds(S: Schema, f: Field, start: Slots, d: Dirt, b: bytes)
    decreases |b|, 0
  {
    f.ltype.Submessage? && f.ptr.Table? && f.ptr.id < |S| && DecPrefixed(b).Ok? ==>
      AllFind(S, f.ptr.id, Start(start), d, DecPrefixed(b).value)
  }

  /** A record of field i finds addresses: its own, when it is a pointer member, and those of its submessage. Array
      elements, union members and what stands behind a pointer start from an initialised struct. */
  ghost predicate FieldFinds(S: Schema, table: Table, m: Slots, i: nat, n: nat, d: Dirt, b: bytes)
    requires i < |table| == |m|
    decreases |b|, 1
  {
    var f := table[i];
    && (f.htype.Oneof? && f.atype.Pointer? ==> WordAt(d, f.htype.union) == {})
    && match m[i]
       case One(_, _) => ItemFinds(S, f, StartOf(S, f, m[i]), if InPlace(f) then PartAt(d, i) else NoDirt, b)
       case Many(_) => n < Capacity(f) ==> ItemFinds(S, f, Fresh(S, f), NoDirt, b)
  }

  ghost predicate RecordFinds(S: Schema, table: Table, run: Run, d: Dirt, i: nat, b: bytes)
    requires i < |table| == |run.m|
    decreases |b|, 2
  {
    run.m[i].One? || Ready(table, run, i) ==>
      FieldFinds(S, table, run.m, i, if run.m[i].Many? then CountOf(table, run, i) else 0, d, b)
  }

  /** While b is decoded, in a struct whose unions hold what `d` says, every pointer member that is selected finds an
      address or NULL, at every depth. */
  ghost predicate AllFind(S: Schema, t: nat, run: Run, d: Dirt, b: bytes)
    requires t < |S|
    decreases |b|, 3
  {
    |run.m| == |S[t]| && b != [] && DecTag(b).Tag? ==>
      var w := DecTag(b);
      var p := DecRecord(S, S[t], run, w.tag, w.wireType, w.rest);
      var found := Find(S[t], w.tag);
      && (found.Some? ==> RecordFinds(S, S[t], run, d, found.value, w.rest))
      && (p.Ok? ==> AllFind(S, t, p.value, DirtAfter(S, t, run, d, found, p.value.m, w.rest), p.rest))
  }

  /** What is left behind a record of the field found. */
  ghost function DirtAfter(S: Schema, t: nat, run: Run, d: Dirt, found: Option<nat>, m: Slots, b: bytes): Dirt
    requires t < |S| && |run.m| == |S[t]|
    decreases |b|, 0
  {
    if found.None? || found.value >= |S[t]| then d
    else
      var i := found.value;
      var f := S[t][i];
      if f.htype.Oneof? then
        d.(words := d.words[f.htype.union := LeftAfter(S, S[t], f.htype, found, m, WordAt(d, f.htype.union), b)])
      else if InPlace(f) && f.ptr.Table? && f.ptr.id < |S| && run.m[i].One? && DecPrefixed(b).Ok? then
        d.(parts := d.parts[i := LoopDirt(S, f.ptr.id, Start(StartOf(S, f, run.m[i])), PartAt(d, i), DecPrefixed(b).value)])
      else d
  }

  ghost function LoopDirt(S: Schema, t: nat, run: Run, d: Dirt, b: bytes): Dirt
    requires t < |S|
    decreases |b|, 1
  {
    if |run.m| != |S[t]| || b == [] || !DecTag(b).Tag? then d
    else
      var w := DecTag(b);
      var p := DecRecord(S, S[t], run, w.tag, w.wireType, w.rest);
      if p.Fail? then d
      else LoopDirt(S, t, p.value, DirtAfter(S, t, run, d, Find(S[t], w.tag), p.value.m, w.rest), p.rest)
  }

  /** Every union by itself finds addresses. */
  lemma {:induction false} EachUnionFinds(S: Schema, t: nat, run: Run, d: Dirt, b: bytes, u: nat)
    requires t < |S| && AllFind(S, t, run, d, b)
    ensures FindsPointers(S, t, HType.Oneof(u), run, WordAt(d, u), b)
    decreases |b|
  {
    hide DecTag, DecRecord, Find, DirtAfter, RecordFinds, LeftAfter;
    if |run.m| == |S[t]| && b != [] && DecTag(b).Tag? {
      var w := DecTag(b);
      var p := DecRecord(S, S[t], run, w.tag, w.wireType, w.rest);
      var found := Find(S[t], w.tag);
      if found.Some? && PointerMember(S[t], HType.Oneof(u), found.value) {
        WordFinds(S, S[t], run, d, found.value, w.rest);
      }
      if p.Ok? {
        WordAfter(S, t, run, d, found, p.value.m, w.rest, u);
        EachUnionFinds(S, t, p.value, DirtAfter(S, t, run, d, found, p.value.m, w.rest), p.rest, u);
      }
    }
  }

  lemma WordFinds(S: Schema, table: Table, run: Run, d: Dirt, i: nat, b: bytes)
    requires i < |table| == |run.m| && RecordFinds(S, table, run, d, i, b) && table[i].htype.Oneof? &&
             table[i].atype.Pointer?
    ensures WordAt(d, table[i].htype.union) == {}
  {
    hide ItemFinds, CountOf;
    assert Ready(table, run, i);
  }

  lemma WordAfter(S: Schema, t: nat, run: Run, d: Dirt, found: Option<nat>, m: Slots, b: bytes, u: nat)
    requires t < |S| && |run.m| == |S[t]|
    ensures WordAt(DirtAfter(S, t, run, d, found, m, b), u) == LeftAfter(S, S[t], HType.Oneof(u), found, m, WordAt(d, u), b)
  {
    hide UnionBytes, LoopDirt, DecPrefixed, StartOf;
  }

  // ---- uniform unions ----

  /** Nothing is left in a union with a pointer member. */
  ghost predicate Tidied(S: Schema, t: nat, d: Dirt)
    decreases d
  {
    t < |S| &&
    (forall j :: 0 <= j < |S[t]| && S[t][j].htype.Oneof? && S[t][j].atype.Pointer? ==>
      WordAt(d, S[t][j].htype.union) == {}) &&
    (forall i :: 0 <= i < |S[t]| && InPlace(S[t][i]) && S[t][i].ptr.Table? && S[t][i].ptr.id < |S| && i in d.parts ==>
       Tidied(S, S[t][i].ptr.id, d.parts[i]))
  }

  lemma PartTidied(S: Schema, t: nat, d: Dirt, i: nat)
    requires t < |S| && Tidied(S, t, d) && i < |S[t]| && InPlace(S[t][i]) && S[t][i].ptr.Table? && S[t][i].ptr.id < |S|
    ensures Tidied(S, S[t][i].ptr.id, PartAt(d, i))
  {
  }

  lemma {:induction false} AfterTidied(S: Schema, t: nat, run: Run, d: Dirt, found: Option<nat>, m: Slots, b: bytes)
    requires UniformSchema(S) && t < |S| && |run.m| == |S[t]| && Tidied(S, t, d)
    ensures Tidied(S, t, DirtAfter(S, t, run, d, found, m, b))
    decreases |b|, 0
  {
    hide DecPrefixed, UnionBytes, LoopDirt, StartOf, Start;
    if found.Some? && found.value < |S[t]| {
      var i := found.value;
      var f := S[t][i];
      assert UniformUnions(S[t]);
      hide UniformSchema;
      if !f.htype.Oneof? && InPlace(f) && f.ptr.Table? && f.ptr.id < |S| && run.m[i].One? && DecPrefixed(b).Ok? {
        PartTidied(S, t, d, i);
        LoopTidied(S, f.ptr.id, Start(StartOf(S, f, run.m[i])), PartAt(d, i), DecPrefixed(b).value);
      }
    }
  }

  lemma {:induction false} LoopTidied(S: Schema, t: nat, run: Run, d: Dirt, b: bytes)
    requires UniformSchema(S) && t < |S| && Tidied(S, t, d)
    ensures Tidied(S, t, LoopDirt(S, t, run, d, b))
    decreases |b|, 1
  {
    hide UniformSchema, DecTag, DecRecord, Find, DirtAfter, Tidied;
    if |run.m| == |S[t]| && b != [] && DecTag(b).Tag? {
      var w := DecTag(b);
      var p := DecRecord(S, S[t], run, w.tag, w.wireType, w.rest);
      if p.Ok? {
        AfterTidied(S, t, run, d, Find(S[t], w.tag), p.value.m, w.rest);
        LoopTidied(S, t, p.value, DirtAfter(S, t, run, d, Find(S[t], w.tag), p.value.m, w.rest), p.rest);
      }
    }
  }

  /** With uniform unions every input finds addresses, at every depth. */
  lemma {:induction false} UniformAllFind(S: Schema, t: nat, run: Run, d: Dirt, b: bytes)
    requires UniformSchema(S) && t < |S| && Tidied(S, t, d)
    ensures AllFind(S, t, run, d, b)
    decreases |b|, 3
  {
    hide UniformSchema, DecTag, DecRecord, Find, DirtAfter, Tidied, RecordFinds;
    if |run.m| == |S[t]| && b != [] && DecTag(b).Tag? {
      var w := DecTag(b);
      var p := DecRecord(S, S[t], run, w.tag, w.wireType, w.rest);
      var found := Find(S[t], w.tag);
      if found.Some? {
        UniformRecordFinds(S, t, run, d, found.value, w.rest);
      }
      if p.Ok? {
        AfterTidied(S, t, run, d, found, p.value.m, w.rest);
        UniformAllFind(S, t, p.value, DirtAfter(S, t, run, d, found, p.value.m, w.rest), p.rest);
      }
    }
  }

  lemma {:induction false} UniformRecordFinds(S: Schema, t: nat, run: Run, d: Dirt, i: nat, b: bytes)
    requires UniformSchema(S) && t < |S| && |run.m| == |S[t]| && Tidied(S, t, d) && i < |S[t]|
    ensures RecordFinds(S, S[t], run, d, i, b)
    decreases |b|, 2
  {
    hide UniformSchema, Tidied, ItemFinds, Capacity, Ready, CountOf;
    PointerTidied(S, t, d, i);
    var f := S[t][i];
    match run.m[i]
    case One(_, _) =>
      if InPlace(f) && f.ptr.Table? && f.ptr.id < |S| {
        PartTidied(S, t, d, i);
        UniformItemFinds(S, f, StartOf(S, f, run.m[i]), PartAt(d, i), b);
      } else {
        UniformItemFinds(S, f, StartOf(S, f, run.m[i]), NoDirt, b);
        if InPlace(f) {
          UnknownFinds(S, f, StartOf(S, f, run.m[i]), PartAt(d, i), b);
        }
      }
    case Many(_) => UniformItemFinds(S, f, Fresh(S, f), NoDirt, b);
  }

  lemma UnknownFinds(S: Schema, f: Field, start: Slots, d: Dirt, b: bytes)
    requires !(f.ptr.Table? && f.ptr.id < |S|)
    ensures ItemFinds(S, f, start, d, b)
  {
  }

  lemma {:induction false} UniformItemFinds(S: Schema, f: Field, start: Slots, d: Dirt, b: bytes)
    requires UniformSchema(S) && (f.ptr.Table? && f.ptr.id < |S| && d != NoDirt ==> Tidied(S, f.ptr.id, d))
    ensures ItemFinds(S, f, start, d, b)
    decreases |b|, 0
  {
    hide UniformSchema, DecPrefixed, AllFind, Tidied;
    if f.ltype.Submessage? && f.ptr.Table? && f.ptr.id < |S| && DecPrefixed(b).Ok? {
      NothingTidied(S, f.ptr.id);
      UniformAllFind(S, f.ptr.id, Start(start), d, DecPrefixed(b).value);
    }
  }

  lemma PointerTidied(S: Schema, t: nat, d: Dirt, i: nat)
    requires t < |S| && Tidied(S, t, d) && i < |S[t]|
    ensures S[t][i].htype.Oneof? && S[t][i].atype.Pointer? ==> WordAt(d, S[t][i].htype.union) == {}
  {
  }

  lemma NothingTidied(S: Schema, t: nat)
    requires t < |S|
    ensures Tidied(S, t, NoDirt)
  {
  }

  // ---- encodings ----

  /** A record finds addresses, and so does what follows. */
  lemma RecordThen(S: Schema, t: nat, run: Run, d: Dirt, i: nat, w: nat, b: bytes)
    requires SchemaOk(S) && t < |S| && i < |S[t]| == |run.m| && !S[t][i].ltype.Extension? && w < 8
    requires RecordFinds(S, S[t], run, d, i, b)
    requires var p := DecField(S, S[t], run, i, w, b);
             p.Ok? ==> AllFind(S, t, p.value, DirtAfter(S, t, run, d, Some(i), p.value.m, b), p.rest)
    ensures AllFind(S, t, run, d, EncTag(S[t][i].tag, w) + b)
  {
    assert TableOk(S, t, S[t]);
    hide SchemaOk, TableOk, DecTag, EncTag, DecField, Find, RecordFinds, DirtAfter;
    Transfer.TagFound(S, t, i, w, b);
  }

  /** The fields from j on have not been decoded yet, and none of the unions of those that are sent. */
  ghost predicate Unsent(S: Schema, t: nat, run: Run, d: Dirt, m: Slots, j: nat) {
    && t < |S| && |run.m| == |m| == |S[t]|
    && forall h :: j <= h < |m| ==> UnsentField(S, S[t], run, d, m, h)
  }

  ghost predicate UnsentField(S: Schema, table: Table, run: Run, d: Dirt, m: Slots, h: int)
    requires 0 <= h < |table| == |m| == |run.m|
  {
    var f := table[h];
    && (run.m[h].Many? <==> f.htype.Repeated?)
    && (f.htype.Oneof? && Present(S, table, m, h) ==> WordAt(d, f.htype.union) == {})
    && (InPlace(f) ==> PartAt(d, h) == NoDirt && run.m[h].One? && StartOf(S, f, run.m[h]) == Fresh(S, f))
  }

  /** The item of a record, encoded, finds addresses in an initialised struct. */
  lemma {:induction false} SentItemFinds(S: Schema, f: Field, v: Value, more: bytes)
    requires SchemaOk(S) && SendableItem(S, f, v) && ExclusiveItem(S, f, v)
    ensures EncItem(S, f, v).Success?
    ensures ItemFinds(S, f, Fresh(S, f), NoDirt, EncItem(S, f, v).value + more)
    decreases v, 0
  {
    hide SchemaOk, AllFind, DecPrefixed, EncMessage, EncVarint, Defaults, EncBlob, EncScalar, Sendable, Exclusive;
    if v.Sub? {
      var p := EncMessage(S, f.ptr.id, v.slots).value;
      Transfer.PrefixedRoundTrip(p, more);
      EncodingFinds(S, f.ptr.id, v.slots, []);
      assert p + [] == p;
    } else {
      Transfer.SendableItemEncodes(S, f, v);
      NoSubmessage(S, f, v);
    }
  }

  lemma NoSubmessage(S: Schema, f: Field, v: Value)
    requires SendableItem(S, f, v) && !v.Sub?
    ensures !f.ltype.Submessage?
  {
  }

  /** A record of field j, with one item. */
  lemma {:induction false} SentRecordFinds(S: Schema, t: nat, run: Run, d: Dirt, m: Slots, j: nat, v: Value, w: nat,
                                           more: bytes)
    requires SchemaOk(S) && t < |S| && j < |S[t]| == |m| == |run.m| && UnsentField(S, S[t], run, d, m, j)
    requires SendableItem(S, S[t][j], v) && ExclusiveItem(S, S[t][j], v)
    requires S[t][j].htype.Oneof? ==> Present(S, S[t], m, j)
    ensures EncItem(S, S[t][j], v).Success?
    ensures RecordFinds(S, S[t], run, d, j, EncItem(S, S[t][j], v).value + more)
    decreases v, 1
  {
    SentItemFinds(S, S[t][j], v, more);
    hide SchemaOk, ItemFinds, EncItem, SendableItem, ExclusiveItem, Present, Fresh, Ready, CountOf;
    var f := S[t][j];
    if run.m[j].One? && !InPlace(f) {
      assert StartOf(S, f, run.m[j]) == Fresh(S, f);
    }
  }

  /** What is left of the stream behind such a record. */
  lemma SentRecordRest(S: Schema, t: nat, run: Run, j: nat, v: Value, w: nat, more: bytes)
    requires SchemaOk(S) && t < |S| && j < |S[t]| == |run.m| && SendableItem(S, S[t][j], v)
    requires S[t][j].htype.Repeated? ==> !(w == 2 && Packable(S[t][j].ltype))
    requires S[t][j].ltype.Submessage? && run.m[j].One? ==> StartOf(S, S[t][j], run.m[j]) == Fresh(S, S[t][j])
    ensures EncItem(S, S[t][j], v).Success?
    ensures var p := DecField(S, S[t], run, j, w, EncItem(S, S[t][j], v).value + more); p.Ok? ==> p.rest == more
  {
    FieldFacts(S, t, j);
    var f := S[t][j];
    if v.Sub? {
      DefaultsShaped(S, f.ptr.id);
      Transfer.ItemDecodes(S, f, Fresh(S, f), v, more);
    } else {
      NoSubmessage(S, f, v);
      Transfer.ItemDecodes(S, f, Fresh(S, f), v, more);
      if run.m[j].One? {
        Transfer.ItemDecodes(S, f, StartOf(S, f, run.m[j]), v, more);
      }
    }
    hide SchemaOk, DecItem, EncItem, SendableItem, MergeItem, Fresh, StartOf;
  }

  /** The other fields are as they were, and the record has used no union that is still to come. */
  lemma StillUnsent(S: Schema, t: nat, run: Run, d: Dirt, m: Slots, j: nat, w: nat, b: bytes)
    requires SchemaOk(S) && t < |S| && j < |S[t]| && Unsent(S, t, run, d, m, j) && Exclusive(S, t, m)
    requires S[t][j].htype.Oneof? ==> Present(S, S[t], m, j)
    ensures var p := DecField(S, S[t], run, j, w, b);
            p.Ok? ==> Unsent(S, t, p.value, DirtAfter(S, t, run, d, Some(j), p.value.m, b), m, j + 1)
  {
    hide SchemaOk, DecItem, DecRepeated, LoopDirt, UnionBytes, IsZeroField, DecPrefixed, Fresh;
    var p := DecField(S, S[t], run, j, w, b);
    if p.Ok? {
      var d' := DirtAfter(S, t, run, d, Some(j), p.value.m, b);
      forall h | j + 1 <= h < |m|
        ensures UnsentField(S, S[t], p.value, d', m, h)
      {
        assert UnsentField(S, S[t], run, d, m, h) && UnsentField(S, S[t], run, d, m, j);
        assert !(Chosen(m[j]) && Chosen(m[h]) && S[t][j].htype.Oneof? && S[t][j].htype == S[t][h].htype);
      }
    }
  }

  /** The fields from j on, encoded. */
  lemma {:induction false} FromFinds(S: Schema, t: nat, run: Run, d: Dirt, m: Slots, j: nat, tail: bytes)
    requires SchemaOk(S) && Sendable(S, t, m) && Exclusive(S, t, m) && j <= |m| && Unsent(S, t, run, d, m, j)
    requires tail == [] || !DecTag(tail).Tag?
    ensures EncFrom(S, S[t], m, j).Success? && AllFind(S, t, run, d, EncFrom(S, S[t], m, j).value + tail)
    decreases m, |m| - j, 1, 0
  {
    Transfer.SendableEncodes(S, t, m, j);
    hide SchemaOk, Sendable, Exclusive, AllFind, DecTag, Unsent, EncField;
    if j == |m| {
      assert [] + tail == tail;
      assert AllFind(S, t, run, d, tail) by { NothingFollows(S, t, run, d, tail); }
    } else {
      Transfer.SendableEncodes(S, t, m, j + 1);
      var e, es := EncField(S, S[t], m, j).value, EncFrom(S, S[t], m, j + 1).value;
      assert e + es + tail == e + (es + tail);
      FieldSends(S, t, run, d, m, j, tail);
    }
  }

  lemma NothingFollows(S: Schema, t: nat, run: Run, d: Dirt, tail: bytes)
    requires t < |S| && (tail == [] || !DecTag(tail).Tag?)
    ensures AllFind(S, t, run, d, tail)
  {
  }

  lemma NextUnsent(S: Schema, t: nat, run: Run, d: Dirt, m: Slots, j: nat)
    requires Unsent(S, t, run, d, m, j) && j < |m|
    ensures Unsent(S, t, run, d, m, j + 1) && |run.m| == |S[t]| && UnsentField(S, S[t], run, d, m, j)
  {
  }

  /** Field j and those behind it. */
  lemma {:induction false} FieldSends(S: Schema, t: nat, run: Run, d: Dirt, m: Slots, j: nat, tail: bytes)
    requires SchemaOk(S) && Sendable(S, t, m) && Exclusive(S, t, m) && t < |S| && j < |m| == |S[t]| &&
             Unsent(S, t, run, d, m, j)
    requires tail == [] || !DecTag(tail).Tag?
    ensures EncField(S, S[t], m, j).Success? && EncFrom(S, S[t], m, j + 1).Success?
    ensures AllFind(S, t, run, d, EncField(S, S[t], m, j).value + (EncFrom(S, S[t], m, j + 1).value + tail))
    decreases m, |m| - j, 0
  {
    Transfer.SendableFieldEncodes(S, t, m, j);
    Transfer.SendableEncodes(S, t, m, j + 1);
    assert SendableField(S, S[t], m, j) && ExclusiveSlot(S, S[t][j], m[j]);
    NextUnsent(S, t, run, d, m, j);
    FieldFacts(S, t, j);
    var f, more := S[t][j], EncFrom(S, S[t], m, j + 1).value + tail;
    hide SchemaOk, Sendable, Exclusive, AllFind, DecTag, Unsent, EncItem, SendableItem, ExclusiveItem, EncTag, UnsentField;
    hide EncEach, IsZeroField, EncFrom, EncScalars, EncVarint;
    if EncField(S, S[t], m, j).value == [] {
      assert [] + more == more;
      FromFinds(S, t, run, d, m, j + 1, tail);
    } else {
      match m[j]
      case One(_, v) =>
        assert v < m[j];
        SingleSends(S, t, run, d, m, j, tail);
      case Many(items) =>
        assert items != [];
        if Packable(f.ltype) {
          PackedSends(S, t, run, d, m, j, tail);
        } else {
          assert items[0..] == items;
          EachSends(S, t, run, d, m, j, 0, tail);
        }
    }
  }

  lemma {:induction false} SingleSends(S: Schema, t: nat, run: Run, d: Dirt, m: Slots, j: nat, tail: bytes)
    requires SchemaOk(S) && Sendable(S, t, m) && Exclusive(S, t, m) && t < |S| && j < |m| == |S[t]| &&
             Unsent(S, t, run, d, m, j)
    requires tail == [] || !DecTag(tail).Tag?
    requires m[j].One? && Present(S, S[t], m, j) && !S[t][j].htype.Repeated?
    requires EncField(S, S[t], m, j) == EncTagged(S, S[t][j], m[j].v)
    ensures EncField(S, S[t], m, j).Success? && EncFrom(S, S[t], m, j + 1).Success?
    ensures AllFind(S, t, run, d, EncField(S, S[t], m, j).value + (EncFrom(S, S[t], m, j + 1).value + tail))
    decreases m, |m| - j, 0, 0
  {
    Transfer.SendableFieldEncodes(S, t, m, j);
    Transfer.SendableEncodes(S, t, m, j + 1);
    assert SendableField(S, S[t], m, j) && ExclusiveSlot(S, S[t][j], m[j]);
    NextUnsent(S, t, run, d, m, j);
    var f, v, more := S[t][j], m[j].v, EncFrom(S, S[t], m, j + 1).value + tail;
    assert v < m[j];
    var w := WireType(f.ltype).value;
    FreshStart(S, t, run, d, m, j);
    hide SchemaOk, Sendable, Exclusive, AllFind, DecTag, Unsent, EncItem, SendableItem, ExclusiveItem, EncTag, UnsentField;
    hide IsZeroField, EncFrom, RecordFinds, DirtAfter, DecField, EncField, Present;
    SentRecordFinds(S, t, run, d, m, j, v, w, more);
    SentRecordRest(S, t, run, j, v, w, more);
    var e := EncItem(S, f, v).value;
    StillUnsent(S, t, run, d, m, j, w, e + more);
    var p := DecField(S, S[t], run, j, w, e + more);
    if p.Ok? {
      FromFinds(S, t, p.value, DirtAfter(S, t, run, d, Some(j), p.value.m, e + more), m, j + 1, tail);
    }
    RecordThen(S, t, run, d, j, w, e + more);
    assert EncTag(f.tag, w) + e + more == EncTag(f.tag, w) + (e + more);
  }

  lemma FreshStart(S: Schema, t: nat, run: Run, d: Dirt, m: Slots, j: nat)
    requires t < |S| && |run.m| == |m| == |S[t]| && j < |m| && UnsentField(S, S[t], run, d, m, j)
    ensures run.m[j].One? && S[t][j].ltype.Submessage? ==> StartOf(S, S[t][j], run.m[j]) == Fresh(S, S[t][j])
    ensures run.m[j].Many? <==> S[t][j].htype.Repeated?
  {
    hide Fresh, Present;
  }

  lemma {:induction false} PackedSends(S: Schema, t: nat, run: Run, d: Dirt, m: Slots, j: nat, tail: bytes)
    requires SchemaOk(S) && Sendable(S, t, m) && Exclusive(S, t, m) && t < |S| && j < |m| == |S[t]| &&
             Unsent(S, t, run, d, m, j)
    requires tail == [] || !DecTag(tail).Tag?
    requires m[j].Many? && S[t][j].htype.Repeated? && Packable(S[t][j].ltype) && m[j].items != []
    ensures EncField(S, S[t], m, j).Success? && EncFrom(S, S[t], m, j + 1).Success?
    ensures AllFind(S, t, run, d, EncField(S, S[t], m, j).value + (EncFrom(S, S[t], m, j + 1).value + tail))
    decreases m, |m| - j, 0, 0
  {
    hide SchemaOk, Sendable, Exclusive, AllFind, DecTag, Unsent, SendableItem, EncTag, EncScalars, EncVarint, DecPrefixed;
    hide IsZeroField, EncFrom, DirtAfter, UnsentField, EncEach, DecPacked, DecField, RecordFinds, EncField, DecRecord, Find;
    var f, items := S[t][j], m[j].items;
    FieldFacts(S, t, j);
    PackedField(S, t, m, j);
    Transfer.SendableEncodes(S, t, m, j + 1);
    NextUnsent(S, t, run, d, m, j);
    FreshStart(S, t, run, d, m, j);
    var body, more := EncScalars(f, items).value, EncFrom(S, S[t], m, j + 1).value + tail;
    var b := EncVarint(|body|) + body + more;
    Transfer.PrefixedRoundTrip(body, more);
    assert EncTag(f.tag, 2) + (EncVarint(|body|) + body) + more == EncTag(f.tag, 2) + b;
    NumbersFind(S, t, run, d, j, b);
    StillUnsent(S, t, run, d, m, j, 2, b);
    PackedRest(S, t, run, j, b);
    var p := DecField(S, S[t], run, j, 2, b);
    if p.Ok? {
      FromFinds(S, t, p.value, DirtAfter(S, t, run, d, Some(j), p.value.m, b), m, j + 1, tail);
    }
    RecordThen(S, t, run, d, j, 2, b);
  }

  lemma PackedField(S: Schema, t: nat, m: Slots, j: nat)
    requires SchemaOk(S) && Sendable(S, t, m) && t < |S| && j < |m| == |S[t]|
    requires m[j].Many? && S[t][j].htype.Repeated? && Packable(S[t][j].ltype) && m[j].items != []
    ensures var f, body := S[t][j], EncScalars(S[t][j], m[j].items);
            && body.Success? && |body.value| < U32
            && EncField(S, S[t], m, j) == Success(EncTag(f.tag, 2) + (EncVarint(|body.value|) + body.value))
  {
    Transfer.SendableFieldEncodes(S, t, m, j);
    assert SendableField(S, S[t], m, j);
    hide SchemaOk, EncScalars, EncVarint, EncTag, EncEach, Sendable;
  }

  lemma NumbersFind(S: Schema, t: nat, run: Run, d: Dirt, j: nat, b: bytes)
    requires t < |S| && j < |S[t]| == |run.m| && !S[t][j].ltype.Submessage? && !S[t][j].htype.Oneof?
    ensures RecordFinds(S, S[t], run, d, j, b)
  {
    hide Ready, CountOf, ItemFinds;
    var f := S[t][j];
    NumberFinds(S, f, Fresh(S, f), NoDirt, b);
    if run.m[j].One? {
      NumberFinds(S, f, StartOf(S, f, run.m[j]), if InPlace(f) then PartAt(d, j) else NoDirt, b);
    }
  }

  lemma NumberFinds(S: Schema, f: Field, start: Slots, d: Dirt, b: bytes)
    requires !f.ltype.Submessage?
    ensures ItemFinds(S, f, start, d, b)
  {
  }

  lemma PackedRest(S: Schema, t: nat, run: Run, j: nat, b: bytes)
    requires t < |S| && j < |S[t]| == |run.m| && run.m[j].Many? && Packable(S[t][j].ltype)
    ensures var p := DecField(S, S[t], run, j, 2, b); p.Ok? ==> DecPrefixed(b).Ok? && p.rest == DecPrefixed(b).rest
  {
    hide DecPrefixed, DecPacked;
  }

  /** The items of an array from k on, one record for each. */
  lemma {:induction false} EachSends(S: Schema, t: nat, run: Run, d: Dirt, m: Slots, j: nat, k: nat, tail: bytes)
    requires SchemaOk(S) && Sendable(S, t, m) && Exclusive(S, t, m) && t < |S| && j < |m| == |S[t]| &&
             Unsent(S, t, run, d, m, j)
    requires tail == [] || !DecTag(tail).Tag?
    requires m[j].Many? && S[t][j].htype.Repeated? && !Packable(S[t][j].ltype) && !S[t][j].ltype.Extension?
    requires k <= |m[j].items|
    ensures EncEach(S, S[t][j], m[j].items[k..]).Success? && EncFrom(S, S[t], m, j + 1).Success?
    ensures AllFind(S, t, run, d, EncEach(S, S[t][j], m[j].items[k..]).value + (EncFrom(S, S[t], m, j + 1).value + tail))
    decreases m, |m| - j, 0, |m[j].items| - k
  {
    hide SchemaOk, Sendable, Exclusive, AllFind, DecTag, Unsent, EncItem, SendableItem, ExclusiveItem, EncTag, UnsentField;
    hide IsZeroField, EncFrom, RecordFinds, DirtAfter, DecField, EncEach;
    var f := S[t][j];
    NextUnsent(S, t, run, d, m, j);
    FreshStart(S, t, run, d, m, j);
    Transfer.SendableEncodes(S, t, m, j + 1);
    var more := EncFrom(S, S[t], m, j + 1).value + tail;
    EachFrom(S, t, m, j, k);
    if k == |m[j].items| {
      assert [] + more == more;
      FromFinds(S, t, run, d, m, j + 1, tail);
    } else {
      var v, w := m[j].items[k], WireType(f.ltype).value;
      assert v < m[j];
      EachFrom(S, t, m, j, k + 1);
      var es := EncEach(S, f, m[j].items[k + 1..]).value + more;
      SentRecordFinds(S, t, run, d, m, j, v, w, es);
      SentRecordRest(S, t, run, j, v, w, es);
      var e := EncItem(S, f, v).value;
      ArrayUnsent(S, t, run, d, m, j, w, e + es);
      var p := DecField(S, S[t], run, j, w, e + es);
      if p.Ok? {
        EachSends(S, t, p.value, DirtAfter(S, t, run, d, Some(j), p.value.m, e + es), m, j, k + 1, tail);
      }
      RecordThen(S, t, run, d, j, w, e + es);
      assert EncTag(f.tag, w) + e + EncEach(S, f, m[j].items[k + 1..]).value + more == EncTag(f.tag, w) + (e + es);
    }
  }

  lemma EachFrom(S: Schema, t: nat, m: Slots, j: nat, k: nat)
    requires SchemaOk(S) && Sendable(S, t, m) && Exclusive(S, t, m) && t < |S| && j < |m| == |S[t]|
    requires m[j].Many? && !S[t][j].ltype.Extension? && k <= |m[j].items|
    ensures WireType(S[t][j].ltype).Some? && WireType(S[t][j].ltype).value < 8
    ensures EncEach(S, S[t][j], m[j].items[k..]).Success?
    ensures k == |m[j].items| ==> EncEach(S, S[t][j], m[j].items[k..]).value == []
    ensures k < |m[j].items| ==>
              var f, v, w := S[t][j], m[j].items[k], WireType(S[t][j].ltype).value;
              && SendableItem(S, f, v) && ExclusiveItem(S, f, v) && EncItem(S, f, v).Success?
              && EncEach(S, f, m[j].items[k + 1..]).Success?
              && EncEach(S, f, m[j].items[k..]).value ==
                 EncTag(f.tag, w) + EncItem(S, f, v).value + EncEach(S, f, m[j].items[k + 1..]).value
  {
    var f, items := S[t][j], m[j].items[k..];
    assert SendableField(S, S[t], m, j) && ExclusiveSlot(S, f, m[j]);
    hide SchemaOk, Sendable, Exclusive, EncItem, SendableItem, ExclusiveItem, EncTag;
    forall h | 0 <= h < |items|
      ensures SendableItem(S, f, items[h])
    {
      assert items[h] == m[j].items[k + h];
    }
    Transfer.SendableEachEncodes(S, f, items);
    if k < |m[j].items| {
      assert items[1..] == m[j].items[k + 1..];
    }
  }

  /** A record of an array leaves the array to come. */
  lemma ArrayUnsent(S: Schema, t: nat, run: Run, d: Dirt, m: Slots, j: nat, w: nat, b: bytes)
    requires SchemaOk(S) && t < |S| && j < |S[t]| && Unsent(S, t, run, d, m, j) && Exclusive(S, t, m) &&
             S[t][j].htype.Repeated?
    ensures var p := DecField(S, S[t], run, j, w, b);
            p.Ok? ==> Unsent(S, t, p.value, DirtAfter(S, t, run, d, Some(j), p.value.m, b), m, j)
  {
    StillUnsent(S, t, run, d, m, j, w, b);
    hide SchemaOk, DecItem, DecRepeated, LoopDirt, UnionBytes, Exclusive, Fresh;
    var p := DecField(S, S[t], run, j, w, b);
    if p.Ok? {
      var d' := DirtAfter(S, t, run, d, Some(j), p.value.m, b);
      assert UnsentField(S, S[t], run, d, m, j);
      assert UnsentField(S, S[t], p.value, d', m, j);
      forall h | j <= h < |m|
        ensures UnsentField(S, S[t], p.value, d', m, h)
      {
      }
    }
  }

  lemma DefaultsUnsent(S: Schema, t: nat, m: Slots)
    requires SchemaOk(S) && t < |S| && |m| == |S[t]|
    ensures Unsent(S, t, Start(Defaults(S, t)), NoDirt, m, 0)
  {
    forall h | 0 <= h < |m|
      ensures UnsentField(S, S[t], Start(Defaults(S, t)), NoDirt, m, h)
    {
      assert Defaults(S, t)[h] == DefaultSlot(S, t, S[t][h]);
      FieldFacts(S, t, h);
    }
  }

  /** An encoding, decoded into an initialised struct, finds addresses whatever the unions are: it has at most one member of
      each. What follows may be the end or a terminator. */
  lemma {:induction false} EncodingFinds(S: Schema, t: nat, m: Slots, tail: bytes)
    requires SchemaOk(S) && Sendable(S, t, m) && Exclusive(S, t, m) && (tail == [] || !DecTag(tail).Tag?)
    ensures t < |S| && |m| == |S[t]| && EncMessage(S, t, m).Success?
    ensures AllFind(S, t, Start(Defaults(S, t)), NoDirt, EncMessage(S, t, m).value + tail)
    decreases m, |m| + 1
  {
    hide SchemaOk, AllFind, Unsent, DecTag, Defaults, EncFrom;
    DefaultsUnsent(S, t, m);
    FromFinds(S, t, Start(Defaults(S, t)), NoDirt, m, 0, tail);
  }
}
