/** Inputs that lose blocks, for every array whose elements can be overwritten: a whole set of elements is sent,
         then another
    array without count or the end of the submessage, and then as much of the set again as comes to the element. */
module Overwritten {
  import opened Bits
  import opened Varint
  import opened Integers
  import opened Descriptor
  import opened Message
  import opened EncodeSpec
  import opened DecodeSpec
  import opened Merge
  import opened RoundTrip
  import opened Stale
  import opened Reuse
  import opened Release
  import opened Backing
  import opened Damage
  import Concat
  import Transfer
  import Observe

  // ---- where damage is done ----

  /** Damage behind whole records is damage of the whole. */
  lemma {:induction false} HarmsAfter(S: Schema, t: nat, run: Run, past: Slots, s1: bytes, s2: bytes, h: Harm)
    requires t < |S| && |run.m| == |S[t]| && Concat.Whole(S, S[t], run, s1)
    requires HarmsLoop(S, t, DecLoop(S, S[t], run, s1).run, past, s2, h)
    ensures HarmsLoop(S, t, run, past, s1 + s2, h)
    decreases |s1|
  {
    hide DecTag, DecRecord, HarmsRecord, Find;
    if s1 == [] {
      assert [] + s2 == s2;
    } else {
      var w := DecTag(s1);
      var p := DecRecord(S, S[t], run, w.tag, w.wireType, w.rest);
      Concat.DecTagFrame(s1, s2);
      Concat.DecRecordFrame(S, S[t], run, w.tag, w.wireType, w.rest, s2);
      HarmsAfter(S, t, p.value, past, p.rest, s2, h);
      assert s1 + s2 != [];
    }
  }

  lemma TagOf(S: Schema, t: nat, i: nat, w: nat, b: bytes)
    requires SchemaOk(S) && t < |S| && i < |S[t]| && !S[t][i].ltype.Extension? && w < 8
    ensures EncTag(S[t][i].tag, w) + b != [] && DecTag(EncTag(S[t][i].tag, w) + b) == Tag(S[t][i].tag, w, b)
    ensures Find(S[t], S[t][i].tag) == Some(i)
  {
    assert TableOk(S, t, S[t]);
    Transfer.TagFound(S, t, i, w, b);
  }

  /** The first record does damage; what follows does not undo a loss, and nothing may follow a torn pointer. */
  lemma HarmsFirst(S: Schema, t: nat, run: Run, past: Slots, i: nat, b: bytes, h: Harm)
    requires SchemaOk(S) && t < |S| && i < |S[t]| == |run.m| && !S[t][i].ltype.Extension?
    requires HarmsRecord(S, t, run, past, i, b, h)
    requires h.TornPointer? ==> DecPrefixed(b).Ok? && DecPrefixed(b).rest == []
    ensures HarmsLoop(S, t, run, past, EncTag(S[t][i].tag, 2) + b, h)
  {
    if h.TornPointer? {
      RecordRest(S, t, run, past, i, b, h);
    }
    hide SchemaOk, DecTag, EncTag, DecField, HarmsRecord, Find;
    TagOf(S, t, i, 2, b);
  }

  /** A record of a submessage ends with its payload. */
  lemma RecordRest(S: Schema, t: nat, run: Run, past: Slots, i: nat, b: bytes, h: Harm)
    requires t < |S| && i < |S[t]| == |run.m| && HarmsRecord(S, t, run, past, i, b, h) && DecPrefixed(b).Ok?
    ensures var p := DecField(S, S[t], run, i, 2, b); p.Ok? ==> p.rest == DecPrefixed(b).rest
  {
    hide DecPrefixed, DecItem, HarmsLoop, HarmsElement, StartOf, Fresh;
    var f := S[t][i];
    match run.m[i]
    case One(_, _) => ItemRest(S, f, StartOf(S, f, run.m[i]), b);
    case Many(_) => ItemRest(S, f, Fresh(S, f), b);
  }

  lemma ItemRest(S: Schema, f: Field, start: Slots, b: bytes)
    requires f.ltype.Submessage? && DecPrefixed(b).Ok?
    ensures DecItem(S, f, start, b).Ok? ==> DecItem(S, f, start, b).rest == DecPrefixed(b).rest
  {
    hide DecPrefixed, DecMessage;
  }

  lemma HarmsNext(S: Schema, t: nat, run: Run, past: Slots, i: nat, b: bytes, h: Harm)
    requires SchemaOk(S) && t < |S| && i < |S[t]| == |run.m| && !S[t][i].ltype.Extension?
    requires DecField(S, S[t], run, i, 2, b).Ok?
    requires HarmsLoop(S, t, DecField(S, S[t], run, i, 2, b).value, past, DecField(S, S[t], run, i, 2, b).rest, h)
    ensures HarmsLoop(S, t, run, past, EncTag(S[t][i].tag, 2) + b, h)
  {
    hide SchemaOk, DecTag, EncTag, DecField, HarmsRecord, Find;
    TagOf(S, t, i, 2, b);
  }

  // ---- elements over older ones ----

  /** Elements that can be sent to such an array. */
  ghost predicate ElementsOk(S: Schema, f: Field, items: seq<Value>) {
    forall k :: 0 <= k < |items| ==>
      items[k].Sub? && SendableItem(S, f, items[k]) && ExclusiveItem(S, f, items[k])
  }

  lemma SubEncoding(S: Schema, f: Field, v: Value, tail: bytes)
    requires SchemaOk(S) && v.Sub? && SendableItem(S, f, v)
    ensures f.ptr.Table? && f.ptr.id < |S| && f.ltype.Submessage?
    ensures EncItem(S, f, v).Success? && EncMessage(S, f.ptr.id, v.slots).Success?
    ensures DecPrefixed(EncItem(S, f, v).value + tail) == Ok(EncMessage(S, f.ptr.id, v.slots).value, tail)
  {
    hide EncMessage, DecPrefixed, EncVarint;
    Transfer.PrefixedRoundTrip(EncMessage(S, f.ptr.id, v.slots).value, tail);
  }

  /** Whole elements, and then one over an older value. */
  lemma {:induction false} HarmsEach(S: Schema, t: nat, run: Run, past: Slots, i: nat, items: seq<Value>, p: bytes,
                                     tail: bytes, h: Harm)
    requires SchemaOk(S) && t < |S| && i < |S[t]| == |run.m| && StaticSubs(S[t][i]) && ElementsOk(S, S[t][i], items)
    requires run.m[i].Many? && Ready(S[t], run, i) && (FixedCount(S[t][i]) ==> |run.m[i].items| == S[t][i].arraySize)
    requires CountOf(S[t], run, i) + |items| < S[t][i].arraySize && S[t][i].ptr.Table? && S[t][i].ptr.id < |S|
    requires HarmsElement(S, S[t][i].ptr.id, Was(run.m[i].items, past, i, CountOf(S[t], run, i) + |items|), p, h)
    requires |p| < U32 && (h.TornPointer? ==> tail == [])
    ensures EncEach(S, S[t][i], items).Success?
    ensures HarmsLoop(S, t, run, past, EncEach(S, S[t][i], items).value + LastRecord(S[t][i], p, tail), h)
    decreases |items|
  {
    hide SchemaOk, HarmsLoop, HarmsElement, DecPrefixed, EncItem, EncMessage, EncTag, EncTagged, DecLoop, SendableItem;
    hide ExclusiveItem, DecField, EncVarint, Was, Ready;
    var f, n := S[t][i], CountOf(S[t], run, i);
    FieldFacts(S, t, i);
    var last := LastRecord(f, p, tail);
    if items == [] {
      Transfer.PrefixedRoundTrip(p, tail);
      HarmsFirst(S, t, run, past, i, EncVarint(|p|) + p + tail, h);
      assert [] + last == last;
    } else {
      Transfer.SendableEachEncodes(S, f, items);
      var more := EncEach(S, f, items[1..]).value + last;
      var run' := ElementSent(S, t, run, i, items[0], more);
      var e := EncItem(S, f, items[0]).value;
      FirstSent(S, f, items, e, last);
      LaterWas(run.m[i].items, past, i, n, run'.m[i].items[n], n + |items|);
      HarmsEach(S, t, run', past, i, items[1..], p, tail, h);
      HarmsNext(S, t, run, past, i, e + more, h);
    }
  }

  lemma FirstSent(S: Schema, f: Field, items: seq<Value>, e: bytes, last: bytes)
    requires items != [] && EncEach(S, f, items).Success? && EncTagged(S, f, items[0]) == Success(EncTag(f.tag, 2) + e)
    ensures EncEach(S, f, items[1..]).Success?
    ensures EncEach(S, f, items).value + last == EncTag(f.tag, 2) + (e + (EncEach(S, f, items[1..]).value + last))
  {
    hide EncTagged, EncTag;
  }

  /** The state behind one whole element. */
  lemma ElementSent(S: Schema, t: nat, run: Run, i: nat, v: Value, more: bytes) returns (run': Run)
    requires SchemaOk(S) && t < |S| && i < |S[t]| == |run.m| && StaticSubs(S[t][i]) && run.m[i].Many? && Ready(S[t], run, i)
    requires CountOf(S[t], run, i) < S[t][i].arraySize && (FixedCount(S[t][i]) ==> |run.m[i].items| == S[t][i].arraySize)
    requires v.Sub? && SendableItem(S, S[t][i], v) && ExclusiveItem(S, S[t][i], v)
    ensures EncItem(S, S[t][i], v).Success? &&
            EncTagged(S, S[t][i], v) == Success(EncTag(S[t][i].tag, 2) + EncItem(S, S[t][i], v).value)
    ensures DecField(S, S[t], run, i, 2, EncItem(S, S[t][i], v).value + more) == Ok(run', more)
    ensures |run'.m| == |S[t]| && run'.m[i].Many? && Ready(S[t], run', i)
    ensures FixedCount(S[t][i]) ==> |run'.m[i].items| == S[t][i].arraySize
    ensures var n := CountOf(S[t], run, i);
            && CountOf(S[t], run', i) == n + 1 && n <= |run.m[i].items| && n < |run'.m[i].items|
            && run'.m[i].items == Put(run.m[i].items, n, run'.m[i].items[n])
  {
    hide SchemaOk, EncItem, EncMessage, MergeItem, SendableItem, ExclusiveItem, DecItem, EncTag, DecField, Ready;
    var f, n := S[t][i], CountOf(S[t], run, i);
    FieldFacts(S, t, i);
    SubEncoding(S, f, v, more);
    DefaultsShaped(S, f.ptr.id);
    Transfer.ItemDecodes(S, f, Fresh(S, f), v, more);
    MergeFreshItem(S, f, v);
    var w := MergeItem(S, f, Fresh(S, f), v).value;
    run' := SetItems(S[t], run, i, Put(run.m[i].items, n, w), n + 1);
    ElementStored(S, t, run, i, EncItem(S, f, v).value + more, w, more);
  }

  /** The record of a submessage with payload p in front of tail. */
  function LastRecord(f: Field, p: bytes, tail: bytes): bytes {
    EncTag(f.tag, 2) + (EncVarint(|p|) + p + tail)
  }

  lemma LaterWas(items: seq<Value>, past: Slots, i: nat, n: nat, v: Value, k: nat)
    requires n < k && n <= |items|
    ensures Was(Put(items, n, v), past, i, k) == Was(items, past, i, k)
  {
  }

  lemma ElementStored(S: Schema, t: nat, run: Run, i: nat, b: bytes, v: Value, rest: bytes)
    requires t < |S| && i < |S[t]| == |run.m| && StaticSubs(S[t][i]) && run.m[i].Many? && Ready(S[t], run, i)
    requires CountOf(S[t], run, i) < S[t][i].arraySize && (FixedCount(S[t][i]) ==> |run.m[i].items| == S[t][i].arraySize)
    requires DecItem(S, S[t][i], Fresh(S, S[t][i]), b) == Ok(v, rest)
    ensures var n := CountOf(S[t], run, i);
            var run' := SetItems(S[t], run, i, Put(run.m[i].items, n, v), n + 1);
            && DecField(S, S[t], run, i, 2, b) == Ok(run', rest)
            && Ready(S[t], run', i) && CountOf(S[t], run', i) == n + 1
            && run'.m[i].Many? && run'.m[i].items == Put(run.m[i].items, n, v)
            && (FixedCount(S[t][i]) ==> |run'.m[i].items| == S[t][i].arraySize)
  {
    hide DecItem;
  }

  /** The records of an array, cut at element k. */
  lemma {:induction false} EachSplit(S: Schema, f: Field, items: seq<Value>, k: nat)
    requires SchemaOk(S) && ElementsOk(S, f, items) && k < |items| && f.ltype.Submessage? && f.ptr.Table? && f.ptr.id < |S|
    ensures EncEach(S, f, items).Success? && EncEach(S, f, items[..k]).Success? && EncEach(S, f, items[k + 1..]).Success?
    ensures EncMessage(S, f.ptr.id, items[k].slots).Success? && |EncMessage(S, f.ptr.id, items[k].slots).value| < U32
    ensures EncEach(S, f, items).value ==
            EncEach(S, f, items[..k]).value +
            LastRecord(f, EncMessage(S, f.ptr.id, items[k].slots).value, EncEach(S, f, items[k + 1..]).value)
    decreases k
  {
    hide SchemaOk, EncMessage, EncTag, SendableItem, ExclusiveItem, EncVarint, EncItem;
    Transfer.SendableEachEncodes(S, f, items);
    Transfer.SendableEachEncodes(S, f, items[..k]);
    Transfer.SendableEachEncodes(S, f, items[k + 1..]);
    ElementEncoding(S, f, items[k]);
    ElementEncoding(S, f, items[0]);
    var p, more := EncMessage(S, f.ptr.id, items[k].slots).value, EncEach(S, f, items[k + 1..]).value;
    if k == 0 {
      assert items[..0] == [];
      assert EncTag(f.tag, 2) + (EncVarint(|p|) + p) + more == EncTag(f.tag, 2) + (EncVarint(|p|) + p + more);
      assert [] + LastRecord(f, p, more) == LastRecord(f, p, more);
    } else {
      var rest := items[1..];
      assert rest[k - 1] == items[k] && rest[..k - 1] == items[..k][1..] && rest[k..] == items[k + 1..];
      EachSplit(S, f, rest, k - 1);
      var first := EncTagged(S, f, items[0]).value;
      assert items[..k][0] == items[0];
      assert first + (EncEach(S, f, rest[..k - 1]).value + LastRecord(f, p, more)) ==
             (first + EncEach(S, f, rest[..k - 1]).value) + LastRecord(f, p, more);
    }
  }

  lemma ElementEncoding(S: Schema, f: Field, v: Value)
    requires v.Sub? && SendableItem(S, f, v) && f.ltype.Submessage? && f.ptr.Table? && f.ptr.id < |S|
    ensures var p := EncMessage(S, f.ptr.id, v.slots);
            && p.Success? && |p.value| < U32 && EncItem(S, f, v) == Success(EncVarint(|p.value|) + p.value)
            && EncTagged(S, f, v) == Success(EncTag(f.tag, 2) + (EncVarint(|p.value|) + p.value))
  {
    hide EncMessage, EncVarint, EncTag, Sendable;
  }

  // ---- a message over older values ----

  /** Field i of m, decoded over older values into the given slot, loses a block. */
  ghost predicate SlotLoses(S: Schema, t: nat, m: Slots, i: nat, slot: Slot, past: Slots)
    requires t < |S| && i < |m| == |S[t]|
  {
    var f := S[t][i];
    && f.ptr.Table? && f.ptr.id < |S|
    && match m[i]
       case One(_, v) =>
         && InPlace(f) && Present(S, S[t], m, i) && slot.One? && slot.v.Sub? && v.Sub?
         && EncMessage(S, f.ptr.id, v.slots).Success?
         && HarmsLoop(S, f.ptr.id, Start(slot.v.slots), Inner(past, i), EncMessage(S, f.ptr.id, v.slots).value, LostBlock)
       case Many(items) =>
         && StaticSubs(f) && slot.Many? &&
           (if FixedCount(f) then |slot.items| == |items| == f.arraySize else slot.items == [])
         && |items| <= f.arraySize && ElementsOk(S, f, items)
         && exists k :: ElementLoses(S, f, slot.items, past, i, items, k)
  }

  ghost predicate ElementLoses(S: Schema, f: Field, stored: seq<Value>, past: Slots, i: nat, items: seq<Value>, k: int)
    requires f.ptr.Table? && f.ptr.id < |S|
  {
    && 0 <= k < |items| && items[k].Sub? && EncMessage(S, f.ptr.id, items[k].slots).Success?
    && HarmsElement(S, f.ptr.id, Was(stored, past, i, k), EncMessage(S, f.ptr.id, items[k].slots).value, LostBlock)
  }

  lemma LosesField(S: Schema, t: nat, run: Run, past: Slots, m: Slots, i: nat, tail: bytes)
    requires Supported(S) && Sendable(S, t, m) && t < |S| && i < |m| == |S[t]| == |run.m|
    requires Transfer.FixedOk(S[t], run, i) && SlotLoses(S, t, m, i, run.m[i], past)
    ensures EncField(S, S[t], m, i).Success? && HarmsLoop(S, t, run, past, EncField(S, S[t], m, i).value + tail, LostBlock)
  {
    NoExtension(S, t, i);
    SupportedOk(S);
    hide Supported, SchemaOk, HarmsLoop, EncMessage, DecPrefixed, Sendable, EncTag, HarmsElement, IsZeroField, SendableItem;
    hide ExclusiveItem, EncVarint;
    Transfer.SendableFieldEncodes(S, t, m, i);
    var f := S[t][i];
    match m[i]
    case One(_, v) =>
      assert v < m[i];
      assert SendableField(S, S[t], m, i) by { FieldSendable(S, t, m, i); }
      SubEncoding(S, f, v, tail);
      hide EncItem;
      var e := EncItem(S, f, v).value;
      assert EncField(S, S[t], m, i).value + tail == EncTag(f.tag, 2) + (e + tail);
      HarmsFirst(S, t, run, past, i, e + tail, LostBlock);
    case Many(items) =>
      var k :| ElementLoses(S, f, run.m[i].items, past, i, items, k);
      hide EncEach, Was;
      LosesSet(S, t, run, past, i, items, k, tail);
  }

  /** A set of elements, one of them over an older value. */
  lemma LosesSet(S: Schema, t: nat, run: Run, past: Slots, i: nat, items: seq<Value>, k: nat, tail: bytes)
    requires SchemaOk(S) && t < |S| && i < |S[t]| == |run.m| && StaticSubs(S[t][i]) && ElementsOk(S, S[t][i], items)
    requires run.m[i].Many? && Ready(S[t], run, i) && CountOf(S[t], run, i) == 0
    requires FixedCount(S[t][i]) ==> |run.m[i].items| == S[t][i].arraySize
    requires |items| <= S[t][i].arraySize && S[t][i].ptr.Table? && S[t][i].ptr.id < |S|
    requires ElementLoses(S, S[t][i], run.m[i].items, past, i, items, k)
    ensures EncEach(S, S[t][i], items).Success?
    ensures HarmsLoop(S, t, run, past, EncEach(S, S[t][i], items).value + tail, LostBlock)
  {
    hide SchemaOk, HarmsLoop, EncMessage, EncTag, HarmsElement, SendableItem, ExclusiveItem, EncVarint, EncEach, Was, Ready;
    var f := S[t][i];
    EachSplit(S, f, items, k);
    var before, p, more := items[..k], EncMessage(S, f.ptr.id, items[k].slots).value, EncEach(S, f, items[k + 1..]).value;
    assert CountOf(S[t], run, i) + |before| == k;
    HarmsEach(S, t, run, past, i, before, p, more + tail, LostBlock);
    assert LastRecord(f, p, more) + tail == LastRecord(f, p, more + tail);
    assert EncEach(S, f, items).value + tail == EncEach(S, f, before).value + LastRecord(f, p, more + tail);
  }

  lemma FieldSendable(S: Schema, t: nat, m: Slots, i: nat)
    requires t < |S| && Sendable(S, t, m) && i < |m|
    ensures SendableField(S, S[t], m, i)
  {
  }

  /** The fields before field i do not touch its slot. */
  lemma {:induction false} LosesFrom(S: Schema, t: nat, run: Run, past: Slots, m: Slots, j: nat, i: nat, tail: bytes)
    requires Supported(S) && Sendable(S, t, m) && t < |S| && j <= i < |m| == |S[t]| == |run.m|
    requires Transfer.FixedOk(S[t], run, j) && SlotLoses(S, t, m, i, run.m[i], past)
    requires forall h :: j <= h < |m| ==> ShapedSlot(S, t, S[t][h], run.m[h])
    requires MergeFrom(S, S[t], run.m, m, j).Some?
    ensures EncFrom(S, S[t], m, j).Success? && HarmsLoop(S, t, run, past, EncFrom(S, S[t], m, j).value + tail, LostBlock)
    decreases i - j
  {
    assert SchemaOk(S) by { SupportedOk(S); }
    hide Supported, Sendable, SlotLoses, HarmsLoop, EncField, MergeField, ShapedSlot, DecLoop;
    Transfer.SendableEncodes(S, t, m, j);
    Transfer.SendableEncodes(S, t, m, j + 1);
    var e, es := EncField(S, S[t], m, j).value, EncFrom(S, S[t], m, j + 1).value;
    assert e + es + tail == e + (es + tail);
    if j == i {
      LosesField(S, t, run, past, m, i, es + tail);
    } else {
      var acc := MergeField(S, S[t], run.m, m, j).value;
      var run' := Transfer.Mark(S[t], run, acc, m, j);
      Transfer.FieldDecodes(S, t, run, m, j, []);
      Transfer.EmptyLoop(S, S[t], run');
      assert e + [] == e;
      Transfer.FieldKeepsShape(S, t, run, m, j);
      MergeFieldOther(S, t, run.m, m, j, i);
      LosesFrom(S, t, run', past, m, j + 1, i, tail);
      HarmsAfter(S, t, run, past, e, es + tail, LostBlock);
    }
  }

  lemma SupportedOk(S: Schema)
    requires Supported(S)
    ensures SchemaOk(S)
  {
  }

  lemma MergeFieldOther(S: Schema, t: nat, acc: Slots, m: Slots, j: nat, i: nat)
    requires Supported(S) && t < |S| && j < i < |m| == |acc| == |S[t]| && MergeField(S, S[t], acc, m, j).Some?
    ensures MergeField(S, S[t], acc, m, j).value[i] == acc[i]
  {
    assert !S[t][j].htype.Oneof?;
    hide SchemaOk, NoUnions, MergeItem, MergeItems, Present;
  }

  // ---- sending a message again over what it left ----

  lemma DefaultWas(S: Schema, t: nat, i: nat, past: Slots, k: nat)
    requires SchemaOk(S) && t < |S| && i < |S[t]| && StaticSubs(S[t][i])
    requires i < |past| && past[i].Many? && k < |past[i].items|
    ensures DefaultSlot(S, t, S[t][i]).Many? && Was(DefaultSlot(S, t, S[t][i]).items, past, i, k) == past[i].items[k]
    ensures DefaultSlot(S, t, S[t][i]).items ==
            if FixedCount(S[t][i]) then seq(S[t][i].arraySize, _ => Indeterminate) else []
  {
    FieldFacts(S, t, i);
  }

  /** Receiving the same bytes again over a struct that was received from them, after its initialisation, loses a block if
      it holds one. */
  lemma {:induction false} Resend(S: Schema, t: nat, m: Slots)
    requires Supported(S) && Sendable(S, t, m) && Exclusive(S, t, m) && t < |S| && |m| == |S[t]|
    requires Holds(S, t, Received(S, t, m))
    ensures EncMessage(S, t, m).Success?
    ensures HarmsElement(S, t, Sub(Received(S, t, m)), EncMessage(S, t, m).value, LostBlock)
    decreases m, 2
  {
    hide Supported, Sendable, Exclusive, HoldsSlot, DropsSlot, HarmsLoop, ReceivedSlot, MergeMessage, DecMessage;
    hide MergeFrom, EncFrom;
    assert SchemaOk(S) by { SupportedOk(S); }
    var r := Received(S, t, m);
    var i :| 0 <= i < |r| && HoldsSlot(S, S[t][i], r[i]);
    Observe.MessageReceived(S, t, m);
    if !DropsSlot(S, S[t][i], r[i]) {
      ResendSlot(S, t, m, i);
      var start := Defaults(S, t);
      DefaultsShaped(S, t);
      MergeFresh(S, t, m);
      assert MergeFrom(S, S[t], start, m, 0).Some? by { MergeIsFrom(S, t, start, m); }
      assert start[i] == DefaultSlot(S, t, S[t][i]);
      AllShaped(S, t, start);
      LosesFrom(S, t, Start(start), r, m, 0, i, []);
      WholeEncoding(S, t, m);
    }
  }

  lemma {:induction false} DefaultsHoldNothing(S: Schema, t: nat)
    requires SchemaOk(S) && t < |S|
    ensures !Holds(S, t, Defaults(S, t))
    decreases t, 1
  {
    hide HoldsSlot, DefaultSlot, SchemaOk;
    forall i | 0 <= i < |S[t]|
      ensures !HoldsSlot(S, S[t][i], Defaults(S, t)[i])
    {
      DefaultHoldsNothing(S, t, i);
      assert Defaults(S, t)[i] == DefaultSlot(S, t, S[t][i]);
    }
  }

  lemma {:induction false} DefaultHoldsNothing(S: Schema, t: nat, i: nat)
    requires SchemaOk(S) && t < |S| && i < |S[t]|
    ensures !HoldsSlot(S, S[t][i], DefaultSlot(S, t, S[t][i]))
    decreases t, 0
  {
    hide Holds, Defaults, SchemaOk;
    FieldFacts(S, t, i);
    if InPlace(S[t][i]) {
      DefaultsHoldNothing(S, S[t][i].ptr.id);
    }
  }

  lemma MergeIsFrom(S: Schema, t: nat, start: Slots, m: Slots)
    requires t < |S| && MergeMessage(S, t, start, m).Some?
    ensures |m| == |start| == |S[t]| && MergeFrom(S, S[t], start, m, 0).Some?
  {
  }

  lemma AllShaped(S: Schema, t: nat, m: Slots)
    requires t < |S| && Shaped(S, t, m)
    ensures |m| == |S[t]| && forall h :: 0 <= h < |m| ==> ShapedSlot(S, t, S[t][h], m[h])
  {
  }

  lemma WholeEncoding(S: Schema, t: nat, m: Slots)
    requires t < |S| && |m| == |S[t]| && EncMessage(S, t, m).Success?
    ensures EncFrom(S, S[t], m, 0) == EncMessage(S, t, m) && EncMessage(S, t, m).value + [] == EncMessage(S, t, m).value
  {
  }

  lemma {:induction false} ResendSlot(S: Schema, t: nat, m: Slots, i: nat)
    requires Supported(S) && Sendable(S, t, m) && Exclusive(S, t, m) && t < |S| && i < |m| == |S[t]|
    requires HoldsSlot(S, S[t][i], ReceivedSlot(S, t, m, i)) && !DropsSlot(S, S[t][i], ReceivedSlot(S, t, m, i))
    ensures SlotLoses(S, t, m, i, DefaultSlot(S, t, S[t][i]), Received(S, t, m))
    decreases m, 1
  {
    NoExtension(S, t, i);
    FieldSendable(S, t, m, i);
    FieldExclusive(S, t, m, i);
    assert SchemaOk(S) by { SupportedOk(S); }
    FieldFacts(S, t, i);
    hide Supported, Sendable, Exclusive, Holds, Drops, HarmsLoop, HarmsElement, EncMessage, SchemaOk, Defaults, HeadItem;
    hide Present, Was, IsZeroField;
    var f, r, past := S[t][i], ReceivedSlot(S, t, m, i), Received(S, t, m);
    assert past[i] == r;
    hide Received;
    match m[i]
    case One(_, v) =>
      DefaultHoldsNothing(S, t, i);
      assert v < m[i];
      assert Present(S, S[t], m, i);
      SentIsSub(S, f, v);
      Resend(S, f.ptr.id, v.slots);
      InPlaceAgain(S, f.ptr.id, Received(S, f.ptr.id, v.slots), EncMessage(S, f.ptr.id, v.slots).value);
    case Many(items) =>
      ReceivedAt(S, f, items);
      var k :| 0 <= k < |items| && HoldsItem(S, f, r.items[k]);
      assert items[k] < m[i];
      SentIsSub(S, f, items[k]);
      Resend(S, f.ptr.id, items[k].slots);
      SetIsElements(S, f, items);
      DefaultWas(S, t, i, past, k);
      assert ElementLoses(S, f, DefaultSlot(S, t, f).items, past, i, items, k);
  }

  /** A submessage in place that initialisation does not damage. */
  lemma InPlaceAgain(S: Schema, id: nat, v: Slots, payload: bytes)
    requires id < |S| && HarmsElement(S, id, Sub(v), payload, LostBlock)
    ensures Drops(S, id, v) || HarmsLoop(S, id, Start(Defaults(S, id)), v, payload, LostBlock)
  {
    hide Drops, HarmsLoop;
  }

  lemma {:induction false} ReceivedAt(S: Schema, f: Field, items: seq<Value>)
    ensures forall k :: 0 <= k < |items| ==> ReceivedItems(S, f, items)[k] == ReceivedItem(S, f, items[k])
    decreases |items|
  {
    hide ReceivedItem;
    if items != [] {
      ReceivedAt(S, f, items[1..]);
    }
  }

  lemma SetIsElements(S: Schema, f: Field, items: seq<Value>)
    requires f.ltype.Submessage?
    requires forall k :: 0 <= k < |items| ==> SendableItem(S, f, items[k]) && ExclusiveItem(S, f, items[k])
    ensures ElementsOk(S, f, items)
  {
  }

  lemma FieldExclusive(S: Schema, t: nat, m: Slots, i: nat)
    requires t < |S| && Exclusive(S, t, m) && i < |m| == |S[t]|
    ensures ExclusiveSlot(S, S[t][i], m[i])
  {
  }

  lemma SentIsSub(S: Schema, f: Field, v: Value)
    requires SendableItem(S, f, v) && HoldsItem(S, f, ReceivedItem(S, f, v))
    ensures v.Sub? && f.ltype.Submessage? && f.ptr.Table? && f.ptr.id < |S| && Sendable(S, f.ptr.id, v.slots)
    ensures |v.slots| == |S[f.ptr.id]| && ReceivedItem(S, f, v) == Sub(Received(S, f.ptr.id, v.slots))
    ensures Holds(S, f.ptr.id, Received(S, f.ptr.id, v.slots))
  {
    hide Received, EncMessage, Holds;
  }

  // ---- filling an array again ----

  /** A full set of elements for the fixed-count array of field i, which is not the one being filled. */
  ghost predicate Refill(S: Schema, t: nat, run: Run, i: nat, items: seq<Value>) {
    && t < |S| && i < |S[t]| == |run.m|
    && var f := S[t][i];
      && FixedCount(f) && run.m[i].Many? && |run.m[i].items| == f.arraySize
      && FixedComplete(S[t], run) && run.fixedField != Some(i)
      && FullSet(S, f, items)
  }

  ghost predicate FullSet(S: Schema, f: Field, items: seq<Value>) {
    && 0 < |items| == f.arraySize
    && (forall k :: 0 <= k < |items| ==> SendableItem(S, f, items[k]))
    && MergeItems(S, f, items).Some?
    && (Packable(f.ltype) ==> EncScalars(f, items).Success? && |EncScalars(f, items).value| < U32)
  }

  /** The decoder's state behind such a set. */
  ghost function Refilled(S: Schema, t: nat, run: Run, i: nat, items: seq<Value>): (run': Run)
    requires Refill(S, t, run, i, items)
    ensures |run'.m| == |S[t]| && run'.m[i].Many?
  {
    SetItems(S[t], run, i, MergeItems(S, S[t][i], items).value, |items|)
  }

  /** A whole set of elements replaces all elements of the array. */
  lemma SetDecodes(S: Schema, t: nat, run: Run, i: nat, items: seq<Value>, tail: bytes)
    requires SchemaOk(S) && Refill(S, t, run, i, items)
    ensures EncArray(S, S[t][i], items).Success?
    ensures DecLoop(S, S[t], run, EncArray(S, S[t][i], items).value + tail)
            == DecLoop(S, S[t], Refilled(S, t, run, i, items), tail)
    ensures FixedComplete(S[t], Refilled(S, t, run, i, items))
  {
    hide DecLoop, EncScalars, EncEach, MergeItems, SendableItem;
    var f := S[t][i];
    assert TableOk(S, t, S[t]) && FieldOk(S, t, f);
    Transfer.MergeItemsLength(S, f, items);
    Transfer.PutAllReplaces(run.m[i].items, 0, MergeItems(S, f, items).value);
    assert run.m[i].items[..0] + MergeItems(S, f, items).value == MergeItems(S, f, items).value;
    assert Transfer.Stored(S, S[t], run, i, items) == Some(Refilled(S, t, run, i, items));
    if Packable(f.ltype) {
      Transfer.PackedRecordDecodes(S, t, run, i, items, tail);
    } else {
      Transfer.EachDecodes(S, t, run, i, items, tail);
    }
  }

  lemma FieldIsFull(S: Schema, t: nat, m: Slots, i: nat)
    requires Supported(S) && Sendable(S, t, m) && Exclusive(S, t, m) && t < |S| && i < |m| == |S[t]| && FixedCount(S[t][i])
    ensures m[i].Many? && FullSet(S, S[t][i], m[i].items)
    ensures MergeItems(S, S[t][i], m[i].items) == Some(ReceivedItems(S, S[t][i], m[i].items))
    ensures Received(S, t, m)[i] == Many(ReceivedItems(S, S[t][i], m[i].items))
    ensures FixedSubs(S[t][i]) ==> ElementsOk(S, S[t][i], m[i].items)
  {
    assert !S[t][i].ltype.Extension?;
    hide NoUnions, Sendable, Exclusive, MergeItems, ReceivedItems, SendableItem, ExclusiveItem, EncScalars;
    FieldFacts(S, t, i);
    FieldSendable(S, t, m, i);
    FieldExclusive(S, t, m, i);
    MergeFreshItems(S, S[t][i], m[i].items);
    if FixedSubs(S[t][i]) {
      SetIsElements(S, S[t][i], m[i].items);
    }
  }

  /** The elements of field a of m, sent once more when they are in place and another array, or none, is being filled. */
  lemma ArrayLoses(S: Schema, t: nat, run: Run, past: Slots, m: Slots, a: nat, tail: bytes) returns (run': Run)
    requires Supported(S) && Sendable(S, t, m) && Exclusive(S, t, m) && t < |S| && a < |m| == |S[t]| == |run.m|
    requires FixedSubs(S[t][a]) && run.m[a] == Received(S, t, m)[a] && HoldsSlot(S, S[t][a], Received(S, t, m)[a])
    requires FixedComplete(S[t], run) && run.fixedField != Some(a)
    ensures m[a].Many? && EncArray(S, S[t][a], m[a].items).Success?
    ensures HarmsLoop(S, t, run, past, EncArray(S, S[t][a], m[a].items).value, LostBlock)
    ensures |run'.m| == |S[t]| && run'.seen == run.seen && FixedComplete(S[t], run')
    ensures DecLoop(S, S[t], run, EncArray(S, S[t][a], m[a].items).value + tail) == DecLoop(S, S[t], run', tail)
  {
    assert SchemaOk(S) by { SupportedOk(S); }
    FieldIsFull(S, t, m, a);
    hide Supported, Sendable, Exclusive, HarmsLoop, DecLoop, Holds, EncMessage, MergeItems, ReceivedItems, SendableItem;
    hide ExclusiveItem, Received, HarmsElement, EncEach;
    var f, items := S[t][a], m[a].items;
    ReceivedAt(S, f, items);
    SetDecodes(S, t, run, a, items, tail);
    run' := Refilled(S, t, run, a, items);
    var k :| 0 <= k < |items| && HoldsItem(S, f, ReceivedItems(S, f, items)[k]);
    ElementAt(S, f, items, k);
    SentIsSub(S, f, items[k]);
    ElementAgain(S, f, items[k]);
    assert Was(run.m[a].items, past, a, k) == ReceivedItem(S, f, items[k]);
    assert ElementLoses(S, f, run.m[a].items, past, a, items, k);
    LosesSet(S, t, run, past, a, items, k, []);
    var e := EncEach(S, f, items).value;
    assert e + [] == e;
    assert EncArray(S, f, items) == EncEach(S, f, items);
  }

  lemma ElementAt(S: Schema, f: Field, items: seq<Value>, k: nat)
    requires ElementsOk(S, f, items) && k < |items|
    ensures items[k].Sub? && SendableItem(S, f, items[k]) && ExclusiveItem(S, f, items[k])
  {
  }

  lemma ElementAgain(S: Schema, f: Field, v: Value)
    requires Supported(S) && v.Sub? && SendableItem(S, f, v) && ExclusiveItem(S, f, v)
    requires HoldsItem(S, f, ReceivedItem(S, f, v))
    ensures f.ptr.Table? && f.ptr.id < |S| && EncMessage(S, f.ptr.id, v.slots).Success?
    ensures HarmsElement(S, f.ptr.id, ReceivedItem(S, f, v), EncMessage(S, f.ptr.id, v.slots).value, LostBlock)
  {
    hide Supported, Sendable, Holds, HarmsElement, EncMessage, Received;
    SentIsSub(S, f, v);
    assert Exclusive(S, f.ptr.id, v.slots);
    hide Exclusive;
    Resend(S, f.ptr.id, v.slots);
  }

  // ---- the inputs ----

  /** The state after a message has been received into a fresh struct. */
  lemma AfterMessage(S: Schema, t: nat, m: Slots) returns (run: Run)
    requires Supported(S) && Sendable(S, t, m) && Exclusive(S, t, m) && t < |S|
    ensures EncMessage(S, t, m).Success? && |m| == |S[t]| && run.m == Received(S, t, m)
    ensures FixedComplete(S[t], run) && RequiredSeen(S[t], run.seen)
    ensures forall tail :: DecLoop(S, S[t], Start(Defaults(S, t)), EncMessage(S, t, m).value + tail) ==
                            DecLoop(S, S[t], run, tail)
    ensures Concat.Whole(S, S[t], Start(Defaults(S, t)), EncMessage(S, t, m).value)
    ensures DecLoop(S, S[t], Start(Defaults(S, t)), EncMessage(S, t, m).value).run == run
  {
    assert SchemaOk(S) by { SupportedOk(S); }
    hide Supported, Sendable, Exclusive, DecLoop, EncMessage, MergeMessage, Received, RequiredSeen, FixedComplete;
    hide Transfer.Absorbed;
    SendableLength(S, t, m);
    MergeFresh(S, t, m);
    DefaultsShaped(S, t);
    Transfer.AbsorbedComplete(S, t, Defaults(S, t), m);
    run := Transfer.Absorbed(S, S[t], Start(Defaults(S, t)), m, 0).value;
    forall tail
      ensures EncMessage(S, t, m).Success?
      ensures DecLoop(S, S[t], Start(Defaults(S, t)), EncMessage(S, t, m).value + tail) == DecLoop(S, S[t], run, tail)
    {
      Transfer.EncodingLoop(S, t, Defaults(S, t), m, tail);
    }
    Transfer.EncodingLoop(S, t, Defaults(S, t), m, []);
    Transfer.EmptyLoop(S, S[t], run);
    assert EncMessage(S, t, m).value + [] == EncMessage(S, t, m).value;
  }

  lemma Accepted(S: Schema, t: nat, b: bytes, run: Run)
    requires t < |S| && |run.m| == |S[t]| && DecLoop(S, S[t], Start(Defaults(S, t)), b) == DecLoop(S, S[t], run, [])
    requires FixedComplete(S[t], run)
    ensures DecFresh(S, t, b).Ok? <==> RequiredSeen(S[t], run.seen)
  {
    hide Defaults, FixedComplete, RequiredSeen, DecRecord, DecTag;
    Transfer.EmptyLoop(S, S[t], run);
  }

  /** An array of submessages without count next to another array without count: for every message whose elements own a
      block there is an accepted input that loses one. */
  lemma TwoArraysLose(S: Schema, t: nat, m: Slots, a: nat, b: nat) returns (input: bytes)
    requires Supported(S) && Sendable(S, t, m) && Exclusive(S, t, m) && t < |S| && |m| == |S[t]|
    requires a < |m| && b < |m| && a != b && FixedSubs(S[t][a]) && FixedCount(S[t][b])
    requires HoldsSlot(S, S[t][a], Received(S, t, m)[a])
    ensures DecFresh(S, t, input).Ok? && Harms(S, t, input, LostBlock)
  {
    FieldIsFull(S, t, m, b);
    hide Supported, Sendable, Exclusive, DecLoop, EncMessage, Received, RequiredSeen, FixedComplete, Defaults, HarmsLoop;
    hide HoldsSlot, EncArray, FullSet, MergeItems, ReceivedItems, DecFresh, ElementsOk;
    var run := AfterMessage(S, t, m);
    var e, start := EncMessage(S, t, m).value, Start(Defaults(S, t));
    if run.fixedField != Some(a) {
      var last := ArrayLoses(S, t, run, [], m, a, []);
      var again := EncArray(S, S[t][a], m[a].items).value;
      HarmsAfter(S, t, start, [], e, again, LostBlock);
      input := e + again;
      assert again + [] == again;
      Accepted(S, t, input, last);
    } else {
      var between := m[b].items;
      assert SchemaOk(S) by { SupportedOk(S); }
      assert Refill(S, t, run, b, between);
      var run2 := Refilled(S, t, run, b, between);
      OtherSlot(S, t, run, b, between, a);
      var last := ArrayLoses(S, t, run2, [], m, a, []) by {
        SetDecodes(S, t, run, b, between, []);
      }
      var again := EncArray(S, S[t][a], m[a].items).value;
      SetDecodes(S, t, run, b, between, []);
      SetDecodes(S, t, run, b, between, again);
      var other := EncArray(S, S[t][b], between).value;
      Transfer.EmptyLoop(S, S[t], run2);
      assert other + [] == other && again + [] == again;
      HarmsAfter(S, t, run, [], other, again, LostBlock);
      HarmsAfter(S, t, start, [], e, other + again, LostBlock);
      input := e + (other + again);
      Accepted(S, t, input, last);
    }
  }

  lemma OtherSlot(S: Schema, t: nat, run: Run, b: nat, items: seq<Value>, a: nat)
    requires Refill(S, t, run, b, items) && a < |S[t]| && a != b
    ensures var run' := Refilled(S, t, run, b, items);
            run'.m[a] == run.m[a] && run'.fixedField == Some(b) && run'.seen == run.seen
  {
    hide FullSet, MergeItems;
  }

  /** The elements of an array inside a submessage in place, as a payload of their own. */
  lemma AgainPayload(S: Schema, f: Field, v: Value, a: nat) returns (payload: bytes)
    requires Supported(S) && SendableItem(S, f, v) && ExclusiveItem(S, f, v) && v.Sub? && f.ptr.Table? && f.ptr.id < |S|
    requires |v.slots| == |S[f.ptr.id]| && a < |S[f.ptr.id]| && FixedSubs(S[f.ptr.id][a])
    requires HoldsSlot(S, S[f.ptr.id][a], Received(S, f.ptr.id, v.slots)[a])
    ensures |payload| < U32 && HarmsLoop(S, f.ptr.id, Start(Received(S, f.ptr.id, v.slots)), [], payload, LostBlock)
    ensures DecMessage(S, f.ptr.id, Received(S, f.ptr.id, v.slots), payload).Ok? <==> RequiredSeen(S[f.ptr.id], {})
  {
    assert Sendable(S, f.ptr.id, v.slots) && Exclusive(S, f.ptr.id, v.slots);
    assert |EncMessage(S, f.ptr.id, v.slots).value| < U32;
    var u, y := f.ptr.id, v.slots;
    NoExtension(S, u, a);
    hide Supported, Sendable, Exclusive, HarmsLoop, DecLoop, Received, RequiredSeen, HoldsSlot, FixedComplete;
    assert EncFrom(S, S[u], y, 0) == EncMessage(S, u, y);
    assert EncMessage(S, u, y).Success? by {
      SupportedOk(S);
      Transfer.SendableEncodes(S, u, y, 0);
    }
    Transfer.PartLength(S, S[u], y, 0, a);
    assert FixedComplete(S[u], Start(Received(S, u, y))) by { NothingStarted(S[u], Received(S, u, y)); }
    var run' := ArrayLoses(S, u, Start(Received(S, u, y)), [], y, a, []);
    payload := EncArray(S, S[u][a], y[a].items).value;
    assert EncField(S, S[u], y, a) == EncArray(S, S[u][a], y[a].items);
    assert payload + [] == payload;
    Transfer.EmptyLoop(S, S[u], run');
  }

  lemma NothingStarted(table: Table, m: Slots)
    ensures FixedComplete(table, Start(m))
  {
  }

  lemma NoExtension(S: Schema, t: nat, i: nat)
    requires Supported(S) && t < |S| && i < |S[t]|
    ensures !S[t][i].ltype.Extension? && !S[t][i].htype.Oneof?
  {
  }

  /** An array of submessages without count inside a submessage in place: for every message whose elements own a block
      there is an input that loses one. It is accepted when the submessage has no required fields. */
  lemma InPlaceTwiceLoses(S: Schema, t: nat, m: Slots, e: nat, a: nat) returns (input: bytes)
    requires Supported(S) && Sendable(S, t, m) && Exclusive(S, t, m) && t < |S| && |m| == |S[t]| && e < |m|
    requires InPlace(S[t][e]) && S[t][e].ptr.Table? && S[t][e].ptr.id < |S| && Present(S, S[t], m, e) && m[e].v.Sub?
    requires |m[e].v.slots| == |S[S[t][e].ptr.id]| && a < |S[S[t][e].ptr.id]| && FixedSubs(S[S[t][e].ptr.id][a])
    requires HoldsSlot(S, S[S[t][e].ptr.id][a], Received(S, S[t][e].ptr.id, m[e].v.slots)[a])
    ensures Harms(S, t, input, LostBlock)
    ensures DecFresh(S, t, input).Ok? <==> RequiredSeen(S[S[t][e].ptr.id], {})
  {
    var f, v := S[t][e], m[e].v;
    FieldSendable(S, t, m, e);
    FieldExclusive(S, t, m, e);
    NoExtension(S, t, e);
    assert SendableItem(S, f, v) && ExclusiveItem(S, f, v);
    var u, y := f.ptr.id, v.slots;
    ReceivedInPlace(S, t, m, e);
    assert SchemaOk(S) by { SupportedOk(S); }
    hide Supported, Sendable, Exclusive, HarmsLoop, DecLoop, Received, RequiredSeen, HoldsSlot, EncMessage, FixedComplete;
    hide SendableItem, ExclusiveItem, Present, DecMessage, Defaults, DecFresh, EncTag, DecPrefixed;
    var run := AfterMessage(S, t, m);
    var payload := AgainPayload(S, f, v, a);
    var prefixed := EncVarint(|payload|) + payload;
    Transfer.PrefixedRoundTrip(payload, []);
    assert prefixed + [] == prefixed;
    var first, start := EncMessage(S, t, m).value, Start(Defaults(S, t));
    assert Inner([], e) == [];
    assert HarmsRecord(S, t, run, [], e, prefixed, LostBlock);
    HarmsFirst(S, t, run, [], e, prefixed, LostBlock);
    var second := EncTag(f.tag, 2) + prefixed;
    HarmsAfter(S, t, start, [], first, second, LostBlock);
    input := first + second;
    Transfer.RecordStep(S, t, run, e, 2, prefixed);
    SecondVerdict(S, t, run, e, prefixed, input, Received(S, u, y), payload);
  }

  lemma ReceivedInPlace(S: Schema, t: nat, m: Slots, e: nat)
    requires t < |S| && e < |m| == |S[t]| && Present(S, S[t], m, e) && m[e].v.Sub?
    requires S[t][e].ptr.Table? && S[t][e].ptr.id < |S| && |m[e].v.slots| == |S[S[t][e].ptr.id]|
    ensures Received(S, t, m)[e] == One(true, Sub(Received(S, S[t][e].ptr.id, m[e].v.slots)))
  {
    hide Present;
    assert m[e].One? by { PresentIsOne(S, t, m, e); }
    assert ReceivedSlot(S, t, m, e) == One(true, ReceivedItem(S, S[t][e], m[e].v));
  }

  lemma PresentIsOne(S: Schema, t: nat, m: Slots, e: nat)
    requires t < |S| && e < |m| == |S[t]| && Present(S, S[t], m, e)
    ensures m[e].One?
  {
  }

  lemma SecondVerdict(S: Schema, t: nat, run: Run, e: nat, b: bytes, input: bytes, start: Slots, payload: bytes)
    requires SchemaOk(S) && t < |S| && e < |S[t]| == |run.m| && InPlace(S[t][e])
    requires S[t][e].ptr.Table? && S[t][e].ptr.id < |S| && run.m[e] == One(true, Sub(start))
    requires DecPrefixed(b) == Ok(payload, [])
    requires FixedComplete(S[t], run) && RequiredSeen(S[t], run.seen)
    requires DecLoop(S, S[t], Start(Defaults(S, t)), input) ==
             match DecField(S, S[t], run, e, 2, b)
             case Ok(run', rest) => DecLoop(S, S[t], run', rest)
             case Fail => Bad
    ensures DecFresh(S, t, input).Ok? <==> DecMessage(S, S[t][e].ptr.id, start, payload).Ok?
  {
    hide SchemaOk, DecLoop, Defaults, DecPrefixed, FixedComplete;
    var p := DecField(S, S[t], run, e, 2, b);
    assert p.Ok? <==> DecMessage(S, S[t][e].ptr.id, start, payload).Ok? by { hide DecMessage; }
    hide DecMessage;
    if p.Ok? {
      assert p.rest == [];
      Transfer.EmptyLoop(S, S[t], p.value);
      assert FixedComplete(S[t], p.value) by { SameFixed(S[t], run, p.value); }
    }
    VerdictOf(S, t, input);
  }

  lemma SameFixed(table: Table, run: Run, run': Run)
    requires FixedComplete(table, run) && run'.fixedField == run.fixedField && run'.fixedCount == run.fixedCount
    ensures FixedComplete(table, run')
  {
  }

  lemma VerdictOf(S: Schema, t: nat, b: bytes)
    requires t < |S|
    ensures var o := DecLoop(S, S[t], Start(Defaults(S, t)), b);
            DecFresh(S, t, b).Ok? <==> o.End? && FixedComplete(S[t], o.run) && RequiredSeen(S[t], o.run.seen)
  {
    hide DecLoop, FixedComplete, RequiredSeen;
  }

  /** A schema that is not tight has an array of one of the two kinds above, and its elements can hold pointers. */
  lemma NotTightCases(S: Schema) returns (t: nat, a: nat)
    requires !Tight(S)
    ensures t < |S| && a < |S[t]| && Lossy(S, S[t][a])
    ensures (exists b :: 0 <= b < |S[t]| && b != a && FixedCount(S[t][b])) ||
            (exists u, e :: 0 <= u < |S| && 0 <= e < |S[u]| && InPlace(S[u][e]) && S[u][e].ptr == Table(t))
  {
    hide Lossy;
    t, a :| t < |S| && a < |S[t]| && Lossy(S, S[t][a]) && (!OnlyFixed(S[t], a) || DecodedInto(S, t));
  }
}
