/** Decoding does not depend on older elements of arrays without count. */
module Stale {
  import opened Bits
  import opened Varint
  import opened Descriptor
  import opened Message
  import opened DecodeSpec

  /** An array of submessages without count. */
  predicate FixedSubs(f: Field) {
    FixedCount(f) && f.ltype.Submessage?
  }

  /** A single submessage that is part of its parent's struct for good. */
  predicate InPlace(f: Field) {
    Embedded(f) && !f.htype.Repeated?
  }

  /** The struct after initialisation when it held m before: the elements of arrays without count are still there, but for
      the first one, the start of which is cleared like a count. */
  function Renew(S: Schema, t: nat, m: Slots): (r: Slots)
    requires t < |S|
    ensures |r| == |S[t]|
    decreases t, 1
  {
    seq(|S[t]|, i requires 0 <= i < |S[t]| =>
      if i < |m| then RenewSlot(S, t, S[t][i], m[i]) else DefaultSlot(S, t, S[t][i]))
  }

  function RenewSlot(S: Schema, t: nat, f: Field, slot: Slot): Slot
    requires t < |S|
    decreases t, 0
  {
    if FixedSubs(f) && slot.Many? && |slot.items| == f.arraySize then
      Many(if slot.items == [] then [] else slot.items[0 := Indeterminate])
    else if InPlace(f) && f.ptr.Table? && f.ptr.id < t && slot.One? && slot.v.Sub? then
      One(f.htype.Required? || f.sizeOffset == 0, Sub(Renew(S, f.ptr.id, slot.v.slots)))
    else DefaultSlot(S, t, f)
  }

  lemma {:induction false} RenewShaped(S: Schema, t: nat, m: Slots)
    requires t < |S|
    ensures Shaped(S, t, Renew(S, t, m))
    decreases t
  {
    DefaultsShaped(S, t);
    forall i | 0 <= i < |S[t]|
      ensures ShapedSlot(S, t, S[t][i], Renew(S, t, m)[i])
    {
      assert Defaults(S, t)[i] == DefaultSlot(S, t, S[t][i]);
      assert ShapedSlot(S, t, S[t][i], Defaults(S, t)[i]);
      if i < |m| && m[i].One? && m[i].v.Sub? && InPlace(S[t][i]) && S[t][i].ptr.Table? && S[t][i].ptr.id < t {
        RenewShaped(S, S[t][i].ptr.id, m[i].v.slots);
      }
    }
  }

  /** The second struct is the first one, but for elements that have no value in the first. */
  ghost predicate Covers(S: Schema, t: nat, m: Slots, m': Slots)
    requires t < |S|
    decreases t, 1
  {
    |m| == |m'| == |S[t]| && forall i :: 0 <= i < |m| ==> CoversSlot(S, t, S[t][i], m[i], m'[i])
  }

  ghost predicate CoversSlot(S: Schema, t: nat, f: Field, slot: Slot, slot': Slot)
    requires t < |S|
    decreases t, 0
  {
    if FixedSubs(f) then
      slot.Many? && slot'.Many? && |slot.items| == |slot'.items| == f.arraySize &&
      forall k :: 0 <= k < |slot.items| ==> slot.items[k] == slot'.items[k] || slot.items[k].Indeterminate?
    else if InPlace(f) && f.ptr.Table? && f.ptr.id < t then
      slot.One? && slot'.One? && slot.has == slot'.has && slot.v.Sub? && slot'.v.Sub? &&
      Covers(S, f.ptr.id, slot.v.slots, slot'.v.slots)
    else slot == slot'
  }

  lemma {:induction false} DefaultsCovered(S: Schema, t: nat, m: Slots)
    requires SchemaOk(S) && t < |S|
    ensures Covers(S, t, Defaults(S, t), Renew(S, t, m))
    decreases t, 1
  {
    hide CoversSlot, DefaultSlot, RenewSlot, SchemaOk;
    forall i | 0 <= i < |S[t]|
      ensures CoversSlot(S, t, S[t][i], Defaults(S, t)[i], Renew(S, t, m)[i])
    {
      DefaultCovered(S, t, i, if i < |m| then m[i] else DefaultSlot(S, t, S[t][i]));
      DefaultCovered(S, t, i, DefaultSlot(S, t, S[t][i]));
      assert Defaults(S, t)[i] == DefaultSlot(S, t, S[t][i]);
    }
  }

  lemma {:induction false} DefaultCovered(S: Schema, t: nat, i: nat, slot: Slot)
    requires SchemaOk(S) && t < |S| && i < |S[t]|
    ensures CoversSlot(S, t, S[t][i], DefaultSlot(S, t, S[t][i]), RenewSlot(S, t, S[t][i], slot))
    ensures CoversSlot(S, t, S[t][i], DefaultSlot(S, t, S[t][i]), DefaultSlot(S, t, S[t][i]))
    decreases t, 0
  {
    hide Covers, Defaults, Renew, Shaped;
    var f := S[t][i];
    assert TableOk(S, t, S[t]) && FieldOk(S, t, f);
    if InPlace(f) {
      assert DefaultItem(S, t, f) == Sub(Defaults(S, f.ptr.id));
      DefaultsShaped(S, f.ptr.id);
      CoversItself(S, f.ptr.id, Defaults(S, f.ptr.id));
      if slot.One? && slot.v.Sub? {
        DefaultsCovered(S, f.ptr.id, slot.v.slots);
      }
    }
  }

  lemma {:induction false} CoversItself(S: Schema, t: nat, m: Slots)
    requires SchemaOk(S) && t < |S| && Shaped(S, t, m)
    ensures Covers(S, t, m, m)
    decreases t
  {
    hide SchemaOk;
    forall i | 0 <= i < |m|
      ensures CoversSlot(S, t, S[t][i], m[i], m[i])
    {
      var f := S[t][i];
      assert FieldOk(S, t, f) by { FieldFacts(S, t, i); }
      assert ShapedSlot(S, t, f, m[i]);
      if InPlace(f) {
        CoversItself(S, f.ptr.id, m[i].v.slots);
      }
    }
  }

  lemma FieldFacts(S: Schema, t: nat, i: nat)
    requires SchemaOk(S) && t < |S| && i < |S[t]|
    ensures FieldOk(S, t, S[t][i])
  {
    assert TableOk(S, t, S[t]);
  }

  // ---- decoding does not depend on stale elements ----

  /** The runs differ in stale elements only. */
  ghost predicate RunCovers(S: Schema, t: nat, run: Run, run': Run)
    requires t < |S|
  {
    Covers(S, t, run.m, run'.m) && run' == run.(m := run'.m)
  }

  ghost predicate RecordCovers(S: Schema, t: nat, p: Parsed<Run>, p': Parsed<Run>)
    requires t < |S|
  {
    (p.Ok? <==> p'.Ok?) && (p.Ok? ==> p.rest == p'.rest && RunCovers(S, t, p.value, p'.value))
  }

  ghost predicate ItemCovers(S: Schema, f: Field, p: Parsed<Value>, p': Parsed<Value>) {
    && (p.Ok? <==> p'.Ok?)
    && (p.Ok? ==> p.rest == p'.rest && f.ptr.Table? && f.ptr.id < |S| && p.value.Sub? && p'.value.Sub? &&
                  Covers(S, f.ptr.id, p.value.slots, p'.value.slots))
  }

  lemma {:induction false} ItemCovered(S: Schema, f: Field, start: Slots, start': Slots, b: bytes)
    requires SchemaOk(S) && f.ltype.Submessage? && f.ptr.Table? && f.ptr.id < |S| && Covers(S, f.ptr.id, start, start')
    ensures ItemCovers(S, f, DecItem(S, f, start, b), DecItem(S, f, start', b))
    decreases |b|, 0
  {
    hide SchemaOk, Covers, DecMessage;
    if DecPrefixed(b).Ok? {
      MessageCovered(S, f.ptr.id, start, start', DecPrefixed(b).value);
    }
  }

  lemma {:induction false} FieldCovered(S: Schema, t: nat, run: Run, run': Run, i: nat, w: nat, b: bytes)
    requires SchemaOk(S) && t < |S| && RunCovers(S, t, run, run') && i < |S[t]| == |run.m| == |run'.m|
    ensures RecordCovers(S, t, DecField(S, S[t], run, i, w, b), DecField(S, S[t], run', i, w, b))
    decreases |b|, 2
  {
    hide SchemaOk, DecField, Covers;
    var f := S[t][i];
    if InPlace(f) {
      InPlaceCovered(S, t, run, run', i, w, b);
    } else if FixedSubs(f) {
      ElementCovered(S, t, run, run', i, w, b);
    } else {
      PlainCovered(S, t, run, run', i, w, b);
    }
  }

  /** The other fields do not differ, and what they become does not either. */
  lemma PlainCovered(S: Schema, t: nat, run: Run, run': Run, i: nat, w: nat, b: bytes)
    requires SchemaOk(S) && t < |S| && RunCovers(S, t, run, run') && i < |S[t]| == |run.m| == |run'.m|
    requires !InPlace(S[t][i]) && !FixedSubs(S[t][i])
    ensures RecordCovers(S, t, DecField(S, S[t], run, i, w, b), DecField(S, S[t], run', i, w, b))
  {
    hide SchemaOk, DecItem, DecRepeated;
    FieldFacts(S, t, i);
    assert CoversSlot(S, t, S[t][i], run.m[i], run'.m[i]);
    var p, p' := DecField(S, S[t], run, i, w, b), DecField(S, S[t], run', i, w, b);
    if p.Ok? {
      forall j | 0 <= j < |S[t]|
        ensures CoversSlot(S, t, S[t][j], p.value.m[j], p'.value.m[j])
      {
        assert CoversSlot(S, t, S[t][j], run.m[j], run'.m[j]);
      }
    }
  }

  lemma {:induction false} InPlaceCovered(S: Schema, t: nat, run: Run, run': Run, i: nat, w: nat, b: bytes)
    requires SchemaOk(S) && t < |S| && RunCovers(S, t, run, run') && i < |S[t]| == |run.m| == |run'.m|
    requires InPlace(S[t][i])
    ensures RecordCovers(S, t, DecField(S, S[t], run, i, w, b), DecField(S, S[t], run', i, w, b))
    decreases |b|, 1
  {
    hide SchemaOk, DecItem;
    var f := S[t][i];
    FieldFacts(S, t, i);
    assert CoversSlot(S, t, f, run.m[i], run'.m[i]);
    ItemCovered(S, f, run.m[i].v.slots, run'.m[i].v.slots, b);
    var p, p' := DecField(S, S[t], run, i, w, b), DecField(S, S[t], run', i, w, b);
    if p.Ok? {
      forall j | 0 <= j < |S[t]|
        ensures CoversSlot(S, t, S[t][j], p.value.m[j], p'.value.m[j])
      {
        assert CoversSlot(S, t, S[t][j], run.m[j], run'.m[j]);
      }
    }
  }

  lemma ElementCovered(S: Schema, t: nat, run: Run, run': Run, i: nat, w: nat, b: bytes)
    requires SchemaOk(S) && t < |S| && RunCovers(S, t, run, run') && i < |S[t]| == |run.m| == |run'.m|
    requires FixedSubs(S[t][i])
    ensures RecordCovers(S, t, DecField(S, S[t], run, i, w, b), DecField(S, S[t], run', i, w, b))
  {
    hide SchemaOk, DecItem;
    var f := S[t][i];
    assert CoversSlot(S, t, f, run.m[i], run'.m[i]);
    var items, items', n := run.m[i].items, run'.m[i].items, CountOf(S[t], run, i);
    SameElement(S, f, items, items', n, w, b);
    hide DecRepeated;
    var p, p' := DecField(S, S[t], run, i, w, b), DecField(S, S[t], run', i, w, b);
    assert p.Ok? <==> p'.Ok?;
    if p.Ok? {
      forall j | 0 <= j < |S[t]|
        ensures CoversSlot(S, t, S[t][j], p.value.m[j], p'.value.m[j])
      {
        assert CoversSlot(S, t, S[t][j], run.m[j], run'.m[j]);
      }
    }
  }

  lemma SameElement(S: Schema, f: Field, items: seq<Value>, items': seq<Value>, n: nat, w: nat, b: bytes)
    requires FixedSubs(f) && |items| == |items'| == f.arraySize
    ensures var p, p' := DecRepeated(S, f, items, n, w, b), DecRepeated(S, f, items', n, w, b);
            && (p.Ok? <==> p'.Ok?)
            && (p.Ok? ==> p.rest == p'.rest && p.value.1 == p'.value.1 && n < f.arraySize == |p.value.0| &&
                          p.value.0 == items[n := p.value.0[n]] && p'.value.0 == items'[n := p.value.0[n]])
  {
    hide DecItem;
    if n < f.arraySize && DecItem(S, f, Fresh(S, f), b).Ok? {
      var v := DecItem(S, f, Fresh(S, f), b).value;
      assert DecRepeated(S, f, items, n, w, b).value.0 == items[n := v];
      assert DecRepeated(S, f, items', n, w, b).value.0 == items'[n := v];
    }
  }

  lemma {:induction false} RecordCovered(S: Schema, t: nat, run: Run, run': Run, tag: nat, w: nat, b: bytes)
    requires SchemaOk(S) && t < |S| && RunCovers(S, t, run, run') && |S[t]| == |run.m| == |run'.m|
    ensures RecordCovers(S, t, DecRecord(S, S[t], run, tag, w, b), DecRecord(S, S[t], run', tag, w, b))
    decreases |b|, 3
  {
    hide SchemaOk, DecField, Covers, Find, Skip, DecVarint32;
    if Find(S[t], tag).Some? {
      FieldCovered(S, t, run, run', Find(S[t], tag).value, w, b);
    }
  }

  lemma {:induction false} LoopCovered(S: Schema, t: nat, run: Run, run': Run, b: bytes)
    requires SchemaOk(S) && t < |S| && RunCovers(S, t, run, run') && |S[t]| == |run.m| == |run'.m|
    ensures var o, o' := DecLoop(S, S[t], run, b), DecLoop(S, S[t], run', b);
            && (o.End? <==> o'.End?)
            && (o.End? ==> o.rest == o'.rest && o.stopped == o'.stopped && RunCovers(S, t, o.run, o'.run))
    decreases |b|, 4
  {
    hide SchemaOk, DecRecord, DecTag, Covers;
    if b != [] && DecTag(b).Tag? {
      var w := DecTag(b);
      RecordCovered(S, t, run, run', w.tag, w.wireType, w.rest);
      var p, p' := DecRecord(S, S[t], run, w.tag, w.wireType, w.rest), DecRecord(S, S[t], run', w.tag, w.wireType, w.rest);
      if p.Ok? {
        LoopCovered(S, t, p.value, p'.value, p.rest);
      }
    }
  }

  /** Decoding into structs that differ in stale elements only has the same verdict, uses the same bytes, and gives
      structs that differ in stale elements only: whatever is decoded is the same. */
  lemma {:induction false} MessageCovered(S: Schema, t: nat, m: Slots, m': Slots, b: bytes)
    requires SchemaOk(S) && t < |S| && Covers(S, t, m, m')
    ensures var p, p' := DecMessage(S, t, m, b), DecMessage(S, t, m', b);
            (p.Ok? <==> p'.Ok?) && (p.Ok? ==> p.rest == p'.rest && Covers(S, t, p.value, p'.value))
    decreases |b|, 5
  {
    assert |m| == |m'| == |S[t]|;
    hide SchemaOk, DecLoop, Covers;
    LoopCovered(S, t, Start(m), Start(m'), b);
  }

  /** Decoding into a struct that was in use and is initialised again has the outcome of decoding into a fresh one. */
  lemma DecodedAgain(S: Schema, t: nat, m: Slots, b: bytes)
    requires SchemaOk(S) && t < |S|
    ensures var p, p' := DecFresh(S, t, b), DecMessage(S, t, Renew(S, t, m), b);
            (p.Ok? <==> p'.Ok?) && (p.Ok? ==> p.rest == p'.rest && Covers(S, t, p.value, p'.value))
    ensures Shaped(S, t, Renew(S, t, m))
  {
    hide SchemaOk, DecMessage, Covers, Renew, Defaults, Shaped;
    RenewShaped(S, t, m);
    DefaultsCovered(S, t, m);
    MessageCovered(S, t, Defaults(S, t), Renew(S, t, m), b);
  }
}
