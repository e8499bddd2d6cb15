/** The conditions on schemas are exact. */
module Exactness {
  import opened Bits
  import opened Varint
  import opened Descriptor
  import opened Message
  import opened EncodeSpec
  import opened DecodeSpec
  import opened Merge
  import opened RoundTrip
  import opened Stale
  import opened Reuse
  import opened Release
  import opened Initial
  import opened Backing
  import opened Damage
  import opened TornPointers
  import opened Samples
  import Overwritten
  import FieldIterator
  import Layout
  import PointerDecoder

  /** The condition against each kind of damage. */
  ghost predicate Safe(S: Schema, h: Harm) {
    match h
    case LostBlock => Tight(S)
    case TornPointer => Clean(S)
  }

  // ---- structs that are initialised while in use ----

  /** A pointer that is set at the start of a struct is one that its type has there. */
  lemma {:induction false} HeadSetPointer(S: Schema, t: nat, m: Slots, room: nat)
    requires SchemaOk(S) && t < |S| && HeadSet(S, t, m, room)
    ensures HeadPointer(S, t, room)
    decreases m
  {
    hide SchemaOk, FieldIterator.DataWalk;
    var i :| 0 <= i < |m| && FieldIterator.DataWalk(S[t], i) < room &&
      HeadSlot(S, S[t][i], m[i], room - FieldIterator.DataWalk(S[t], i));
    FieldFacts(S, t, i);
    var f, left := S[t][i], room - FieldIterator.DataWalk(S[t], i);
    if f.atype.Static? {
      match m[i]
      case One(_, v) =>
        assert v < m[i] && HeadItem(S, f, v, left);
        HeadSetPointer(S, f.ptr.id, v.slots, left);
      case Many(items) =>
        assert items[0] < m[i] && HeadItem(S, f, items[0], left);
        HeadSetPointer(S, f.ptr.id, items[0].slots, left);
    }
  }

  lemma {:induction false} FreeDropsNothing(S: Schema, t: nat, m: Slots)
    requires SchemaOk(S) && t < |S| && PointerFree(S, t)
    ensures !Drops(S, t, m)
    decreases m
  {
    hide SchemaOk, HeadSet;
    if i :| |m| == |S[t]| && 0 <= i < |m| && DropsSlot(S, S[t][i], m[i]) {
      var f := S[t][i];
      match m[i]
      case One(_, v) =>
        assert v < m[i];
        FreeDropsNothing(S, f.ptr.id, v.slots);
      case Many(items) =>
        HeadSetPointer(S, f.ptr.id, items[0].slots, COUNT_SIZE);
        HeadNotFree(S, f.ptr.id, COUNT_SIZE);
    }
  }

  lemma {:induction false} CleanTearsNothing(S: Schema, t: nat, m: Slots)
    requires SchemaOk(S) && Clean(S) && t < |S| && Used(S, t)
    ensures !Tears(S, t, m)
    decreases m
  {
    hide SchemaOk, HeadSet, Used, Clean, HeadPointer;
    if i :| |m| == |S[t]| && 0 <= i < |m| && TearsSlot(S, S[t][i], m[i]) {
      var f := S[t][i];
      UsedPart(S, t, i);
      match m[i]
      case One(_, v) =>
        assert v < m[i];
        CleanTearsNothing(S, f.ptr.id, v.slots);
      case Many(items) =>
        CleanField(S, t, i);
        HeadSetPointer(S, f.ptr.id, items[0].slots, COUNT_SIZE);
    }
  }

  /** Initialising such a struct does no damage, whatever it held. */
  lemma UsedInitialised(S: Schema, t: nat, v: Value, h: Harm)
    requires SchemaOk(S) && Safe(S, h) && t < |S| && Used(S, t) && v.Sub?
    ensures h.LostBlock? ==> !Drops(S, t, v.slots)
    ensures h.TornPointer? ==> !Tears(S, t, v.slots)
  {
    hide SchemaOk, Tight, Clean, Used, Drops, Tears;
    if h.LostBlock? {
      TightUsed(S, t);
      FreeDropsNothing(S, t, v.slots);
    } else {
      CleanTearsNothing(S, t, v.slots);
    }
  }

  /** Nor does decoding into it, whatever it held. */
  lemma {:induction false} UsedUnharmed(S: Schema, t: nat, run: Run, past: Slots, b: bytes, h: Harm)
    requires SchemaOk(S) && Safe(S, h) && t < |S| && Used(S, t)
    ensures !HarmsLoop(S, t, run, past, b, h)
    decreases |b|, 2
  {
    hide SchemaOk, Safe, Used, DecTag, DecRecord, Find, HarmsRecord;
    if HarmsLoop(S, t, run, past, b, h) {
      var w := DecTag(b);
      var p := DecRecord(S, S[t], run, w.tag, w.wireType, w.rest);
      if Find(S[t], w.tag).Some? {
        UsedRecord(S, t, run, past, Find(S[t], w.tag).value, w.rest, h);
      }
      if p.Ok? {
        UsedUnharmed(S, t, p.value, past, p.rest, h);
      }
    }
  }

  lemma {:induction false} UsedRecord(S: Schema, t: nat, run: Run, past: Slots, i: nat, b: bytes, h: Harm)
    requires SchemaOk(S) && Safe(S, h) && t < |S| && i < |S[t]| == |run.m| && Used(S, t)
    ensures !HarmsRecord(S, t, run, past, i, b, h)
    decreases |b|, 1
  {
    hide SchemaOk, Safe, Used, DecPrefixed, HarmsLoop, HarmsElement, Ready, Was;
    var f := S[t][i];
    if f.atype.Static? && f.ltype.Submessage? && DecPrefixed(b).Ok? {
      UsedPart(S, t, i);
      match run.m[i]
      case One(_, v) =>
        if v.Sub? {
          UsedUnharmed(S, f.ptr.id, Start(v.slots), Inner(past, i), DecPrefixed(b).value, h);
        }
      case Many(items) =>
        UsedElement(S, f.ptr.id, Was(items, past, i, CountOf(S[t], run, i)), DecPrefixed(b).value, h);
    }
  }

  lemma {:induction false} UsedElement(S: Schema, id: nat, v: Value, payload: bytes, h: Harm)
    requires SchemaOk(S) && Safe(S, h) && id < |S| && Used(S, id)
    ensures !HarmsElement(S, id, v, payload, h)
    decreases |payload|, 3
  {
    hide SchemaOk, Safe, Used, HarmsLoop, Drops, Tears;
    if v.Sub? {
      UsedInitialised(S, id, v, h);
    }
    UsedUnharmed(S, id, Start(Defaults(S, id)), SlotsOf(v), payload, h);
  }

  // ---- structs that are initialised once ----

  /** The elements that are to come have no value, where the array is filled only once. */
  ghost predicate Vacant(S: Schema, t: nat, run: Run) {
    t < |S| && |run.m| == |S[t]| && forall i :: 0 <= i < |S[t]| ==> VacantField(S, t, run, i)
  }

  ghost predicate VacantField(S: Schema, t: nat, run: Run, i: nat)
    requires t < |S| && i < |S[t]| == |run.m|
  {
    FixedSubs(S[t][i]) && !FilledAgain(S, t, i) && run.m[i].Many? ==>
      forall k: nat :: PointerDecoder.Ahead(run, i, k) && k < |run.m[i].items| ==> !run.m[i].items[k].Sub?
  }

  lemma DefaultsVacant(S: Schema, t: nat)
    requires t < |S|
    ensures Vacant(S, t, Start(Defaults(S, t)))
  {
    hide FilledAgain;
    forall i | 0 <= i < |S[t]|
      ensures VacantField(S, t, Start(Defaults(S, t)), i)
    {
      assert Defaults(S, t)[i] == DefaultSlot(S, t, S[t][i]);
    }
  }

  lemma AgainVacant(S: Schema, t: nat, run: Run)
    requires t < |S| && |run.m| == |S[t]| && DecodedInto(S, t)
    ensures Vacant(S, t, run)
  {
    assert forall i :: 0 <= i < |S[t]| ==> FilledAgain(S, t, i);
  }

  /** A record fills the next element. */
  lemma RecordVacant(S: Schema, t: nat, run: Run, i: nat, w: nat, b: bytes)
    requires Vacant(S, t, run) && i < |S[t]| && DecField(S, S[t], run, i, w, b).Ok?
    ensures Vacant(S, t, DecField(S, S[t], run, i, w, b).value)
  {
    hide DecItem, DecPrefixed, DecPacked;
    var run' := DecField(S, S[t], run, i, w, b).value;
    forall j | 0 <= j < |S[t]|
      ensures VacantField(S, t, run', j)
    {
      assert VacantField(S, t, run, j);
      if FixedSubs(S[t][j]) && !FilledAgain(S, t, j) && run'.m[j].Many? {
        assert OnlyFixed(S[t], j);
        forall k: nat | PointerDecoder.Ahead(run', j, k) && k < |run'.m[j].items|
          ensures !run'.m[j].items[k].Sub?
        {
          if i == j {
            assert run'.fixedField == Some(i) && run'.fixedCount == CountOf(S[t], run, i) + 1;
            assert PointerDecoder.Ahead(run, i, k);
          } else {
            assert PointerDecoder.Ahead(run, j, k);
          }
        }
      }
    }
  }

  /** Decoding into a struct that is initialised once does no damage. */
  lemma {:induction false} FreshUnharmed(S: Schema, t: nat, run: Run, b: bytes, h: Harm)
    requires SchemaOk(S) && Safe(S, h) && t < |S| && Shaped(S, t, run.m) && Vacant(S, t, run)
    ensures !HarmsLoop(S, t, run, [], b, h)
    decreases |b|, 2
  {
    hide SchemaOk, Safe, Vacant, DecTag, DecField, Find, HarmsRecord, Shaped, Skip;
    if HarmsLoop(S, t, run, [], b, h) {
      var w := DecTag(b);
      var p := DecRecord(S, S[t], run, w.tag, w.wireType, w.rest);
      if Find(S[t], w.tag).Some? {
        var i := Find(S[t], w.tag).value;
        FreshRecord(S, t, run, i, w.rest, h);
        if p.Ok? {
          RecordVacant(S, t, run, i, w.wireType, w.rest);
          Layout.RecordShaped(S, t, run, w.tag, w.wireType, w.rest);
          FreshUnharmed(S, t, p.value, p.rest, h);
        }
      } else if p.Ok? {
        FreshUnharmed(S, t, p.value, p.rest, h);
      }
    }
  }

  lemma {:induction false} FreshRecord(S: Schema, t: nat, run: Run, i: nat, b: bytes, h: Harm)
    requires SchemaOk(S) && Safe(S, h) && t < |S| && i < |S[t]| && Shaped(S, t, run.m) && Vacant(S, t, run)
    ensures |run.m| == |S[t]| && !HarmsRecord(S, t, run, [], i, b, h)
    decreases |b|, 1
  {
    FieldFacts(S, t, i);
    VacantAt(S, t, run, i);
    hide SchemaOk, Safe, Used, DecPrefixed, HarmsLoop, HarmsElement, Vacant, Shaped, FilledAgain, DecodedInto;
    var f := S[t][i];
    if f.atype.Static? && f.ltype.Submessage? && DecPrefixed(b).Ok? {
      var id, payload := f.ptr.id, DecPrefixed(b).value;
      match run.m[i]
      case One(_, v) =>
        if InPlace(f) && v.Sub? {
          assert Inner([], i) == [];
          InPlaceVacant(S, t, i, v.slots);
          FreshUnharmed(S, id, Start(v.slots), payload, h);
        }
      case Many(items) =>
        if f.htype.Repeated? && Ready(S[t], run, i) {
          var v := Was(items, [], i, CountOf(S[t], run, i));
          if v.Sub? {
            FilledUsed(S, t, i);
            UsedElement(S, id, v, payload, h);
          } else {
            NewElement(S, id, v, payload, h);
          }
        }
    }
  }

  lemma VacantAt(S: Schema, t: nat, run: Run, i: nat)
    requires t < |S| && i < |S[t]| && Shaped(S, t, run.m) && Vacant(S, t, run)
    ensures |run.m| == |S[t]| && (S[t][i].ltype.Extension? || ShapedSlot(S, t, S[t][i], run.m[i]))
    ensures |run.m| == |S[t]| && VacantField(S, t, run, i)
    ensures run.m[i].Many? && FixedSubs(S[t][i]) && !FilledAgain(S, t, i) && Ready(S[t], run, i) ==>
              !Was(run.m[i].items, [], i, CountOf(S[t], run, i)).Sub?
  {
    hide FilledAgain;
    if run.m[i].Many? && FixedSubs(S[t][i]) {
      assert PointerDecoder.Ahead(run, i, CountOf(S[t], run, i));
    }
  }

  /** An element of an array that can be filled again. */
  lemma FilledUsed(S: Schema, t: nat, i: nat)
    requires SchemaOk(S) && t < |S| && i < |S[t]| && FixedSubs(S[t][i]) && FilledAgain(S, t, i)
    ensures S[t][i].ptr.Table? && S[t][i].ptr.id < t && Used(S, S[t][i].ptr.id)
  {
    FieldFacts(S, t, i);
    assert UsedBy(S, t, i, S[t][i].ptr.id);
  }

  lemma InPlaceVacant(S: Schema, t: nat, i: nat, m: Slots)
    requires t < |S| && i < |S[t]| && InPlace(S[t][i]) && S[t][i].ptr.Table? && S[t][i].ptr.id < |S|
    requires Shaped(S, S[t][i].ptr.id, m)
    ensures Vacant(S, S[t][i].ptr.id, Start(m))
  {
    assert DecodedInto(S, S[t][i].ptr.id);
    AgainVacant(S, S[t][i].ptr.id, Start(m));
  }

  lemma {:induction false} NewElement(S: Schema, id: nat, v: Value, payload: bytes, h: Harm)
    requires SchemaOk(S) && Safe(S, h) && id < |S| && !v.Sub?
    ensures !HarmsElement(S, id, v, payload, h)
    decreases |payload|, 3
  {
    hide SchemaOk, Safe, HarmsLoop, Vacant, Shaped, Defaults;
    DefaultsVacant(S, id);
    DefaultsShaped(S, id);
    FreshUnharmed(S, id, Start(Defaults(S, id)), payload, h);
  }

  // ---- the equivalences ----

  /** On a schema that meets the condition no input does damage. */
  lemma SafeUnharmed(S: Schema, t: nat, b: bytes, h: Harm)
    requires SchemaOk(S) && Safe(S, h) && t < |S|
    ensures !Harms(S, t, b, h)
  {
    hide SchemaOk, Safe, HarmsLoop, Vacant, Shaped, Defaults;
    DefaultsVacant(S, t);
    DefaultsShaped(S, t);
    FreshUnharmed(S, t, Start(Defaults(S, t)), b, h);
  }

  /** On any other one, whose samples can be sent, some input loses a block. */
  lemma NotTightLoses(S: Schema) returns (t: nat, b: bytes)
    requires Supported(S) && Sampled(S) && !Tight(S)
    ensures t < |S| && Harms(S, t, b, LostBlock)
  {
    hide SchemaOk, NoUnions, CountsAhead, Sampled, Rich, Tight, PointerFree, Harms, Received, HoldsSlot;
    var u, a := Overwritten.NotTightCases(S);
    FieldFacts(S, u, a);
    LossyNotFree(S, u, a);
    RichSlotHolds(S, u, a);
    if c :| 0 <= c < |S[u]| && c != a && FixedCount(S[u][c]) {
      t := u;
      SampleOk(S, t);
      b := Overwritten.TwoArraysLose(S, t, Rich(S, t), a, c);
    } else {
      var q, e :| 0 <= q < |S| && 0 <= e < |S[q]| && InPlace(S[q][e]) && S[q][e].ptr == Table(u);
      t := q;
      FieldFacts(S, t, e);
      SampleOk(S, t);
      InPlacePresent(S, t, e);
      b := Overwritten.InPlaceTwiceLoses(S, t, Rich(S, t), e, a);
    }
  }

  lemma SampleOk(S: Schema, t: nat)
    requires Supported(S) && Sampled(S) && t < |S|
    ensures Sendable(S, t, Rich(S, t)) && Exclusive(S, t, Rich(S, t)) && |Rich(S, t)| == |S[t]|
  {
    RichExclusive(S, t);
  }

  lemma LossyNotFree(S: Schema, t: nat, a: nat)
    requires SchemaOk(S) && t < |S| && a < |S[t]| && Lossy(S, S[t][a])
    ensures FixedSubs(S[t][a]) && S[t][a].ptr.Table? && S[t][a].ptr.id < t && !PointerFree(S, S[t][a].ptr.id)
    ensures !PointerFree(S, t)
  {
    FieldFacts(S, t, a);
  }

  /** On a schema that is not clean, whose samples can be sent, some input tears a pointer. */
  lemma NotCleanTears(S: Schema) returns (t: nat, b: bytes)
    requires Supported(S) && Sampled(S) && !Clean(S)
    ensures t < |S| && Harms(S, t, b, TornPointer)
  {
    Overwritten.SupportedOk(S);
    hide SchemaOk, NoUnions, CountsAhead, Sampled, Rich, Clean, PointerFree, Harms, Received, TearableSlot, TearableType;
    CleanExact(S);
    var u, a :| 0 <= u < |S| && 0 <= a < |S[u]| && TearableArray(S, u, a);
    FieldFacts(S, u, a);
    RichSlotTearable(S, u, a);
    if c :| 0 <= c < |S[u]| && c != a && FixedCount(S[u][c]) {
      t := u;
      SampleOk(S, t);
      b := TwoArraysTear(S, t, Rich(S, t), a, c);
    } else {
      var q, e :| 0 <= q < |S| && 0 <= e < |S[q]| && InPlace(S[q][e]) && S[q][e].ptr == Table(u);
      t := q;
      FieldFacts(S, t, e);
      SampleOk(S, t);
      TearableNotFree(S, S[u][a].ptr.id);
      PartNotFree(S, u, a);
      InPlacePresent(S, t, e);
      b := InPlaceTwiceTears(S, t, Rich(S, t), e, a);
    }
  }

  lemma PartNotFree(S: Schema, t: nat, a: nat)
    requires t < |S| && a < |S[t]| && FixedSubs(S[t][a]) && S[t][a].ptr.Table? && S[t][a].ptr.id < t
    requires !PointerFree(S, S[t][a].ptr.id)
    ensures !PointerFree(S, t)
  {
  }

  /** Both conditions are exact. */
  lemma ConditionsExact(S: Schema)
    requires Supported(S) && Sampled(S)
    ensures Tight(S) <==> forall t, b :: 0 <= t < |S| ==> !Harms(S, t, b, LostBlock)
    ensures Clean(S) <==> forall t, b :: 0 <= t < |S| ==> !Harms(S, t, b, TornPointer)
  {
    Overwritten.SupportedOk(S);
    hide Supported, SchemaOk, Sampled, Tight, Clean, Harms;
    forall t: nat, b, h | t < |S| && Safe(S, h)
      ensures !Harms(S, t, b, h)
    {
      SafeUnharmed(S, t, b, h);
    }
    assert Tight(S) ==> Safe(S, LostBlock);
    assert Clean(S) ==> Safe(S, TornPointer);
    if !Tight(S) {
      var t, b := NotTightLoses(S);
    }
    if !Clean(S) {
      var t, b := NotCleanTears(S);
    }
  }
}
