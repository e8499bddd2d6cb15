/** Inputs that tear pointers, for every message that has one in the wrong place. */
module TornPointers {
  import opened Bits
  import opened Varint
  import opened Integers
  import opened Descriptor
  import opened Message
  import opened EncodeSpec
  import opened DecodeSpec
  import opened Merge
  import opened RoundTrip
  import opened Stale
  import opened FieldIterator
  import opened Reuse
  import opened Release
  import opened Initial
  import opened Backing
  import opened Damage
  import opened Overwritten
  import Concat
  import Transfer

  // ---- schemas ----

  /** A struct of this type has a pointer at the start of an array without count, in itself or in a part that is stored in
      it. */
  predicate TearableType(S: Schema, t: nat)
    requires t < |S|
    decreases t
  {
    Fragile(S, t) ||
    exists i :: 0 <= i < |S[t]| && S[t][i].ltype.Submessage? && S[t][i].atype.Static? && S[t][i].ptr.Table? &&
      S[t][i].ptr.id < t &&
      TearableType(S, S[t][i].ptr.id)
  }

  /** The array of field a holds such structs, and it can be filled again. */
  predicate TearableArray(S: Schema, t: nat, a: nat)
    requires t < |S| && a < |S[t]|
  {
    var f := S[t][a];
    && FixedSubs(f) && f.ptr.Table? && f.ptr.id < |S| && TearableType(S, f.ptr.id)
    && (!OnlyFixed(S[t], a) || DecodedInto(S, t))
  }

  /** A schema is not clean exactly when it has such an array. */
  lemma CleanExact(S: Schema)
    requires SchemaOk(S)
    ensures !Clean(S) <==> exists t, a :: 0 <= t < |S| && 0 <= a < |S[t]| && TearableArray(S, t, a)
  {
    hide SchemaOk, Used, Fragile, TearableArray;
    if !Clean(S) {
      var u :| 0 <= u < |S| && Used(S, u) && Fragile(S, u);
      var t, a := OuterArray(S, u);
    }
    if t, a :| 0 <= t < |S| && 0 <= a < |S[t]| && TearableArray(S, t, a) {
      ArrayUsed(S, t, a);
      var u := UsedFragile(S, S[t][a].ptr.id);
    }
  }

  lemma {:induction false} OuterArray(S: Schema, u: nat) returns (t: nat, a: nat)
    requires SchemaOk(S) && u < |S| && Used(S, u) && TearableType(S, u)
    ensures t < |S| && a < |S[t]| && TearableArray(S, t, a)
    decreases |S| - u
  {
    hide SchemaOk, DecodedInto, OnlyFixed, TearableType;
    var p, i :| 0 <= p < |S| && 0 <= i < |S[p]| && u < p && UsedBy(S, p, i, u);
    UserUsed(S, p, i, u);
    hide Used, UsedBy;
    if FixedCount(S[p][i]) && (!OnlyFixed(S[p], i) || DecodedInto(S, p)) {
      t, a := p, i;
    } else {
      PartTearable(S, p, i);
      t, a := OuterArray(S, p);
    }
  }

  lemma UserUsed(S: Schema, p: nat, i: nat, u: nat)
    requires u < p < |S| && i < |S[p]| && UsedBy(S, p, i, u)
    ensures S[p][i].ltype.Submessage? && S[p][i].atype.Static? && S[p][i].ptr == Table(u)
    ensures (FixedCount(S[p][i]) && (!OnlyFixed(S[p], i) || DecodedInto(S, p))) || Used(S, p)
  {
    hide OnlyFixed, DecodedInto;
    if FixedCount(S[p][i]) {
      assert FilledAgain(S, p, i);
    }
  }

  lemma PartTearable(S: Schema, p: nat, i: nat)
    requires p < |S| && i < |S[p]| && S[p][i].ltype.Submessage? && S[p][i].atype.Static? && S[p][i].ptr.Table? &&
             S[p][i].ptr.id < p
    requires TearableType(S, S[p][i].ptr.id)
    ensures TearableType(S, p)
  {
    hide Fragile;
  }

  lemma ArrayUsed(S: Schema, t: nat, a: nat)
    requires SchemaOk(S) && t < |S| && a < |S[t]| && TearableArray(S, t, a)
    ensures S[t][a].ptr.Table? && S[t][a].ptr.id < |S| && Used(S, S[t][a].ptr.id) && TearableType(S, S[t][a].ptr.id)
  {
    FieldFacts(S, t, a);
    hide SchemaOk, TearableType, DecodedInto, OnlyFixed;
    assert UsedBy(S, t, a, S[t][a].ptr.id);
  }

  lemma {:induction false} UsedFragile(S: Schema, t: nat) returns (u: nat)
    requires SchemaOk(S) && t < |S| && Used(S, t) && TearableType(S, t)
    ensures u < |S| && Used(S, u) && Fragile(S, u)
    decreases t
  {
    hide SchemaOk, Used, Fragile;
    if Fragile(S, t) {
      u := t;
    } else {
      var i :| 0 <= i < |S[t]| && S[t][i].ltype.Submessage? && S[t][i].atype.Static? && S[t][i].ptr.Table? &&
        S[t][i].ptr.id < t &&
        TearableType(S, S[t][i].ptr.id);
      UsedPart(S, t, i);
      u := UsedFragile(S, S[t][i].ptr.id);
    }
  }

  // ---- values ----

  ghost predicate TearableItem(S: Schema, f: Field, v: Value)
    decreases v, 0
  {
    v.Sub? && f.ltype.Submessage? && f.ptr.Table? && f.ptr.id < |S| && Tearable(S, f.ptr.id, v.slots)
  }

  ghost predicate TearableSlot(S: Schema, f: Field, slot: Slot)
    decreases slot, 0
  {
    f.atype.Static? &&
    match slot
    case One(_, v) => TearableItem(S, f, v)
    case Many(items) => exists k :: 0 <= k < |items| && TearableItem(S, f, items[k])
  }

  /** The struct holds a pointer at the start of an array without count, in itself or in a part that is stored in it. */
  ghost predicate Tearable(S: Schema, t: nat, m: Slots)
    requires t < |S|
    decreases m, 0
  {
    Tears(S, t, m) || (|m| == |S[t]| && exists i :: 0 <= i < |m| && TearableSlot(S, S[t][i], m[i]))
  }

  /** An initialised struct holds no pointer. */
  lemma {:induction false} DefaultsNotTearable(S: Schema, t: nat)
    requires SchemaOk(S) && t < |S|
    ensures !Tearable(S, t, Defaults(S, t))
    decreases t, 1
  {
    hide SchemaOk, TearableSlot, TearsSlot, DefaultSlot;
    forall i | 0 <= i < |S[t]|
      ensures !TearableSlot(S, S[t][i], Defaults(S, t)[i]) && !TearsSlot(S, S[t][i], Defaults(S, t)[i])
    {
      DefaultNotTearable(S, t, i);
      assert Defaults(S, t)[i] == DefaultSlot(S, t, S[t][i]);
    }
  }

  lemma {:induction false} DefaultNotTearable(S: Schema, t: nat, i: nat)
    requires SchemaOk(S) && t < |S| && i < |S[t]|
    ensures !TearableSlot(S, S[t][i], DefaultSlot(S, t, S[t][i])) && !TearsSlot(S, S[t][i], DefaultSlot(S, t, S[t][i]))
    decreases t, 0
  {
    FieldFacts(S, t, i);
    hide SchemaOk, Tearable, Tears, Defaults, HeadSet;
    var f := S[t][i];
    if InPlace(f) {
      DefaultsNotTearable(S, f.ptr.id);
      TearsTearable(S, f.ptr.id, Defaults(S, f.ptr.id));
    }
  }

  lemma TearsTearable(S: Schema, t: nat, m: Slots)
    requires t < |S|
    ensures Tears(S, t, m) ==> Tearable(S, t, m)
  {
    hide Tears, TearableSlot;
  }

  // ---- payloads ----

  lemma {:induction false} VarintGrows(a: nat, b: nat)
    requires a <= b
    ensures |EncVarint(a)| <= |EncVarint(b)|
    decreases b
  {
    if a >= 128 {
      VarintGrows(a / 128, b / 128);
    }
  }

  lemma RecordShorter(f: Field, p: bytes, q: bytes, tail: bytes)
    requires |p| <= |q|
    ensures |LastRecord(f, p, [])| <= |LastRecord(f, q, tail)|
  {
    hide EncVarint, EncTag;
    VarintGrows(|p|, |q|);
  }

  /** A payload that initialises such a struct again, on its way to the pointer, and stops there. */
  lemma {:induction false} TearAgain(S: Schema, t: nat, m: Slots) returns (p: bytes)
    requires Supported(S) && Sendable(S, t, m) && Exclusive(S, t, m) && t < |S| && |m| == |S[t]|
    requires Tearable(S, t, Received(S, t, m))
    ensures EncMessage(S, t, m).Success? && |p| <= |EncMessage(S, t, m).value|
    ensures HarmsElement(S, t, Sub(Received(S, t, m)), p, TornPointer)
    decreases m, 2
  {
    hide Supported, Sendable, Exclusive, Tears, HarmsLoop, ReceivedSlot, TearableSlot, EncFrom;
    Encodes(S, t, m);
    var r := Received(S, t, m);
    if Tears(S, t, r) {
      p := [];
    } else {
      var i :| 0 <= i < |r| && TearableSlot(S, S[t][i], r[i]);
      p := TearField(S, t, m, i);
    }
  }

  lemma Encodes(S: Schema, t: nat, m: Slots)
    requires Supported(S) && Sendable(S, t, m) && t < |S| && |m| == |S[t]|
    ensures EncMessage(S, t, m).Success? && EncMessage(S, t, m) == EncFrom(S, S[t], m, 0)
  {
    SupportedOk(S);
    hide SchemaOk, Sendable;
    Transfer.SendableEncodes(S, t, m, 0);
  }

  lemma {:induction false} TearField(S: Schema, t: nat, m: Slots, i: nat) returns (p: bytes)
    requires Supported(S) && Sendable(S, t, m) && Exclusive(S, t, m) && t < |S| && i < |m| == |S[t]|
    requires TearableSlot(S, S[t][i], ReceivedSlot(S, t, m, i)) && !Tears(S, t, Received(S, t, m))
    ensures EncMessage(S, t, m).Success? && |p| <= |EncMessage(S, t, m).value|
    ensures HarmsLoop(S, t, Start(Defaults(S, t)), Received(S, t, m), p, TornPointer)
    decreases m, 1
  {
    Encodes(S, t, m);
    Transfer.PartLength(S, S[t], m, 0, i);
    NoExtension(S, t, i);
    FieldSendable(S, t, m, i);
    FieldExclusive(S, t, m, i);
    SupportedOk(S);
    FieldFacts(S, t, i);
    NotTorn(S, t, Received(S, t, m), i);
    var f, past := S[t][i], Received(S, t, m);
    assert past[i] == ReceivedSlot(S, t, m, i);
    assert Defaults(S, t)[i] == DefaultSlot(S, t, f);
    DefaultNotTearable(S, t, i);
    hide Supported, Sendable, Exclusive, HarmsLoop, HarmsElement, EncMessage, SchemaOk, Tears, Tearable, Received;
    hide Present, IsZeroField, Defaults, EncTag, EncVarint, TearsSlot;
    match m[i]
    case One(_, v) =>
      assert v < m[i];
      assert Present(S, S[t], m, i);
      TearableIsSub(S, f, v);
      var q := TearAgain(S, f.ptr.id, v.slots);
      p := LastRecord(f, q, []);
      InPlaceTear(S, t, i, past, v, q);
      assert EncField(S, S[t], m, i) == EncTagged(S, f, v);
      SingleShorter(S, f, v, q);
    case Many(items) =>
      ReceivedAt(S, f, items);
      SetIsElements(S, f, items);
      var k :| 0 <= k < |items| && TearableItem(S, f, past[i].items[k]);
      assert items[k] < m[i];
      TearableIsSub(S, f, items[k]);
      var q := TearAgain(S, f.ptr.id, items[k].slots);
      DefaultWas(S, t, i, past, k);
      p := ArrayTears(S, t, Start(Defaults(S, t)), past, i, items, k, q);
      assert EncField(S, S[t], m, i) == EncEach(S, f, items);
  }

  lemma NotTorn(S: Schema, t: nat, m: Slots, i: nat)
    requires t < |S| && i < |m| == |S[t]| && !Tears(S, t, m)
    ensures m[i].One? && m[i].v.Sub? && S[t][i].atype.Static? && S[t][i].ltype.Submessage? && S[t][i].ptr.Table? &&
            S[t][i].ptr.id < |S| ==>
              !Tears(S, S[t][i].ptr.id, m[i].v.slots)
  {
    hide HeadItem;
    assert !TearsSlot(S, S[t][i], m[i]);
  }

  lemma TearableIsSub(S: Schema, f: Field, v: Value)
    requires SendableItem(S, f, v) && ExclusiveItem(S, f, v) && TearableItem(S, f, ReceivedItem(S, f, v))
    ensures v.Sub? && f.ltype.Submessage? && f.ptr.Table? && f.ptr.id < |S| && Sendable(S, f.ptr.id, v.slots)
    ensures Exclusive(S, f.ptr.id, v.slots)
    ensures |v.slots| == |S[f.ptr.id]| && ReceivedItem(S, f, v) == Sub(Received(S, f.ptr.id, v.slots))
    ensures Tearable(S, f.ptr.id, Received(S, f.ptr.id, v.slots))
    ensures EncMessage(S, f.ptr.id, v.slots).Success? && |EncMessage(S, f.ptr.id, v.slots).value| < U32
  {
    hide Received, EncMessage, Tearable;
  }

  lemma SingleShorter(S: Schema, f: Field, v: Value, q: bytes)
    requires v.Sub? && SendableItem(S, f, v) && f.ltype.Submessage? && f.ptr.Table? && f.ptr.id < |S|
    requires EncMessage(S, f.ptr.id, v.slots).Success? && |q| <= |EncMessage(S, f.ptr.id, v.slots).value|
    ensures EncTagged(S, f, v).Success? && |LastRecord(f, q, [])| <= |EncTagged(S, f, v).value|
  {
    hide EncMessage, SendableItem, EncTag, EncVarint;
    ElementEncoding(S, f, v);
    RecordShorter(f, q, EncMessage(S, f.ptr.id, v.slots).value, []);
  }

  /** The record of a submessage in place, with a payload that tears a pointer in it. */
  lemma InPlaceTear(S: Schema, t: nat, i: nat, past: Slots, v: Value, q: bytes)
    requires Supported(S) && t < |S| && i < |S[t]| && InPlace(S[t][i]) && S[t][i].ptr.Table? && S[t][i].ptr.id < |S|
    requires i < |past| && past[i].One? && past[i].v.Sub? && !Tears(S, S[t][i].ptr.id, past[i].v.slots)
    requires HarmsElement(S, S[t][i].ptr.id, past[i].v, q, TornPointer) && |q| < U32
    ensures HarmsLoop(S, t, Start(Defaults(S, t)), past, LastRecord(S[t][i], q, []), TornPointer)
  {
    SupportedOk(S);
    NoExtension(S, t, i);
    FieldFacts(S, t, i);
    var f, run := S[t][i], Start(Defaults(S, t));
    assert run.m[i] == DefaultSlot(S, t, f);
    hide Supported, SchemaOk, HarmsLoop, Tears, EncTag, EncVarint, DecPrefixed, Defaults;
    Transfer.PrefixedRoundTrip(q, []);
    assert HarmsRecord(S, t, run, past, i, EncVarint(|q|) + q + [], TornPointer);
    HarmsFirst(S, t, run, past, i, EncVarint(|q|) + q + [], TornPointer);
  }

  /** Whole elements up to one with a payload that tears a pointer. */
  lemma ArrayTears(S: Schema, t: nat, run: Run, past: Slots, i: nat, items: seq<Value>, k: nat, q: bytes) returns (p: bytes)
    requires SchemaOk(S) && t < |S| && i < |S[t]| == |run.m| && StaticSubs(S[t][i]) && ElementsOk(S, S[t][i], items)
    requires run.m[i].Many? && Ready(S[t], run, i) && CountOf(S[t], run, i) == 0
    requires FixedCount(S[t][i]) ==> |run.m[i].items| == S[t][i].arraySize
    requires k < |items| <= S[t][i].arraySize && S[t][i].ptr.Table? && S[t][i].ptr.id < |S|
    requires HarmsElement(S, S[t][i].ptr.id, Was(run.m[i].items, past, i, k), q, TornPointer)
    requires EncMessage(S, S[t][i].ptr.id, items[k].slots).Success? &&
             |q| <= |EncMessage(S, S[t][i].ptr.id, items[k].slots).value|
    ensures HarmsLoop(S, t, run, past, p, TornPointer)
    ensures EncEach(S, S[t][i], items).Success? && |p| <= |EncEach(S, S[t][i], items).value|
  {
    hide SchemaOk, HarmsLoop, EncMessage, EncTag, HarmsElement, SendableItem, ExclusiveItem, EncVarint, EncEach, Was, Ready;
    var f := S[t][i];
    EachSplit(S, f, items, k);
    var before, whole, more := items[..k], EncMessage(S, f.ptr.id, items[k].slots).value, EncEach(S, f,
             items[k + 1..]).value;
    assert CountOf(S[t], run, i) + |before| == k;
    HarmsEach(S, t, run, past, i, before, q, [], TornPointer);
    p := EncEach(S, f, before).value + LastRecord(f, q, []);
    RecordShorter(f, q, whole, more);
  }

  // ---- the inputs ----

  /** The elements of an array that is in place, sent once more up to the pointer. */
  lemma TearArray(S: Schema, t: nat, run: Run, m: Slots, a: nat) returns (p: bytes)
    requires Supported(S) && Sendable(S, t, m) && Exclusive(S, t, m) && t < |S| && a < |m| == |S[t]| == |run.m|
    requires FixedSubs(S[t][a]) && run.m[a] == Received(S, t, m)[a] && TearableSlot(S, S[t][a], Received(S, t, m)[a])
    requires FixedComplete(S[t], run) && run.fixedField != Some(a)
    ensures HarmsLoop(S, t, run, [], p, TornPointer)
    ensures EncMessage(S, t, m).Success? && |p| <= |EncMessage(S, t, m).value|
  {
    SupportedOk(S);
    FieldIsFull(S, t, m, a);
    Encodes(S, t, m);
    Transfer.PartLength(S, S[t], m, 0, a);
    NoExtension(S, t, a);
    FieldFacts(S, t, a);
    hide Supported, SchemaOk, Sendable, Exclusive, HarmsLoop, Holds, EncMessage, MergeItems, ReceivedItems, SendableItem;
    hide ExclusiveItem, Received, HarmsElement, EncEach, Tearable, FullSet;
    var f, items := S[t][a], m[a].items;
    ReceivedAt(S, f, items);
    var k :| 0 <= k < |items| && TearableItem(S, f, ReceivedItems(S, f, items)[k]);
    ElementAt(S, f, items, k);
    TearableIsSub(S, f, items[k]);
    var q := TearAgain(S, f.ptr.id, items[k].slots);
    assert Was(run.m[a].items, [], a, k) == ReceivedItem(S, f, items[k]);
    p := ArrayTears(S, t, run, [], a, items, k, q);
    assert EncArray(S, f, items) == EncEach(S, f, items);
  }

  /** An array of submessages without count next to another array without count: for every message that has a pointer at the
      start of an array in one of the submessages there is an input that tears it. */
  lemma TwoArraysTear(S: Schema, t: nat, m: Slots, a: nat, b: nat) returns (input: bytes)
    requires Supported(S) && Sendable(S, t, m) && Exclusive(S, t, m) && t < |S| && |m| == |S[t]|
    requires a < |m| && b < |m| && a != b && FixedSubs(S[t][a]) && FixedCount(S[t][b])
    requires TearableSlot(S, S[t][a], Received(S, t, m)[a])
    ensures Harms(S, t, input, TornPointer)
  {
    FieldIsFull(S, t, m, b);
    hide Supported, Sendable, Exclusive, DecLoop, EncMessage, Received, RequiredSeen, FixedComplete, Defaults, HarmsLoop;
    hide TearableSlot, EncArray, FullSet, MergeItems, ReceivedItems, DecFresh, ElementsOk;
    var run := AfterMessage(S, t, m);
    var e, start := EncMessage(S, t, m).value, Start(Defaults(S, t));
    if run.fixedField != Some(a) {
      var p := TearArray(S, t, run, m, a);
      HarmsAfter(S, t, start, [], e, p, TornPointer);
      input := e + p;
    } else {
      var between := m[b].items;
      assert SchemaOk(S) by { SupportedOk(S); }
      assert Refill(S, t, run, b, between);
      var run2 := Refilled(S, t, run, b, between);
      OtherSlot(S, t, run, b, between, a);
      SetDecodes(S, t, run, b, between, []);
      var p := TearArray(S, t, run2, m, a);
      var other := EncArray(S, S[t][b], between).value;
      Transfer.EmptyLoop(S, S[t], run2);
      assert other + [] == other;
      HarmsAfter(S, t, run, [], other, p, TornPointer);
      HarmsAfter(S, t, start, [], e, other + p, TornPointer);
      input := e + (other + p);
    }
  }

  /** The same for an array in a submessage in place, which is received twice. */
  lemma InPlaceTwiceTears(S: Schema, t: nat, m: Slots, e: nat, a: nat) returns (input: bytes)
    requires Supported(S) && Sendable(S, t, m) && Exclusive(S, t, m) && t < |S| && |m| == |S[t]| && e < |m|
    requires InPlace(S[t][e]) && S[t][e].ptr.Table? && S[t][e].ptr.id < |S| && Present(S, S[t], m, e) && m[e].v.Sub?
    requires |m[e].v.slots| == |S[S[t][e].ptr.id]| && a < |S[S[t][e].ptr.id]| && FixedSubs(S[S[t][e].ptr.id][a])
    requires TearableSlot(S, S[S[t][e].ptr.id][a], Received(S, S[t][e].ptr.id, m[e].v.slots)[a])
    ensures Harms(S, t, input, TornPointer)
  {
    var f, v := S[t][e], m[e].v;
    FieldSendable(S, t, m, e);
    FieldExclusive(S, t, m, e);
    NoExtension(S, t, e);
    assert SendableItem(S, f, v) && ExclusiveItem(S, f, v);
    var u, y := f.ptr.id, v.slots;
    assert Sendable(S, u, y) && Exclusive(S, u, y) && |EncMessage(S, u, y).value| < U32;
    ReceivedInPlace(S, t, m, e);
    assert SchemaOk(S) by { SupportedOk(S); }
    hide Supported, Sendable, Exclusive, HarmsLoop, DecLoop, Received, RequiredSeen, TearableSlot, EncMessage;
    hide FixedComplete;
    hide SendableItem, ExclusiveItem, Present, DecMessage, Defaults, DecFresh, EncTag, DecPrefixed;
    var run := AfterMessage(S, t, m);
    NothingStarted(S[u], Received(S, u, y));
    var p := TearArray(S, u, Start(Received(S, u, y)), y, a);
    var prefixed := EncVarint(|p|) + p;
    Transfer.PrefixedRoundTrip(p, []);
    assert prefixed + [] == prefixed;
    var first, start := EncMessage(S, t, m).value, Start(Defaults(S, t));
    assert Inner([], e) == [];
    assert HarmsRecord(S, t, run, [], e, prefixed, TornPointer);
    HarmsFirst(S, t, run, [], e, prefixed, TornPointer);
    var second := EncTag(f.tag, 2) + prefixed;
    HarmsAfter(S, t, start, [], first, second, TornPointer);
    input := first + second;
  }
}
