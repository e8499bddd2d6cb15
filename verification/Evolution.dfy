/** Senders and receivers with different versions of a message type. */
module Evolution {
  import opened Bits
  import opened Varint
  import opened Integers
  import opened Descriptor
  import opened Message
  import opened EncodeSpec
  import opened DecodeSpec
  import opened Merge
  import opened RoundTrip
  import opened Observe
  import opened Presence
  import opened WireRecords
  import opened WireReading
  import Transfer

  // ---- versions ----

  /** The same field, perhaps at another place of the struct. */
  predicate SameField(f: Field, g: Field) {
    g == f.(dataOffset := g.dataOffset, sizeOffset := g.sizeOffset) && (f.sizeOffset == 0 <==> g.sizeOffset == 0)
  }

  /** The older table has some of the fields of the newer one: those at the positions `at`. */
  predicate Older(newer: Table, older: Table, at: seq<nat>) {
    && |at| == |older|
    && (forall k :: 0 <= k < |at| ==> at[k] < |newer| && SameField(newer[at[k]], older[k]))
    && forall j, k :: 0 <= j < k < |at| ==> at[j] < at[k]
  }

  function Pick(m: Slots, at: seq<nat>): (m': Slots)
    requires forall k :: 0 <= k < |at| ==> at[k] < |m|
    ensures |m'| == |at|
  {
    seq(|at|, k requires 0 <= k < |at| => m[at[k]])
  }

  // ---- the same field has the same records ----

  lemma SameBlank(S: Schema, f: Field, g: Field, slot: Slot)
    requires SameField(f, g)
    ensures BlankSlot(S, f, slot) == BlankSlot(S, g, slot)
  {
    hide Blank;
  }

  lemma SameEncodable(S: Schema, f: Field, g: Field, slot: Slot)
    requires SameField(f, g)
    ensures EncodableSlot(S, f, slot) == EncodableSlot(S, g, slot)
  {
    hide Encodable, BlankSlot;
    SameBlank(S, f, g, slot);
    forall v
      ensures EncodableItem(S, f, v) == EncodableItem(S, g, v)
    {
    }
    hide EncodableItem;
  }

  lemma SamePayloads(S: Schema, f: Field, g: Field, v: Value)
    requires SameField(f, g)
    ensures ItemPayload(S, f, v) == ItemPayload(S, g, v)
  {
    hide MessageRecords, UpToNul;
  }

  lemma {:induction false} SameItems(S: Schema, f: Field, g: Field, items: seq<Value>)
    requires SameField(f, g)
    ensures ItemRecords(S, f, items) == ItemRecords(S, g, items) && ScalarBodies(f, items) == ScalarBodies(g, items)
  {
    hide ItemPayload, Body;
    if items != [] {
      SamePayloads(S, f, g, items[0]);
      SameItems(S, f, g, items[1..]);
    }
  }

  lemma SameRecords(S: Schema, f: Field, g: Field, slot: Slot)
    requires SameField(f, g)
    ensures SlotRecords(S, f, slot) == SlotRecords(S, g, slot)
  {
    hide BlankSlot, ItemPayload, ItemRecords, ScalarBodies;
    SameBlank(S, f, g, slot);
    match slot
    case One(_, v) => SamePayloads(S, f, g, v);
    case Many(items) => SameItems(S, f, g, items);
  }

  lemma SameRanged(S: Schema, f: Field, g: Field, slot: Slot)
    requires SameField(f, g)
    ensures RangedSlot(S, f, slot) == RangedSlot(S, g, slot)
  {
    hide Ranged;
    forall v
      ensures RangedItem(S, f, v) == RangedItem(S, g, v)
    {
    }
    hide RangedItem;
  }

  /** The older struct writes for field k what the newer one writes for the same field. */
  lemma SameEncoding(S: Schema, w: nat, n: nat, at: seq<nat>, m: Slots, k: nat)
    requires SchemaOk(S) && w < |S| && n < |S| && Older(S[w], S[n], at) && Ranged(S, w, m) && k < |at|
    ensures EncField(S, S[n], Pick(m, at), k) == EncField(S, S[w], m, at[k])
  {
    hide SchemaOk, EncField, EncodableSlot, RangedSlot, SlotRecords;
    var f, g, slot := S[w][at[k]], S[n][k], m[at[k]];
    SameEncodable(S, f, g, slot);
    SameRecords(S, f, g, slot);
    SameRanged(S, f, g, slot);
    SlotWritten(S, w, m, at[k]);
    SlotWritten(S, n, Pick(m, at), k);
  }

  // ---- an older sender ----

  /** The positions from k on are those from i on. */
  predicate Stand(at: seq<nat>, i: nat, k: nat) {
    k <= |at| && (forall j :: 0 <= j < k ==> at[j] < i) && forall j :: k <= j < |at| ==> i <= at[j]
  }

  lemma NotPicked(at: seq<nat>, i: nat, k: nat)
    requires Stand(at, i, k) && (k < |at| ==> at[k] != i) && forall j, l :: 0 <= j < l < |at| ==> at[j] < at[l]
    ensures i !in at && Stand(at, i + 1, k)
  {
    assert forall j :: k < j < |at| ==> at[k] < at[j];
  }

  predicate OthersBlank(S: Schema, w: nat, at: seq<nat>, m: Slots)
    requires w < |S| && |m| == |S[w]|
  {
    forall i :: 0 <= i < |m| && i !in at ==> BlankSlot(S, S[w][i], m[i])
  }

  lemma {:induction false} OlderFrom(S: Schema, w: nat, n: nat, at: seq<nat>, m: Slots, i: nat, k: nat)
    requires SchemaOk(S) && w < |S| && n < |S| && Older(S[w], S[n], at) && Ranged(S, w, m)
    requires OthersBlank(S, w, at, m) && i <= |m| && Stand(at, i, k)
    ensures EncFrom(S, S[n], Pick(m, at), k) == EncFrom(S, S[w], m, i)
    decreases |m| - i
  {
    hide SchemaOk, EncField, BlankSlot, RangedSlot, SameField;
    if i < |m| {
      if k < |at| && at[k] == i {
        SameEncoding(S, w, n, at, m, k);
        OlderFrom(S, w, n, at, m, i + 1, k + 1);
      } else {
        NotPicked(at, i, k);
        FieldSilent(S, w, m, i);
        OlderFrom(S, w, n, at, m, i + 1, k);
        var rest := EncFrom(S, S[w], m, i + 1);
        assert rest.Success? ==> [] + rest.value == rest.value;
      }
    }
  }

  /** A newer struct in which the new fields are not set has the encoding of the older struct, so that a newer receiver takes
      a message of an older sender for one in which they are not set. */
  lemma OlderSender(S: Schema, w: nat, n: nat, at: seq<nat>, m: Slots)
    requires SchemaOk(S) && w < |S| && n < |S| && Older(S[w], S[n], at) && Ranged(S, w, m) && OthersBlank(S, w, at, m)
    ensures EncMessage(S, n, Pick(m, at)) == EncMessage(S, w, m)
  {
    hide SchemaOk, EncFrom, OthersBlank, SameField, RangedSlot;
    OlderFrom(S, w, n, at, m, 0, 0);
  }

  // ---- an older receiver ----

  lemma OlderSendable(S: Schema, w: nat, n: nat, at: seq<nat>, m: Slots)
    requires w < |S| && n < |S| && Older(S[w], S[n], at) && Sendable(S, w, m)
    ensures Sendable(S, n, Pick(m, at))
  {
    forall k | 0 <= k < |at|
      ensures SendableField(S, S[n], Pick(m, at), k)
    {
      assert SendableField(S, S[w], m, at[k]);
      SameSendable(S, w, n, at, m, k);
    }
  }

  lemma SameSendable(S: Schema, w: nat, n: nat, at: seq<nat>, m: Slots, k: nat)
    requires w < |S| && n < |S| && Older(S[w], S[n], at) && |m| == |S[w]| && k < |at|
    requires SendableField(S, S[w], m, at[k])
    ensures SendableField(S, S[n], Pick(m, at), k)
  {
    hide IsZeroField, EncScalars, SendableItem;
    var f, g := S[w][at[k]], S[n][k];
    SameItemSendable(S, f, g);
    match m[at[k]]
    case One(_, v) => SamePresent(S, w, n, at, m, k);
    case Many(items) => SameScalars(f, g, items);
  }

  lemma SamePresent(S: Schema, w: nat, n: nat, at: seq<nat>, m: Slots, k: nat)
    requires w < |S| && n < |S| && Older(S[w], S[n], at) && |m| == |S[w]| && k < |at|
    ensures Present(S, S[n], Pick(m, at), k) == Present(S, S[w], m, at[k])
  {
    hide IsZeroItem, NoneSelected;
    var f, g, slot := S[w][at[k]], S[n][k], m[at[k]];
    SameZero(S, f, g);
    assert Pick(m, at)[k] == slot;
    if slot.One? {
      assert IsZeroItem(S, f, slot.v) == IsZeroItem(S, g, slot.v);
    }
  }

  lemma SameZero(S: Schema, f: Field, g: Field)
    requires SameField(f, g)
    ensures forall v :: IsZeroItem(S, f, v) == IsZeroItem(S, g, v)
  {
    hide AllZero;
  }

  lemma SameItemSendable(S: Schema, f: Field, g: Field)
    requires SameField(f, g)
    ensures forall v :: SendableItem(S, f, v) == SendableItem(S, g, v)
  {
    hide EncMessage, Sendable, UpToNul;
  }

  lemma {:induction false} SameScalars(f: Field, g: Field, items: seq<Value>)
    requires SameField(f, g)
    ensures EncScalars(f, items) == EncScalars(g, items)
  {
    hide EncVarint, EncFixed, ZigZag, ToSigned, ToUnsigned;
    if items != [] {
      SameScalars(f, g, items[1..]);
    }
  }

  /** The records of a field that the older table does not have. */
  lemma PassedOver(S: Schema, w: nat, n: nat, at: seq<nat>, run: Run, m: Slots, i: nat, b: bytes)
    requires SchemaOk(S) && w < |S| && n < |S| && Older(S[w], S[n], at) && Ranged(S, w, m) && |run.m| == |S[n]|
    requires i < |m| && i !in at && EncField(S, S[w], m, i).Success? && |EncField(S, S[w], m, i).value| < U32
    ensures DecLoop(S, S[n], run, EncField(S, S[w], m, i).value + b) == DecLoop(S, S[n], run, b)
  {
    hide EncField, DecLoop, Find, Proper, RangedSlot, EncodableSlot, SlotRecords, FieldOk;
    var f := S[w][i];
    assert TableOk(S, w, S[w]);
    SlotWritten(S, w, m, i);
    var rs := SlotRecords(S, f, m[i]);
    SlotProper(S, w, f, m[i]);
    if !f.ltype.Extension? {
      NotInOlder(S[w], S[n], at, i);
    }
    assert forall k :: 0 <= k < |rs| ==> rs[k] in rs;
    ForeignRecords(S, S[n], run, rs, b);
  }

  lemma NotInOlder(newer: Table, older: Table, at: seq<nat>, i: nat)
    requires Older(newer, older, at) && DistinctTags(newer) && i < |newer| && i !in at && !newer[i].ltype.Extension?
    ensures Find(older, newer[i].tag).None?
  {
    FindFromNone(older, newer[i].tag, 0);
    forall k | 0 <= k < |older|
      ensures older[k].tag != newer[i].tag || older[k].ltype.Extension?
    {
      assert at[k] in at && SameField(newer[at[k]], older[k]);
    }
  }

  lemma {:induction false} ReadFrom(S: Schema, w: nat, n: nat, at: seq<nat>, run: Run, m: Slots, i: nat, k: nat)
    requires SchemaOk(S) && w < |S| && n < |S| && Older(S[w], S[n], at) && Ranged(S, w, m) && Sendable(S, w, m)
    requires i <= |m| && Stand(at, i, k) && |run.m| == |S[n]| && Transfer.FixedOk(S[n], run, k)
    requires forall j :: k <= j < |at| ==> ShapedSlot(S, n, S[n][j], run.m[j])
    requires EncFrom(S, S[w], m, i).Success? && |EncFrom(S, S[w], m, i).value| < U32
    ensures EncFrom(S, S[n], Pick(m, at), k).Success?
    ensures DecLoop(S, S[n], run, EncFrom(S, S[w], m, i).value)
            == DecLoop(S, S[n], run, EncFrom(S, S[n], Pick(m, at), k).value)
    decreases |m| - i
  {
    hide SchemaOk, EncField, DecLoop, RangedSlot, SameField, SendableField, ShapedSlot, Ranged, Sendable, Transfer.FixedOk;
    RangedLength(S, w, m);
    OlderSendable(S, w, n, at, m);
    var m' := Pick(m, at);
    Transfer.SendableEncodes(S, n, m', k);
    if i < |m| {
      var e, more := EncField(S, S[w], m, i).value, EncFrom(S, S[w], m, i + 1).value;
      if k < |at| && at[k] == i {
        SameEncoding(S, w, n, at, m, k);
        Transfer.FieldDecodes(S, n, run, m', k, more);
        Transfer.FieldDecodes(S, n, run, m', k, EncFrom(S, S[n], m', k + 1).value);
        var acc := MergeField(S, S[n], run.m, m', k);
        if acc.Some? {
          Transfer.FieldKeepsShape(S, n, run, m', k);
          ReadFrom(S, w, n, at, Transfer.Mark(S[n], run, acc.value, m', k), m, i + 1, k + 1);
        }
      } else {
        NotPicked(at, i, k);
        PassedOver(S, w, n, at, run, m, i, more);
        ReadFrom(S, w, n, at, run, m, i + 1, k);
      }
    }
  }

  /** An older receiver makes of a newer message what it would make of one with the fields that it knows. */
  lemma OlderReceiver(S: Schema, w: nat, n: nat, at: seq<nat>, start: Slots, m: Slots)
    requires SchemaOk(S) && w < |S| && n < |S| && Older(S[w], S[n], at) && Ranged(S, w, m) && Sendable(S, w, m)
    requires Shaped(S, n, start) && EncMessage(S, w, m).Success? && |EncMessage(S, w, m).value| < U32
    ensures Sendable(S, n, Pick(m, at)) && EncMessage(S, n, Pick(m, at)).Success?
    ensures DecMessage(S, n, start, EncMessage(S, w, m).value)
            == DecMessage(S, n, start, EncMessage(S, n, Pick(m, at)).value)
  {
    hide SchemaOk, EncFrom, DecLoop, RangedSlot, SameField, SendableField, ShapedSlot;
    OlderSendable(S, w, n, at, m);
    ReadFrom(S, w, n, at, Start(start), m, 0, 0);
  }

  lemma OlderExclusive(S: Schema, w: nat, n: nat, at: seq<nat>, m: Slots)
    requires w < |S| && n < |S| && Older(S[w], S[n], at) && Exclusive(S, w, m)
    ensures Exclusive(S, n, Pick(m, at))
  {
    hide ExclusiveSlot;
    var m' := Pick(m, at);
    forall k | 0 <= k < |m'|
      ensures ExclusiveSlot(S, S[n][k], m'[k])
    {
      SameExclusive(S, S[w][at[k]], S[n][k], m[at[k]]);
    }
    forall j, k | 0 <= j < |m'| && 0 <= k < |m'| && j != k && S[n][j].htype.Oneof? && S[n][j].htype == S[n][k].htype
      ensures !(Chosen(m'[j]) && Chosen(m'[k]))
    {
      assert at[j] != at[k] && m'[j] == m[at[j]] && m'[k] == m[at[k]];
    }
  }

  lemma SameExclusive(S: Schema, f: Field, g: Field, slot: Slot)
    requires SameField(f, g)
    ensures ExclusiveSlot(S, f, slot) == ExclusiveSlot(S, g, slot)
  {
    hide Exclusive;
    forall v
      ensures ExclusiveItem(S, f, v) == ExclusiveItem(S, g, v)
    {
    }
    hide ExclusiveItem;
  }

  /** An older receiver gets from a newer sender exactly the fields that it knows. */
  lemma OlderReceives(S: Schema, w: nat, n: nat, at: seq<nat>, m: Slots)
    requires SchemaOk(S) && w < |S| && n < |S| && Older(S[w], S[n], at)
    requires Ranged(S, w, m) && Sendable(S, w, m) && Exclusive(S, w, m)
    requires EncMessage(S, w, m).Success? && |EncMessage(S, w, m).value| < U32
    ensures |Pick(m, at)| == |S[n]|
    ensures DecFresh(S, n, EncMessage(S, w, m).value) == Ok(Received(S, n, Pick(m, at)), [])
  {
    hide SchemaOk, EncMessage, DecMessage, Ranged, Sendable, Exclusive, Received, Shaped;
    RangedLength(S, w, m);
    DefaultsShaped(S, n);
    OlderReceiver(S, w, n, at, Defaults(S, n), m);
    OlderExclusive(S, w, n, at, m);
    MessageReceived(S, n, Pick(m, at));
  }
}
