/** A message that is encoded and decoded comes back with the same observable value. */
module RoundTrip {
  import opened Bits
  import opened Varint
  import opened Integers
  import opened Descriptor
  import opened Message
  import opened EncodeSpec
  import opened DecodeSpec
  import opened Merge
  import Transfer

  // ---- what the receiver gets ----

  function ReceivedItem(S: Schema, f: Field, v: Value): Value
    decreases v, 0
  {
    match v
    case Indeterminate => Indeterminate
    case Scalar(n) => Scalar(Normal(f, n))
    case Blob(data) => Blob(Payload(f, data))
    case Sub(slots) =>
      if f.ptr.Table? && f.ptr.id < |S| && |slots| == |S[f.ptr.id]| then Sub(Received(S, f.ptr.id, slots)) else v
  }

  function ReceivedItems(S: Schema, f: Field, items: seq<Value>): (ws: seq<Value>)
    ensures |ws| == |items|
    decreases items, 1
  {
    if items == [] then [] else [ReceivedItem(S, f, items[0])] + ReceivedItems(S, f, items[1..])
  }

  /** Present single fields and array items arrive; everything else has its default value. */
  function ReceivedSlot(S: Schema, t: nat, m: Slots, i: nat): Slot
    requires t < |S| && i < |m| == |S[t]|
    decreases m, 0
  {
    var f := S[t][i];
    match m[i]
    case One(_, v) =>
      if Present(S, S[t], m, i) then assert v < m[i]; One(true, ReceivedItem(S, f, v)) else DefaultSlot(S, t, f)
    case Many(items) =>
      if f.ltype.Extension? then DefaultSlot(S, t, f) else Many(ReceivedItems(S, f, items))
  }

  function Received(S: Schema, t: nat, m: Slots): (r: Slots)
    requires t < |S| && |m| == |S[t]|
    ensures |r| == |m|
    decreases m, 1
  {
    seq(|m|, i requires 0 <= i < |m| => ReceivedSlot(S, t, m, i))
  }

  /** A union holds at most one member, at every level. In C this is so because the selector is one variable. */
  ghost predicate Exclusive(S: Schema, t: nat, m: Slots)
    decreases m, 1
  {
    t < |S| && |m| == |S[t]| &&
    (forall i, j :: 0 <= i < |m| && 0 <= j < |m| && i != j && S[t][i].htype.Oneof? && S[t][i].htype == S[t][j].htype ==>
      !(Chosen(m[i]) && Chosen(m[j]))) &&
    (forall i :: 0 <= i < |m| ==> ExclusiveSlot(S, S[t][i], m[i]))
  }

  predicate Chosen(slot: Slot) {
    slot.One? && slot.has
  }

  ghost predicate ExclusiveSlot(S: Schema, f: Field, slot: Slot)
    decreases slot, 0
  {
    match slot
    case One(_, v) => ExclusiveItem(S, f, v)
    case Many(items) => forall k :: 0 <= k < |items| ==> ExclusiveItem(S, f, items[k])
  }

  ghost predicate ExclusiveItem(S: Schema, f: Field, v: Value)
    decreases v, 0
  {
    v.Sub? && f.ltype.Submessage? && f.ptr.Table? ==> Exclusive(S, f.ptr.id, v.slots)
  }

  // ---- merging into a fresh struct ----

  lemma {:induction false} MergeFreshItem(S: Schema, f: Field, v: Value)
    requires SchemaOk(S) && SendableItem(S, f, v) && ExclusiveItem(S, f, v)
    ensures MergeItem(S, f, Fresh(S, f), v) == Some(ReceivedItem(S, f, v))
    decreases v, 0
  {
    if v.Sub? {
      hide MergeMessage, Received, EncMessage;
      MergeFresh(S, f.ptr.id, v.slots);
    }
  }

  lemma {:induction false} MergeFreshItems(S: Schema, f: Field, items: seq<Value>)
    requires SchemaOk(S)
    requires forall k :: 0 <= k < |items| ==> SendableItem(S, f, items[k]) && ExclusiveItem(S, f, items[k])
    ensures MergeItems(S, f, items) == Some(ReceivedItems(S, f, items))
    decreases items, 1
  {
    hide SendableItem, ExclusiveItem, MergeItem, ReceivedItem, Fresh;
    if items != [] {
      MergeFreshItem(S, f, items[0]);
      MergeFreshItems(S, f, items[1..]);
    }
  }

  /** The struct when the fields before position i have been received. */
  ghost predicate Halfway(S: Schema, t: nat, m: Slots, acc: Slots, i: nat)
    requires t < |S| && |m| == |S[t]|
  {
    |acc| == |m| && (forall j :: 0 <= j < i <= |m| ==> acc[j] == ReceivedSlot(S, t, m, j)) &&
    (forall j :: 0 <= i <= j < |m| ==> acc[j] == DefaultSlot(S, t, S[t][j]))
  }

  lemma {:induction false} MergeFresh(S: Schema, t: nat, m: Slots)
    requires SchemaOk(S) && Sendable(S, t, m) && Exclusive(S, t, m)
    ensures MergeMessage(S, t, Defaults(S, t), m) == Some(Received(S, t, m))
    decreases m, |m| + 2
  {
    hide Sendable, Exclusive, ReceivedSlot, DefaultSlot;
    assert |m| == |S[t]| by { SendableLength(S, t, m); }
    MergeFreshFrom(S, t, m, Defaults(S, t), 0);
  }

  lemma SendableLength(S: Schema, t: nat, m: Slots)
    requires Sendable(S, t, m)
    ensures t < |S| && |m| == |S[t]|
  {
  }

  lemma {:induction false} MergeFreshFrom(S: Schema, t: nat, m: Slots, acc: Slots, i: nat)
    requires SchemaOk(S) && Sendable(S, t, m) && Exclusive(S, t, m) && i <= |m|
    requires Halfway(S, t, m, acc, i)
    ensures MergeFrom(S, S[t], acc, m, i) == Some(Received(S, t, m))
    decreases m, |m| - i + 1
  {
    hide ReceivedSlot, DefaultSlot, MergeField;
    if i == |m| {
      assert acc == Received(S, t, m);
    } else {
      MergeFreshField(S, t, m, acc, i);
      MergeFreshFrom(S, t, m, MergeField(S, S[t], acc, m, i).value, i + 1);
    }
  }

  lemma {:induction false} MergeFreshField(S: Schema, t: nat, m: Slots, acc: Slots, i: nat)
    requires SchemaOk(S) && Sendable(S, t, m) && Exclusive(S, t, m) && i < |m|
    requires Halfway(S, t, m, acc, i)
    ensures MergeField(S, S[t], acc, m, i).Some?
    ensures Halfway(S, t, m, MergeField(S, S[t], acc, m, i).value, i + 1)
    decreases m, |m| - i
  {
    hide Present, MergeItem, MergeItems, ReceivedItem, ReceivedItems, ExclusiveItem, SendableItem, DefaultSlot, Select;
    var table := S[t];
    var f := table[i];
    assert SendableField(S, table, m, i) && FieldOk(S, t, f) && ExclusiveSlot(S, f, m[i]);
    DefaultOf(S, t, f);
    match m[i]
    case One(_, v) =>
      if Present(S, table, m, i) {
        assert !f.ltype.Extension? && !f.htype.Repeated? by { PresentSingle(S, t, m, i); }
        assert v < m[i];
        MergeFreshItem(S, f, v);
        StoreFresh(S, t, m, acc, i, ReceivedItem(S, f, v));
      }
    case Many(items) =>
      if !f.ltype.Extension? {
        MergeFreshItems(S, f, items);
        assert [] + ReceivedItems(S, f, items) == ReceivedItems(S, f, items);
      }
  }

  lemma PresentSingle(S: Schema, t: nat, m: Slots, i: nat)
    requires t < |S| && i < |m| == |S[t]| && Present(S, S[t], m, i) && SendableField(S, S[t], m, i)
    ensures !S[t][i].ltype.Extension? && !S[t][i].htype.Repeated? && m[i].One?
    ensures S[t][i].htype.Oneof? ==> Chosen(m[i])
  {
  }

  lemma DefaultOf(S: Schema, t: nat, f: Field)
    requires SchemaOk(S) && t < |S| && FieldOk(S, t, f)
    ensures var d := DefaultSlot(S, t, f);
            && (!f.ltype.Extension? && f.htype.Repeated? ==>
                  d.Many? && (FixedCount(f) ==> |d.items| == f.arraySize) && (!FixedCount(f) ==> d.items == []))
            && (!f.ltype.Extension? && !f.htype.Repeated? ==> d.One? && StartOf(S, f, d) == Fresh(S, f))
            && (f.htype.Oneof? ==> d == One(false, Indeterminate))
  {
    if Embedded(f) {
      assert DefaultItem(S, t, f) == Sub(Defaults(S, f.ptr.id));
    }
  }

  lemma StoreFresh(S: Schema, t: nat, m: Slots, acc: Slots, i: nat, w: Value)
    requires SchemaOk(S) && Sendable(S, t, m) && Exclusive(S, t, m) && i < |m|
    requires Halfway(S, t, m, acc, i) && Present(S, S[t], m, i)
    requires ReceivedSlot(S, t, m, i) == One(true, w)
    ensures Halfway(S, t, m, StoreOne(S[t], acc, i, w), i + 1)
  {
    hide ReceivedSlot, DefaultSlot, Present;
    var table := S[t];
    var acc' := StoreOne(table, acc, i, w);
    assert SendableField(S, table, m, i);
    PresentSingle(S, t, m, i);
    forall j | 0 <= j < |m| && j != i
      ensures acc'[j] == acc[j]
    {
      if table[i].htype.Oneof? && table[j].htype == table[i].htype {
        assert FieldOk(S, t, table[j]) && SendableField(S, table, m, j);
        DefaultOf(S, t, table[j]);
        assert !Chosen(m[j]);
        NotChosenDefault(S, t, m, j);
      }
    }
  }

  lemma NotChosenDefault(S: Schema, t: nat, m: Slots, j: nat)
    requires t < |S| && j < |m| == |S[t]| && S[t][j].htype.Oneof? && !Chosen(m[j]) && SendableField(S, S[t], m, j)
    requires !S[t][j].ltype.Extension?
    ensures ReceivedSlot(S, t, m, j) == DefaultSlot(S, t, S[t][j])
  {
  }
}
