/** What a program reading a struct observes, and that it survives the round trip. */
module Observe {
  import opened Bits
  import opened Varint
  import opened Integers
  import opened Descriptor
  import opened Message
  import opened EncodeSpec
  import opened DecodeSpec
  import opened Merge
  import opened RoundTrip
  import opened SourceStruct
  import Transfer

  // ---- observations ----

  function ViewItem(S: Schema, f: Field, v: Value): Value
    decreases v, 0
  {
    match v
    case Indeterminate => Indeterminate
    case Scalar(n) => Scalar(Normal(f, n))
    case Blob(data) => Blob(Payload(f, data))
    case Sub(slots) =>
      if f.ptr.Table? && f.ptr.id < |S| && |slots| == |S[f.ptr.id]| then Sub(View(S, f.ptr.id, slots)) else v
  }

  function ViewItems(S: Schema, f: Field, items: seq<Value>): (ws: seq<Value>)
    ensures |ws| == |items|
    decreases items, 1
  {
    if items == [] then [] else [ViewItem(S, f, items[0])] + ViewItems(S, f, items[1..])
  }

  /** The value of a field that is not there is not looked at. */
  function ViewSlot(S: Schema, f: Field, slot: Slot): Slot
    decreases slot, 0
  {
    if f.ltype.Extension? then One(false, Indeterminate)
    else
      match slot
      case One(has, v) => if has || AlwaysThere(f) then One(true, ViewItem(S, f, v)) else One(false, Indeterminate)
      case Many(items) => Many(ViewItems(S, f, items))
  }

  function View(S: Schema, t: nat, m: Slots): (r: Slots)
    requires t < |S| && |m| == |S[t]|
    ensures |r| == |m|
    decreases m, 1
  {
    seq(|m|, i requires 0 <= i < |m| => ViewSlot(S, S[t][i], m[i]))
  }

  // ---- leaving out zero fields is invisible ----

  /** A value that the zero test takes for zero. */
  predicate LooksZero(f: Field, v: Value) {
    match v
    case Scalar(n) => Packable(f.ltype) && n == 0
    case Blob(data) =>
      if f.ltype.String? then data == [] || data[0] == 0
      else (f.ltype.Bytes? || (f.ltype.FixedLengthBytes? && f.dataSize == 0)) && data == []
    case _ => false
  }

  /** No singular field, in any message type, has a default other than zero. */
  ghost predicate ZeroDefaults(S: Schema) {
    forall t, i :: 0 <= t < |S| && 0 <= i < |S[t]| ==> ZeroDefault(S[t][i])
  }

  predicate ZeroDefault(f: Field) {
    f.htype.Optional? && f.atype.Static? && f.sizeOffset == 0 && !f.ltype.Submessage? && f.ptr.Default? ==>
      LooksZero(f, f.ptr.value)
  }

  /** Leaving out a zero value of a single field is invisible exactly when the default of the field is zero too. */
  lemma OmissionExact(S: Schema, t: nat, f: Field, v: Value)
    requires t < |S| && !f.ltype.Submessage? && !f.ltype.Extension? && IsZeroItem(S, f, v)
    requires f.ltype.String? ==> f.dataSize > 0
    requires f.ptr.Default? ==> FilledItem(S, f, f.ptr.value)
    ensures ViewItem(S, f, v) == ViewItem(S, f, DefaultItem(S, t, f)) <==>
            f.ptr.Default? ==> LooksZero(f, f.ptr.value)
  {
    if v.Blob? && f.ltype.String? {
      EmptyString(f, v.data);
    }
    var d := DefaultItem(S, t, f);
    if d.Blob? && f.ltype.String? {
      EmptyString(f, d.data);
    }
  }

  lemma EmptyString(f: Field, data: bytes)
    requires f.dataSize > 0
    ensures Characters(f, data) == [] <==> data == [] || data[0] == 0
  {
  }

  /** The encoder leaves a singular static field out when the zero test succeeds; the default value that the receiver
      then has in its place looks the same. */
  lemma {:induction false} OmissionInvisible(S: Schema, t: nat, f: Field, v: Value)
    requires SchemaOk(S) && ZeroDefaults(S) && t < |S| && FieldOk(S, t, f) && ZeroDefault(f)
    requires f.htype.Optional? && f.atype.Static? && f.sizeOffset == 0
    requires IsZeroItem(S, f, v)
    ensures ViewItem(S, f, v) == ViewItem(S, f, DefaultItem(S, t, f))
    decreases v, 0
  {
    match v
    case Scalar(n) =>
    case Blob(data) =>
      assert f.ltype.String? ==> Payload(f, data) == [];
    case Sub(slots) =>
      var d := Defaults(S, f.ptr.id);
      assert DefaultItem(S, t, f) == Sub(d);
      ZeroView(S, f.ptr.id, slots);
  }

  lemma {:induction false} ZeroView(S: Schema, t: nat, m: Slots)
    requires SchemaOk(S) && ZeroDefaults(S) && t < |S| && |m| == |S[t]| && AllZero(S, S[t], m, 0)
    ensures View(S, t, m) == View(S, t, Defaults(S, t))
    decreases m, 2
  {
    var d := Defaults(S, t);
    forall i | 0 <= i < |m|
      ensures ViewSlot(S, S[t][i], m[i]) == ViewSlot(S, S[t][i], d[i])
    {
      AllZeroAt(S, S[t], m, 0, i);
      ZeroSlotView(S, t, m, i);
    }
  }

  lemma {:induction false} AllZeroAt(S: Schema, table: Table, m: Slots, k: nat, i: nat)
    requires k <= i < |table| == |m| && AllZero(S, table, m, k)
    ensures IsZeroField(S, table, m, i)
    decreases i - k
  {
    hide IsZeroField;
    if k < i {
      AllZeroAt(S, table, m, k + 1, i);
    }
  }

  lemma {:induction false} NoneSelectedAt(table: Table, m: Slots, union: HType, k: nat, i: nat)
    requires k <= i < |table| == |m| && NoneSelected(table, m, union, k) && table[i].htype == union
    ensures !(m[i].One? && m[i].has)
    decreases i - k
  {
    if k < i {
      NoneSelectedAt(table, m, union, k + 1, i);
    }
  }

  lemma {:induction false} ZeroSlotView(S: Schema, t: nat, m: Slots, i: nat)
    requires SchemaOk(S) && ZeroDefaults(S) && t < |S| && i < |m| == |S[t]| && IsZeroField(S, S[t], m, i)
    ensures ViewSlot(S, S[t][i], m[i]) == ViewSlot(S, S[t][i], DefaultSlot(S, t, S[t][i]))
    decreases m, 1
  {
    hide IsZeroItem, DefaultItem, ViewItem;
    var f := S[t][i];
    assert FieldOk(S, t, f) && ZeroDefault(f);
    if f.htype.Oneof? {
      NoneSelectedAt(S[t], m, f.htype, 0, i);
    } else if !f.ltype.Extension? && AlwaysThere(f) {
      assert m[i].v < m[i];
      OmissionInvisible(S, t, f, m[i].v);
    }
  }

  // ---- the round trip ----

  lemma {:induction false} UpToNulTwice(data: bytes)
    ensures UpToNul(UpToNul(data)) == UpToNul(data)
  {
    if data != [] && data[0] != 0 {
      UpToNulTwice(data[1..]);
      assert UpToNul(data)[1..] == UpToNul(data[1..]);
    }
  }

  lemma PayloadTwice(f: Field, data: bytes)
    ensures Payload(f, Payload(f, data)) == Payload(f, data)
  {
    hide UpToNul;
    var cut := if f.atype.Static? && f.dataSize < |data| then data[..f.dataSize] else data;
    UpToNulTwice(cut);
  }

  lemma {:induction false} ReceivedItemView(S: Schema, f: Field, v: Value)
    requires SchemaOk(S) && ZeroDefaults(S) && SendableItem(S, f, v)
    ensures ViewItem(S, f, ReceivedItem(S, f, v)) == ViewItem(S, f, v)
    decreases v, 0
  {
    match v
    case Scalar(n) =>
    case Blob(data) => PayloadTwice(f, data);
    case Sub(slots) =>
      hide EncMessage;
      ReceivedView(S, f.ptr.id, slots);
  }

  lemma {:induction false} ReceivedItemsView(S: Schema, f: Field, items: seq<Value>)
    requires SchemaOk(S) && ZeroDefaults(S) && forall k :: 0 <= k < |items| ==> SendableItem(S, f, items[k])
    ensures ViewItems(S, f, ReceivedItems(S, f, items)) == ViewItems(S, f, items)
    decreases items, 1
  {
    hide SendableItem, ReceivedItem, ViewItem;
    if items != [] {
      ReceivedItemView(S, f, items[0]);
      ReceivedItemsView(S, f, items[1..]);
      assert ReceivedItems(S, f, items)[1..] == ReceivedItems(S, f, items[1..]);
    }
  }

  lemma {:induction false} ReceivedSlotView(S: Schema, t: nat, m: Slots, i: nat)
    requires SchemaOk(S) && ZeroDefaults(S) && Sendable(S, t, m) && i < |m|
    ensures ViewSlot(S, S[t][i], ReceivedSlot(S, t, m, i)) == ViewSlot(S, S[t][i], m[i])
    decreases m, 0
  {
    hide ReceivedItem, ViewItem, IsZeroField, ReceivedItems, ViewItems, DefaultItem, SendableItem;
    var f := S[t][i];
    assert SendableField(S, S[t], m, i) && FieldOk(S, t, f);
    if !f.ltype.Extension? {
      match m[i]
      case One(_, v) =>
        if Present(S, S[t], m, i) {
          assert v < m[i];
          ReceivedItemView(S, f, v);
        } else if AlwaysThere(f) {
          ZeroSlotView(S, t, m, i);
        }
      case Many(items) =>
        ReceivedItemsView(S, f, items);
    }
  }

  lemma {:induction false} ReceivedView(S: Schema, t: nat, m: Slots)
    requires SchemaOk(S) && ZeroDefaults(S) && Sendable(S, t, m)
    ensures t < |S| && |m| == |S[t]| && View(S, t, Received(S, t, m)) == View(S, t, m)
    decreases m, 1
  {
    hide ReceivedSlot, ViewSlot;
    forall i | 0 <= i < |m|
      ensures ViewSlot(S, S[t][i], ReceivedSlot(S, t, m, i)) == ViewSlot(S, S[t][i], m[i])
    {
      ReceivedSlotView(S, t, m, i);
    }
  }

  /** Encoding and decoding succeeds, and every byte is consumed. */
  lemma MessageReceived(S: Schema, t: nat, m: Slots)
    requires SchemaOk(S) && Sendable(S, t, m) && Exclusive(S, t, m)
    ensures t < |S| && |m| == |S[t]| && EncMessage(S, t, m).Success?
    ensures DecFresh(S, t, EncMessage(S, t, m).value) == Ok(Received(S, t, m), [])
  {
    hide Sendable, Exclusive, EncMessage, DecMessage, Received, MergeMessage;
    SendableLength(S, t, m);
    DefaultsShaped(S, t);
    Transfer.EncodingDecodes(S, t, Defaults(S, t), m);
    MergeFresh(S, t, m);
  }

  /** The struct that comes out looks like the one that went in. */
  lemma MessageRoundTrip(S: Schema, t: nat, m: Slots)
    requires SchemaOk(S) && ZeroDefaults(S) && Sendable(S, t, m) && Exclusive(S, t, m)
    ensures t < |S| && |m| == |S[t]| && EncMessage(S, t, m).Success?
    ensures DecFresh(S, t, EncMessage(S, t, m).value).Ok? && DecFresh(S, t, EncMessage(S, t, m).value).rest == []
    ensures |DecFresh(S, t, EncMessage(S, t, m).value).value| == |S[t]|
    ensures View(S, t, DecFresh(S, t, EncMessage(S, t, m).value).value) == View(S, t, m)
  {
    hide Sendable, Exclusive, EncMessage, DecFresh, Received, View;
    MessageReceived(S, t, m);
    ReceivedView(S, t, m);
  }
}
