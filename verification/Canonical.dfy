/** The encoding is a function of what a program observes of a struct. */
module Canonical {
  import opened Bits
  import opened Varint
  import opened Integers
  import opened Descriptor
  import opened Message
  import opened EncodeSpec
  import opened DecodeSpec
  import opened Merge
  import opened RoundTrip
  import opened Observe
  import opened Stale

  lemma ScalarSame(f: Field, n: int)
    ensures EncScalar(f, n) == EncScalar(f, Normal(f, n)) && (n == 0 <==> Normal(f, n) == 0)
  {
  }

  lemma BlobSame(f: Field, data: bytes)
    requires f.ltype.String? && f.atype.Static? ==> f.dataSize > 0
    ensures f.ltype.String? ==> EncBlob(f, data) == Prefixed(Success(Payload(f, data)))
    ensures f.ltype.String? ==> (Payload(f, data) == [] <==> data == [] || data[0] == 0)
    ensures !f.ltype.String? ==> Payload(f, data) == data
  {
  }

  /** Two items that look the same. */
  lemma {:induction false} ItemSame(S: Schema, t: nat, f: Field, v: Value, w: Value)
    requires SchemaOk(S) && t < |S| && FieldOk(S, t, f) && ViewItem(S, f, v) == ViewItem(S, f, w)
    ensures EncItem(S, f, v) == EncItem(S, f, w) && IsZeroItem(S, f, v) == IsZeroItem(S, f, w)
    decreases v, 0
  {
    hide SchemaOk, View, EncMessage, AllZero;
    match v
    case Indeterminate =>
    case Scalar(n) =>
      hide EncScalar, Normal;
      ScalarSame(f, n);
      ScalarSame(f, w.n);
    case Blob(data) =>
      hide EncBlob, Payload;
      BlobSame(f, data);
      BlobSame(f, w.data);
    case Sub(slots) =>
      if f.ptr.Table? && f.ptr.id < |S| && |slots| == |S[f.ptr.id]| {
        MessageSame(S, f.ptr.id, slots, w.slots);
      }
  }

  lemma {:induction false} ItemsSame(S: Schema, t: nat, f: Field, vs: seq<Value>, ws: seq<Value>)
    requires SchemaOk(S) && t < |S| && FieldOk(S, t, f) && ViewItems(S, f, vs) == ViewItems(S, f, ws)
    ensures |vs| == |ws|
    ensures EncEach(S, f, vs) == EncEach(S, f, ws) && EncScalars(f, vs) == EncScalars(f, ws)
    decreases vs, 1
  {
    hide SchemaOk, EncItem, ViewItem, EncScalar, Normal;
    assert |vs| == |ViewItems(S, f, vs)| == |ViewItems(S, f, ws)| == |ws|;
    if vs != [] {
      assert ViewItems(S, f, vs)[0] == ViewItem(S, f, vs[0]) && ViewItems(S, f, ws)[0] == ViewItem(S, f, ws[0]);
      assert ViewItems(S, f, vs)[1..] == ViewItems(S, f, vs[1..]) && ViewItems(S, f, ws)[1..] == ViewItems(S, f, ws[1..]);
      ItemSame(S, t, f, vs[0], ws[0]);
      ItemsSame(S, t, f, vs[1..], ws[1..]);
      KindSame(S, f, vs[0], ws[0]);
    }
  }

  lemma KindSame(S: Schema, f: Field, v: Value, w: Value)
    requires ViewItem(S, f, v) == ViewItem(S, f, w)
    ensures v.Scalar? <==> w.Scalar?
    ensures v.Scalar? ==> EncScalar(f, v.n) == EncScalar(f, w.n)
  {
    hide View, EncScalar, Normal;
    if v.Scalar? && w.Scalar? {
      ScalarSame(f, v.n);
      ScalarSame(f, w.n);
    }
  }

  /** The slots of two structs look the same, one by one. */
  ghost predicate SameLook(S: Schema, t: nat, m: Slots, m': Slots)
    requires t < |S|
  {
    |m| == |m'| == |S[t]| && forall i :: 0 <= i < |m| ==> ViewSlot(S, S[t][i], m[i]) == ViewSlot(S, S[t][i], m'[i])
  }

  lemma {:induction false} NoneSelectedSame(S: Schema, t: nat, m: Slots, m': Slots, u: HType, k: nat)
    requires SchemaOk(S) && t < |S| && SameLook(S, t, m, m') && k <= |m| && u.Oneof?
    ensures NoneSelected(S[t], m, u, k) == NoneSelected(S[t], m', u, k)
    decreases |m| - k
  {
    assert |m| == |m'| == |S[t]|;
    hide SchemaOk, ViewSlot;
    if k < |m| {
      FieldFacts(S, t, k);
      NoneSelectedSame(S, t, m, m', u, k + 1);
      assert ViewSlot(S, S[t][k], m[k]) == ViewSlot(S, S[t][k], m'[k]);
      if S[t][k].htype == u && !S[t][k].ltype.Extension? {
        SlotSame(S, S[t][k], m[k], m'[k]);
      }
    }
  }

  lemma SlotSame(S: Schema, f: Field, slot: Slot, slot': Slot)
    requires ViewSlot(S, f, slot) == ViewSlot(S, f, slot') && !f.ltype.Extension?
    ensures slot.One? <==> slot'.One?
    ensures slot.One? ==> if AlwaysThere(f) then ViewItem(S, f, slot.v) == ViewItem(S, f, slot'.v)
                          else slot.has == slot'.has && (slot.has ==> ViewItem(S, f, slot.v) == ViewItem(S, f, slot'.v))
    ensures slot.Many? ==> ViewItems(S, f, slot.items) == ViewItems(S, f, slot'.items)
  {
    hide ViewItem, ViewItems;
  }

  lemma {:induction false} ZeroSame(S: Schema, t: nat, m: Slots, m': Slots, i: nat)
    requires SchemaOk(S) && t < |S| && SameLook(S, t, m, m') && i < |m|
    ensures IsZeroField(S, S[t], m, i) == IsZeroField(S, S[t], m', i)
    decreases m, 0
  {
    var f := S[t][i];
    FieldFacts(S, t, i);
    hide SchemaOk, SameLook, IsZeroItem, ViewItem, ViewItems, NoneSelected;
    if !f.ltype.Extension? {
      SlotSame(S, f, m[i], m'[i]) by { LookAt(S, t, m, m', i); }
      match m[i]
      case One(_, v) =>
        if f.htype.Oneof? {
          NoneSelectedSame(S, t, m, m', f.htype, 0);
        } else if AlwaysThere(f) {
          assert v < m[i];
          ItemSame(S, t, f, v, m'[i].v);
        }
      case Many(items) =>
        ItemsLength(S, f, items, m'[i].items);
    }
  }

  lemma LookAt(S: Schema, t: nat, m: Slots, m': Slots, i: nat)
    requires t < |S| && SameLook(S, t, m, m') && i < |m|
    ensures |m| == |m'| == |S[t]| && ViewSlot(S, S[t][i], m[i]) == ViewSlot(S, S[t][i], m'[i])
  {
  }

  lemma ItemsLength(S: Schema, f: Field, vs: seq<Value>, ws: seq<Value>)
    requires ViewItems(S, f, vs) == ViewItems(S, f, ws)
    ensures |vs| == |ws|
  {
    assert |vs| == |ViewItems(S, f, vs)| == |ViewItems(S, f, ws)| == |ws|;
  }

  lemma {:induction false} AllZeroSame(S: Schema, t: nat, m: Slots, m': Slots, k: nat)
    requires SchemaOk(S) && t < |S| && SameLook(S, t, m, m') && k <= |m|
    ensures AllZero(S, S[t], m, k) == AllZero(S, S[t], m', k)
    decreases m, 1, |m| - k
  {
    assert |m| == |m'| == |S[t]|;
    hide SchemaOk, SameLook, IsZeroField;
    if k < |m| {
      ZeroSame(S, t, m, m', k);
      AllZeroSame(S, t, m, m', k + 1);
    }
  }

  lemma {:induction false} FieldSame(S: Schema, t: nat, m: Slots, m': Slots, i: nat)
    requires SchemaOk(S) && t < |S| && SameLook(S, t, m, m') && i < |m|
    ensures |m| == |m'| == |S[t]| && EncField(S, S[t], m, i) == EncField(S, S[t], m', i)
    decreases m, 2
  {
    assert |m| == |m'| == |S[t]|;
    FieldFacts(S, t, i);
    LookAt(S, t, m, m', i);
    ZeroSame(S, t, m, m', i);
    hide SchemaOk, SameLook, IsZeroField, ViewItem, ViewItems, EncItem, EncEach, EncScalars, ViewSlot;
    var f := S[t][i];
    if !f.ltype.Extension? {
      SlotSame(S, f, m[i], m'[i]);
      match m[i]
      case One(has, v) =>
        if has || AlwaysThere(f) {
          assert v < m[i];
          ItemSame(S, t, f, v, m'[i].v);
        }
      case Many(items) =>
        ItemsSame(S, t, f, items, m'[i].items);
    }
  }

  lemma {:induction false} FromSame(S: Schema, t: nat, m: Slots, m': Slots, i: nat)
    requires SchemaOk(S) && t < |S| && SameLook(S, t, m, m') && i <= |m|
    ensures |m| == |m'| == |S[t]| && EncFrom(S, S[t], m, i) == EncFrom(S, S[t], m', i)
    decreases m, 3, |m| - i
  {
    assert |m| == |m'| == |S[t]|;
    hide SchemaOk, SameLook, EncField;
    if i < |m| {
      FieldSame(S, t, m, m', i);
      FromSame(S, t, m, m', i + 1);
    }
  }

  /** Structs that look the same have the same encoding. */
  lemma {:induction false} MessageSame(S: Schema, t: nat, m: Slots, m': Slots)
    requires SchemaOk(S) && t < |S| && |m| == |m'| == |S[t]| && View(S, t, m) == View(S, t, m')
    ensures EncMessage(S, t, m) == EncMessage(S, t, m') && AllZero(S, S[t], m, 0) == AllZero(S, S[t], m', 0)
    decreases m, 4
  {
    hide SchemaOk, EncFrom, AllZero;
    ViewLook(S, t, m, m');
    FromSame(S, t, m, m', 0);
    AllZeroSame(S, t, m, m', 0);
  }

  lemma ViewLook(S: Schema, t: nat, m: Slots, m': Slots)
    requires t < |S| && |m| == |m'| == |S[t]| && View(S, t, m) == View(S, t, m')
    ensures SameLook(S, t, m, m')
  {
    hide ViewSlot;
    forall i | 0 <= i < |m|
      ensures ViewSlot(S, S[t][i], m[i]) == ViewSlot(S, S[t][i], m'[i])
    {
      assert View(S, t, m)[i] == View(S, t, m')[i];
    }
  }

  /** With zero defaults, sending the received struct on gives the same bytes again. */
  lemma SameBytes(S: Schema, t: nat, m: Slots)
    requires SchemaOk(S) && ZeroDefaults(S) && Sendable(S, t, m)
    ensures t < |S| && |m| == |S[t]| && EncMessage(S, t, Received(S, t, m)) == EncMessage(S, t, m)
  {
    hide SchemaOk, ZeroDefaults, Sendable, Received, View, EncMessage;
    ReceivedView(S, t, m);
    MessageSame(S, t, Received(S, t, m), m);
  }
}
