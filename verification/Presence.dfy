/** Which fields are left out of an encoding. */
module Presence {
  import opened Bits
  import opened Varint
  import opened Integers
  import opened Descriptor
  import opened Message
  import opened EncodeSpec
  import opened Observe

  /** Nothing is set: no required field, no element, no flag, pointer or union member, and every value without a flag is
      zero. */
  predicate Blank(S: Schema, t: nat, m: Slots)
    decreases m, 1
  {
    t < |S| && |m| == |S[t]| && forall i :: 0 <= i < |m| ==> BlankSlot(S, S[t][i], m[i])
  }

  predicate BlankSlot(S: Schema, f: Field, slot: Slot)
    decreases slot, 0
  {
    f.ltype.Extension? ||
    match slot
    case One(has, v) =>
      (f.htype.Optional? || f.htype.Oneof?) && if AlwaysThere(f) then BlankItem(S, f, v) else !has
    case Many(items) => f.htype.Repeated? && !FixedCount(f) && items == []
  }

  predicate BlankItem(S: Schema, f: Field, v: Value)
    decreases v, 0
  {
    if v.Sub? then f.ltype.Submessage? && f.ptr.Table? && Blank(S, f.ptr.id, v.slots) else LooksZero(f, v)
  }

  // ---- the zero test ----

  /** The test takes exactly the zero values for zero, and of the submessages exactly those in which nothing is set. */
  lemma {:induction false} ZeroItemExact(S: Schema, f: Field, v: Value)
    requires SchemaOk(S)
    ensures IsZeroItem(S, f, v) <==> BlankItem(S, f, v)
    decreases v, 0
  {
    if v.Sub? && f.ptr.Table? && f.ptr.id < |S| && |S[f.ptr.id]| == |v.slots| {
      ZeroExact(S, f.ptr.id, v.slots);
    }
  }

  lemma {:induction false} ZeroExact(S: Schema, t: nat, m: Slots)
    requires SchemaOk(S) && t < |S| && |m| == |S[t]|
    ensures AllZero(S, S[t], m, 0) <==> Blank(S, t, m)
    decreases m, 2
  {
    hide SchemaOk, IsZeroField, BlankSlot;
    if AllZero(S, S[t], m, 0) {
      forall i | 0 <= i < |m|
        ensures BlankSlot(S, S[t][i], m[i])
      {
        AllZeroAt(S, S[t], m, 0, i);
        ZeroFieldBlank(S, t, m, i);
      }
    }
    if Blank(S, t, m) {
      BlankAllZero(S, t, m, 0);
    }
  }

  lemma {:induction false} ZeroFieldBlank(S: Schema, t: nat, m: Slots, i: nat)
    requires SchemaOk(S) && t < |S| && i < |m| == |S[t]| && IsZeroField(S, S[t], m, i)
    ensures BlankSlot(S, S[t][i], m[i])
    decreases m, 1
  {
    hide IsZeroItem, BlankItem;
    var f := S[t][i];
    assert FieldOk(S, t, f);
    if f.htype.Oneof? {
      NoneSelectedAt(S[t], m, f.htype, 0, i);
    } else if m[i].One? {
      assert m[i].v < m[i];
      ZeroItemExact(S, f, m[i].v);
    }
  }

  lemma {:induction false} BlankAllZero(S: Schema, t: nat, m: Slots, k: nat)
    requires SchemaOk(S) && t < |S| && k <= |m| == |S[t]| && Blank(S, t, m)
    ensures AllZero(S, S[t], m, k)
    decreases m, 1, |m| - k
  {
    hide SchemaOk, IsZeroField, BlankSlot;
    if k < |m| {
      BlankFieldZero(S, t, m, k);
      BlankAllZero(S, t, m, k + 1);
    }
  }

  lemma {:induction false} BlankFieldZero(S: Schema, t: nat, m: Slots, i: nat)
    requires SchemaOk(S) && t < |S| && i < |m| == |S[t]| && Blank(S, t, m)
    ensures IsZeroField(S, S[t], m, i)
    decreases m, 0
  {
    hide IsZeroItem, BlankItem;
    var f := S[t][i];
    assert FieldOk(S, t, f) && BlankSlot(S, f, m[i]);
    if f.htype.Oneof? {
      BlankUnion(S, t, m, f.htype, 0);
    } else if m[i].One? {
      assert m[i].v < m[i];
      ZeroItemExact(S, f, m[i].v);
    }
  }

  lemma {:induction false} BlankUnion(S: Schema, t: nat, m: Slots, union: HType, k: nat)
    requires SchemaOk(S) && t < |S| && k <= |m| == |S[t]| && Blank(S, t, m) && union.Oneof?
    ensures NoneSelected(S[t], m, union, k)
    decreases |m| - k
  {
    hide BlankItem;
    if k < |m| {
      assert FieldOk(S, t, S[t][k]) && BlankSlot(S, S[t][k], m[k]);
      BlankUnion(S, t, m, union, k + 1);
    }
  }

  // ---- what is written ----

  lemma TaggedNotEmpty(S: Schema, f: Field, v: Value)
    ensures EncTagged(S, f, v) != Success([])
  {
    hide EncItem;
  }

  lemma ArrayNotEmpty(S: Schema, f: Field, items: seq<Value>)
    requires items != []
    ensures EncArray(S, f, items) != Success([])
  {
    hide EncTagged, EncScalars;
    TaggedNotEmpty(S, f, items[0]);
  }

  /** A field writes nothing exactly when it is not set; without a flag, exactly when its value is zero. */
  lemma FieldSilent(S: Schema, t: nat, m: Slots, i: nat)
    requires SchemaOk(S) && t < |S| && i < |m| == |S[t]|
    ensures EncField(S, S[t], m, i) == Success([]) <==> BlankSlot(S, S[t][i], m[i])
  {
    hide EncTagged, EncArray, IsZeroItem, BlankItem;
    var f := S[t][i];
    assert FieldOk(S, t, f);
    match m[i]
    case One(_, v) =>
      ZeroItemExact(S, f, v);
      TaggedNotEmpty(S, f, v);
    case Many(items) =>
      if items != [] {
        ArrayNotEmpty(S, f, items);
      } else {
        NoElements(S, t, f);
      }
  }

  lemma NoElements(S: Schema, t: nat, f: Field)
    requires FieldOk(S, t, f)
    ensures EncArray(S, f, []) == if FixedCount(f) then Failure else Success([])
  {
  }

  lemma {:induction false} FromSilent(S: Schema, t: nat, m: Slots, k: nat)
    requires SchemaOk(S) && t < |S| && k <= |m| == |S[t]|
    ensures EncFrom(S, S[t], m, k) == Success([]) <==> forall i :: k <= i < |m| ==> BlankSlot(S, S[t][i], m[i])
    decreases |m| - k
  {
    hide SchemaOk, EncField, BlankSlot;
    if k < |m| {
      FieldSilent(S, t, m, k);
      FromSilent(S, t, m, k + 1);
      var a, b := EncField(S, S[t], m, k), EncFrom(S, S[t], m, k + 1);
      assert a.Success? && b.Success? && a.value + b.value == [] ==> a.value == [] && b.value == [];
    }
  }

  /** A message takes no bytes exactly when nothing in it is set. */
  lemma MessageSilent(S: Schema, t: nat, m: Slots)
    requires SchemaOk(S) && t < |S|
    ensures EncMessage(S, t, m) == Success([]) <==> Blank(S, t, m)
  {
    hide EncFrom, BlankSlot;
    if |m| == |S[t]| {
      FromSilent(S, t, m, 0);
    }
  }

  // ---- the default struct ----

  /** The type has no required field and no array without count, and what has no flag is zero by default: no byte string of
      fixed length, unless its length is zero. */
  predicate SilentType(S: Schema, t: nat)
    requires t < |S|
    decreases t, 1
  {
    forall i :: 0 <= i < |S[t]| ==> S[t][i].ltype.Extension? || SilentField(S, t, S[t][i])
  }

  predicate SilentField(S: Schema, t: nat, f: Field)
    requires t < |S|
    decreases t, 0
  {
    !f.htype.Required? && !FixedCount(f) &&
    (AlwaysThere(f) ==>
       if f.ltype.Submessage? then f.ptr.Table? && f.ptr.id < t && SilentType(S, f.ptr.id)
       else if f.ptr.Default? then LooksZero(f, f.ptr.value)
       else f.ltype.FixedLengthBytes? ==> f.dataSize == 0)
  }

  lemma {:induction false} DefaultSlotBlank(S: Schema, t: nat, f: Field)
    requires SchemaOk(S) && t < |S| && FieldOk(S, t, f) && !f.ltype.Extension?
    ensures BlankSlot(S, f, DefaultSlot(S, t, f)) <==> SilentField(S, t, f)
    decreases t, 0
  {
    hide SchemaOk, Blank, SilentType, Defaults;
    if f.ltype.Submessage? && f.ptr.Table? && f.ptr.id < t {
      DefaultsBlank(S, f.ptr.id);
    }
  }

  lemma {:induction false} DefaultsBlank(S: Schema, t: nat)
    requires SchemaOk(S) && t < |S|
    ensures Blank(S, t, Defaults(S, t)) <==> SilentType(S, t)
    decreases t, 1
  {
    hide BlankSlot, SilentField, DefaultSlot;
    var m := Defaults(S, t);
    forall i | 0 <= i < |S[t]|
      ensures BlankSlot(S, S[t][i], m[i]) <==> S[t][i].ltype.Extension? || SilentField(S, t, S[t][i])
    {
      assert m[i] == DefaultSlot(S, t, S[t][i]);
      if S[t][i].ltype.Extension? {
        ExtensionBlank(S, S[t][i], m[i]);
      } else {
        DefaultSlotBlank(S, t, S[t][i]);
      }
    }
  }

  lemma ExtensionBlank(S: Schema, f: Field, slot: Slot)
    requires f.ltype.Extension?
    ensures BlankSlot(S, f, slot)
  {
  }

  /** The struct as initialised takes no bytes exactly when its type is such a one. */
  lemma DefaultsSilent(S: Schema, t: nat)
    requires SchemaOk(S) && t < |S|
    ensures EncMessage(S, t, Defaults(S, t)) == Success([]) <==> SilentType(S, t)
  {
    hide SchemaOk, EncMessage, Blank, SilentType, Defaults;
    MessageSilent(S, t, Defaults(S, t));
    DefaultsBlank(S, t);
  }
}
