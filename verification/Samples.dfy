/** Sample messages made from a schema: every pointer is set, and everything else is as little as its type allows. They show
    what inputs there are, whatever the schema is. */
module Samples {
  import opened Bits
  import opened Varint
  import opened Descriptor
  import opened Message
  import opened EncodeSpec
  import opened Merge
  import opened RoundTrip
  import opened Stale
  import opened FieldIterator
  import opened Reuse
  import opened Release
  import opened Backing
  import opened TornPointers
  import Overwritten

  // ---- the samples ----

  /** A struct with as little in it as its type allows. A type that requires itself without end has none: when `hops` have
      been used up, the value is missing. */
  function Least(S: Schema, t: nat, hops: nat): (m: Slots)
    requires t < |S|
    ensures |m| == |S[t]|
    decreases hops, t, 2
  {
    seq(|S[t]|, i requires 0 <= i < |S[t]| => LeastSlot(S, t, S[t][i], hops))
  }

  function LeastSlot(S: Schema, t: nat, f: Field, hops: nat): Slot
    requires t < |S|
    decreases hops, t, 1
  {
    if f.htype.Repeated? then Many(if FixedCount(f) then seq(f.arraySize, _ => LeastItem(S, t, f, hops)) else [])
    else One(f.htype.Required?, LeastItem(S, t, f, hops))
  }

  function LeastItem(S: Schema, t: nat, f: Field, hops: nat): Value
    requires t < |S|
    decreases hops, t, 0
  {
    if f.ltype.Submessage? then
      if !(f.ptr.Table? && f.ptr.id < |S|) then Indeterminate
      else if f.atype.Static? then if f.ptr.id < t then Sub(Least(S, f.ptr.id, hops)) else Indeterminate
      else if hops > 0 then Sub(Least(S, f.ptr.id, hops - 1)) else Indeterminate
    else if Packable(f.ltype) then Scalar(0)
    else Blob(if f.ltype.FixedLengthBytes? then seq(f.dataSize, _ => 0) else [])
  }

  /** A struct with every pointer set, also in its submessages in place and in one element of each of its arrays. What the
      pointers point to is as little as possible. */
  function Rich(S: Schema, t: nat): (m: Slots)
    requires t < |S|
    ensures |m| == |S[t]|
    decreases t, 2
  {
    seq(|S[t]|, i requires 0 <= i < |S[t]| => RichSlot(S, t, S[t][i]))
  }

  function RichSlot(S: Schema, t: nat, f: Field): Slot
    requires t < |S|
    decreases t, 1
  {
    if f.htype.Repeated? then
      Many(if FixedCount(f) then seq(f.arraySize, _ => RichItem(S, t, f))
           else if f.atype.Pointer? || f.ltype.Submessage? then [RichItem(S, t, f)]
           else [])
    else One(f.htype.Required? || f.atype.Pointer? || f.ltype.Submessage?, RichItem(S, t, f))
  }

  function RichItem(S: Schema, t: nat, f: Field): Value
    requires t < |S|
    decreases t, 0
  {
    if f.ltype.Submessage? && f.atype.Static? && f.ptr.Table? && f.ptr.id < t then Sub(Rich(S, f.ptr.id))
    else LeastItem(S, t, f, |S|)
  }

  /** The samples of the schema can be sent: no type requires itself without end, no array has room for nothing, and the
      encodings are below 2^32 bytes. */
  ghost predicate Sampled(S: Schema) {
    forall t :: 0 <= t < |S| ==> Sendable(S, t, Rich(S, t))
  }

  // ---- samples have no union ----

  lemma {:induction false} LeastExclusive(S: Schema, t: nat, hops: nat)
    requires Supported(S) && t < |S|
    ensures Exclusive(S, t, Least(S, t, hops))
    decreases hops, t, 1
  {
    var m := Least(S, t, hops);
    forall i | 0 <= i < |m|
      ensures ExclusiveSlot(S, S[t][i], m[i]) && !S[t][i].htype.Oneof?
    {
      Overwritten.NoExtension(S, t, i);
      LeastItemExclusive(S, t, S[t][i], hops);
      assert m[i] == LeastSlot(S, t, S[t][i], hops);
    }
  }

  lemma {:induction false} LeastItemExclusive(S: Schema, t: nat, f: Field, hops: nat)
    requires Supported(S) && t < |S|
    ensures ExclusiveItem(S, f, LeastItem(S, t, f, hops))
    decreases hops, t, 0
  {
    hide Supported, Exclusive, Least;
    if f.ltype.Submessage? && f.ptr.Table? && f.ptr.id < |S| {
      if f.atype.Static? {
        if f.ptr.id < t {
          LeastExclusive(S, f.ptr.id, hops);
        }
      } else if hops > 0 {
        LeastExclusive(S, f.ptr.id, hops - 1);
      }
    }
  }

  lemma {:induction false} RichExclusive(S: Schema, t: nat)
    requires Supported(S) && t < |S|
    ensures Exclusive(S, t, Rich(S, t))
    decreases t
  {
    var m := Rich(S, t);
    forall i | 0 <= i < |m|
      ensures ExclusiveSlot(S, S[t][i], m[i]) && !S[t][i].htype.Oneof?
    {
      Overwritten.NoExtension(S, t, i);
      var f := S[t][i];
      LeastItemExclusive(S, t, f, |S|);
      if f.ltype.Submessage? && f.atype.Static? && f.ptr.Table? && f.ptr.id < t {
        RichExclusive(S, f.ptr.id);
      }
      assert ExclusiveItem(S, f, RichItem(S, t, f));
      assert m[i] == RichSlot(S, t, f);
    }
  }

  // ---- what is received of them ----

  lemma {:induction false} NotAllZero(S: Schema, table: Table, m: Slots, j: nat, i: nat)
    requires j <= i < |table| == |m| && !IsZeroField(S, table, m, i)
    ensures !AllZero(S, table, m, j)
    decreases i - j
  {
    hide IsZeroField;
    if j < i {
      NotAllZero(S, table, m, j + 1, i);
    }
  }

  /** A sample of a type with pointers is not zero, so that it is sent also where there is no flag. */
  lemma {:induction false} RichNotZero(S: Schema, t: nat)
    requires Supported(S) && t < |S| && !PointerFree(S, t)
    ensures !AllZero(S, S[t], Rich(S, t), 0)
    decreases t
  {
    var m := Rich(S, t);
    var i :| 0 <= i < |S[t]| && !(S[t][i].atype.Static? &&
      (S[t][i].ltype.Submessage? ==> S[t][i].ptr.Table? && S[t][i].ptr.id < t && PointerFree(S, S[t][i].ptr.id)));
    Overwritten.NoExtension(S, t, i);
    Overwritten.SupportedOk(S);
    FieldFacts(S, t, i);
    hide Supported, PointerFree, Rich;
    var f := S[t][i];
    assert m[i] == RichSlot(S, t, f) by { RichAt(S, t, i); }
    if f.atype.Static? {
      RichNotZero(S, f.ptr.id);
      assert RichItem(S, t, f) == Sub(Rich(S, f.ptr.id));
      hide AllZero;
      assert !IsZeroItem(S, f, Sub(Rich(S, f.ptr.id)));
    }
    assert !IsZeroField(S, S[t], m, i);
    NotAllZero(S, S[t], m, 0, i);
  }

  lemma RichAt(S: Schema, t: nat, i: nat)
    requires t < |S| && i < |S[t]|
    ensures |Rich(S, t)| == |S[t]| && Rich(S, t)[i] == RichSlot(S, t, S[t][i])
  {
  }

  /** A submessage in place whose type has pointers arrives. */
  lemma InPlacePresent(S: Schema, t: nat, i: nat)
    requires Supported(S) && t < |S| && i < |S[t]| && InPlace(S[t][i]) && S[t][i].ptr.Table? && S[t][i].ptr.id < t
    requires !PointerFree(S, S[t][i].ptr.id)
    ensures |Rich(S, t)| == |S[t]| && Present(S, S[t], Rich(S, t), i)
    ensures Rich(S, t)[i] == One(true, Sub(Rich(S, S[t][i].ptr.id)))
  {
    RichAt(S, t, i);
    RichNotZero(S, S[t][i].ptr.id);
    Overwritten.NoExtension(S, t, i);
    hide Supported, PointerFree, AllZero, Rich;
    var f := S[t][i];
    assert !IsZeroItem(S, f, Sub(Rich(S, f.ptr.id)));
  }

  /** The slot of field i as it arrives: the pointers are set, and the submessages are samples received. */
  lemma RichReceived(S: Schema, t: nat, i: nat)
    requires Supported(S) && t < |S| && i < |S[t]|
    requires S[t][i].atype.Static? ==> S[t][i].ltype.Submessage? && S[t][i].ptr.Table? && S[t][i].ptr.id < t &&
                                       !PointerFree(S, S[t][i].ptr.id)
    ensures |Rich(S, t)| == |S[t]|
    ensures var f, slot := S[t][i], Received(S, t, Rich(S, t))[i];
            if f.atype.Pointer? then (match slot case One(has, _) => has case Many(items) => items != [])
            else
              var v := Sub(Received(S, f.ptr.id, Rich(S, f.ptr.id)));
              match slot
              case One(_, w) => !f.htype.Repeated? && w == v
              case Many(items) => f.htype.Repeated? && items != [] && items[0] == v
  {
    RichAt(S, t, i);
    Overwritten.NoExtension(S, t, i);
    Overwritten.SupportedOk(S);
    FieldFacts(S, t, i);
    var f, m := S[t][i], Rich(S, t);
    if InPlace(f) {
      InPlacePresent(S, t, i);
    }
    hide Supported, PointerFree, Rich, IsZeroField;
    assert Received(S, t, m)[i] == ReceivedSlot(S, t, m, i);
    hide Received;
    if f.atype.Static? {
      assert RichItem(S, t, f) == Sub(Rich(S, f.ptr.id));
      assert ReceivedItem(S, f, Sub(Rich(S, f.ptr.id))) == Sub(Received(S, f.ptr.id, Rich(S, f.ptr.id)));
    }
    if m[i].Many? {
      Overwritten.ReceivedAt(S, f, m[i].items);
      assert m[i].items != [] && m[i].items[0] == RichItem(S, t, f);
    }
  }

  /** A sample of a type with pointers holds one. */
  lemma {:induction false} RichHolds(S: Schema, t: nat)
    requires Supported(S) && t < |S| && !PointerFree(S, t)
    ensures Holds(S, t, Received(S, t, Rich(S, t)))
    decreases t
  {
    var i :| 0 <= i < |S[t]| && !(S[t][i].atype.Static? &&
      (S[t][i].ltype.Submessage? ==> S[t][i].ptr.Table? && S[t][i].ptr.id < t && PointerFree(S, S[t][i].ptr.id)));
    Overwritten.SupportedOk(S);
    FieldFacts(S, t, i);
    hide Supported, PointerFree, Rich, Received;
    RichSlotHolds(S, t, i);
  }

  lemma {:induction false} RichSlotHolds(S: Schema, t: nat, i: nat)
    requires Supported(S) && t < |S| && i < |S[t]|
    requires S[t][i].atype.Static? ==> S[t][i].ltype.Submessage? && S[t][i].ptr.Table? && S[t][i].ptr.id < t &&
                                       !PointerFree(S, S[t][i].ptr.id)
    ensures |Rich(S, t)| == |S[t]| && HoldsSlot(S, S[t][i], Received(S, t, Rich(S, t))[i])
    decreases t, 0
  {
    RichReceived(S, t, i);
    hide Supported, PointerFree, Rich, Received, Holds;
    var f := S[t][i];
    if f.atype.Static? {
      RichHolds(S, f.ptr.id);
      assert HoldsItem(S, f, Sub(Received(S, f.ptr.id, Rich(S, f.ptr.id))));
    }
  }

  // ---- pointers at the start ----

  lemma {:induction false} HeadNotFree(S: Schema, t: nat, room: nat)
    requires t < |S| && HeadPointer(S, t, room)
    ensures !PointerFree(S, t)
    decreases t
  {
    hide DataWalk;
    var i :| 0 <= i < |S[t]| && DataWalk(S[t], i) < room &&
      (S[t][i].atype.Pointer? ||
       (S[t][i].ltype.Submessage? && S[t][i].ptr.Table? && S[t][i].ptr.id < t &&
        HeadPointer(S, S[t][i].ptr.id, room - DataWalk(S[t], i))));
    if S[t][i].atype.Static? {
      HeadNotFree(S, S[t][i].ptr.id, room - DataWalk(S[t], i));
    }
  }

  lemma {:induction false} RichHead(S: Schema, t: nat, room: nat)
    requires Supported(S) && t < |S| && room <= COUNT_SIZE && HeadPointer(S, t, room)
    ensures HeadSet(S, t, Received(S, t, Rich(S, t)), room)
    decreases t
  {
    hide DataWalk, SchemaOk, NoUnions, Rich, Received, PointerFree;
    var i :| 0 <= i < |S[t]| && DataWalk(S[t], i) < room &&
      (S[t][i].atype.Pointer? ||
       (S[t][i].ltype.Submessage? && S[t][i].ptr.Table? && S[t][i].ptr.id < t &&
        HeadPointer(S, S[t][i].ptr.id, room - DataWalk(S[t], i))));
    var f, left := S[t][i], room - DataWalk(S[t], i);
    if f.atype.Static? {
      assert f.htype.Repeated? ==> FixedCount(f);
      hide CountsAhead;
      HeadNotFree(S, f.ptr.id, left);
      RichHead(S, f.ptr.id, left);
    }
    RichReceived(S, t, i);
    var r := Received(S, t, Rich(S, t));
    hide HeadSet, HeadPointer;
    if f.atype.Static? {
      assert HeadItem(S, f, Sub(Received(S, f.ptr.id, Rich(S, f.ptr.id))), left);
    }
    assert HeadSlot(S, f, r[i], left);
    HeadAt(S, t, r, i, room);
  }

  lemma HeadAt(S: Schema, t: nat, m: Slots, i: nat, room: nat)
    requires t < |S| && i < |m| == |S[t]| && DataWalk(S[t], i) < room &&
             HeadSlot(S, S[t][i], m[i], room - DataWalk(S[t], i))
    ensures HeadSet(S, t, m, room)
  {
    hide DataWalk, HeadSlot;
  }

  lemma {:induction false} TearableNotFree(S: Schema, t: nat)
    requires t < |S| && SchemaOk(S) && TearableType(S, t)
    ensures !PointerFree(S, t)
    decreases t
  {
    hide SchemaOk, HeadPointer;
    if Fragile(S, t) {
      var j :| 0 <= j < |S[t]| && FragileField(S, S[t][j]);
      HeadNotFree(S, S[t][j].ptr.id, COUNT_SIZE);
    } else {
      var i :| 0 <= i < |S[t]| && S[t][i].ltype.Submessage? && S[t][i].atype.Static? && S[t][i].ptr.Table? &&
        S[t][i].ptr.id < t && TearableType(S, S[t][i].ptr.id);
      TearableNotFree(S, S[t][i].ptr.id);
    }
  }

  /** A sample holds a pointer at the start of an array without count, if its type has one there. */
  lemma {:induction false} RichTearable(S: Schema, t: nat)
    requires Supported(S) && t < |S| && TearableType(S, t)
    ensures |Rich(S, t)| == |S[t]| && Tearable(S, t, Received(S, t, Rich(S, t)))
    decreases t, 1
  {
    Overwritten.SupportedOk(S);
    hide Supported, SchemaOk, Rich, Received, Tears, TearableSlot;
    var r := Received(S, t, Rich(S, t));
    if Fragile(S, t) {
      hide FragileField;
      var j :| 0 <= j < |S[t]| && FragileField(S, S[t][j]);
      RichTears(S, t, j);
    } else {
      hide Fragile;
      var i :| 0 <= i < |S[t]| && S[t][i].ltype.Submessage? && S[t][i].atype.Static? && S[t][i].ptr.Table? &&
        S[t][i].ptr.id < t && TearableType(S, S[t][i].ptr.id);
      RichSlotTearable(S, t, i);
    }
  }

  lemma RichTears(S: Schema, t: nat, j: nat)
    requires Supported(S) && t < |S| && j < |S[t]| && FragileField(S, S[t][j])
    ensures |Rich(S, t)| == |S[t]| && Tears(S, t, Received(S, t, Rich(S, t)))
  {
    Overwritten.SupportedOk(S);
    FieldFacts(S, t, j);
    hide Supported, SchemaOk, Rich, Received, HeadPointer, HeadSet, PointerFree;
    var f := S[t][j];
    HeadNotFree(S, f.ptr.id, COUNT_SIZE);
    RichReceived(S, t, j);
    RichHead(S, f.ptr.id, COUNT_SIZE);
    assert HeadItem(S, f, Sub(Received(S, f.ptr.id, Rich(S, f.ptr.id))), COUNT_SIZE);
    assert TearsSlot(S, f, Received(S, t, Rich(S, t))[j]);
  }

  lemma {:induction false} RichSlotTearable(S: Schema, t: nat, i: nat)
    requires Supported(S) && t < |S| && i < |S[t]| && S[t][i].ltype.Submessage? && S[t][i].atype.Static?
    requires S[t][i].ptr.Table? && S[t][i].ptr.id < t && TearableType(S, S[t][i].ptr.id)
    ensures |Rich(S, t)| == |S[t]| && TearableSlot(S, S[t][i], Received(S, t, Rich(S, t))[i])
    decreases t, 0
  {
    Overwritten.SupportedOk(S);
    hide Supported, SchemaOk, Rich, Received, PointerFree, TearableType, Tearable;
    var f := S[t][i];
    TearableNotFree(S, f.ptr.id);
    RichReceived(S, t, i);
    RichTearable(S, f.ptr.id);
    assert TearableItem(S, f, Sub(Received(S, f.ptr.id, Rich(S, f.ptr.id))));
  }
}
