/** How the pointers of a value and the cells of its memory correspond: the value of a struct says which of its pointers
    are set, the memory which block each of them points to. */
module Backing {
  import opened Bits
  import opened Varint
  import opened Descriptor
  import opened Message
  import opened Stale
  import opened FieldIterator
  import opened Reuse
  import opened Ownership
  import opened Release
  import opened Initial

  // ---- values and memory ----

  ghost predicate BackedItem(S: Schema, f: Field, v: Value, c: Cell)
    decreases c, 0
  {
    v.Sub? && f.ptr.Table? && f.ptr.id < |S| ==> c.Inline? && Backed(S, f.ptr.id, v.slots, c.parts)
  }

  ghost predicate BackedSlot(S: Schema, f: Field, slot: Slot, c: Cell)
    decreases c, 1
  {
    match slot
    case One(has, v) =>
      if f.atype.Pointer? then
        c.Pointer? &&
        (has ==> c.block != 0 && (f.ltype.Submessage? ==> |c.parts| == 1 && BackedItem(S, f, v, c.parts[0])))
      else f.ltype.Submessage? ==> BackedItem(S, f, v, c)
    case Many(items) =>
      if f.atype.Pointer? then
        c.Pointer? && |c.parts| == |items| && (items != [] ==> c.block != 0) &&
        (f.ltype.Submessage? ==> forall k :: 0 <= k < |items| ==> BackedItem(S, f, items[k], c.parts[k]))
      else f.ltype.Submessage? ==>
        c.Items? && c.count == |items| <= |c.parts| &&
        forall k :: 0 <= k < |items| ==> BackedItem(S, f, items[k], c.parts[k])
  }

  /** Every pointer that is set in the value has a block behind it in the memory, no pointer slot is torn, and the arrays
      have the same counts. */
  ghost predicate Backed(S: Schema, t: nat, m: Slots, fs: seq<Cell>)
    requires t < |S|
    decreases fs, 0
  {
    |m| == |fs| == |S[t]| && forall i :: 0 <= i < |fs| ==> BackedSlot(S, S[t][i], m[i], fs[i])
  }

  /** Any memory after initialisation. */
  lemma {:induction false} DefaultsBacked(S: Schema, t: nat, fs: seq<Cell>)
    requires SchemaOk(S) && t < |S| && StructOk(S, t, fs)
    ensures Backed(S, t, Defaults(S, t), Reset(S, t, fs))
    decreases t, 1
  {
    hide SchemaOk, BackedSlot, DefaultSlot, ResetCell, CellOk;
    forall i | 0 <= i < |S[t]|
      ensures BackedSlot(S, S[t][i], Defaults(S, t)[i], Reset(S, t, fs)[i])
    {
      DefaultSlotBacked(S, t, i, fs[i]);
      assert Defaults(S, t)[i] == DefaultSlot(S, t, S[t][i]);
    }
  }

  lemma {:induction false} DefaultSlotBacked(S: Schema, t: nat, i: nat, c: Cell)
    requires SchemaOk(S) && t < |S| && i < |S[t]| && CellOk(S, S[t][i], c)
    ensures BackedSlot(S, S[t][i], DefaultSlot(S, t, S[t][i]), ResetCell(S, S[t][i], c))
    decreases t, 0
  {
    hide SchemaOk, Backed, Defaults, Reset, StructOk, Tear;
    FieldFacts(S, t, i);
    var f := S[t][i];
    if InPlace(f) {
      DefaultsBacked(S, f.ptr.id, c.parts);
    }
  }

  // ---- what the memory keeps ----

  ghost predicate HeldItem(S: Schema, f: Field, v: Value, c: Cell)
    decreases c, 0
  {
    v.Sub? && f.ptr.Table? && f.ptr.id < |S| ==> c.Inline? && Held(S, f.ptr.id, v.slots, c.parts)
  }

  ghost predicate HeldSlot(S: Schema, f: Field, slot: Slot, c: Cell)
    decreases c, 1
  {
    if f.atype.Pointer? then
      (match slot case One(has, _) => has case Many(items) => items != []) ==> c.Pointer? && c.block != 0
    else f.ltype.Submessage? ==>
      match slot
      case One(_, v) => HeldItem(S, f, v, c)
      case Many(items) =>
        c.Items? && (items != [] ==> c.parts != []) &&
        forall k :: 0 <= k < |items| && k < |c.parts| ==> HeldItem(S, f, items[k], c.parts[k])
  }

  /** The memory holds the pointers that are set in the value, also in elements that are not in use. */
  ghost predicate Held(S: Schema, t: nat, m: Slots, fs: seq<Cell>)
    requires t < |S|
    decreases fs, 0
  {
    |m| == |fs| == |S[t]| && forall i :: 0 <= i < |fs| ==> HeldSlot(S, S[t][i], m[i], fs[i])
  }

  lemma {:induction false} BackedHeld(S: Schema, t: nat, m: Slots, fs: seq<Cell>)
    requires t < |S| && Backed(S, t, m, fs)
    ensures Held(S, t, m, fs)
    decreases fs, 0
  {
    forall i | 0 <= i < |fs|
      ensures HeldSlot(S, S[t][i], m[i], fs[i])
    {
      BackedSlotHeld(S, S[t][i], m[i], fs[i]);
    }
  }

  lemma {:induction false} BackedSlotHeld(S: Schema, f: Field, slot: Slot, c: Cell)
    requires BackedSlot(S, f, slot, c)
    ensures HeldSlot(S, f, slot, c)
    decreases c, 1
  {
    hide Backed, Held;
    if f.atype.Static? && f.ltype.Submessage? {
      match slot
      case One(_, v) => BackedItemHeld(S, f, v, c);
      case Many(items) =>
        forall k | 0 <= k < |items|
          ensures HeldItem(S, f, items[k], c.parts[k])
        {
          BackedItemHeld(S, f, items[k], c.parts[k]);
        }
    }
  }

  lemma {:induction false} BackedItemHeld(S: Schema, f: Field, v: Value, c: Cell)
    requires BackedItem(S, f, v, c)
    ensures HeldItem(S, f, v, c)
    decreases c, 0
  {
    if v.Sub? && f.ptr.Table? && f.ptr.id < |S| {
      BackedHeld(S, f.ptr.id, v.slots, c.parts);
    }
  }

  // ---- pointers that are set ----

  ghost predicate HoldsItem(S: Schema, f: Field, v: Value)
    decreases v, 0
  {
    v.Sub? && f.ltype.Submessage? && f.ptr.Table? && f.ptr.id < |S| && Holds(S, f.ptr.id, v.slots)
  }

  ghost predicate HoldsSlot(S: Schema, f: Field, slot: Slot)
    decreases slot, 0
  {
    match slot
    case One(has, v) => if f.atype.Pointer? then has else HoldsItem(S, f, v)
    case Many(items) => if f.atype.Pointer? then items != [] else exists k :: 0 <= k < |items| && HoldsItem(S, f, items[k])
  }

  /** The struct holds a pointer that is set, at any depth. */
  ghost predicate Holds(S: Schema, t: nat, m: Slots)
    requires t < |S|
    decreases m, 0
  {
    |m| == |S[t]| && exists i :: 0 <= i < |m| && HoldsSlot(S, S[t][i], m[i])
  }

  ghost predicate HeadItem(S: Schema, f: Field, v: Value, room: nat)
    decreases v, 0
  {
    v.Sub? && f.ltype.Submessage? && f.ptr.Table? && f.ptr.id < |S| && HeadSet(S, f.ptr.id, v.slots, room)
  }

  ghost predicate HeadSlot(S: Schema, f: Field, slot: Slot, room: nat)
    decreases slot, 0
  {
    match slot
    case One(has, v) => if f.atype.Pointer? then has else HeadItem(S, f, v, room)
    case Many(items) =>
      if f.atype.Pointer? then items != [] else FixedCount(f) && items != [] && HeadItem(S, f, items[0], room)
  }

  /** A pointer that is set stands within the first `room` bytes of the struct. */
  ghost predicate HeadSet(S: Schema, t: nat, m: Slots, room: nat)
    requires t < |S|
    decreases m, 0
  {
    |m| == |S[t]| &&
    exists i :: 0 <= i < |m| && DataWalk(S[t], i) < room && HeadSlot(S, S[t][i], m[i], room - DataWalk(S[t], i))
  }

  ghost predicate DropsSlot(S: Schema, f: Field, slot: Slot)
    decreases slot, 0
  {
    match slot
    case One(has, v) =>
      if f.atype.Pointer? then has
      else v.Sub? && f.ltype.Submessage? && f.ptr.Table? && f.ptr.id < |S| && Drops(S, f.ptr.id, v.slots)
    case Many(items) =>
      if f.atype.Pointer? then items != [] else FixedCount(f) && items != [] && HeadItem(S, f, items[0], COUNT_SIZE)
  }

  /** The struct holds a pointer that initialisation overwrites: as a whole outside of arrays, or in part at the start of an
      array without count. */
  ghost predicate Drops(S: Schema, t: nat, m: Slots)
    requires t < |S|
    decreases m, 0
  {
    |m| == |S[t]| && exists i :: 0 <= i < |m| && DropsSlot(S, S[t][i], m[i])
  }

  ghost predicate TearsSlot(S: Schema, f: Field, slot: Slot)
    decreases slot, 0
  {
    f.atype.Static? &&
    match slot
    case One(has, v) => v.Sub? && f.ltype.Submessage? && f.ptr.Table? && f.ptr.id < |S| && Tears(S, f.ptr.id, v.slots)
    case Many(items) => FixedCount(f) && items != [] && HeadItem(S, f, items[0], COUNT_SIZE)
  }

  /** The struct holds a pointer of which initialisation overwrites a part. */
  ghost predicate Tears(S: Schema, t: nat, m: Slots)
    requires t < |S|
    decreases m, 0
  {
    |m| == |S[t]| && exists i :: 0 <= i < |m| && TearsSlot(S, S[t][i], m[i])
  }

  lemma {:induction false} TearsDrops(S: Schema, t: nat, m: Slots)
    requires t < |S| && Tears(S, t, m)
    ensures Drops(S, t, m)
    decreases m
  {
    hide HeadItem;
    var i :| 0 <= i < |m| && TearsSlot(S, S[t][i], m[i]);
    if m[i].One? {
      assert m[i].v < m[i];
      TearsDrops(S, S[t][i].ptr.id, m[i].v.slots);
    }
    assert DropsSlot(S, S[t][i], m[i]);
  }

  // ---- what initialisation overwrites ----

  /** The memory shows a torn pointer and owns fewer blocks than before. */
  predicate Damaged(cs: seq<Cell>, before: seq<Cell>) {
    AnyTorn(cs) && |AllBlocks(cs)| < |AllBlocks(before)|
  }

  lemma {:induction false} HeadTorn(S: Schema, t: nat, m: Slots, fs: seq<Cell>, room: nat)
    requires t < |S| && StructOk(S, t, fs) && Held(S, t, m, fs) && HeadSet(S, t, m, room)
    ensures Damaged(Tear(S, t, fs, room), fs)
    decreases fs, 1
  {
    hide CellOk, HeldSlot, HeadSlot, TearCell, AllBlocks, Blocks, DataWalk, ShowsTorn;
    var i :| 0 <= i < |m| && DataWalk(S[t], i) < room && HeadSlot(S, S[t][i], m[i], room - DataWalk(S[t], i));
    HeadCellTorn(S, t, i, m[i], fs[i], room);
    var r := Tear(S, t, fs, room);
    assert ShowsTorn(r[i]);
    forall k | 0 <= k < |fs|
      ensures Blocks(r[k]) <= Blocks(fs[k])
    {
      TearCellKeeps(S, t, k, fs[k], room);
    }
    StrictlyFewer(r, fs, i);
  }

  lemma {:induction false} HeadCellTorn(S: Schema, t: nat, i: nat, slot: Slot, c: Cell, room: nat)
    requires t < |S| && i < |S[t]| && DataWalk(S[t], i) < room
    requires CellOk(S, S[t][i], c) && HeldSlot(S, S[t][i], slot, c) && HeadSlot(S, S[t][i], slot, room - DataWalk(S[t], i))
    ensures ShowsTorn(TearCell(S, t, i, c, room)) && |Blocks(TearCell(S, t, i, c, room))| < |Blocks(c)|
    decreases c, 0
  {
    hide StructOk, Held, HeadSet, Tear, TearFirst, AllBlocks, AnyTorn, DataWalk, SizeWalk;
    var f, at := S[t][i], DataWalk(S[t], i);
    match slot
    case One(_, v) =>
      if !f.atype.Pointer? {
        HeadTorn(S, f.ptr.id, v.slots, c.parts, room - at);
      }
    case Many(items) =>
      if !f.atype.Pointer? {
        assert InlineOk(S, f, c.parts[0]) && HeldItem(S, f, items[0], c.parts[0]);
        HeadTorn(S, f.ptr.id, items[0].slots, c.parts[0].parts, room - at);
        FirstTorn(S, f, c.parts, room - at);
      }
  }

  /** What is torn in the first element shows in the array. */
  lemma FirstTorn(S: Schema, f: Field, parts: seq<Cell>, room: nat)
    requires parts != [] && parts[0].Inline? && f.ptr.Table? && f.ptr.id < |S|
    requires Damaged(Tear(S, f.ptr.id, parts[0].parts, room), parts[0].parts)
    ensures ShowsTorn(TearFirst(S, f, parts, room)[0])
    ensures |AllBlocks(TearFirst(S, f, parts, room))| < |AllBlocks(parts)|
  {
    hide Tear, AnyTorn;
  }

  /** What initialisation overwrites is lost: fewer blocks are owned afterwards. */
  lemma {:induction false} DropsBlocks(S: Schema, t: nat, m: Slots, fs: seq<Cell>)
    requires t < |S| && StructOk(S, t, fs) && Held(S, t, m, fs) && Drops(S, t, m)
    ensures |AllBlocks(Reset(S, t, fs))| < |AllBlocks(fs)|
    decreases fs, 1
  {
    hide CellOk, HeldSlot, DropsSlot, ResetCell, AllBlocks, Blocks;
    var i :| 0 <= i < |m| && DropsSlot(S, S[t][i], m[i]);
    DropsCell(S, S[t][i], m[i], fs[i]);
    var r := Reset(S, t, fs);
    forall k | 0 <= k < |fs|
      ensures Blocks(r[k]) <= Blocks(fs[k])
    {
      ResetCellKeeps(S, S[t][k], fs[k]);
    }
    StrictlyFewer(r, fs, i);
  }

  lemma {:induction false} DropsCell(S: Schema, f: Field, slot: Slot, c: Cell)
    requires CellOk(S, f, c) && HeldSlot(S, f, slot, c) && DropsSlot(S, f, slot)
    ensures |Blocks(ResetCell(S, f, c))| < |Blocks(c)|
    decreases c, 0
  {
    hide StructOk, Held, Drops, Reset, TearFirst, AllBlocks;
    NoBlocks();
    match slot
    case One(_, v) =>
      if !f.atype.Pointer? {
        DropsBlocks(S, f.ptr.id, v.slots, c.parts);
      }
    case Many(items) =>
      if !f.atype.Pointer? {
        assert InlineOk(S, f, c.parts[0]) && HeldItem(S, f, items[0], c.parts[0]);
        HeadTorn(S, f.ptr.id, items[0].slots, c.parts[0].parts, COUNT_SIZE);
        FirstTorn(S, f, c.parts, COUNT_SIZE);
      }
  }

  /** Of a pointer in such a place initialisation overwrites a part. */
  lemma {:induction false} TearsShow(S: Schema, t: nat, m: Slots, fs: seq<Cell>)
    requires t < |S| && StructOk(S, t, fs) && Held(S, t, m, fs) && Tears(S, t, m)
    ensures AnyTorn(Reset(S, t, fs))
    decreases fs, 1
  {
    hide CellOk, HeldSlot, TearsSlot, ResetCell, ShowsTorn;
    var i :| 0 <= i < |m| && TearsSlot(S, S[t][i], m[i]);
    TearsCell(S, S[t][i], m[i], fs[i]);
    assert ShowsTorn(Reset(S, t, fs)[i]);
  }

  lemma {:induction false} TearsCell(S: Schema, f: Field, slot: Slot, c: Cell)
    requires CellOk(S, f, c) && HeldSlot(S, f, slot, c) && TearsSlot(S, f, slot)
    ensures ShowsTorn(ResetCell(S, f, c))
    decreases c, 0
  {
    hide StructOk, Held, Tears, Reset, TearFirst, AnyTorn;
    match slot
    case One(_, v) => TearsShow(S, f.ptr.id, v.slots, c.parts);
    case Many(items) =>
      assert InlineOk(S, f, c.parts[0]) && HeldItem(S, f, items[0], c.parts[0]);
      HeadTorn(S, f.ptr.id, items[0].slots, c.parts[0].parts, COUNT_SIZE);
      FirstTorn(S, f, c.parts, COUNT_SIZE);
  }

  // ---- older values ----

  /** Element k has no value yet. */
  predicate Waiting(items: seq<Value>, k: nat) {
    k < |items| ==> !items[k].Sub?
  }

  ghost predicate PastSlot(S: Schema, f: Field, past: Slot, slot: Slot, c: Cell)
    decreases c, 0
  {
    f.atype.Static? && f.ltype.Submessage? ==>
      match past
      case Many(pasts) =>
        slot.Many? && c.Items? ==>
          forall k: nat :: k < |pasts| && k < |c.parts| && Waiting(slot.items, k) ==> HeldItem(S, f, pasts[k], c.parts[k])
      case One(_, v) =>
        v.Sub? && slot.One? && slot.v.Sub? && c.Inline? && f.ptr.Table? && f.ptr.id < |S| ==>
          PastHeld(S, f.ptr.id, v.slots, slot.v.slots, c.parts)
  }

  /** The array elements that have no value yet in m are still those of the older value. */
  ghost predicate PastHeld(S: Schema, t: nat, past: Slots, m: Slots, fs: seq<Cell>)
    requires t < |S|
    decreases fs, 1
  {
    forall i :: 0 <= i < |fs| && i < |past| && i < |m| && i < |S[t]| ==> PastSlot(S, S[t][i], past[i], m[i], fs[i])
  }

  /** When initialisation tears no pointer, it leaves the elements of arrays as they are. */
  lemma {:induction false} ResetPast(S: Schema, t: nat, past: Slots, m: Slots, fs: seq<Cell>)
    requires t < |S| && StructOk(S, t, fs) && Held(S, t, past, fs) && !Tears(S, t, past)
    ensures PastHeld(S, t, past, m, Reset(S, t, fs))
    decreases fs, 1
  {
    hide CellOk, HeldSlot, TearsSlot, ResetCell, PastSlot;
    forall i | 0 <= i < |fs| && i < |m|
      ensures PastSlot(S, S[t][i], past[i], m[i], ResetCell(S, S[t][i], fs[i]))
    {
      ResetPastSlot(S, S[t][i], past[i], m[i], fs[i]);
    }
  }

  lemma {:induction false} ResetPastSlot(S: Schema, f: Field, past: Slot, slot: Slot, c: Cell)
    requires CellOk(S, f, c) && HeldSlot(S, f, past, c) && !TearsSlot(S, f, past)
    ensures PastSlot(S, f, past, slot, ResetCell(S, f, c))
    decreases c, 0
  {
    hide StructOk, Held, Tears, Reset, TearFirst, HeadItem, PastHeld;
    if f.atype.Static? && f.ltype.Submessage? {
      match past
      case One(_, v) =>
        if v.Sub? && slot.One? && slot.v.Sub? && c.Inline? {
          ResetPast(S, f.ptr.id, v.slots, slot.v.slots, c.parts);
        }
      case Many(pasts) =>
        if FixedCount(f) && c.Items? {
          FirstHeld(S, f, pasts, c.parts, COUNT_SIZE);
        }
    }
  }

  lemma {:induction false} FirstHeld(S: Schema, f: Field, pasts: seq<Value>, parts: seq<Cell>, room: nat)
    requires forall k :: 0 <= k < |parts| ==> InlineOk(S, f, parts[k])
    requires forall k :: 0 <= k < |pasts| && k < |parts| ==> HeldItem(S, f, pasts[k], parts[k])
    requires pasts != [] && f.ltype.Submessage? ==> !HeadItem(S, f, pasts[0], room)
    requires f.ltype.Submessage?
    ensures forall k :: 0 <= k < |pasts| && k < |parts| ==> HeldItem(S, f, pasts[k], TearFirst(S, f, parts, room)[k])
    decreases parts, 1
  {
    hide StructOk, Held, HeadSet, Tear;
    if parts != [] && pasts != [] && pasts[0].Sub? {
      assert InlineOk(S, f, parts[0]) && HeldItem(S, f, pasts[0], parts[0]);
      HeadHeld(S, f.ptr.id, pasts[0].slots, parts[0].parts, room);
    }
  }

  lemma {:induction false} HeadHeld(S: Schema, t: nat, m: Slots, fs: seq<Cell>, room: nat)
    requires t < |S| && StructOk(S, t, fs) && Held(S, t, m, fs) && !HeadSet(S, t, m, room)
    ensures Held(S, t, m, Tear(S, t, fs, room))
    decreases fs, 1
  {
    hide CellOk, HeldSlot, HeadSlot, TearCell, DataWalk;
    forall i | 0 <= i < |fs|
      ensures HeldSlot(S, S[t][i], m[i], TearCell(S, t, i, fs[i], room))
    {
      HeadSlotHeld(S, t, i, m[i], fs[i], room);
    }
  }

  lemma {:induction false} HeadSlotHeld(S: Schema, t: nat, i: nat, slot: Slot, c: Cell, room: nat)
    requires t < |S| && i < |S[t]| && CellOk(S, S[t][i], c) && HeldSlot(S, S[t][i], slot, c)
    requires DataWalk(S[t], i) < room ==> !HeadSlot(S, S[t][i], slot, room - DataWalk(S[t], i))
    ensures HeldSlot(S, S[t][i], slot, TearCell(S, t, i, c, room))
    decreases c, 0
  {
    hide StructOk, Held, HeadSet, Tear, TearFirst, DataWalk, SizeWalk;
    var f, at := S[t][i], DataWalk(S[t], i);
    if f.atype.Static? && f.ltype.Submessage? && at < room {
      match slot
      case One(_, v) =>
        if v.Sub? && c.Inline? {
          HeadHeld(S, f.ptr.id, v.slots, c.parts, room - at);
        }
      case Many(items) =>
        if FixedCount(f) && c.Items? {
          FirstHeld(S, f, items, c.parts, room - at);
        }
    }
  }
}
