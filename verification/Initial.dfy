/** What initialising a struct does to the pointers in its memory: cleared memory, memory in use, counts that become zero,
    and the four bytes that are cleared at the start of an array without count. */
module Initial {
  import opened Bits
  import opened Varint
  import opened Descriptor
  import opened Message
  import opened Stale
  import opened FieldIterator
  import opened Reuse
  import opened Ownership
  import opened Release

  // ---- cleared structs ----

  /** A struct whose memory is zero. */
  function NullStruct(S: Schema, t: nat): (fs: seq<Cell>)
    requires t < |S|
    ensures |fs| == |S[t]|
    decreases t, 2
  {
    seq(|S[t]|, i requires 0 <= i < |S[t]| => ZeroCell(S, t, S[t][i]))
  }

  function ZeroCell(S: Schema, t: nat, f: Field): Cell
    requires t < |S|
    decreases t, 1
  {
    if f.atype.Pointer? then Cell.Pointer(0, [])
    else if !f.ltype.Submessage? then Plain
    else if !f.htype.Repeated? then ZeroInline(S, t, f)
    else Items(seq(f.arraySize, _ => ZeroInline(S, t, f)), if FixedCount(f) then f.arraySize else 0)
  }

  function ZeroInline(S: Schema, t: nat, f: Field): Cell
    requires t < |S|
    decreases t, 0
  {
    if f.ptr.Table? && f.ptr.id < t then Inline(NullStruct(S, f.ptr.id)) else Plain
  }

  /** No pointer is set, at any place. */
  predicate Cleared(c: Cell) {
    match c
    case Plain => true
    case Inline(parts) => AllCleared(parts)
    case Items(parts, _) => AllCleared(parts)
    case Pointer(block, parts) => block == 0 && parts == []
    case Torn => false
  }

  predicate AllCleared(cs: seq<Cell>) {
    forall i :: 0 <= i < |cs| ==> Cleared(cs[i])
  }

  lemma {:induction false} NullStructOk(S: Schema, t: nat)
    requires Supported(S) && t < |S|
    ensures StructOk(S, t, NullStruct(S, t)) && AllCleared(NullStruct(S, t))
    decreases t, 1
  {
    hide Supported, CellOk, Cleared, ZeroCell;
    forall i | 0 <= i < |S[t]|
      ensures CellOk(S, S[t][i], NullStruct(S, t)[i]) && Cleared(NullStruct(S, t)[i])
    {
      ZeroCellOk(S, t, i);
      assert NullStruct(S, t)[i] == ZeroCell(S, t, S[t][i]);
    }
  }

  lemma {:induction false} ZeroCellOk(S: Schema, t: nat, i: nat)
    requires Supported(S) && t < |S| && i < |S[t]|
    ensures CellOk(S, S[t][i], ZeroCell(S, t, S[t][i])) && Cleared(ZeroCell(S, t, S[t][i]))
    decreases t, 0
  {
    var f := S[t][i];
    assert FieldOk(S, t, f) by { FieldFacts(S, t, i); }
    hide Supported, StructOk, NullStruct;
    if f.ltype.Submessage? && f.atype.Static? {
      NullStructOk(S, f.ptr.id);
      assert InlineOk(S, f, ZeroInline(S, t, f)) && Cleared(ZeroInline(S, t, f));
      if f.htype.Repeated? {
        assert AllCleared(ZeroCell(S, t, f).parts);
      }
    }
  }

  lemma {:induction false} ClearedOwnsNothing(cs: seq<Cell>)
    requires AllCleared(cs)
    ensures AllBlocks(cs) == multiset{} && AllSane(cs) && AllNull(cs)
    decreases cs
  {
    hide Blocks, Cleared, Sane, Release.Null;
    forall k | 0 <= k < |cs|
      ensures Blocks(cs[k]) == multiset{} && Sane(cs[k]) && Release.Null(cs[k])
    {
      ClearedCell(cs[k]);
    }
    AllEmpty(cs);
  }

  lemma {:induction false} ClearedCell(c: Cell)
    requires Cleared(c)
    ensures Blocks(c) == multiset{} && Sane(c) && Release.Null(c)
    decreases c
  {
    if c.Inline? || c.Items? {
      ClearedOwnsNothing(c.parts);
      hide *;
      PartsOnly(c);
    } else {
      NoBlocks();
    }
  }

  lemma PartsOnly(c: Cell)
    requires c.Inline? || c.Items?
    ensures Blocks(c) == AllBlocks(c.parts) && Sane(c) == AllSane(c.parts) && (AllNull(c.parts) ==> Release.Null(c))
  {
  }

  lemma {:induction false} AllEmpty(cs: seq<Cell>)
    requires forall k :: 0 <= k < |cs| ==> Blocks(cs[k]) == multiset{}
    ensures AllBlocks(cs) == multiset{}
  {
    hide Blocks;
    if cs != [] {
      AllEmpty(cs[1..]);
    }
  }

  /** A part of a struct that owns nothing. */
  lemma PartOfNothing(cs: seq<Cell>, k: nat)
    requires k < |cs| && AllBlocks(cs) == multiset{}
    ensures Blocks(cs[k]) == multiset{}
  {
    hide AllBlocks, Blocks;
    BlocksAt(cs, k, cs[k]);
    assert Others(cs, k) + Blocks(cs[k]) == multiset{};
    assert |Others(cs, k) + Blocks(cs[k])| == |Others(cs, k)| + |Blocks(cs[k])|;
  }

  lemma PartsOwnNothing(c: Cell)
    requires Blocks(c) == multiset{}
    ensures c.Inline? || c.Items? || c.Pointer? ==> AllBlocks(c.parts) == multiset{}
    ensures c.Pointer? ==> c.block == 0
  {
    hide AllBlocks;
    if c.Pointer? {
      assert |Own(c.block) + AllBlocks(c.parts)| == |Own(c.block)| + |AllBlocks(c.parts)|;
    }
  }

  // ---- initialisation ----

  /** Initialisation of a struct that may have been in use: pointers become NULL and counts zero. Arrays without count are
      left alone, but for the first four bytes, which are cleared like a count. */
  function Reset(S: Schema, t: nat, fs: seq<Cell>): (r: seq<Cell>)
    requires t < |S|
    ensures |r| == |fs|
    decreases fs, 1
  {
    seq(|fs|, i requires 0 <= i < |fs| => if i < |S[t]| then ResetCell(S, S[t][i], fs[i]) else fs[i])
  }

  function ResetCell(S: Schema, f: Field, c: Cell): Cell
    decreases c, 0
  {
    match c
    case Plain => Plain
    case Inline(parts) => if f.ptr.Table? && f.ptr.id < |S| then Inline(Reset(S, f.ptr.id, parts)) else c
    case Items(parts, count) => if FixedCount(f) then Items(TearFirst(S, f, parts, COUNT_SIZE), count) else Items(parts, 0)
    case Pointer(_, _) => Cell.Pointer(0, [])
    case Torn => Cell.Pointer(0, [])
  }

  /** The first `room` bytes of an array are cleared. */
  function TearFirst(S: Schema, f: Field, parts: seq<Cell>, room: nat): (r: seq<Cell>)
    ensures |r| == |parts|
    decreases parts, 1
  {
    if parts != [] && parts[0].Inline? && f.ptr.Table? && f.ptr.id < |S| then
      parts[0 := Inline(Tear(S, f.ptr.id, parts[0].parts, room))]
    else parts
  }

  /** The first `room` bytes of a struct are cleared. A pointer of which they hold a part is then no address any more, and
      a count among them is zero. */
  function Tear(S: Schema, t: nat, fs: seq<Cell>, room: nat): (r: seq<Cell>)
    requires t < |S|
    ensures |r| == |fs|
    decreases fs, 1
  {
    seq(|fs|, i requires 0 <= i < |fs| => if i < |S[t]| then TearCell(S, t, i, fs[i], room) else fs[i])
  }

  function TearCell(S: Schema, t: nat, i: nat, c: Cell, room: nat): Cell
    requires t < |S| && i < |S[t]|
    decreases c, 0
  {
    var f, at := S[t][i], DataWalk(S[t], i);
    match c
    case Plain => Plain
    case Inline(parts) =>
      if at < room && f.ptr.Table? && f.ptr.id < |S| then Inline(Tear(S, f.ptr.id, parts, room - at)) else c
    case Items(parts, count) =>
      if FixedCount(f) then if at < room then Items(TearFirst(S, f, parts, room - at), count) else c
      else if 0 <= SizeWalk(S[t], i) < room then Items(parts, 0) else c
    case Pointer(block, parts) =>
      if at < room && block != 0 then Torn
      else if f.htype.Repeated? && 0 <= SizeWalk(S[t], i) < room then Cell.Pointer(block, [])
      else c
    case Torn => Torn
  }

  /** When the count of an array is among the bytes cleared, all of its elements go out of sight, with what they own. */
  lemma {:induction false} TearHides(S: Schema, t: nat, i: nat, c: Cell, room: nat)
    requires t < |S| && i < |S[t]| && S[t][i].htype.Repeated? && !FixedCount(S[t][i]) && 0 <= SizeWalk(S[t], i) < room
    ensures c.Items? ==> Hidden(TearCell(S, t, i, c, room)) == Blocks(TearCell(S, t, i, c, room)) == Blocks(c)
    ensures c.Pointer? && DataWalk(S[t], i) >= room ==> Blocks(TearCell(S, t, i, c, room)) == Own(c.block)
  {
    hide DataWalk, SizeWalk;
    if c.Items? && c.parts == [] {
      assert ItemsHidden(c.parts, 0) == AllBlocks(c.parts);
    }
  }

  // ---- the form stays ----

  lemma {:induction false} ResetOk(S: Schema, t: nat, fs: seq<Cell>)
    requires t < |S| && StructOk(S, t, fs)
    ensures StructOk(S, t, Reset(S, t, fs))
    decreases fs, 1
  {
    hide CellOk, ResetCell;
    forall i | 0 <= i < |fs|
      ensures CellOk(S, S[t][i], ResetCell(S, S[t][i], fs[i]))
    {
      ResetCellOk(S, S[t][i], fs[i]);
    }
  }

  lemma {:induction false} ResetCellOk(S: Schema, f: Field, c: Cell)
    requires CellOk(S, f, c)
    ensures CellOk(S, f, ResetCell(S, f, c))
    decreases c, 0
  {
    hide StructOk, Tear, TearFirst, Reset;
    if c.Inline? {
      ResetOk(S, f.ptr.id, c.parts);
    } else if c.Items? && FixedCount(f) {
      TearFirstOk(S, f, c.parts, COUNT_SIZE);
    }
  }

  lemma {:induction false} TearFirstOk(S: Schema, f: Field, parts: seq<Cell>, room: nat)
    requires forall k :: 0 <= k < |parts| ==> InlineOk(S, f, parts[k])
    ensures forall k :: 0 <= k < |parts| ==> InlineOk(S, f, TearFirst(S, f, parts, room)[k])
    decreases parts, 1
  {
    hide StructOk, Tear;
    if parts != [] {
      assert InlineOk(S, f, parts[0]);
      TearOk(S, f.ptr.id, parts[0].parts, room);
    }
  }

  lemma {:induction false} TearOk(S: Schema, t: nat, fs: seq<Cell>, room: nat)
    requires t < |S| && StructOk(S, t, fs)
    ensures StructOk(S, t, Tear(S, t, fs, room))
    decreases fs, 1
  {
    hide CellOk, TearCell;
    forall i | 0 <= i < |fs|
      ensures CellOk(S, S[t][i], TearCell(S, t, i, fs[i], room))
    {
      TearCellOk(S, t, i, fs[i], room);
    }
  }

  lemma {:induction false} TearCellOk(S: Schema, t: nat, i: nat, c: Cell, room: nat)
    requires t < |S| && i < |S[t]| && CellOk(S, S[t][i], c)
    ensures CellOk(S, S[t][i], TearCell(S, t, i, c, room))
    decreases c, 0
  {
    hide StructOk, Tear, TearFirst, DataWalk, SizeWalk;
    var f, at := S[t][i], DataWalk(S[t], i);
    if c.Inline? && at < room {
      TearOk(S, f.ptr.id, c.parts, room - at);
    } else if c.Items? && FixedCount(f) && at < room {
      TearFirstOk(S, f, c.parts, room - at);
    }
  }

  // ---- no block comes to be owned ----

  lemma {:induction false} Fewer(cs: seq<Cell>, ds: seq<Cell>)
    requires |cs| == |ds| && forall k :: 0 <= k < |cs| ==> Blocks(cs[k]) <= Blocks(ds[k])
    ensures AllBlocks(cs) <= AllBlocks(ds)
  {
    hide Blocks;
    if cs != [] {
      assert Blocks(cs[0]) <= Blocks(ds[0]);
      Fewer(cs[1..], ds[1..]);
    }
  }

  lemma SmallerPart(a: multiset<nat>, b: multiset<nat>)
    requires a <= b
    ensures |a| <= |b|
  {
    assert b == a + (b - a);
  }

  /** One cell owns fewer blocks than before, and no other one owns more. */
  lemma {:induction false} StrictlyFewer(cs: seq<Cell>, ds: seq<Cell>, i: nat)
    requires i < |cs| == |ds| && forall k :: 0 <= k < |cs| ==> Blocks(cs[k]) <= Blocks(ds[k])
    requires |Blocks(cs[i])| < |Blocks(ds[i])|
    ensures |AllBlocks(cs)| < |AllBlocks(ds)|
  {
    hide Blocks;
    if i == 0 {
      Fewer(cs[1..], ds[1..]);
      SmallerPart(AllBlocks(cs[1..]), AllBlocks(ds[1..]));
    } else {
      SmallerPart(Blocks(cs[0]), Blocks(ds[0]));
      assert cs[1..][i - 1] == cs[i] && ds[1..][i - 1] == ds[i];
      StrictlyFewer(cs[1..], ds[1..], i - 1);
    }
  }

  /** Initialisation makes no block owned that was not owned before. */
  lemma {:induction false} ResetKeeps(S: Schema, t: nat, fs: seq<Cell>)
    requires t < |S|
    ensures AllBlocks(Reset(S, t, fs)) <= AllBlocks(fs)
    decreases fs, 1
  {
    hide Blocks, AllBlocks, ResetCell;
    forall i | 0 <= i < |fs|
      ensures Blocks(Reset(S, t, fs)[i]) <= Blocks(fs[i])
    {
      if i < |S[t]| {
        ResetCellKeeps(S, S[t][i], fs[i]);
      }
    }
    Fewer(Reset(S, t, fs), fs);
  }

  lemma {:induction false} ResetCellKeeps(S: Schema, f: Field, c: Cell)
    ensures Blocks(ResetCell(S, f, c)) <= Blocks(c)
    decreases c, 0
  {
    hide AllBlocks, Reset, TearFirst;
    NoBlocks();
    if c.Inline? && f.ptr.Table? && f.ptr.id < |S| {
      ResetKeeps(S, f.ptr.id, c.parts);
    } else if c.Items? && FixedCount(f) {
      TearFirstKeeps(S, f, c.parts, COUNT_SIZE);
    }
  }

  lemma {:induction false} TearFirstKeeps(S: Schema, f: Field, parts: seq<Cell>, room: nat)
    ensures AllBlocks(TearFirst(S, f, parts, room)) <= AllBlocks(parts)
    decreases parts, 1
  {
    hide Tear;
    if parts != [] && parts[0].Inline? && f.ptr.Table? && f.ptr.id < |S| {
      TearKeeps(S, f.ptr.id, parts[0].parts, room);
    }
  }

  lemma {:induction false} TearKeeps(S: Schema, t: nat, fs: seq<Cell>, room: nat)
    requires t < |S|
    ensures AllBlocks(Tear(S, t, fs, room)) <= AllBlocks(fs)
    decreases fs, 1
  {
    hide Blocks, AllBlocks, TearCell;
    forall i | 0 <= i < |fs|
      ensures Blocks(Tear(S, t, fs, room)[i]) <= Blocks(fs[i])
    {
      if i < |S[t]| {
        TearCellKeeps(S, t, i, fs[i], room);
      }
    }
    Fewer(Tear(S, t, fs, room), fs);
  }

  lemma {:induction false} TearCellKeeps(S: Schema, t: nat, i: nat, c: Cell, room: nat)
    requires t < |S| && i < |S[t]|
    ensures Blocks(TearCell(S, t, i, c, room)) <= Blocks(c)
    decreases c, 0
  {
    hide AllBlocks, Tear, TearFirst, DataWalk, SizeWalk;
    NoBlocks();
    var f, at := S[t][i], DataWalk(S[t], i);
    if c.Inline? && at < room && f.ptr.Table? && f.ptr.id < |S| {
      TearKeeps(S, f.ptr.id, c.parts, room - at);
    } else if c.Items? && FixedCount(f) && at < room {
      TearFirstKeeps(S, f, c.parts, room - at);
    }
  }

  // ---- structs without pointers ----

  lemma {:induction false} PointerFreeOwnsNothing(S: Schema, t: nat, fs: seq<Cell>)
    requires t < |S| && StructOk(S, t, fs) && PointerFree(S, t)
    ensures AllBlocks(fs) == multiset{}
    decreases fs, 1
  {
    hide Blocks, CellOk;
    forall k | 0 <= k < |fs|
      ensures Blocks(fs[k]) == multiset{}
    {
      PointerFreeCell(S, t, S[t][k], fs[k]);
    }
    AllEmpty(fs);
  }

  lemma {:induction false} PointerFreeCell(S: Schema, t: nat, f: Field, c: Cell)
    requires t < |S| && f in S[t] && CellOk(S, f, c) && PointerFree(S, t)
    ensures Blocks(c) == multiset{}
    decreases c, 0
  {
    hide AllBlocks, StructOk;
    if c.Inline? {
      PointerFreeOwnsNothing(S, f.ptr.id, c.parts);
    } else if c.Items? {
      forall k | 0 <= k < |c.parts|
        ensures Blocks(c.parts[k]) == multiset{}
      {
        assert InlineOk(S, f, c.parts[k]);
        PointerFreeOwnsNothing(S, f.ptr.id, c.parts[k].parts);
      }
      AllEmpty(c.parts);
    }
  }

  // ---- elements behind counts ----

  lemma {:induction false} BlocklessTidy(S: Schema, t: nat, fs: seq<Cell>)
    requires t < |S| && StructOk(S, t, fs) && AllBlocks(fs) == multiset{}
    ensures Tidy(S, t, fs)
    decreases fs, 1
  {
    hide AllBlocks, CellOk, TidyCell;
    forall i | 0 <= i < |fs|
      ensures TidyCell(S, t, S[t][i], fs[i])
    {
      PartOfNothing(fs, i);
      BlocklessTidyCell(S, t, S[t][i], fs[i]);
    }
  }

  lemma {:induction false} BlocklessTidyCell(S: Schema, t: nat, f: Field, c: Cell)
    requires t < |S| && CellOk(S, f, c) && Blocks(c) == multiset{}
    ensures TidyCell(S, t, f, c)
    decreases c, 0
  {
    hide AllBlocks, StructOk, Tidy, Used;
    PartsOwnNothing(c);
    if c.Inline? {
      BlocklessTidy(S, f.ptr.id, c.parts);
    } else if c.Items? {
      forall k | 0 <= k < |c.parts|
        ensures TidyItem(S, t, f, c.parts[k]) && Blocks(c.parts[k]) == multiset{}
      {
        PartOfNothing(c.parts, k);
        assert InlineOk(S, f, c.parts[k]);
        BlocklessTidy(S, f.ptr.id, c.parts[k].parts);
      }
    }
  }

  /** What a struct that is initialised while in use contains is initialised with it, or filled again. */
  lemma UsedPart(S: Schema, t: nat, i: nat)
    requires SchemaOk(S) && t < |S| && Used(S, t) && i < |S[t]| && S[t][i].ltype.Submessage? && S[t][i].atype.Static?
    ensures S[t][i].ptr.Table? && S[t][i].ptr.id < t && Used(S, S[t][i].ptr.id)
  {
    FieldFacts(S, t, i);
    assert FilledAgain(S, t, i);
    assert UsedBy(S, t, i, S[t][i].ptr.id);
  }

  lemma {:induction false} ResetTidy(S: Schema, t: nat, fs: seq<Cell>)
    requires SchemaOk(S) && t < |S| && StructOk(S, t, fs) && Tidy(S, t, fs) && Used(S, t)
    ensures Tidy(S, t, Reset(S, t, fs))
    decreases fs, 1
  {
    hide SchemaOk, CellOk, TidyCell, ResetCell, Used;
    forall i | 0 <= i < |fs|
      ensures TidyCell(S, t, S[t][i], ResetCell(S, S[t][i], fs[i]))
    {
      ResetCellTidy(S, t, i, fs[i]);
    }
  }

  lemma {:induction false} ResetCellTidy(S: Schema, t: nat, i: nat, c: Cell)
    requires SchemaOk(S) && t < |S| && i < |S[t]| && CellOk(S, S[t][i], c) && TidyCell(S, t, S[t][i], c) && Used(S, t)
    ensures TidyCell(S, t, S[t][i], ResetCell(S, S[t][i], c))
    decreases c, 0
  {
    hide SchemaOk, StructOk, Tidy, Used, Reset, TearFirst;
    var f := S[t][i];
    if c.Inline? {
      UsedPart(S, t, i);
      ResetTidy(S, f.ptr.id, c.parts);
    } else if c.Items? && FixedCount(f) {
      UsedPart(S, t, i);
      TearFirstTidy(S, t, f, c.parts, COUNT_SIZE);
    }
  }

  lemma {:induction false} TearFirstTidy(S: Schema, t: nat, f: Field, parts: seq<Cell>, room: nat)
    requires SchemaOk(S) && f.ptr.Table? && f.ptr.id < |S| && Used(S, f.ptr.id)
    requires forall k :: 0 <= k < |parts| ==> InlineOk(S, f, parts[k]) && TidyItem(S, t, f, parts[k])
    ensures forall k :: 0 <= k < |parts| ==> TidyItem(S, t, f, TearFirst(S, f, parts, room)[k])
    decreases parts, 1
  {
    hide SchemaOk, StructOk, Tidy, Used, Tear;
    if parts != [] {
      assert InlineOk(S, f, parts[0]) && TidyItem(S, t, f, parts[0]);
      TearTidy(S, f.ptr.id, parts[0].parts, room);
    }
  }

  lemma {:induction false} TearTidy(S: Schema, t: nat, fs: seq<Cell>, room: nat)
    requires SchemaOk(S) && t < |S| && StructOk(S, t, fs) && Tidy(S, t, fs) && Used(S, t)
    ensures Tidy(S, t, Tear(S, t, fs, room))
    decreases fs, 1
  {
    hide SchemaOk, CellOk, TidyCell, TearCell, Used;
    forall i | 0 <= i < |fs|
      ensures TidyCell(S, t, S[t][i], TearCell(S, t, i, fs[i], room))
    {
      TearCellTidy(S, t, i, fs[i], room);
    }
  }

  lemma {:induction false} TearCellTidy(S: Schema, t: nat, i: nat, c: Cell, room: nat)
    requires SchemaOk(S) && t < |S| && i < |S[t]| && CellOk(S, S[t][i], c) && TidyCell(S, t, S[t][i], c) && Used(S, t)
    ensures TidyCell(S, t, S[t][i], TearCell(S, t, i, c, room))
    decreases c, 0
  {
    hide SchemaOk, StructOk, Tidy, Used, Tear, TearFirst, DataWalk, SizeWalk;
    var f, at := S[t][i], DataWalk(S[t], i);
    if c.Inline? && at < room {
      UsedPart(S, t, i);
      TearTidy(S, f.ptr.id, c.parts, room - at);
    } else if c.Items? && FixedCount(f) && at < room {
      UsedPart(S, t, i);
      TearFirstTidy(S, t, f, c.parts, room - at);
    }
  }

  // ---- pointers that stay whole ----

  lemma {:induction false} ResetSane(S: Schema, t: nat, fs: seq<Cell>)
    requires SchemaOk(S) && t < |S| && StructOk(S, t, fs) && AllSane(fs)
    requires AllBlocks(fs) == multiset{} || (Used(S, t) && Clean(S))
    ensures AllSane(Reset(S, t, fs))
    decreases fs, 1
  {
    hide SchemaOk, CellOk, ResetCell, Sane, Used, Clean, AllBlocks;
    forall i | 0 <= i < |fs|
      ensures Sane(ResetCell(S, S[t][i], fs[i]))
    {
      if AllBlocks(fs) == multiset{} {
        PartOfNothing(fs, i);
      }
      ResetCellSane(S, t, i, fs[i]);
    }
  }

  lemma {:induction false} ResetCellSane(S: Schema, t: nat, i: nat, c: Cell)
    requires SchemaOk(S) && t < |S| && i < |S[t]| && CellOk(S, S[t][i], c) && Sane(c)
    requires Blocks(c) == multiset{} || (Used(S, t) && Clean(S))
    ensures Sane(ResetCell(S, S[t][i], c))
    decreases c, 0
  {
    hide SchemaOk, StructOk, AllSane, Used, Clean, Reset, TearFirst, AllBlocks, HeadPointer;
    var f := S[t][i];
    FieldFacts(S, t, i);
    if Blocks(c) == multiset{} {
      PartsOwnNothing(c);
    }
    if c.Inline? {
      if Used(S, t) {
        UsedPart(S, t, i);
      }
      ResetSane(S, f.ptr.id, c.parts);
    } else if c.Items? && FixedCount(f) {
      if Used(S, t) && Clean(S) {
        CleanField(S, t, i);
      }
      TearFirstSane(S, f, c.parts, COUNT_SIZE);
    } else {
      assert AllSane([]) by { ClearedOwnsNothing([]); }
    }
  }

  lemma CleanField(S: Schema, t: nat, i: nat)
    requires t < |S| && i < |S[t]| && Used(S, t) && Clean(S) && FixedSubs(S[t][i])
    ensures S[t][i].ptr.Table? && S[t][i].ptr.id < |S| ==> !HeadPointer(S, S[t][i].ptr.id, COUNT_SIZE)
  {
    hide HeadPointer;
    assert !Fragile(S, t);
  }

  lemma {:induction false} TearFirstSane(S: Schema, f: Field, parts: seq<Cell>, room: nat)
    requires SchemaOk(S) && f.ptr.Table? && f.ptr.id < |S| && AllSane(parts)
    requires forall k :: 0 <= k < |parts| ==> InlineOk(S, f, parts[k])
    requires AllBlocks(parts) == multiset{} || !HeadPointer(S, f.ptr.id, room)
    ensures AllSane(TearFirst(S, f, parts, room))
    decreases parts, 1
  {
    hide SchemaOk, StructOk, Tear, AllBlocks, HeadPointer;
    if parts != [] {
      assert InlineOk(S, f, parts[0]) && Sane(parts[0]);
      if AllBlocks(parts) == multiset{} {
        PartOfNothing(parts, 0);
      }
      TearSane(S, f.ptr.id, parts[0].parts, room);
    }
  }

  lemma {:induction false} TearSane(S: Schema, t: nat, fs: seq<Cell>, room: nat)
    requires SchemaOk(S) && t < |S| && StructOk(S, t, fs) && AllSane(fs)
    requires AllBlocks(fs) == multiset{} || !HeadPointer(S, t, room)
    ensures AllSane(Tear(S, t, fs, room))
    decreases fs, 1
  {
    hide SchemaOk, CellOk, TearCell, Sane, AllBlocks, DataWalk;
    forall i | 0 <= i < |fs|
      ensures Sane(TearCell(S, t, i, fs[i], room))
    {
      if AllBlocks(fs) == multiset{} {
        PartOfNothing(fs, i);
      }
      TearCellSane(S, t, i, fs[i], room);
    }
  }

  lemma {:induction false} TearCellSane(S: Schema, t: nat, i: nat, c: Cell, room: nat)
    requires SchemaOk(S) && t < |S| && i < |S[t]| && CellOk(S, S[t][i], c) && Sane(c)
    requires Blocks(c) == multiset{} || !HeadPointer(S, t, room)
    ensures Sane(TearCell(S, t, i, c, room))
    decreases c, 0
  {
    hide SchemaOk, StructOk, AllSane, Tear, TearFirst, AllBlocks, DataWalk, SizeWalk, HeadPointer;
    FieldFacts(S, t, i);
    var f, at := S[t][i], DataWalk(S[t], i);
    if Blocks(c) == multiset{} {
      PartsOwnNothing(c);
    } else if at < room {
      NoHead(S, t, i, room);
    }
    if c.Inline? && at < room {
      TearSane(S, f.ptr.id, c.parts, room - at);
    } else if c.Items? && FixedCount(f) && at < room {
      TearFirstSane(S, f, c.parts, room - at);
    } else if c.Pointer? {
      assert AllSane([]) by { ClearedOwnsNothing([]); }
    }
  }

  lemma NoHead(S: Schema, t: nat, i: nat, room: nat)
    requires t < |S| && !HeadPointer(S, t, room) && i < |S[t]| && DataWalk(S[t], i) < room
    ensures S[t][i].atype.Static?
    ensures S[t][i].ltype.Submessage? && S[t][i].ptr.Table? && S[t][i].ptr.id < t ==>
              !HeadPointer(S, S[t][i].ptr.id, room - DataWalk(S[t], i))
  {
    hide DataWalk;
  }

  // ---- nothing hides behind counts ----

  lemma {:induction false} HiddenNothing(cs: seq<Cell>, count: nat)
    requires forall k :: 0 <= k < |cs| && k < count ==> Hidden(cs[k]) == multiset{}
    requires forall k :: count <= k < |cs| ==> Blocks(cs[k]) == multiset{}
    ensures ItemsHidden(cs, count) == multiset{}
  {
    hide Hidden, Blocks;
    if cs != [] {
      if count == 0 {
        AllEmpty(cs);
      } else {
        forall k | 0 <= k < |cs[1..]| && k < count - 1
          ensures Hidden(cs[1..][k]) == multiset{}
        {
          assert cs[1..][k] == cs[k + 1];
        }
        HiddenNothing(cs[1..], count - 1);
      }
    }
  }

  /** On a tight schema nothing hides behind counts. */
  lemma {:induction false} TightHidden(S: Schema, t: nat, fs: seq<Cell>)
    requires SchemaOk(S) && Tight(S) && t < |S| && StructOk(S, t, fs) && Tidy(S, t, fs)
    ensures AllHidden(fs) == multiset{}
    decreases fs, 1
  {
    hide SchemaOk, Tight, CellOk, TidyCell, Hidden;
    forall i | 0 <= i < |fs|
      ensures Hidden(fs[i]) == multiset{}
    {
      TightHiddenCell(S, t, i, fs[i]);
    }
    HiddenNothing(fs, |fs|);
    AllInUse(fs);
  }

  lemma {:induction false} TightHiddenCell(S: Schema, t: nat, i: nat, c: Cell)
    requires SchemaOk(S) && Tight(S) && t < |S| && i < |S[t]| && CellOk(S, S[t][i], c) && TidyCell(S, t, S[t][i], c)
    ensures Hidden(c) == multiset{}
    decreases c, 0
  {
    hide SchemaOk, Tight, StructOk, Tidy, Used, AllHidden, ItemsHidden, PointerFree;
    var f := S[t][i];
    if c.Inline? {
      TightHidden(S, f.ptr.id, c.parts);
    } else if c.Items? {
      forall k | 0 <= k < |c.parts|
        ensures Hidden(c.parts[k]) == multiset{} && (c.count <= k ==> Blocks(c.parts[k]) == multiset{})
      {
        TightHiddenItem(S, t, i, c, k);
      }
      HiddenNothing(c.parts, c.count);
    } else if c.Pointer? {
      forall k | 0 <= k < |c.parts|
        ensures Hidden(c.parts[k]) == multiset{}
      {
        TightHiddenPointee(S, t, i, c, k);
      }
      HiddenNothing(c.parts, |c.parts|);
      AllInUse(c.parts);
    }
  }

  lemma {:induction false} TightHiddenItem(S: Schema, t: nat, i: nat, c: Cell, k: nat)
    requires SchemaOk(S) && Tight(S) && t < |S| && i < |S[t]| && CellOk(S, S[t][i], c) && TidyCell(S, t, S[t][i], c)
    requires c.Items? && k < |c.parts|
    ensures Hidden(c.parts[k]) == multiset{} && (c.count <= k ==> Blocks(c.parts[k]) == multiset{})
    decreases c.parts[k], 2
  {
    hide SchemaOk, Tight, StructOk, Tidy, Used, AllHidden, ItemsHidden, PointerFree, AllBlocks;
    var f := S[t][i];
    assert InlineOk(S, f, c.parts[k]) && TidyItem(S, t, f, c.parts[k]);
    TightHidden(S, f.ptr.id, c.parts[k].parts);
    if c.count <= k && Used(S, t) {
      UsedPart(S, t, i);
      TightUsed(S, f.ptr.id);
      PointerFreeOwnsNothing(S, f.ptr.id, c.parts[k].parts);
    }
  }

  lemma {:induction false} TightHiddenPointee(S: Schema, t: nat, i: nat, c: Cell, k: nat)
    requires SchemaOk(S) && Tight(S) && t < |S| && i < |S[t]| && CellOk(S, S[t][i], c) && TidyCell(S, t, S[t][i], c)
    requires c.Pointer? && k < |c.parts|
    ensures Hidden(c.parts[k]) == multiset{}
    decreases c.parts[k], 2
  {
    hide SchemaOk, Tight, StructOk, Tidy, Used, PointerFree, AllBlocks;
    var f := S[t][i];
    assert TidyItem(S, t, f, c.parts[k]);
    assert f.htype.Repeated? ==> ItemOk(S, f, c.parts[k]);
    if f.ltype.Submessage? {
      assert InlineOk(S, f, c.parts[k]);
      TightHidden(S, f.ptr.id, c.parts[k].parts);
    } else {
      NoBlocks();
    }
  }
}
