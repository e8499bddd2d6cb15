/** Releasing the memory that a struct owns. A release comes by the elements in use only: what stands behind a count stays,
    and goes out of reach with the block it is in. A torn pointer that it comes by is given back as it is. The account of
    blocks is kept throughout. */
module Release {
  import opened Bits
  import opened Varint
  import opened Descriptor
  import opened Message
  import opened FieldIterator
  import opened Reuse
  import opened Ownership

  // ---- the layout of the pointers ----

  /** No field shares its memory with another one, and nothing is attached from outside. */
  predicate NoUnions(S: Schema) {
    forall t, i :: 0 <= t < |S| && 0 <= i < |S[t]| ==> !S[t][i].htype.Oneof? && !S[t][i].ltype.Extension?
  }

  predicate CountedArray(f: Field) {
    f.htype.Repeated? && f.atype.Static? && !FixedCount(f)
  }

  /** The count of a static array stands in the struct in front of the elements, so that these do not start the struct. */
  predicate CountsAhead(S: Schema) {
    forall t, i :: 0 <= t < |S| && 0 <= i < |S[t]| && CountedArray(S[t][i]) ==> DataWalk(S[t], i) >= COUNT_SIZE
  }

  predicate Supported(S: Schema) {
    SchemaOk(S) && NoUnions(S) && CountsAhead(S)
  }

  /** Strings and byte arrays behind a pointer field have a block of their own. */
  predicate TextType(l: LType) {
    l.String? || l.Bytes?
  }

  ghost predicate InlineOk(S: Schema, f: Field, c: Cell)
    decreases c, 0
  {
    c.Inline? && f.ptr.Table? && f.ptr.id < |S| && StructOk(S, f.ptr.id, c.parts)
  }

  ghost predicate ItemOk(S: Schema, f: Field, c: Cell)
    decreases c, 1
  {
    if f.ltype.Submessage? then InlineOk(S, f, c)
    else if TextType(f.ltype) then c.Pointer? && c.parts == []
    else c.Plain?
  }

  /** The cell has the form its descriptor asks for. */
  ghost predicate CellOk(S: Schema, f: Field, c: Cell)
    decreases c, 2
  {
    if f.atype.Static? then
      if !f.ltype.Submessage? then c.Plain?
      else if f.htype.Repeated? then
        c.Items? && |c.parts| == f.arraySize && c.count <= |c.parts| + 1 && (FixedCount(f) ==> c.count == |c.parts|) &&
        forall k :: 0 <= k < |c.parts| ==> InlineOk(S, f, c.parts[k])
      else InlineOk(S, f, c)
    else if c.Torn? then true
    else
      c.Pointer? && (c.block == 0 ==> c.parts == []) &&
      if f.htype.Repeated? then
        |c.parts| <= PB_SIZE_MAX && forall k :: 0 <= k < |c.parts| ==> ItemOk(S, f, c.parts[k])
      else if f.ltype.Submessage? then c.block != 0 ==> |c.parts| == 1 && InlineOk(S, f, c.parts[0])
      else c.parts == []
  }

  ghost predicate StructOk(S: Schema, t: nat, fs: seq<Cell>)
    requires t < |S|
    decreases fs, 0
  {
    |fs| == |S[t]| && forall i :: 0 <= i < |fs| ==> CellOk(S, S[t][i], fs[i])
  }

  // ---- released structs ----

  /** Every pointer slot in use is NULL. */
  predicate Null(c: Cell) {
    match c
    case Plain => true
    case Inline(parts) => AllNull(parts)
    case Items(parts, count) => forall k :: 0 <= k < |parts| && k < count ==> Null(parts[k])
    case Pointer(block, parts) => block == 0 && parts == []
    case Torn => false
  }

  predicate AllNull(cs: seq<Cell>) {
    forall i :: 0 <= i < |cs| ==> Null(cs[i])
  }

  lemma {:induction false} NullCell(c: Cell)
    requires Null(c)
    ensures Blocks(c) == Hidden(c)
    decreases c
  {
    if c.Inline? {
      NullOwnsHidden(c.parts);
    } else if c.Items? {
      NullItems(c.parts, c.count);
    }
  }

  /** A released struct owns only what is hidden behind counts. */
  lemma {:induction false} NullOwnsHidden(cs: seq<Cell>)
    requires AllNull(cs)
    ensures AllBlocks(cs) == AllHidden(cs)
    decreases cs
  {
    hide Blocks, Null, Hidden;
    if cs != [] {
      NullCell(cs[0]);
      NullOwnsHidden(cs[1..]);
    }
  }

  lemma {:induction false} NullItems(cs: seq<Cell>, count: nat)
    requires forall k :: 0 <= k < |cs| && k < count ==> Null(cs[k])
    ensures AllBlocks(cs) == ItemsHidden(cs, count)
    decreases cs
  {
    hide Blocks, Null, Hidden;
    if cs != [] && count > 0 {
      NullCell(cs[0]);
      NullItems(cs[1..], count - 1);
    }
  }

  // ---- release ----

  lemma SplitFirst(cs: seq<Cell>, k: nat)
    requires k < |cs|
    ensures AllBlocks(cs[k..]) == Blocks(cs[k]) + AllBlocks(cs[k + 1..])
    ensures AllHidden(cs[k..]) == Hidden(cs[k]) + AllHidden(cs[k + 1..])
  {
    assert cs[k..][1..] == cs[k + 1..];
  }

  lemma SplitItems(cs: seq<Cell>, k: nat, n: nat)
    requires k < |cs|
    ensures ItemsHidden(cs[k..], n + 1) == Hidden(cs[k]) + ItemsHidden(cs[k + 1..], n)
  {
    assert cs[k..][1..] == cs[k + 1..];
  }

  lemma LastBlocks(cs: seq<Cell>, c: Cell)
    ensures AllBlocks(cs + [c]) == AllBlocks(cs) + Blocks(c)
  {
    hide AllBlocks, Blocks;
    BlocksConcat(cs, [c]);
    BlocksSingle(c);
  }

  /** The part of a heap's account that a release settles: what is visible is freed, what is hidden stays. */
  ghost predicate Settled(lost: multiset<nat>, lost': multiset<nat>, hidden: multiset<nat>, left: multiset<nat>) {
    lost <= lost' && lost' + left == lost + hidden
  }

  /** What is lost, what is left of the parts that are done, and what hides in the others make up a fixed total. */
  ghost predicate Balance(lost0: multiset<nat>, lost: multiset<nat>, done: seq<Cell>, more: multiset<nat>,
                          hidden: multiset<nat>) {
    lost0 <= lost && lost + AllBlocks(done) + more == lost0 + hidden
  }

  /** One part more is settled. */
  lemma SettleStep(lost0: multiset<nat>, lost: multiset<nat>, lost': multiset<nat>, done: seq<Cell>, c: Cell,
                   hidden: multiset<nat>, more: multiset<nat>, more': multiset<nat>, total: multiset<nat>)
    requires Settled(lost, lost', hidden, Blocks(c)) && Balance(lost0, lost, done, more, total) && more == hidden + more'
    ensures Balance(lost0, lost', done + [c], more', total)
  {
    hide AllBlocks, Blocks;
    LastBlocks(done, c);
    assert lost' + (AllBlocks(done) + Blocks(c)) + more' == (lost' + Blocks(c)) + AllBlocks(done) + more';
  }

  lemma Balanced(lost: multiset<nat>, lost': multiset<nat>, cs: seq<Cell>, hidden: multiset<nat>)
    ensures Balance(lost, lost, [], hidden, hidden)
    ensures Balance(lost, lost', cs, multiset{}, hidden) ==> Settled(lost, lost', hidden, AllBlocks(cs))
  {
  }

  /** The submessages of an array that are in use. */
  method ReleaseItems(S: Schema, t: nat, f: Field, parts: seq<Cell>, count: nat, heap: Heap, ghost rest: multiset<nat>)
    returns (parts': seq<Cell>)
    requires Supported(S) && t < |S| && count <= |parts| && forall k :: 0 <= k < |parts| ==> InlineOk(S, f, parts[k])
    requires heap.Accounts(rest + AllBlocks(parts))
    modifies heap
    ensures heap.Accounts(rest + AllBlocks(parts'))
    ensures Settled(old(heap.lost), heap.lost, ItemsHidden(parts, count), AllBlocks(parts'))
    ensures |parts'| == |parts| && forall k :: 0 <= k < |parts'| ==> InlineOk(S, f, parts'[k])
    ensures (forall k :: 0 <= k < count ==> Null(parts'[k])) && forall k :: count <= k < |parts| ==> parts'[k] == parts[k]
    ensures forall k :: 0 <= k < |parts| && TidyItem(S, t, f, parts[k]) ==> TidyItem(S, t, f, parts'[k])
    ensures AllSane(parts) ==> AllSane(parts') && heap.wild == old(heap.wild)
    ensures (exists k :: 0 <= k < count && ShowsTorn(parts[k])) || old(heap.wild) ==> heap.wild
    decreases parts, 0
  {
    hide SchemaOk, NoUnions, CountsAhead, StructOk, AllBlocks, AllHidden, ItemsHidden, AnyTorn, AllSane, AllNull, Tidy;
    var done := [];
    var k := 0;
    assert parts[0..] == parts;
    ghost var lost0 := heap.lost;
    assert AllBlocks([]) == multiset{} by { NoBlocks(); }
    while k < count
      invariant 0 <= k <= count && |done| == k
      invariant forall j :: 0 <= j < k ==> InlineOk(S, f, done[j]) && Null(done[j])
      invariant forall j :: 0 <= j < k && TidyItem(S, t, f, parts[j]) ==> TidyItem(S, t, f, done[j])
      invariant forall j :: 0 <= j < k && Sane(parts[j]) ==> Sane(done[j])
      invariant (forall j :: 0 <= j < k ==> Sane(parts[j])) ==> heap.wild == old(heap.wild)
      invariant (exists j :: 0 <= j < k && ShowsTorn(parts[j])) || old(heap.wild) ==> heap.wild
      invariant heap.Accounts(rest + AllBlocks(done) + AllBlocks(parts[k..]))
      invariant Balance(lost0, heap.lost, done, ItemsHidden(parts[k..], count - k), ItemsHidden(parts, count))
    {
      SplitFirst(parts, k);
      SplitItems(parts, k, count - (k + 1));
      ghost var others := rest + AllBlocks(done) + AllBlocks(parts[k + 1..]);
      var part := parts[k];
      assert Blocks(part) == AllBlocks(part.parts) && Hidden(part) == AllHidden(part.parts);
      assert rest + AllBlocks(done) + AllBlocks(parts[k..]) == others + AllBlocks(part.parts);
      ghost var lost1 := heap.lost;
      var inner := ReleaseStruct(S, f.ptr.id, part.parts, heap, others);
      LastBlocks(done, Inline(inner));
      SettleStep(lost0, lost1, heap.lost, done, Inline(inner), Hidden(part), ItemsHidden(parts[k..], count - k),
                 ItemsHidden(parts[k + 1..], count - (k + 1)), ItemsHidden(parts, count));
      done := done + [Inline(inner)];
      k := k + 1;
    }
    parts' := done + parts[count..];
    BlocksConcat(done, parts[count..]);
    assert rest + AllBlocks(done) + AllBlocks(parts[count..]) == rest + AllBlocks(parts');
    assert ItemsHidden(parts[count..], 0) == AllBlocks(parts[count..]) by { NothingInUse(parts[count..]); }
    SaneAll(parts, parts');
  }

  lemma NoBlocks()
    ensures AllBlocks([]) == multiset{} && AllHidden([]) == multiset{}
  {
  }

  lemma NothingInUse(cs: seq<Cell>)
    ensures ItemsHidden(cs, 0) == AllBlocks(cs)
  {
  }

  lemma SaneAll(cs: seq<Cell>, cs': seq<Cell>)
    requires |cs'| == |cs| && forall k :: 0 <= k < |cs| && Sane(cs[k]) ==> Sane(cs'[k])
    ensures AllSane(cs) ==> AllSane(cs')
    ensures AllSane(cs) ==> forall k :: 0 <= k < |cs| ==> Sane(cs[k])
  {
  }

  /** The blocks of an array of strings. */
  method ReleaseTexts(parts: seq<Cell>, heap: Heap, ghost rest: multiset<nat>)
    requires forall k :: 0 <= k < |parts| ==> parts[k].Pointer? && parts[k].parts == []
    requires heap.Accounts(rest + AllBlocks(parts))
    modifies heap
    ensures heap.Accounts(rest) && heap.lost == old(heap.lost) && heap.wild == old(heap.wild)
  {
    hide AllBlocks;
    var k := 0;
    assert parts[0..] == parts;
    while k < |parts|
      invariant 0 <= k <= |parts|
      invariant heap.Accounts(rest + AllBlocks(parts[k..])) && heap.lost == old(heap.lost) && heap.wild == old(heap.wild)
    {
      SplitFirst(parts, k);
      ghost var others := rest + AllBlocks(parts[k + 1..]);
      BareBlock(parts[k]);
      assert rest + AllBlocks(parts[k..]) == others + Own(parts[k].block);
      OwnedIsLive(heap, others, parts[k].block);
      heap.Free(parts[k].block, others);
      k := k + 1;
    }
    assert parts[k..] == [];
    assert AllBlocks(parts[k..]) == multiset{} by { NoBlocks(); }
    assert rest + AllBlocks(parts[k..]) == rest;
  }

  lemma BareBlock(c: Cell)
    requires c.Pointer? && c.parts == []
    ensures Blocks(c) == Own(c.block) && Hidden(c) == multiset{}
  {
  }

  lemma {:induction false} PlainOwnNothing(parts: seq<Cell>)
    requires forall k :: 0 <= k < |parts| ==> parts[k].Plain?
    ensures AllBlocks(parts) == multiset{} && AllHidden(parts) == multiset{}
  {
    if parts != [] {
      PlainOwnNothing(parts[1..]);
    }
  }

  lemma {:induction false} BareHideNothing(parts: seq<Cell>)
    requires forall k :: 0 <= k < |parts| ==> parts[k].Pointer? && parts[k].parts == []
    ensures AllHidden(parts) == multiset{}
  {
    if parts != [] {
      BareBlock(parts[0]);
      BareHideNothing(parts[1..]);
    }
  }

  lemma {:induction false} AllInUse(cs: seq<Cell>)
    ensures ItemsHidden(cs, |cs|) == AllHidden(cs)
  {
    if cs != [] {
      AllInUse(cs[1..]);
    }
  }

  /** A count above the size of the array is cut to it. */
  lemma {:induction false} MoreInUse(cs: seq<Cell>, count: nat)
    ensures count >= |cs| ==> ItemsHidden(cs, count) == ItemsHidden(cs, |cs|)
  {
    if cs != [] && count >= |cs| {
      MoreInUse(cs[1..], count - 1);
    }
  }

  /** One field: what its submessages own, then the strings of an array, then its own block. */
  method ReleaseField(S: Schema, t: nat, f: Field, c: Cell, heap: Heap, ghost rest: multiset<nat>) returns (c': Cell)
    requires Supported(S) && t < |S| && CellOk(S, f, c)
    requires heap.Accounts(rest + Blocks(c))
    modifies heap
    ensures heap.Accounts(rest + Blocks(c')) && Settled(old(heap.lost), heap.lost, Hidden(c), Blocks(c'))
    ensures Null(c') && CellOk(S, f, c') && (TidyCell(S, t, f, c) ==> TidyCell(S, t, f, c'))
    ensures Sane(c) ==> Sane(c') && heap.wild == old(heap.wild)
    ensures ShowsTorn(c) || old(heap.wild) ==> heap.wild
    ensures f.atype.Pointer? ==> c' == Cell.Pointer(0, [])
    decreases c
  {
    hide AllBlocks, AllHidden, ItemsHidden, StructOk, SchemaOk, NoUnions, CountsAhead, Tidy, AllSane, AnyTorn, AllNull;
    c' := c;
    if f.atype.Pointer? {
      if c.Torn? {
        heap.FreeTorn();
        NullPointer(S, t, f);
        return Cell.Pointer(0, []);
      }
      c' := ReleasePointer(S, t, f, c, heap, rest);
    } else if f.ltype.Submessage? {
      if !f.htype.Repeated? {
        assert InlineOk(S, f, c);
        var inner := ReleaseStruct(S, f.ptr.id, c.parts, heap, rest);
        return Inline(inner);
      }
      MoreInUse(c.parts, c.count);
      var items := ReleaseItems(S, t, f, c.parts, if c.count < |c.parts| then c.count else |c.parts|, heap, rest);
      c' := Items(items, c.count);
    }
  }

  lemma NullPointer(S: Schema, t: nat, f: Field)
    requires f.atype.Pointer?
    ensures var c := Cell.Pointer(0, []);
            CellOk(S, f, c) && Null(c) && TidyCell(S, t, f, c) && Sane(c) && !ShowsTorn(c)
            && Blocks(c) == multiset{} && Hidden(c) == multiset{}
  {
  }

  /** What a pointer slot points to, and its block. Pointers that stand hidden in the contents go with the block. */
  method ReleasePointer(S: Schema, t: nat, f: Field, c: Cell, heap: Heap, ghost rest: multiset<nat>) returns (c': Cell)
    requires Supported(S) && t < |S| && CellOk(S, f, c) && f.atype.Pointer? && c.Pointer?
    requires heap.Accounts(rest + Blocks(c))
    modifies heap
    ensures c' == Cell.Pointer(0, []) && heap.Accounts(rest + Blocks(c'))
    ensures Settled(old(heap.lost), heap.lost, Hidden(c), Blocks(c'))
    ensures Null(c') && CellOk(S, f, c') && (TidyCell(S, t, f, c) ==> TidyCell(S, t, f, c'))
    ensures Sane(c) ==> Sane(c') && heap.wild == old(heap.wild)
    ensures ShowsTorn(c) || old(heap.wild) ==> heap.wild
    decreases c, 0
  {
    hide AllBlocks, AllHidden, ItemsHidden, StructOk, SchemaOk, NoUnions, CountsAhead, Tidy, AllSane, AllNull;
    NullPointer(S, t, f);
    c' := Cell.Pointer(0, []);
    assert rest + Blocks(c) == rest + Own(c.block) + AllBlocks(c.parts);
    if f.ltype.Submessage? {
      PointeesOk(S, f, c);
      var items := ReleaseItems(S, t, f, c.parts, |c.parts|, heap, rest + Own(c.block));
      AllInUse(c.parts);
      WildSummary(c.parts);
      assert ShowsTorn(c) ==> AnyTorn(c.parts);
      assert rest + Own(c.block) + AllBlocks(items) == rest + AllBlocks(items) + Own(c.block);
      OwnedIsLive(heap, rest + AllBlocks(items), c.block);
      heap.Free(c.block, rest + AllBlocks(items));
      heap.Lose(AllBlocks(items), rest);
    } else {
      if f.htype.Repeated? && TextType(f.ltype) {
        TextsOk(S, f, c);
        BareHideNothing(c.parts);
        ReleaseTexts(c.parts, heap, rest + Own(c.block));
      } else {
        PlainsOk(S, f, c);
        PlainOwnNothing(c.parts);
      }
      OwnedIsLive(heap, rest, c.block);
      heap.Free(c.block, rest);
    }
    assert rest + Blocks(c') == rest;
  }

  lemma PointeesOk(S: Schema, f: Field, c: Cell)
    requires CellOk(S, f, c) && f.atype.Pointer? && c.Pointer? && f.ltype.Submessage?
    ensures forall k :: 0 <= k < |c.parts| ==> InlineOk(S, f, c.parts[k])
  {
    forall k | 0 <= k < |c.parts|
      ensures InlineOk(S, f, c.parts[k])
    {
      assert f.htype.Repeated? ==> ItemOk(S, f, c.parts[k]);
    }
  }

  lemma TextsOk(S: Schema, f: Field, c: Cell)
    requires CellOk(S, f, c) && f.atype.Pointer? && c.Pointer? && f.htype.Repeated? && TextType(f.ltype)
    ensures forall k :: 0 <= k < |c.parts| ==> c.parts[k].Pointer? && c.parts[k].parts == []
    ensures !ShowsTorn(c)
  {
    assert forall k :: 0 <= k < |c.parts| ==> ItemOk(S, f, c.parts[k]);
    assert forall k :: 0 <= k < |c.parts| ==> !ShowsTorn(c.parts[k]);
  }

  lemma PlainsOk(S: Schema, f: Field, c: Cell)
    requires CellOk(S, f, c) && f.atype.Pointer? && c.Pointer? && !f.ltype.Submessage?
    requires !(f.htype.Repeated? && TextType(f.ltype))
    ensures forall k :: 0 <= k < |c.parts| ==> c.parts[k].Plain?
    ensures !ShowsTorn(c)
  {
    assert f.htype.Repeated? ==> forall k :: 0 <= k < |c.parts| ==> ItemOk(S, f, c.parts[k]);
    assert forall k :: 0 <= k < |c.parts| ==> c.parts[k].Plain? && !ShowsTorn(c.parts[k]);
  }

  /** What the release of a field does to its cell. */
  ghost predicate Released(S: Schema, t: nat, f: Field, c: Cell, c': Cell) {
    CellOk(S, f, c') && Null(c') && (TidyCell(S, t, f, c) ==> TidyCell(S, t, f, c')) && (Sane(c) ==> Sane(c'))
  }

  lemma AllReleased(S: Schema, t: nat, fs: seq<Cell>, fs': seq<Cell>)
    requires t < |S| && |fs'| == |fs| == |S[t]| && forall j :: 0 <= j < |fs| ==> Released(S, t, S[t][j], fs[j], fs'[j])
    ensures AllNull(fs') && StructOk(S, t, fs') && (Tidy(S, t, fs) ==> Tidy(S, t, fs')) && (AllSane(fs) ==> AllSane(fs'))
  {
    hide CellOk, Null, TidyCell, Sane;
    assert forall j :: 0 <= j < |fs| ==> Released(S, t, S[t][j], fs[j], fs'[j]);
  }

  lemma WildSummary(fs: seq<Cell>)
    ensures AllSane(fs) ==> forall j :: 0 <= j < |fs| ==> Sane(fs[j])
    ensures AnyTorn(fs) ==> exists j :: 0 <= j < |fs| && ShowsTorn(fs[j])
  {
  }

  lemma CellAt(S: Schema, t: nat, fs: seq<Cell>, i: nat)
    requires t < |S| && StructOk(S, t, fs) && i < |fs|
    ensures |fs| == |S[t]| && CellOk(S, S[t][i], fs[i])
  {
  }

  /** What the fields own after the release of those before `more`. */
  ghost function Owned(rest: multiset<nat>, done: seq<Cell>, more: seq<Cell>): multiset<nat> {
    rest + AllBlocks(done) + AllBlocks(more)
  }

  lemma OwnedEnds(rest: multiset<nat>, cs: seq<Cell>)
    ensures Owned(rest, [], cs) == rest + AllBlocks(cs) == Owned(rest, cs, [])
  {
  }

  lemma OwnedStep(rest: multiset<nat>, done: seq<Cell>, more: seq<Cell>, k: nat, c: Cell)
    requires k < |more|
    ensures Owned(rest, done, more[k..]) == Owned(rest, done, more[k + 1..]) + Blocks(more[k])
    ensures Owned(rest, done, more[k + 1..]) + Blocks(c) == Owned(rest, done + [c], more[k + 1..])
  {
    hide AllBlocks, Blocks;
    SplitFirst(more, k);
    LastBlocks(done, c);
  }

  /** The fields before the next one are released. */
  ghost predicate Progress(S: Schema, t: nat, fs: seq<Cell>, done: seq<Cell>, lost0: multiset<nat>, lost: multiset<nat>,
                           wild0: bool, wild: bool) {
    && t < |S| && |done| <= |fs| == |S[t]|
    && (forall j :: 0 <= j < |done| ==> Released(S, t, S[t][j], fs[j], done[j]))
    && (AllSane(fs) ==> wild == wild0)
    && ((exists j :: 0 <= j < |done| && ShowsTorn(fs[j])) || wild0 ==> wild)
    && Balance(lost0, lost, done, AllHidden(fs[|done|..]), AllHidden(fs))
  }

  lemma ProgressStep(S: Schema, t: nat, fs: seq<Cell>, done: seq<Cell>, c: Cell, lost0: multiset<nat>, lost: multiset<nat>,
                     lost': multiset<nat>, wild0: bool, wild: bool, wild': bool)
    requires Progress(S, t, fs, done, lost0, lost, wild0, wild) && |done| < |fs|
    requires Released(S, t, S[t][|done|], fs[|done|], c) && Settled(lost, lost', Hidden(fs[|done|]), Blocks(c))
    requires Sane(fs[|done|]) ==> wild' == wild
    requires ShowsTorn(fs[|done|]) || wild ==> wild'
    ensures Progress(S, t, fs, done + [c], lost0, lost', wild0, wild')
  {
    hide Sane, ShowsTorn, Released, Settled, Hidden, Blocks, AllHidden, AllBlocks, Balance, AnyTorn;
    SplitFirst(fs, |done|);
    SettleStep(lost0, lost, lost', done, c, Hidden(fs[|done|]), AllHidden(fs[|done|..]), AllHidden(fs[|done| + 1..]),
               AllHidden(fs));
  }

  lemma ProgressDone(S: Schema, t: nat, fs: seq<Cell>, done: seq<Cell>, lost0: multiset<nat>, lost: multiset<nat>,
                     wild0: bool, wild: bool)
    requires Progress(S, t, fs, done, lost0, lost, wild0, wild) && |done| == |fs|
    ensures Settled(lost0, lost, AllHidden(fs), AllBlocks(done))
    ensures AllNull(done) && StructOk(S, t, done) && (Tidy(S, t, fs) ==> Tidy(S, t, done))
    ensures AllSane(fs) ==> AllSane(done) && wild == wild0
    ensures AnyTorn(fs) || wild0 ==> wild
  {
    hide Sane, ShowsTorn, Released, Settled, AllHidden, AllBlocks, Balance, AllNull, StructOk, Tidy;
    assert fs[|done|..] == [];
    NoBlocks();
    Balanced(lost0, lost, done, AllHidden(fs));
    AllReleased(S, t, fs, done);
  }

  lemma ProgressStart(S: Schema, t: nat, fs: seq<Cell>, lost: multiset<nat>, wild: bool)
    requires t < |S| && StructOk(S, t, fs)
    ensures Progress(S, t, fs, [], lost, lost, wild, wild)
  {
    hide CellOk, AllBlocks, AllHidden, AllSane, ShowsTorn;
    assert fs[0..] == fs;
    NoBlocks();
  }

  /** The next field. */
  method ReleaseNext(S: Schema, t: nat, fs: seq<Cell>, done: seq<Cell>, heap: Heap, ghost rest: multiset<nat>,
                     ghost lost0: multiset<nat>, ghost wild0: bool)
    returns (done': seq<Cell>)
    requires Supported(S) && t < |S| && StructOk(S, t, fs) && |done| < |fs|
    requires Progress(S, t, fs, done, lost0, heap.lost, wild0, heap.wild)
    requires heap.Accounts(Owned(rest, done, fs[|done|..]))
    modifies heap
    ensures |done'| == |done| + 1 && Progress(S, t, fs, done', lost0, heap.lost, wild0, heap.wild)
    ensures heap.Accounts(Owned(rest, done', fs[|done'|..]))
    decreases fs, 0
  {
    hide SchemaOk, NoUnions, CountsAhead, AllBlocks, AllHidden, CellOk, TidyCell, Sane, ShowsTorn, Null, StructOk, Tidy;
    hide Released;
    hide AllSane, AnyTorn, AllNull, Hidden, Blocks, Balance, Settled, Progress, Owned;
    var i := |done|;
    CellAt(S, t, fs, i);
    ghost var others, lost, wild := Owned(rest, done, fs[i + 1..]), heap.lost, heap.wild;
    OwnedStep(rest, done, fs, i, fs[i]);
    var c := ReleaseField(S, t, S[t][i], fs[i], heap, others);
    IsReleased(S, t, S[t][i], fs[i], c);
    ProgressStep(S, t, fs, done, c, lost0, lost, heap.lost, wild0, wild, heap.wild);
    OwnedStep(rest, done, fs, i, c);
    done' := done + [c];
  }

  /** Frees every block that the struct owns where a release looks, each of them once, and leaves every slot in use NULL. */
  method ReleaseStruct(S: Schema, t: nat, fs: seq<Cell>, heap: Heap, ghost rest: multiset<nat>) returns (fs': seq<Cell>)
    requires Supported(S) && t < |S| && StructOk(S, t, fs)
    requires heap.Accounts(rest + AllBlocks(fs))
    modifies heap
    ensures heap.Accounts(rest + AllBlocks(fs')) && Settled(old(heap.lost), heap.lost, AllHidden(fs), AllBlocks(fs'))
    ensures AllNull(fs') && StructOk(S, t, fs') && (Tidy(S, t, fs) ==> Tidy(S, t, fs'))
    ensures AllSane(fs) ==> AllSane(fs') && heap.wild == old(heap.wild)
    ensures AnyTorn(fs) || old(heap.wild) ==> heap.wild
    decreases fs, 1
  {
    StructLength(S, t, fs);
    hide SchemaOk, NoUnions, CountsAhead, AllBlocks, AllHidden, CellOk, TidyCell, Sane, ShowsTorn, Null, StructOk, Tidy;
    hide Released;
    hide AllSane, AnyTorn, AllNull, Hidden, Blocks, Balance, Settled, Progress, Owned;
    ghost var lost0, wild0 := heap.lost, heap.wild;
    ProgressStart(S, t, fs, lost0, wild0);
    fs' := [];
    var iter := new FieldIter.Begin(S[t], 0);
    var more := S[t] != [];
    OwnedEnds(rest, fs);
    assert fs[0..] == fs;
    while more
      invariant iter.Valid() && iter.table == S[t] && (more ==> iter.pos < |S[t]|)
      invariant |fs'| == (if more then iter.pos else |S[t]|)
      invariant Progress(S, t, fs, fs', lost0, heap.lost, wild0, heap.wild)
      invariant heap.Accounts(Owned(rest, fs', fs[|fs'|..]))
      decreases more, |S[t]| - iter.pos
    {
      fs' := ReleaseNext(S, t, fs, fs', heap, rest, lost0, wild0);
      more := iter.Next();
    }
    ProgressDone(S, t, fs, fs', lost0, heap.lost, wild0, heap.wild);
    assert fs[|fs'|..] == [];
    OwnedEnds(rest, fs');
  }

  lemma StructLength(S: Schema, t: nat, fs: seq<Cell>)
    requires t < |S| && StructOk(S, t, fs)
    ensures |fs| == |S[t]|
  {
  }

  lemma IsReleased(S: Schema, t: nat, f: Field, c: Cell, c': Cell)
    requires CellOk(S, f, c') && Null(c') && (TidyCell(S, t, f, c) ==> TidyCell(S, t, f, c')) && (Sane(c) ==> Sane(c'))
    ensures Released(S, t, f, c, c')
  {
  }
}
