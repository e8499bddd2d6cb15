/** The heap, and which slot of a struct owns which block. */
module Ownership {

  // ---- the struct as a holder of pointers ----

  /** The memory of one field, as far as pointers are concerned. `Plain` holds none; `Inline` is a submessage stored in
      place; `Items` are the elements of a static array, with the count of those in use (an array without count is always
      in use); `Pointer` is a pointer slot with the block it points to (0 when it is NULL) and the counted contents of this
      block; `Torn` is a pointer slot of whose address a part has been overwritten. */
  datatype Cell =
    | Plain
    | Inline(parts: seq<Cell>)
    | Items(parts: seq<Cell>, count: nat)
    | Pointer(block: nat, parts: seq<Cell>)
    | Torn
  {
    /** The elements of a static array. */
    function ItemCells(): seq<Cell> {
      if Items? then parts else []
    }
  }

  function Own(block: nat): multiset<nat> {
    if block == 0 then multiset{} else multiset{block}
  }

  /** The blocks that the pointers in a cell hold the address of, once for every pointer. */
  function Blocks(c: Cell): multiset<nat> {
    match c
    case Plain => multiset{}
    case Inline(parts) => AllBlocks(parts)
    case Items(parts, _) => AllBlocks(parts)
    case Pointer(block, parts) => Own(block) + AllBlocks(parts)
    case Torn => multiset{}
  }

  function AllBlocks(cs: seq<Cell>): multiset<nat> {
    if cs == [] then multiset{} else Blocks(cs[0]) + AllBlocks(cs[1..])
  }

  /** The blocks whose pointers stand in elements behind a count, where nothing looks for them. */
  function Hidden(c: Cell): multiset<nat>
    decreases c, 0
  {
    match c
    case Plain => multiset{}
    case Inline(parts) => AllHidden(parts)
    case Items(parts, count) => ItemsHidden(parts, count)
    case Pointer(_, parts) => AllHidden(parts)
    case Torn => multiset{}
  }

  function AllHidden(cs: seq<Cell>): multiset<nat>
    decreases cs, 0
  {
    if cs == [] then multiset{} else Hidden(cs[0]) + AllHidden(cs[1..])
  }

  function ItemsHidden(cs: seq<Cell>, count: nat): multiset<nat>
    decreases cs, 0
  {
    if cs == [] then multiset{}
    else if count == 0 then AllBlocks(cs)
    else Hidden(cs[0]) + ItemsHidden(cs[1..], count - 1)
  }

  /** The blocks reached from all cells but one. */
  function Others(cs: seq<Cell>, i: nat): multiset<nat>
    requires i < |cs|
  {
    AllBlocks(cs[..i]) + AllBlocks(cs[i + 1..])
  }

  lemma {:induction false} BlocksConcat(cs: seq<Cell>, ds: seq<Cell>)
    ensures AllBlocks(cs + ds) == AllBlocks(cs) + AllBlocks(ds)
  {
    if cs == [] {
      assert [] + ds == ds;
    } else {
      assert (cs + ds)[1..] == cs[1..] + ds;
      BlocksConcat(cs[1..], ds);
    }
  }

  lemma BlocksSingle(c: Cell)
    ensures AllBlocks([c]) == Blocks(c)
  {
    assert [c][1..] == [];
  }

  lemma BlocksAt(cs: seq<Cell>, i: nat, c: Cell)
    requires i < |cs|
    ensures AllBlocks(cs) == Others(cs, i) + Blocks(cs[i])
    ensures AllBlocks(cs[i := c]) == Others(cs, i) + Blocks(c)
  {
    hide AllBlocks, Blocks;
    assert cs == cs[..i] + ([cs[i]] + cs[i + 1..]);
    assert cs[i := c] == cs[..i] + ([c] + cs[i + 1..]);
    BlocksConcat(cs[..i], [cs[i]] + cs[i + 1..]);
    BlocksConcat(cs[..i], [c] + cs[i + 1..]);
    BlocksConcat([cs[i]], cs[i + 1..]);
    BlocksConcat([c], cs[i + 1..]);
    BlocksSingle(cs[i]);
    BlocksSingle(c);
  }

  // ---- the heap ----

  class Heap {
    /** The blocks allocated and not freed. */
    var live: set<nat>
    var next: nat
    /** The blocks whose last pointer was overwritten. */
    ghost var lost: multiset<nat>
    /** Whether there is always memory. */
    const reliable: bool
    /** An address that is no block has been given back. From then on nothing is known of the program. */
    var wild: bool

    constructor (reliable: bool)
      ensures Accounts(multiset{}) && lost == multiset{} && live == {} && this.reliable == reliable && !wild
    {
      this.reliable := reliable;
      wild := false;
      live := {};
      next := 1;
      lost := multiset{};
    }

    /** Every live block is one of the owned blocks, exactly once, or one of the lost ones. */
    ghost predicate Accounts(owned: multiset<nat>)
      reads this
    {
      multiset(live) == owned + lost && (forall b :: b in live ==> 0 < b < next) && next > 0
    }

    /** A block of another size for the same contents: enlarged in place, or new with the old one freed. It can fail,
        and then the old block stays. */
    method Realloc(block: nat, ghost rest: multiset<nat>) returns (result: nat)
      requires Accounts(rest + Own(block))
      modifies this
      ensures lost == old(lost) && wild == old(wild)
      ensures Accounts(rest + Own(if result == 0 then block else result))
      ensures reliable ==> result != 0
      ensures result == 0 ==> live == old(live)
      ensures result != 0 ==> live == old(live) - {block} + {result}
    {
      var full, moved := *, *;
      if full && !reliable {
        return 0;
      }
      if block != 0 && !moved {
        assert block in multiset(live);
        return block;
      }
      result := next;
      next := next + 1;
      ghost var was := live;
      live := live - {block} + {result};
      Swapped(was, live, rest + lost, block, result);
    }

    /** Frees a live block. NULL is ignored. */
    method Free(block: nat, ghost rest: multiset<nat>)
      requires Accounts(rest + Own(block))
      requires block != 0 ==> block in live
      modifies this
      ensures lost == old(lost) && wild == old(wild)
      ensures Accounts(rest)
      ensures live == old(live) - {block}
    {
      if block == 0 {
        assert block !in live;
        return;
      }
      ghost var was := live;
      live := live - {block};
      Removed(was, rest + lost, block);
    }

    /** Frees what a torn pointer says. */
    method FreeTorn()
      modifies this`wild
      ensures wild
    {
      wild := true;
    }

    /** Pointers to these blocks are overwritten. */
    ghost method Lose(blocks: multiset<nat>, rest: multiset<nat>)
      requires Accounts(rest + blocks)
      modifies this`lost
      ensures Accounts(rest) && lost == old(lost) + blocks
    {
      lost := lost + blocks;
    }
  }

  lemma Removed(live: set<nat>, rest: multiset<nat>, block: nat)
    requires multiset(live) == rest + multiset{block}
    ensures multiset(live - {block}) == rest
  {
    forall x
      ensures multiset(live - {block})[x] == rest[x]
    {
      assert multiset(live)[x] == rest[x] + multiset{block}[x];
    }
  }

  lemma Swapped(live: set<nat>, live': set<nat>, rest: multiset<nat>, block: nat, result: nat)
    requires multiset(live) == rest + Own(block) && live' == live - {block} + {result} && result !in live && result != 0
    requires 0 !in live
    ensures multiset(live') == rest + Own(result)
  {
    if block != 0 {
      Removed(live, rest, block);
    }
    if block == 0 {
      assert live - {block} == live;
    }
    assert multiset(live - {block}) == rest;
    assert multiset((live - {block}) + {result}) == multiset(live - {block}) + multiset{result};
  }

  /** What is owned can be freed. */
  lemma OwnedIsLive(heap: Heap, rest: multiset<nat>, block: nat)
    requires heap.Accounts(rest + Own(block))
    ensures block != 0 ==> block in heap.live
  {
    if block != 0 {
      assert block in multiset(heap.live);
    }
  }
}
