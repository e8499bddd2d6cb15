/** The memory of a struct from allocation to release. */
module Lifecycle {
  import opened Bits
  import opened Descriptor
  import opened Message
  import opened DecodeSpec
  import opened Reuse
  import opened Ownership
  import opened Release
  import opened Initial
  import opened Backing
  import opened Damage
  import opened PointerDecoder

  /** A struct from its zeroed memory to its second release. Decoding agrees with the decoder on values, unless memory runs
      out. As long as no torn pointer is given back, every live block is owned by exactly one pointer slot or is lost, and
      the release frees all but the lost ones and those that hide behind counts. On a tight schema there are none of these,
      and on a clean one no torn pointer is ever given back; where the records say that a block is lost or a pointer torn,
      this happens. */
  method Lifetime(S: Schema, t: nat, b: bytes, reliable: bool)
    returns (ok: bool, decoded: seq<Cell>, held: set<nat>, ghost lost: multiset<nat>,
             released: seq<Cell>, kept: set<nat>, keptAgain: set<nat>, wild: bool)
    requires Supported(S) && t < |S|
    ensures (ok ==> DecFresh(S, t, b).Ok?) && (reliable && DecFresh(S, t, b).Ok? ==> ok)
    ensures ok ==> Backed(S, t, DecFresh(S, t, b).value, decoded)
    ensures StructOk(S, t, decoded) && multiset(held) == AllBlocks(decoded) + lost
    ensures !ok ==> AllNull(decoded) && multiset(held) == AllHidden(decoded) + lost
    ensures StructOk(S, t, released) && AllNull(released)
    ensures multiset(kept) == AllHidden(decoded) + lost && keptAgain == kept
    ensures Tight(S) ==> lost == multiset{} && AllHidden(decoded) == multiset{} && kept == {}
    ensures Clean(S) ==> !wild
    ensures reliable && Harms(S, t, b, LostBlock) ==> lost != multiset{} && kept != {} && !Tight(S)
    ensures reliable && Harms(S, t, b, TornPointer) ==> wild && !Clean(S)
  {
    hide SchemaOk, NoUnions, CountsAhead, StructOk, Tidy, AllBlocks, AllHidden, Tight, Clean, Reset, AllNull, Backed;
    hide DecMessage;
    hide HarmsLoop, Defaults, Shaped, AllSane, AnyTorn, AllCleared, PastHeld, Used, DecFresh;
    var heap := new Heap(reliable);
    var fs := NullStruct(S, t);
    NullStructOk(S, t);
    ClearedOwnsNothing(fs);
    BlocklessTidy(S, t, fs);
    NoPast(S, t, Defaults(S, t), Reset(S, t, fs));
    assert multiset{} + AllBlocks(fs) == multiset{};
    ok, decoded := Decode(S, t, fs, [], b, heap, multiset{});
    held, lost := heap.live, heap.lost;
    assert multiset{} + AllBlocks(decoded) + lost == AllBlocks(decoded) + lost;
    if !ok {
      NullOwnsHidden(decoded);
    }
    ghost var torn := heap.wild || AnyTorn(decoded);
    released := ReleaseStruct(S, t, decoded, heap, multiset{});
    kept := heap.live;
    ghost var first := released;
    assert multiset(kept) == AllHidden(decoded) + lost by {
      assert multiset{} + AllBlocks(released) + heap.lost == heap.lost + AllBlocks(released);
    }
    if Tight(S) {
      TightHidden(S, t, decoded);
      NothingLive(kept);
    }
    assert torn ==> heap.wild;
    NullOwnsHidden(released);
    released := ReleaseStruct(S, t, released, heap, multiset{});
    keptAgain, wild := heap.live, heap.wild;
    assert multiset{} + AllBlocks(released) + heap.lost == heap.lost + AllBlocks(released);
    SameSet(kept, keptAgain);
    if lost != multiset{} {
      SomethingLive(kept, lost);
    }
  }

  lemma NoPast(S: Schema, t: nat, m: Slots, fs: seq<Cell>)
    requires t < |S|
    ensures PastHeld(S, t, [], m, fs)
  {
  }

  lemma NothingLive(a: set<nat>)
    requires multiset(a) == multiset{}
    ensures a == {}
  {
    assert forall x :: x in a ==> x in multiset(a);
  }

  lemma SomethingLive(a: set<nat>, lost: multiset<nat>)
    requires lost <= multiset(a) && lost != multiset{}
    ensures a != {}
  {
    var x :| x in lost;
    assert x in multiset(a);
  }

  lemma SameSet(a: set<nat>, b: set<nat>)
    requires multiset(a) == multiset(b)
    ensures a == b
  {
    forall x
      ensures x in a <==> x in b
    {
      assert multiset(a)[x] == multiset(b)[x];
    }
  }
}
