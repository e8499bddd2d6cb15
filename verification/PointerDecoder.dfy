/** Decoding with dynamic allocation: the memory of the struct and the heap, next to the value that is decoded. The records
    are those on the wire; whether memory is available is left open. Each method follows one of the decoder's, with the
    cell of the field, or the cells of the struct, before and after. */
module PointerDecoder {
  import opened Bits
  import opened Varint
  import opened Descriptor
  import opened Message
  import opened DecodeSpec
  import opened Stale
  import opened Reuse
  import opened Ownership
  import opened Release
  import opened Initial
  import opened Backing
  import opened Damage
  import Allocation
  import Layout

  /** Nothing succeeds that the decoder refuses, and with enough memory nothing fails that it accepts. */
  predicate Agrees(heap: Heap, ok: bool, accepted: bool) {
    (ok ==> accepted) && (heap.reliable && accepted ==> ok)
  }

  /** Lost blocks stay lost and bad addresses bad; nothing is lost on a tight schema, and no pointer is torn or given back
      torn on a clean one. */
  ghost predicate Careful(S: Schema, lost: multiset<nat>, lost': multiset<nat>, wild: bool, wild': bool, sane: bool,
                          sane': bool) {
    lost <= lost' && (wild ==> wild') && (Tight(S) ==> lost' == lost) && (Clean(S) && sane ==> sane' && wild' == wild)
  }

  /** When there is memory, the damage that is to be done has been done. */
  predicate Done(heap: Heap, lose: bool, tear: bool, lost: multiset<nat>, wild: bool, torn: bool) {
    heap.reliable ==> (lose ==> lost != multiset{}) && (tear ==> wild || torn)
  }

  // ---- single blocks ----

  /** A string or byte array behind a pointer: its block gets the new size, and then is read into. */
  method DecodeText(f: Field, c: Cell, b: bytes, heap: Heap, ghost rest: multiset<nat>) returns (ok: bool, c': Cell)
    requires TextType(f.ltype) && c.Pointer? && c.parts == [] && heap.Accounts(rest + Blocks(c))
    modifies heap
    ensures heap.Accounts(rest + Blocks(c')) && heap.lost == old(heap.lost) && heap.wild == old(heap.wild)
    ensures c'.Pointer? && c'.parts == [] && (ok ==> c'.block != 0)
    ensures Agrees(heap, ok, DecBlob(f, b).Ok?)
  {
    hide DecVarint32, BlobFits;
    c' := c;
    BareBlock(c);
    var size := DecVarint32(b);
    if size.Fail? || !BlobFits(f, size.value) {
      return false, c';
    }
    var block := heap.Realloc(c.block, rest);
    if block == 0 {
      return false, c';
    }
    c' := Cell.Pointer(block, []);
    BareBlock(c');
    ok := size.value <= |size.rest|;
  }

  /** A number or fixed-length byte string behind a pointer. */
  method DecodePlain(c: Cell, accepted: bool, heap: Heap, ghost rest: multiset<nat>) returns (ok: bool, c': Cell)
    requires c.Pointer? && c.parts == [] && heap.Accounts(rest + Blocks(c))
    modifies heap
    ensures heap.Accounts(rest + Blocks(c')) && heap.lost == old(heap.lost) && heap.wild == old(heap.wild)
    ensures c'.Pointer? && c'.parts == [] && (ok ==> c'.block != 0)
    ensures Agrees(heap, ok, accepted)
  {
    BareBlock(c);
    c' := c;
    var block := heap.Realloc(c.block, rest);
    if block == 0 {
      return false, c';
    }
    c' := Cell.Pointer(block, []);
    BareBlock(c');
    ok := accepted;
  }

  /** A packed array behind a pointer. Its block grows when the elements have reached its capacity. */
  method DecodePackedPointer(f: Field, c: Cell, items: seq<Value>, b: bytes, heap: Heap, ghost rest: multiset<nat>)
    returns (ok: bool, c': Cell)
    requires c.Pointer? && (c.block == 0 ==> c.parts == []) && |c.parts| == |items| <= PB_SIZE_MAX && f.dataSize > 0
    requires f.atype.Pointer? && forall k :: 0 <= k < |c.parts| ==> c.parts[k].Plain?
    requires heap.Accounts(rest + Own(c.block))
    modifies heap
    ensures c'.Pointer? && (c'.block == 0 ==> c'.parts == []) && |c'.parts| <= PB_SIZE_MAX
    ensures forall k :: 0 <= k < |c'.parts| ==> c'.parts[k].Plain?
    ensures heap.Accounts(rest + Own(c'.block)) && heap.lost == old(heap.lost) && heap.wild == old(heap.wild)
    ensures var p := DecPrefixed(b);
            && Agrees(heap, ok, p.Ok? && DecPacked(f, items, |items|, p.value).Some?)
            && (ok ==> |c'.parts| == |DecPacked(f, items, |items|, p.value).value.0|)
  {
    hide DecScalar, DecPrefixed;
    c' := c;
    var p := DecPrefixed(b);
    if p.Fail? {
      return false, c';
    }
    var block: nat, capacity: nat := c.block, |c.parts|;
    var payload, values := p.value, items;
    ok := true;
    while ok && payload != []
      invariant |values| <= capacity <= PB_SIZE_MAX && (block == 0 ==> capacity == 0)
      invariant heap.Accounts(rest + Own(block)) && heap.lost == old(heap.lost) && heap.wild == old(heap.wild)
      invariant ok ==> DecPacked(f, items, |items|, p.value) == DecPacked(f, values, |values|, payload)
      invariant !ok && heap.reliable ==> DecPacked(f, items, |items|, p.value) == None
      decreases ok, |payload|
    {
      if |values| == PB_SIZE_MAX {
        ok := false;
      } else if |values| + 1 > capacity {
        var larger := Allocation.Grow(capacity, |payload|, f.dataSize);
        var moved := heap.Realloc(block, rest);
        if moved == 0 {
          ok := false;
        } else {
          block, capacity := moved, larger;
        }
      }
      if ok {
        var x := DecScalar(f, payload);
        ok := x.Ok?;
        if ok {
          values := values + [Scalar(x.value)];
          payload := x.rest;
        }
      }
    }
    c' := Cell.Pointer(block, seq(|values|, _ => Plain));
  }

  // ---- submessages ----

  /** Value and memory of a struct belong together. */
  ghost predicate Linked(S: Schema, t: nat, m: Slots, fs: seq<Cell>) {
    t < |S| && StructOk(S, t, fs) && Tidy(S, t, fs) && Shaped(S, t, m) && Backed(S, t, m, fs)
  }

  /** Elements that are still to come own nothing, if their array is filled only once. */
  ghost predicate Untouched(S: Schema, t: nat, run: Run, fs: seq<Cell>) {
    t < |S| && |fs| == |S[t]| && forall i :: 0 <= i < |fs| ==> CellUntouched(S, t, run, i, fs[i])
  }

  ghost predicate CellUntouched(S: Schema, t: nat, run: Run, i: nat, c: Cell) {
    t < |S| && i < |S[t]| && FixedSubs(S[t][i]) && !FilledAgain(S, t, i) ==>
      forall k: nat :: Ahead(run, i, k) && k < |c.ItemCells()| ==> Blocks(c.ItemCells()[k]) == multiset{}
  }

  /** Element k of the array of field i has not been decoded in this run. */
  predicate Ahead(run: Run, i: nat, k: nat) {
    run.fixedField == Some(i) ==> k >= run.fixedCount
  }

  /** What is known of the array elements that are still to come. */
  ghost predicate Waits(S: Schema, t: nat, run: Run, past: Slots, fs: seq<Cell>) {
    t < |S| && Untouched(S, t, run, fs) && PastHeld(S, t, past, run.m, fs)
  }

  /** A struct that owns nothing. */
  lemma EmptyUntouched(S: Schema, t: nat, run: Run, fs: seq<Cell>)
    requires t < |S| && |fs| == |S[t]| && AllBlocks(fs) == multiset{}
    ensures Untouched(S, t, run, fs)
  {
    hide AllBlocks, FilledAgain;
    forall i, k: nat | 0 <= i < |fs| && k < |fs[i].ItemCells()|
      ensures Blocks(fs[i].ItemCells()[k]) == multiset{}
    {
      PartOfNothing(fs, i);
      PartOfNothing(fs[i].parts, k);
    }
  }

  /** A struct that is decoded into again, or initialised again. */
  lemma AgainUntouched(S: Schema, t: nat, run: Run, fs: seq<Cell>)
    requires t < |S| && |fs| == |S[t]| && (DecodedInto(S, t) || Used(S, t))
    ensures Untouched(S, t, run, fs)
  {
    assert forall i :: 0 <= i < |S[t]| ==> FilledAgain(S, t, i);
  }

  /** The verdict on the submessage in front of b, when it is decoded into m. */
  predicate SubAccepted(S: Schema, id: nat, m: Slots, b: bytes) {
    id < |S| && DecPrefixed(b).Ok? && DecMessage(S, id, m, DecPrefixed(b).value).Ok?
  }

  function SubValue(S: Schema, id: nat, m: Slots, b: bytes): Slots
    requires SubAccepted(S, id, m, b)
  {
    DecMessage(S, id, m, DecPrefixed(b).value).value
  }

  ghost predicate SubHarms(S: Schema, id: nat, m: Slots, past: Slots, b: bytes, h: Harm) {
    id < |S| && DecPrefixed(b).Ok? && HarmsLoop(S, id, Start(m), past, DecPrefixed(b).value, h)
  }

  ghost predicate ItemHarms(S: Schema, id: nat, v: Value, b: bytes, h: Harm) {
    id < |S| && DecPrefixed(b).Ok? && HarmsElement(S, id, v, DecPrefixed(b).value, h)
  }

  /** A single submessage is decoded into the struct that is there. */
  method DecodeSingle(S: Schema, id: nat, c: Cell, m: Slots, ghost past: Slots, b: bytes, heap: Heap,
                      ghost rest: multiset<nat>)
    returns (ok: bool, c': Cell)
    requires Supported(S) && c.Inline? && Linked(S, id, m, c.parts) && heap.Accounts(rest + Blocks(c))
    requires Waits(S, id, Start(m), past, c.parts)
    modifies heap
    ensures c'.Inline? && StructOk(S, id, c'.parts) && Tidy(S, id, c'.parts) && heap.Accounts(rest + Blocks(c'))
    ensures Careful(S, old(heap.lost), heap.lost, old(heap.wild), heap.wild, Sane(c), Sane(c'))
    ensures Agrees(heap, ok, SubAccepted(S, id, m, b))
    ensures ok ==> Backed(S, id, SubValue(S, id, m, b), c'.parts) && PastHeld(S, id, past, SubValue(S, id, m, b), c'.parts)
    ensures Done(heap, SubHarms(S, id, m, past, b, LostBlock), SubHarms(S, id, m, past, b, TornPointer),
                 heap.lost, heap.wild, ShowsTorn(c'))
    decreases |b|, 0
  {
    hide Supported, StructOk, Tidy, AllBlocks, Tight, Clean, Shaped, Backed, Untouched, PastHeld, DecPrefixed, DecMessage;
    hide HarmsLoop;
    hide AllSane, AnyTorn;
    c' := c;
    var p := DecPrefixed(b);
    if p.Fail? {
      return false, c';
    }
    var fs;
    ok, fs := DecodeNoinit(S, id, c.parts, m, past, p.value, heap, rest);
    c' := Inline(fs);
  }

  /** An array element is initialised first. Its memory held v before. */
  method DecodeElement(S: Schema, id: nat, c: Cell, ghost v: Value, b: bytes, heap: Heap, ghost rest: multiset<nat>)
    returns (ok: bool, c': Cell)
    requires Supported(S) && c.Inline? && id < |S| && StructOk(S, id, c.parts) && Tidy(S, id, c.parts)
    requires heap.Accounts(rest + Blocks(c)) && (!Used(S, id) ==> Blocks(c) == multiset{})
    requires v.Sub? ==> Held(S, id, v.slots, c.parts)
    modifies heap
    ensures c'.Inline? && StructOk(S, id, c'.parts) && Tidy(S, id, c'.parts) && heap.Accounts(rest + Blocks(c'))
    ensures Careful(S, old(heap.lost), heap.lost, old(heap.wild), heap.wild, Sane(c), Sane(c'))
    ensures Agrees(heap, ok, SubAccepted(S, id, Defaults(S, id), b))
    ensures ok ==> Backed(S, id, SubValue(S, id, Defaults(S, id), b), c'.parts)
    ensures Done(heap, ItemHarms(S, id, v, b, LostBlock), ItemHarms(S, id, v, b, TornPointer),
                 heap.lost, heap.wild, ShowsTorn(c'))
    decreases |b|, 0
  {
    hide Supported, StructOk, Tidy, AllBlocks, Tight, Clean, Used, Backed, Held, PastHeld, Reset, DecPrefixed, DecMessage;
    hide Defaults;
    hide AllSane, AnyTorn, HarmsElement;
    c' := c;
    var p := DecPrefixed(b);
    if p.Fail? {
      return false, c';
    }
    ghost var past := if v.Sub? && !Tears(S, id, v.slots) then v.slots else [];
    ElementPast(S, id, v, c.parts);
    ElementDone(S, id, v, p.value, c.parts);
    var fs;
    ok, fs := Decode(S, id, c.parts, past, p.value, heap, rest);
    c' := Inline(fs);
  }

  /** The older value of an element is what its memory keeps, unless initialisation tears a pointer. */
  lemma ElementPast(S: Schema, id: nat, v: Value, fs: seq<Cell>)
    requires id < |S| && StructOk(S, id, fs) && (v.Sub? ==> Held(S, id, v.slots, fs))
    ensures var past := if v.Sub? && !Tears(S, id, v.slots) then v.slots else [];
            PastHeld(S, id, past, Defaults(S, id), Reset(S, id, fs))
  {
    hide StructOk, Held, Tears, Reset, Defaults;
    if v.Sub? && !Tears(S, id, v.slots) {
      hide PastHeld;
      ResetPast(S, id, v.slots, Defaults(S, id), fs);
    }
  }

  /** The damage to an element is done by its initialisation, or later. */
  lemma ElementDone(S: Schema, id: nat, v: Value, payload: bytes, fs: seq<Cell>)
    requires id < |S| && StructOk(S, id, fs) && (v.Sub? ==> Held(S, id, v.slots, fs))
    ensures var past := if v.Sub? && !Tears(S, id, v.slots) then v.slots else [];
            && (HarmsElement(S, id, v, payload, LostBlock) ==>
                  AllBlocks(fs) - AllBlocks(Reset(S, id, fs)) != multiset{} ||
                  HarmsLoop(S, id, Start(Defaults(S, id)), past, payload, LostBlock))
            && (HarmsElement(S, id, v, payload, TornPointer) ==>
                  (payload == [] && AnyTorn(Reset(S, id, fs))) ||
                  HarmsLoop(S, id, Start(Defaults(S, id)), past, payload, TornPointer))
  {
    hide StructOk, Held, Tears, Drops, Reset, Defaults, AllBlocks, HarmsLoop, AnyTorn;
    if v.Sub? && Tears(S, id, v.slots) {
      TearsDrops(S, id, v.slots);
      TearsShow(S, id, v.slots, fs);
    }
    if v.Sub? && Drops(S, id, v.slots) {
      DropsBlocks(S, id, v.slots, fs);
      NotEmpty(AllBlocks(fs), AllBlocks(Reset(S, id, fs)));
    }
  }

  lemma NotEmpty(a: multiset<nat>, b: multiset<nat>)
    requires |b| < |a|
    ensures a - b != multiset{}
  {
    if a - b == multiset{} {
      forall x
        ensures a[x] <= b[x]
      {
        assert (a - b)[x] == 0;
      }
      SmallerPart(a, b);
    }
  }

  /** Initialises a struct, decodes into it, and releases what has been allocated when this fails. The pointers that
      initialisation overwrites are lost. */
  method Decode(S: Schema, t: nat, fs: seq<Cell>, ghost past: Slots, b: bytes, heap: Heap, ghost rest: multiset<nat>)
    returns (ok: bool, fs': seq<Cell>)
    requires Supported(S) && t < |S| && StructOk(S, t, fs) && Tidy(S, t, fs)
    requires heap.Accounts(rest + AllBlocks(fs)) && (!Used(S, t) ==> AllBlocks(fs) == multiset{})
    requires PastHeld(S, t, past, Defaults(S, t), Reset(S, t, fs))
    modifies heap
    ensures StructOk(S, t, fs') && Tidy(S, t, fs') && heap.Accounts(rest + AllBlocks(fs'))
    ensures old(heap.lost) + (AllBlocks(fs) - AllBlocks(Reset(S, t, fs))) <= heap.lost
    ensures Careful(S, old(heap.lost), heap.lost, old(heap.wild), heap.wild, AllSane(fs), AllSane(fs'))
    ensures Agrees(heap, ok, DecFresh(S, t, b).Ok?)
    ensures ok ==> Backed(S, t, DecFresh(S, t, b).value, fs')
    ensures var start := Start(Defaults(S, t));
            Done(heap, HarmsLoop(S, t, start, past, b, LostBlock),
                 HarmsLoop(S, t, start, past, b, TornPointer) || (b == [] && AnyTorn(Reset(S, t, fs))),
                 heap.lost, heap.wild, AnyTorn(fs'))
    ensures !ok ==> AllNull(fs')
    decreases |b|, 7
  {
    hide SchemaOk, NoUnions, CountsAhead, StructOk, AllBlocks, Tight, Clean, Reset, Tidy, Defaults, Shaped, Backed;
    hide Untouched;
    hide PastHeld, DecFresh, HarmsLoop, AllSane, AnyTorn, AllNull, Used, Careful, Linked, Done, Agrees;
    fs' := Reset(S, t, fs);
    ghost var lost0, wild0 := heap.lost, heap.wild;
    ResetKeeps(S, t, fs);
    Initialised(S, t, fs);
    ghost var overwritten := AllBlocks(fs) - AllBlocks(fs');
    assert rest + AllBlocks(fs) == rest + AllBlocks(fs') + overwritten;
    heap.Lose(overwritten, rest + AllBlocks(fs'));
    CarefulReset(S, AllBlocks(fs), AllBlocks(fs'), lost0, wild0, AllSane(fs), AllSane(fs'));
    ghost var lost1, wild1, before := heap.lost, heap.wild, fs';
    ok, fs' := DecodeInitialised(S, t, fs', past, b, heap, rest);
    CarefulStep(S, lost0, lost1, heap.lost, wild0, wild1, heap.wild, AllSane(fs), AllSane(before), AllSane(fs'));
    CarefulGrows(S, lost1, heap.lost, wild1, heap.wild, AllSane(before), AllSane(fs'));
  }

  /** The same behind initialisation. */
  method DecodeInitialised(S: Schema, t: nat, fs: seq<Cell>, ghost past: Slots, b: bytes, heap: Heap,
                           ghost rest: multiset<nat>)
    returns (ok: bool, fs': seq<Cell>)
    requires Supported(S) && t < |S| && Linked(S, t, Defaults(S, t), fs) && heap.Accounts(rest + AllBlocks(fs))
    requires Waits(S, t, Start(Defaults(S, t)), past, fs)
    modifies heap
    ensures StructOk(S, t, fs') && Tidy(S, t, fs') && heap.Accounts(rest + AllBlocks(fs'))
    ensures Careful(S, old(heap.lost), heap.lost, old(heap.wild), heap.wild, AllSane(fs), AllSane(fs'))
    ensures Agrees(heap, ok, DecFresh(S, t, b).Ok?)
    ensures ok ==> Backed(S, t, DecFresh(S, t, b).value, fs')
    ensures var start := Start(Defaults(S, t));
            Done(heap, HarmsLoop(S, t, start, past, b, LostBlock),
                 HarmsLoop(S, t, start, past, b, TornPointer) || (b == [] && AnyTorn(fs)),
                 heap.lost, heap.wild, AnyTorn(fs'))
    ensures !ok ==> AllNull(fs')
    decreases |b|, 6
  {
    hide SchemaOk, NoUnions, CountsAhead, StructOk, AllBlocks, Tight, Clean, Tidy, Defaults, Waits;
    hide PastHeld, DecMessage, HarmsLoop, AllSane, AnyTorn, AllNull, Careful, Linked, Backed;
    LinkedFacts(S, t, Defaults(S, t), fs);
    ghost var lost0, wild0 := heap.lost, heap.wild;
    ok, fs' := DecodeNoinit(S, t, fs, Defaults(S, t), past, b, heap, rest);
    if !ok {
      ghost var lost1, wild1, failed := heap.lost, heap.wild, fs';
      fs' := ReleaseFailed(S, t, fs', heap, rest);
      CarefulStep(S, lost0, lost1, heap.lost, wild0, wild1, heap.wild, AllSane(fs), AllSane(failed), AllSane(fs'));
      CarefulGrows(S, lost1, heap.lost, wild1, heap.wild, AllSane(failed), AllSane(fs'));
    }
  }

  /** What a failed decoding has allocated is released. */
  method ReleaseFailed(S: Schema, t: nat, fs: seq<Cell>, heap: Heap, ghost rest: multiset<nat>) returns (fs': seq<Cell>)
    requires Supported(S) && t < |S| && StructOk(S, t, fs) && Tidy(S, t, fs) && heap.Accounts(rest + AllBlocks(fs))
    modifies heap
    ensures StructOk(S, t, fs') && Tidy(S, t, fs') && heap.Accounts(rest + AllBlocks(fs')) && AllNull(fs')
    ensures Careful(S, old(heap.lost), heap.lost, old(heap.wild), heap.wild, AllSane(fs), AllSane(fs'))
    ensures AnyTorn(fs) ==> heap.wild
  {
    hide SchemaOk, NoUnions, CountsAhead, StructOk, AllBlocks, AllHidden, Tidy, Careful, Settled, AllSane, AnyTorn, AllNull;
    ghost var lost, wild := heap.lost, heap.wild;
    fs' := ReleaseStruct(S, t, fs, heap, rest);
    CarefulRelease(S, t, fs, fs', lost, heap.lost, wild, heap.wild);
  }

  lemma CarefulReset(S: Schema, before: multiset<nat>, after: multiset<nat>, lost: multiset<nat>, wild: bool, sane: bool,
                     sane': bool)
    requires (Tight(S) ==> before == multiset{}) && (Clean(S) && sane ==> sane')
    ensures Careful(S, lost, lost + (before - after), wild, wild, sane, sane')
  {
    hide Tight, Clean;
  }

  lemma CarefulRelease(S: Schema, t: nat, fs: seq<Cell>, fs': seq<Cell>, lost: multiset<nat>, lost': multiset<nat>,
                       wild: bool, wild': bool)
    requires SchemaOk(S) && t < |S| && StructOk(S, t, fs) && StructOk(S, t, fs') && Tidy(S, t, fs) && Tidy(S, t, fs') &&
             AllNull(fs')
    requires Settled(lost, lost', AllHidden(fs), AllBlocks(fs'))
    requires (AllSane(fs) ==> AllSane(fs') && wild' == wild) && (wild ==> wild')
    ensures Careful(S, lost, lost', wild, wild', AllSane(fs), AllSane(fs'))
  {
    hide SchemaOk, Tight, Clean, StructOk, Tidy, AllNull, AllBlocks, AllHidden, AllSane;
    if Tight(S) {
      TightHidden(S, t, fs);
      TightHidden(S, t, fs');
      NullOwnsHidden(fs');
      assert lost' == lost' + multiset{} && lost == lost + multiset{};
    }
  }

  lemma CarefulGrows(S: Schema, lost: multiset<nat>, lost': multiset<nat>, wild: bool, wild': bool, sane: bool, sane': bool)
    requires Careful(S, lost, lost', wild, wild', sane, sane')
    ensures lost <= lost' && (wild ==> wild')
  {
  }

  lemma CarefulStep(S: Schema, lost: multiset<nat>, lost': multiset<nat>, lost'': multiset<nat>, wild: bool, wild': bool,
                    wild'': bool, sane: bool, sane': bool, sane'': bool)
    requires Careful(S, lost, lost', wild, wild', sane, sane') && Careful(S, lost', lost'', wild', wild'', sane', sane'')
    ensures Careful(S, lost, lost'', wild, wild'', sane, sane'')
  {
    hide Tight, Clean;
  }

  /** An initialised struct. */
  lemma Initialised(S: Schema, t: nat, fs: seq<Cell>)
    requires Supported(S) && t < |S| && StructOk(S, t, fs) && Tidy(S, t, fs)
    requires !Used(S, t) ==> AllBlocks(fs) == multiset{}
    ensures Linked(S, t, Defaults(S, t), Reset(S, t, fs)) && Untouched(S, t, Start(Defaults(S, t)), Reset(S, t, fs))
    ensures Tight(S) ==> AllBlocks(fs) == multiset{}
    ensures Clean(S) && AllSane(fs) ==> AllSane(Reset(S, t, fs))
  {
    hide SchemaOk, NoUnions, CountsAhead, StructOk, AllBlocks, Tight, Clean, Reset, Tidy, Defaults, Shaped, Backed;
    hide Untouched;
    hide AllSane, Used;
    var r := Reset(S, t, fs);
    ResetOk(S, t, fs);
    ResetKeeps(S, t, fs);
    DefaultsShaped(S, t);
    DefaultsBacked(S, t, fs);
    StructLength(S, t, r);
    if Used(S, t) {
      ResetTidy(S, t, fs);
      AgainUntouched(S, t, Start(Defaults(S, t)), r);
      if Tight(S) {
        TightUsed(S, t);
        PointerFreeOwnsNothing(S, t, fs);
      }
    } else {
      BlocklessTidy(S, t, r);
      EmptyUntouched(S, t, Start(Defaults(S, t)), r);
    }
    if Clean(S) && AllSane(fs) {
      ResetSane(S, t, fs);
    }
  }

  // ---- what a record means for its field ----

  /** Value and memory of one field belong together. */
  ghost predicate CellFits(S: Schema, t: nat, run: Run, i: nat, c: Cell) {
    && t < |S| && i < |S[t]| == |run.m|
    && CellOk(S, S[t][i], c) && TidyCell(S, t, S[t][i], c)
    && ShapedSlot(S, t, S[t][i], run.m[i]) && BackedSlot(S, S[t][i], run.m[i], c)
  }

  /** What is known of the elements of the field that are still to come. */
  ghost predicate CellWaits(S: Schema, t: nat, run: Run, past: Slots, i: nat, c: Cell) {
    CellUntouched(S, t, run, i, c) && CellPast(S, t, past, run.m, i, c)
  }

  ghost predicate CellPast(S: Schema, t: nat, past: Slots, m: Slots, i: nat, c: Cell) {
    t < |S| && i < |S[t]| && i < |past| && i < |m| ==> PastSlot(S, S[t][i], past[i], m[i], c)
  }

  /** The record is decoded. */
  predicate FieldAccepted(S: Schema, t: nat, run: Run, i: nat, w: nat, b: bytes) {
    t < |S| && i < |S[t]| == |run.m| && DecField(S, S[t], run, i, w, b).Ok?
  }

  /** The record is decoded, and the cell stands behind the new value. */
  ghost predicate FieldBacked(S: Schema, t: nat, run: Run, past: Slots, i: nat, w: nat, b: bytes, c: Cell) {
    && FieldAccepted(S, t, run, i, w, b)
    && var m := DecField(S, S[t], run, i, w, b).value.m;
       i < |m| && BackedSlot(S, S[t][i], m[i], c) && CellPast(S, t, past, m, i, c)
  }

  ghost predicate FieldHarms(S: Schema, t: nat, run: Run, past: Slots, i: nat, b: bytes, h: Harm) {
    t < |S| && i < |S[t]| == |run.m| && HarmsRecord(S, t, run, past, i, b, h)
  }

  /** The elements behind the one the record is for are as they were. */
  predicate LaterKept(table: Table, run: Run, i: nat, c: Cell, c': Cell) {
    && i < |table| == |run.m| && run.m[i].Many? && |c'.ItemCells()| == |c.ItemCells()|
    && forall k :: CountOf(table, run, i) < k < |c.ItemCells()| ==> c'.ItemCells()[k] == c.ItemCells()[k]
  }

  lemma InPlaceRecord(S: Schema, t: nat, run: Run, i: nat, w: nat, b: bytes)
    requires SchemaOk(S) && t < |S| && i < |S[t]| == |run.m| && InPlace(S[t][i]) && ShapedSlot(S, t, S[t][i], run.m[i])
    ensures S[t][i].ptr.Table? && S[t][i].ptr.id < t && run.m[i].One? && run.m[i].v.Sub?
    ensures Shaped(S, S[t][i].ptr.id, run.m[i].v.slots)
    ensures var id, start, p := S[t][i].ptr.id, run.m[i].v.slots, DecField(S, S[t], run, i, w, b);
            && (p.Ok? <==> SubAccepted(S, id, start, b))
            && (p.Ok? ==> i < |p.value.m| && p.value.m[i] == One(true, Sub(SubValue(S, id, start, b))))
  {
    hide SchemaOk, DecPrefixed, DecMessage, Shaped;
    FieldFacts(S, t, i);
  }

  lemma ElementRecord(S: Schema, t: nat, run: Run, i: nat, w: nat, b: bytes)
    requires SchemaOk(S) && t < |S| && i < |S[t]| == |run.m| && ShapedSlot(S, t, S[t][i], run.m[i])
    requires S[t][i].ltype.Submessage? && S[t][i].htype.Repeated? && Ready(S[t], run, i)
    ensures S[t][i].ptr.Table? && S[t][i].ptr.id < |S| && run.m[i].Many?
    ensures var id, n, p := S[t][i].ptr.id, CountOf(S[t], run, i), DecField(S, S[t], run, i, w, b);
            && (p.Ok? <==> n < Capacity(S[t][i]) && SubAccepted(S, id, Defaults(S, id), b))
            && (p.Ok? ==> i < |p.value.m| &&
                          p.value.m[i] == Many(Put(run.m[i].items, n, Sub(SubValue(S, id, Defaults(S, id), b)))))
  {
    hide SchemaOk, DecPrefixed, DecMessage, Defaults;
    FieldFacts(S, t, i);
    var f, items, n := S[t][i], run.m[i].items, CountOf(S[t], run, i);
    assert Fresh(S, f) == Defaults(S, f.ptr.id);
    assert DecItem(S, f, Fresh(S, f), b).Ok? <==> SubAccepted(S, f.ptr.id, Defaults(S, f.ptr.id), b);
    assert DecRepeated(S, f, items, n, w, b).Ok? <==> n < Capacity(f) && DecItem(S, f, Fresh(S, f), b).Ok?;
  }

  // ---- static fields ----

  /** A record of a submessage in place. */
  method DecodeInPlace(S: Schema, t: nat, run: Run, ghost past: Slots, i: nat, c: Cell, w: nat, b: bytes, heap: Heap,
                       ghost rest: multiset<nat>)
    returns (ok: bool, c': Cell)
    requires Supported(S) && CellFits(S, t, run, i, c) && CellWaits(S, t, run, past, i, c)
    requires InPlace(S[t][i]) && heap.Accounts(rest + Blocks(c))
    modifies heap
    ensures CellOk(S, S[t][i], c') && TidyCell(S, t, S[t][i], c') && heap.Accounts(rest + Blocks(c'))
    ensures Careful(S, old(heap.lost), heap.lost, old(heap.wild), heap.wild, Sane(c), Sane(c'))
    ensures Agrees(heap, ok, FieldAccepted(S, t, run, i, w, b))
    ensures ok ==> FieldBacked(S, t, run, past, i, w, b, c')
    ensures Done(heap, FieldHarms(S, t, run, past, i, b, LostBlock), FieldHarms(S, t, run, past, i, b, TornPointer),
                 heap.lost, heap.wild, ShowsTorn(c'))
    decreases |b|, 1
  {
    hide SchemaOk, NoUnions, CountsAhead, StructOk, Tidy, Tight, Clean, Backed, Shaped, AllBlocks, Untouched, PastHeld;
    hide SubAccepted;
    hide DecField, HarmsRecord, HarmsLoop, ShowsTorn, Sane, CellFits, CellWaits, Careful, FieldHarms, SubHarms;
    hide FieldAccepted, FieldBacked;
    hide CellOk, TidyCell, BackedSlot, ShapedSlot, SubValue, Blocks, Linked, Waits;
    FitIndex(S, t, run, i, c);
    InPlaceRecord(S, t, run, i, w, b);
    AcceptedField(S, t, run, i, w, b);
    var f, id, start, inner := S[t][i], S[t][i].ptr.id, run.m[i].v.slots, Inner(past, i);
    InPlaceFacts(S, t, run, past, i, c);
    InPlaceHarms(S, t, run, past, i, b, LostBlock);
    InPlaceHarms(S, t, run, past, i, b, TornPointer);
    ok, c' := DecodeSingle(S, id, c, start, inner, b, heap, rest);
    InlineStored(S, t, f, c');
    if ok {
      InPlaceDone(S, t, run, past, i, w, b, c');
    }
  }

  lemma InlineStored(S: Schema, t: nat, f: Field, c: Cell)
    requires InPlace(f) && f.ptr.Table? && f.ptr.id < |S| && c.Inline? && StructOk(S, f.ptr.id, c.parts) &&
             Tidy(S, f.ptr.id, c.parts)
    ensures CellOk(S, f, c) && TidyCell(S, t, f, c)
  {
    hide StructOk, Tidy;
  }

  lemma InPlaceFacts(S: Schema, t: nat, run: Run, past: Slots, i: nat, c: Cell)
    requires CellFits(S, t, run, i, c) && CellWaits(S, t, run, past, i, c) && InPlace(S[t][i])
    requires run.m[i].One? && run.m[i].v.Sub? && S[t][i].ptr.Table? && S[t][i].ptr.id < |S|
    requires Shaped(S, S[t][i].ptr.id, run.m[i].v.slots)
    ensures c.Inline? && Linked(S, S[t][i].ptr.id, run.m[i].v.slots, c.parts)
    ensures Waits(S, S[t][i].ptr.id, Start(run.m[i].v.slots), Inner(past, i), c.parts)
  {
    hide SchemaOk, NoUnions, CountsAhead, StructOk, Tidy, Backed, Shaped, Untouched, FilledAgain;
    var f := S[t][i];
    assert InlineOk(S, f, c) && BackedItem(S, f, run.m[i].v, c);
    StructLength(S, f.ptr.id, c.parts);
    assert DecodedInto(S, f.ptr.id);
    AgainUntouched(S, f.ptr.id, Start(run.m[i].v.slots), c.parts);
    if i < |past| && past[i].One? && past[i].v.Sub? {
      hide PastHeld;
      assert PastSlot(S, f, past[i], run.m[i], c);
    }
  }

  lemma InPlaceHarms(S: Schema, t: nat, run: Run, past: Slots, i: nat, b: bytes, h: Harm)
    requires t < |S| && i < |S[t]| == |run.m| && InPlace(S[t][i]) && run.m[i].One? && run.m[i].v.Sub?
    ensures FieldHarms(S, t, run, past, i, b, h) && S[t][i].ptr.Table? ==>
              SubHarms(S, S[t][i].ptr.id, run.m[i].v.slots, Inner(past, i), b, h)
    ensures FieldHarms(S, t, run, past, i, b, h) ==> S[t][i].ptr.Table?
  {
    hide HarmsLoop, DecPrefixed;
  }

  lemma InPlaceDone(S: Schema, t: nat, run: Run, past: Slots, i: nat, w: nat, b: bytes, c: Cell)
    requires t < |S| && i < |S[t]| == |run.m| && InPlace(S[t][i]) && S[t][i].ptr.Table? && S[t][i].ptr.id < |S|
    requires run.m[i].One? && run.m[i].v.Sub? && c.Inline? && SubAccepted(S, S[t][i].ptr.id, run.m[i].v.slots, b)
    requires var p := DecField(S, S[t], run, i, w, b);
             p.Ok? && i < |p.value.m| && p.value.m[i] == One(true, Sub(SubValue(S, S[t][i].ptr.id, run.m[i].v.slots, b)))
    requires var v := SubValue(S, S[t][i].ptr.id, run.m[i].v.slots, b);
             Backed(S, S[t][i].ptr.id, v, c.parts) && PastHeld(S, S[t][i].ptr.id, Inner(past, i), v, c.parts)
    ensures FieldBacked(S, t, run, past, i, w, b, c)
  {
    hide DecField, SubAccepted, SubValue, Backed, PastHeld;
    var m, f := DecField(S, S[t], run, i, w, b).value.m, S[t][i];
    assert BackedSlot(S, f, m[i], c);
    assert i < |past| ==> PastSlot(S, f, past[i], m[i], c);
    assert CellPast(S, t, past, m, i, c);
    assert FieldAccepted(S, t, run, i, w, b);
  }

  /** A record of a static array of submessages: the next element, or the element at the count, which is raised first. */
  method DecodeItem(S: Schema, t: nat, run: Run, ghost past: Slots, i: nat, c: Cell, w: nat, b: bytes, heap: Heap,
                    ghost rest: multiset<nat>)
    returns (ok: bool, c': Cell)
    requires Supported(S) && CellFits(S, t, run, i, c) && CellWaits(S, t, run, past, i, c) &&
             heap.Accounts(rest + Blocks(c))
    requires StaticSubs(S[t][i]) && Ready(S[t], run, i)
    modifies heap
    ensures CellOk(S, S[t][i], c') && TidyCell(S, t, S[t][i], c') && heap.Accounts(rest + Blocks(c'))
    ensures Careful(S, old(heap.lost), heap.lost, old(heap.wild), heap.wild, Sane(c), Sane(c'))
    ensures Agrees(heap, ok, FieldAccepted(S, t, run, i, w, b))
    ensures ok ==> FieldBacked(S, t, run, past, i, w, b, c')
    ensures Done(heap, FieldHarms(S, t, run, past, i, b, LostBlock), FieldHarms(S, t, run, past, i, b, TornPointer),
                 heap.lost, heap.wild, ShowsTorn(c'))
    ensures LaterKept(S[t], run, i, c, c')
    decreases |b|, 1
  {
    hide SchemaOk, NoUnions, CountsAhead, StructOk, Tidy, Tight, Clean, Held, Shaped, SubAccepted, SubValue, DecField;
    hide Defaults;
    hide CellOk, TidyCell, BackedSlot, ShapedSlot, HarmsRecord, HarmsElement, Blocks, AllBlocks, Others, CellUntouched;
    hide CellPast, CellFits;
    hide DecPrefixed, Backed, Used, Sane, ShowsTorn, Careful, AllSane, InlineOk, TidyItem, FieldBacked, CellWaits, Was;
    hide FieldHarms, ItemHarms, LaterKept, FieldAccepted, FixedComplete, Ready;
    FitIndex(S, t, run, i, c);
    ItemFacts(S, t, run, i, c);
    ElementRecord(S, t, run, i, w, b);
    AcceptedField(S, t, run, i, w, b);
    var f, id, n := S[t][i], S[t][i].ptr.id, CountOf(S[t], run, i);
    hide CountOf;
    ghost var v := Was(run.m[i].items, past, i, n);
    RecordHarms(S, t, run, past, i, b, LostBlock);
    RecordHarms(S, t, run, past, i, b, TornPointer);
    CarefulSame(S, heap.lost, heap.wild, Sane(c));
    c' := c;
    if n >= f.arraySize {
      Overflow(S, t, run, i, c);
      c' := if FixedCount(f) then c else Items(c.parts, n + 1);
      return false, c';
    }
    var cell := c.parts[n];
    ElementFacts(S, t, run, past, i, c, n);
    ItemsBlocks(c);
    BlocksAt(c.parts, n, cell);
    ghost var others, lost, wild := rest + Others(c.parts, n), heap.lost, heap.wild;
    assert rest + Blocks(c) == others + Blocks(cell);
    var item;
    ok, item := DecodeElement(S, id, cell, v, b, heap, others);
    BlocksAt(c.parts, n, item);
    c' := Items(c.parts[n := item], if FixedCount(f) then c.count else n + 1);
    ItemsBlocks(c');
    assert rest + Blocks(c') == others + Blocks(item);
    ItemStored(S, t, run, i, c, n, item);
    ItemSane(S, c, n, item, c'.count, lost, heap.lost, wild, heap.wild);
    if ok {
      ItemBacked(S, t, run, past, i, w, b, c, n, item);
    }
  }

  /** When the array is full, its count is one higher afterwards. */
  lemma Overflow(S: Schema, t: nat, run: Run, i: nat, c: Cell)
    requires t < |S| && i < |S[t]| == |run.m| && StaticSubs(S[t][i]) && CellOk(S, S[t][i], c) && TidyCell(S, t, S[t][i], c)
    requires c.Items? && LaterKept(S[t], run, i, c, c) && c.count <= |c.parts|
    ensures var c' := if FixedCount(S[t][i]) then c else Items(c.parts, |c.parts| + 1);
            && CellOk(S, S[t][i], c') && TidyCell(S, t, S[t][i], c') && LaterKept(S[t], run, i, c, c')
            && Blocks(c') == Blocks(c) && Sane(c') == Sane(c) && (ShowsTorn(c) ==> ShowsTorn(c'))
  {
    hide InlineOk, TidyItem, AllBlocks, AllSane, Used;
  }

  lemma ItemsBlocks(c: Cell)
    requires c.Items? || c.Inline?
    ensures Blocks(c) == AllBlocks(c.parts)
  {
  }

  lemma ItemFacts(S: Schema, t: nat, run: Run, i: nat, c: Cell)
    requires CellFits(S, t, run, i, c)
    requires StaticSubs(S[t][i]) && Ready(S[t], run, i)
    ensures t < |S| && i < |S[t]| == |run.m| && CellOk(S, S[t][i], c) && ShapedSlot(S, t, S[t][i], run.m[i])
    ensures c.Items? && run.m[i].Many? && |c.parts| == S[t][i].arraySize && c.count == |run.m[i].items| <= |c.parts|
    ensures Capacity(S[t][i]) == S[t][i].arraySize && LaterKept(S[t], run, i, c, c)
    ensures !FixedCount(S[t][i]) ==> CountOf(S[t], run, i) == c.count
    ensures FixedCount(S[t][i]) ==> c.count == |c.parts| && Ahead(run, i, CountOf(S[t], run, i))
  {
    hide Shaped, StructOk, Tidy;
  }

  lemma RecordHarms(S: Schema, t: nat, run: Run, past: Slots, i: nat, b: bytes, h: Harm)
    requires t < |S| && i < |S[t]| == |run.m| && run.m[i].Many?
    ensures FieldHarms(S, t, run, past, i, b, h) ==>
              var n := CountOf(S[t], run, i);
              S[t][i].ptr.Table? && n < S[t][i].arraySize &&
              ItemHarms(S, S[t][i].ptr.id, Was(run.m[i].items, past, i, n), b, h)
  {
    hide HarmsElement, DecPrefixed;
  }

  /** The memory of the element that a record is decoded into. */
  lemma ElementFacts(S: Schema, t: nat, run: Run, past: Slots, i: nat, c: Cell, n: nat)
    requires Supported(S) && CellFits(S, t, run, i, c) && CellWaits(S, t, run, past, i, c)
    requires StaticSubs(S[t][i]) && Ready(S[t], run, i)
    requires c.Items? && n == CountOf(S[t], run, i) < |c.parts| && run.m[i].Many? && c.count == |run.m[i].items|
    requires FixedCount(S[t][i]) ==> Ahead(run, i, n)
    requires !FixedCount(S[t][i]) ==> n == c.count
    ensures S[t][i].ptr.Table? && S[t][i].ptr.id < |S|
    ensures var id, cell, v := S[t][i].ptr.id, c.parts[n], Was(run.m[i].items, past, i, n);
            && cell.Inline? && StructOk(S, id, cell.parts) && Tidy(S, id, cell.parts)
            && (!Used(S, id) ==> Blocks(cell) == multiset{})
            && (v.Sub? ==> Held(S, id, v.slots, cell.parts))
  {
    FieldFacts(S, t, i);
    ElementOk(S, t, run, i, c, n);
    ElementHeld(S, t, run, past, i, c, n);
    hide SchemaOk, NoUnions, CountsAhead, StructOk, Tidy, Held, Blocks, Used, CellFits, CellWaits, CellUntouched, Was;
    var id := S[t][i].ptr.id;
    if !Used(S, id) {
      ElementEmpty(S, t, run, i, c, n);
    }
  }

  lemma ElementOk(S: Schema, t: nat, run: Run, i: nat, c: Cell, n: nat)
    requires CellFits(S, t, run, i, c) && StaticSubs(S[t][i])
    requires c.Items? && n < |c.parts|
    ensures S[t][i].ptr.Table? && S[t][i].ptr.id < |S|
    ensures c.parts[n].Inline? && StructOk(S, S[t][i].ptr.id, c.parts[n].parts) && Tidy(S, S[t][i].ptr.id, c.parts[n].parts)
  {
    hide StructOk, Tidy, Shaped, BackedSlot, Used;
    assert InlineOk(S, S[t][i], c.parts[n]) && TidyItem(S, t, S[t][i], c.parts[n]);
  }

  /** The memory of an element owns nothing, unless it is initialised while in use. */
  lemma ElementEmpty(S: Schema, t: nat, run: Run, i: nat, c: Cell, n: nat)
    requires t < |S| && i < |S[t]| && c.Items? && n < |c.parts| && TidyCell(S, t, S[t][i], c) &&
             CellUntouched(S, t, run, i, c)
    requires StaticSubs(S[t][i]) && (if FixedCount(S[t][i]) then Ahead(run, i, n) else n == c.count)
    requires S[t][i].ptr.Table? && S[t][i].ptr.id < t && !Used(S, S[t][i].ptr.id)
    ensures Blocks(c.parts[n]) == multiset{}
  {
    hide Used, FilledAgain, Blocks, TidyItem;
    var id := S[t][i].ptr.id;
    if UsedBy(S, t, i, id) {
      OneUser(S, t, i, id);
      assert false;
    }
    if FixedCount(S[t][i]) {
      assert !FilledAgain(S, t, i);
      assert c.ItemCells()[n] == c.parts[n];
    }
  }

  lemma OneUser(S: Schema, p: nat, i: nat, t: nat)
    requires t < p < |S| && i < |S[p]| && UsedBy(S, p, i, t)
    ensures Used(S, t)
  {
  }

  lemma ElementHeld(S: Schema, t: nat, run: Run, past: Slots, i: nat, c: Cell, n: nat)
    requires CellFits(S, t, run, i, c) && CellWaits(S, t, run, past, i, c) && S[t][i].ptr.Table? && S[t][i].ptr.id < |S|
    requires StaticSubs(S[t][i])
    requires c.Items? && n < |c.parts| && run.m[i].Many? && c.count == |run.m[i].items|
    ensures var v := Was(run.m[i].items, past, i, n);
            v.Sub? ==> c.parts[n].Inline? && Held(S, S[t][i].ptr.id, v.slots, c.parts[n].parts)
  {
    hide StructOk, Tidy, Shaped, Backed, Held, CellUntouched;
    var f, items := S[t][i], run.m[i].items;
    if n < |items| && items[n].Sub? {
      BackedItemHeld(S, f, items[n], c.parts[n]);
    } else if i < |past| && past[i].Many? && n < |past[i].items| {
      assert Waiting(items, n);
      assert HeldItem(S, f, past[i].items[n], c.parts[n]);
    }
  }

  lemma ItemStored(S: Schema, t: nat, run: Run, i: nat, c: Cell, n: nat, item: Cell)
    requires CellFits(S, t, run, i, c) && StaticSubs(S[t][i])
    requires c.Items? && n == CountOf(S[t], run, i) < |c.parts| && run.m[i].Many? && S[t][i].ptr.Table? &&
             S[t][i].ptr.id < |S|
    requires !FixedCount(S[t][i]) ==> n == c.count
    requires FixedCount(S[t][i]) ==> c.count == |c.parts|
    requires item.Inline? && StructOk(S, S[t][i].ptr.id, item.parts) && Tidy(S, S[t][i].ptr.id, item.parts)
    ensures var c' := Items(c.parts[n := item], if FixedCount(S[t][i]) then c.count else n + 1);
            CellOk(S, S[t][i], c') && TidyCell(S, t, S[t][i], c') && LaterKept(S[t], run, i, c, c')
  {
    hide StructOk, Tidy, Shaped, BackedSlot, CountOf, Used;
    var c' := Items(c.parts[n := item], if FixedCount(S[t][i]) then c.count else n + 1);
    forall k | 0 <= k < |c'.parts|
      ensures InlineOk(S, S[t][i], c'.parts[k]) && TidyItem(S, t, S[t][i], c'.parts[k])
    {
      assert InlineOk(S, S[t][i], c.parts[k]) && TidyItem(S, t, S[t][i], c.parts[k]);
    }
  }

  lemma ItemSane(S: Schema, c: Cell, n: nat, item: Cell, count: nat, lost: multiset<nat>, lost': multiset<nat>, wild: bool,
                 wild': bool)
    requires c.Items? && n < |c.parts| && n < count
    requires Careful(S, lost, lost', wild, wild', Sane(c.parts[n]), Sane(item))
    ensures var c' := Items(c.parts[n := item], count);
            Careful(S, lost, lost', wild, wild', Sane(c), Sane(c')) && (ShowsTorn(item) ==> ShowsTorn(c'))
  {
    hide Tight, Clean;
    var c' := Items(c.parts[n := item], count);
    assert ShowsTorn(item) ==> ShowsTorn(c'.parts[n]);
    if Sane(c) && Sane(item) {
      assert AllSane(c.parts);
      assert forall k :: 0 <= k < |c.parts| ==> Sane(c.parts[k]);
      assert AllSane(c'.parts);
    }
  }

  lemma ItemBacked(S: Schema, t: nat, run: Run, past: Slots, i: nat, w: nat, b: bytes, c: Cell, n: nat, item: Cell)
    requires CellFits(S, t, run, i, c) && CellWaits(S, t, run, past, i, c)
    requires StaticSubs(S[t][i])
    requires c.Items? && n == CountOf(S[t], run, i) < |c.parts| && run.m[i].Many? && c.count == |run.m[i].items|
    requires S[t][i].ptr.Table? && S[t][i].ptr.id < |S| && item.Inline?
    requires !FixedCount(S[t][i]) ==> n == c.count
    requires FixedCount(S[t][i]) ==> c.count == |c.parts|
    requires SubAccepted(S, S[t][i].ptr.id, Defaults(S, S[t][i].ptr.id), b)
    requires var v, p := SubValue(S, S[t][i].ptr.id, Defaults(S, S[t][i].ptr.id), b), DecField(S, S[t], run, i, w, b);
             p.Ok? && i < |p.value.m| && p.value.m[i] == Many(Put(run.m[i].items, n, Sub(v))) &&
             Backed(S, S[t][i].ptr.id, v, item.parts)
    ensures FieldBacked(S, t, run, past, i, w, b, Items(c.parts[n := item], if FixedCount(S[t][i]) then c.count else n + 1))
  {
    hide DecField, SubAccepted, SubValue, Backed, Defaults, StructOk, Tidy, Shaped, CellUntouched, CountOf, Held, CellOk;
    hide TidyCell;
    var f, items, id := S[t][i], run.m[i].items, S[t][i].ptr.id;
    var v := Sub(SubValue(S, id, Defaults(S, id), b));
    var c', values := Items(c.parts[n := item], if FixedCount(f) then c.count else n + 1), Put(items, n, v);
    forall k | 0 <= k < |values|
      ensures BackedItem(S, f, values[k], c'.parts[k])
    {
      if k != n {
        assert BackedItem(S, f, items[k], c.parts[k]);
      }
    }
    assert BackedSlot(S, f, Many(values), c');
    if i < |past| && past[i].Many? {
      forall k: nat | k < |past[i].items| && k < |c'.parts| && Waiting(values, k)
        ensures HeldItem(S, f, past[i].items[k], c'.parts[k])
      {
        assert Waiting(items, k);
      }
    }
  }

  // ---- pointer fields ----

  /** The verdict on the item in front of b that is stored behind a pointer. */
  predicate PointeeAccepted(S: Schema, f: Field, b: bytes) {
    if f.ltype.Submessage? then f.ptr.Table? && f.ptr.id < |S| && SubAccepted(S, f.ptr.id, Defaults(S, f.ptr.id), b)
    else if TextType(f.ltype) then DecBlob(f, b).Ok?
    else DecItem(S, f, [], b).Ok?
  }

  lemma PointeeItem(S: Schema, f: Field, b: bytes)
    requires f.ltype.Submessage? ==> f.ptr.Table? && f.ptr.id < |S|
    ensures DecItem(S, f, Fresh(S, f), b).Ok? <==> PointeeAccepted(S, f, b)
    ensures f.ltype.Submessage? && PointeeAccepted(S, f, b) ==>
              DecItem(S, f, Fresh(S, f), b).value == Sub(SubValue(S, f.ptr.id, Defaults(S, f.ptr.id), b))
  {
    hide DecPrefixed, DecMessage, Defaults, DecBlob, DecScalar;
  }

  lemma SinglePointerRecord(S: Schema, t: nat, run: Run, i: nat, w: nat, b: bytes)
    requires Supported(S) && t < |S| && i < |S[t]| == |run.m| && ShapedSlot(S, t, S[t][i], run.m[i])
    requires S[t][i].atype.Pointer? && !S[t][i].htype.Repeated?
    ensures var p := DecField(S, S[t], run, i, w, b);
            && (p.Ok? <==> PointeeAccepted(S, S[t][i], b))
            && (p.Ok? ==> i < |p.value.m| && p.value.m[i] == One(true, DecItem(S, S[t][i], Fresh(S, S[t][i]), b).value))
  {
    hide SchemaOk, DecItem, PointeeAccepted, Fresh;
    FieldFacts(S, t, i);
    PointeeItem(S, S[t][i], b);
  }

  lemma PointerItemRecord(S: Schema, t: nat, run: Run, i: nat, w: nat, b: bytes)
    requires Supported(S) && t < |S| && i < |S[t]| == |run.m| && ShapedSlot(S, t, S[t][i], run.m[i])
    requires S[t][i].atype.Pointer? && S[t][i].htype.Repeated? && !(w == 2 && Packable(S[t][i].ltype))
    ensures run.m[i].Many?
    ensures var items, p := run.m[i].items, DecField(S, S[t], run, i, w, b);
            && (p.Ok? <==> |items| < PB_SIZE_MAX && PointeeAccepted(S, S[t][i], b))
            && (p.Ok? ==> i < |p.value.m| &&
                          p.value.m[i] == Many(items + [DecItem(S, S[t][i], Fresh(S, S[t][i]), b).value]))
  {
    hide SchemaOk, DecItem, PointeeAccepted, Fresh;
    FieldFacts(S, t, i);
    PointeeItem(S, S[t][i], b);
    var f, items := S[t][i], run.m[i].items;
    assert DecRepeated(S, f, items, |items|, w, b).Ok? <==> |items| < PB_SIZE_MAX && DecItem(S, f, Fresh(S, f), b).Ok?;
  }

  lemma PointerPackedRecord(S: Schema, t: nat, run: Run, i: nat, b: bytes)
    requires Supported(S) && t < |S| && i < |S[t]| == |run.m| && ShapedSlot(S, t, S[t][i], run.m[i])
    requires S[t][i].atype.Pointer? && S[t][i].htype.Repeated? && Packable(S[t][i].ltype)
    ensures run.m[i].Many?
    ensures var f, items, q, p := S[t][i], run.m[i].items, DecPrefixed(b), DecField(S, S[t], run, i, 2, b);
            && (p.Ok? <==> q.Ok? && DecPacked(f, items, |items|, q.value).Some?)
            && (p.Ok? ==> i < |p.value.m| && p.value.m[i] == Many(DecPacked(f, items, |items|, q.value).value.0))
  {
    hide SchemaOk, DecPacked, DecPrefixed;
    FieldFacts(S, t, i);
  }

  /** An element in memory that has been cleared and initialised. */
  method ClearedItem(S: Schema, id: nat) returns (item: Cell)
    requires Supported(S) && id < |S|
    ensures item.Inline? && StructOk(S, id, item.parts) && Blocks(item) == multiset{} && Sane(item)
    ensures Linked(S, id, Defaults(S, id), item.parts) && Waits(S, id, Start(Defaults(S, id)), [], item.parts)
  {
    hide NoUnions, SchemaOk, CountsAhead, StructOk, AllBlocks, Backed, Shaped, Reset, Tidy, Clean, Used, Tight, AllSane;
    hide Defaults;
    hide AllCleared, AllNull, Untouched;
    var fs := NullStruct(S, id);
    NullStructOk(S, id);
    ClearedOwnsNothing(fs);
    var r := Reset(S, id, fs);
    ResetOk(S, id, fs);
    ResetKeeps(S, id, fs);
    assert AllBlocks(r) == multiset{};
    DefaultsShaped(S, id);
    DefaultsBacked(S, id, fs);
    BlocklessTidy(S, id, r);
    StructLength(S, id, r);
    EmptyUntouched(S, id, Start(Defaults(S, id)), r);
    ResetSane(S, id, fs);
    item := Inline(r);
  }

  /** The new content of a pointer slot or array: a cleared item, decoded. */
  method DecodePointee(S: Schema, t: nat, i: nat, b: bytes, heap: Heap, ghost others: multiset<nat>)
    returns (ok: bool, item: Cell)
    requires Supported(S) && t < |S| && i < |S[t]| && S[t][i].htype.Repeated? && heap.Accounts(others)
    modifies heap
    ensures ItemOk(S, S[t][i], item) && TidyItem(S, t, S[t][i], item) && heap.Accounts(others + Blocks(item))
    ensures Careful(S, old(heap.lost), heap.lost, old(heap.wild), heap.wild, true, Sane(item))
    ensures Agrees(heap, ok, PointeeAccepted(S, S[t][i], b))
    ensures ok && S[t][i].ltype.Submessage? ==>
            BackedItem(S, S[t][i], DecItem(S, S[t][i], Fresh(S, S[t][i]), b).value, item)
    decreases |b|, 1
  {
    var f := S[t][i];
    FieldFacts(S, t, i);
    PointeeItem(S, f, b);
    hide NoUnions, SchemaOk, CountsAhead, StructOk, Tidy, Tight, Clean, AllBlocks, Backed, Shaped, SubAccepted, DecItem;
    hide Fresh, DecBlob;
    hide AllSane, Untouched, PastHeld, Used, Held, ItemHarms, Defaults, SubValue;
    if f.ltype.Submessage? {
      item := ClearedItem(S, f.ptr.id);
      assert others == others + Blocks(item);
      ok, item := DecodeElement(S, f.ptr.id, item, Indeterminate, b, heap, others);
    } else if TextType(f.ltype) {
      item := Cell.Pointer(0, []);
      BareBlock(item);
      assert others == others + Blocks(item);
      ok, item := DecodeText(f, item, b, heap, others);
      BareSane(item);
    } else {
      item := Plain;
      assert others == others + Blocks(item);
      ok := DecItem(S, f, [], b).Ok?;
    }
  }

  lemma BareSane(c: Cell)
    requires c.Pointer? && forall k :: 0 <= k < |c.parts| ==> c.parts[k].Plain?
    ensures Sane(c)
  {
  }

  /** A pointer to a submessage: an old one is released first, and the new one starts from zero. */
  method DecodePointerSubmessage(S: Schema, t: nat, run: Run, ghost past: Slots, i: nat, c: Cell, w: nat, b: bytes,
                                 heap: Heap, ghost rest: multiset<nat>)
    returns (ok: bool, c': Cell)
    requires Supported(S) && CellFits(S, t, run, i, c) && heap.Accounts(rest + Blocks(c))
    requires S[t][i].atype.Pointer? && !S[t][i].htype.Repeated? && S[t][i].ltype.Submessage?
    modifies heap
    ensures CellOk(S, S[t][i], c') && TidyCell(S, t, S[t][i], c') && heap.Accounts(rest + Blocks(c'))
    ensures Careful(S, old(heap.lost), heap.lost, old(heap.wild), heap.wild, Sane(c), Sane(c'))
    ensures Agrees(heap, ok, FieldAccepted(S, t, run, i, w, b))
    ensures ok ==> FieldBacked(S, t, run, past, i, w, b, c')
    decreases |b|, 1
  {
    hide NoUnions, SchemaOk, CountsAhead, StructOk, Tidy, Tight, Clean, AllBlocks, Backed, Shaped, SubAccepted, DecField;
    hide DecItem, Fresh;
    hide Untouched, CellOk, BackedSlot, TidyCell, ShapedSlot, Blocks, BackedItem, InlineOk, Defaults, SubValue, Sane;
    hide Careful, PastHeld;
    hide SubHarms, FieldBacked, Waits, Linked, CellFits, FieldAccepted;
    FitIndex(S, t, run, i, c);
    var f := S[t][i];
    LivePointer(S, t, run, i, c);
    SinglePointerRecord(S, t, run, i, w, b);
    PointeeItem(S, f, b);
    AcceptedField(S, t, run, i, w, b);
    NullPointer(S, t, f);
    ghost var lost0, wild0 := heap.lost, heap.wild;
    c' := ReleaseOld(S, t, f, c, heap, rest);
    assert rest == rest + Own(0);
    ghost var lost1, wild1 := heap.lost, heap.wild;
    var block := heap.Realloc(0, rest);
    if block == 0 {
      return false, c';
    }
    var item := ClearedItem(S, f.ptr.id);
    ghost var others := rest + Own(block);
    assert others == others + Blocks(item);
    ok, item := DecodeSingle(S, f.ptr.id, item, Defaults(S, f.ptr.id), [], b, heap, others);
    BlocksSingle(item);
    c' := Cell.Pointer(block, [item]);
    PointerBlocks(c');
    assert rest + Blocks(c') == others + Blocks(item);
    SinglePointerOk(S, t, f, block, item);
    CarefulStep(S, lost0, lost1, heap.lost, wild0, wild1, heap.wild, Sane(c), true, Sane(item));
    if ok {
      SinglePointerBacked(S, t, run, past, i, w, b, block, item, SubValue(S, f.ptr.id, Defaults(S, f.ptr.id), b));
    }
  }

  lemma LivePointer(S: Schema, t: nat, run: Run, i: nat, c: Cell)
    requires CellFits(S, t, run, i, c) && S[t][i].atype.Pointer?
    ensures c.Pointer?
  {
    hide CellOk, TidyCell, ShapedSlot;
  }

  /** What the slot points to is released; then it is NULL. */
  method ReleaseOld(S: Schema, t: nat, f: Field, c: Cell, heap: Heap, ghost rest: multiset<nat>) returns (c': Cell)
    requires Supported(S) && t < |S| && f in S[t] && CellOk(S, f, c) && TidyCell(S, t, f, c) && c.Pointer? &&
             f.atype.Pointer?
    requires heap.Accounts(rest + Blocks(c))
    modifies heap
    ensures c' == Cell.Pointer(0, []) && heap.Accounts(rest) && heap.Accounts(rest + Blocks(c'))
    ensures Careful(S, old(heap.lost), heap.lost, old(heap.wild), heap.wild, Sane(c), true)
  {
    var i :| 0 <= i < |S[t]| && S[t][i] == f;
    hide NoUnions, SchemaOk, CountsAhead, CellOk, TidyCell, AllBlocks, Sane, Tight, Clean, Hidden;
    c' := c;
    if c.block != 0 {
      ghost var lost := heap.lost;
      c' := ReleaseField(S, t, f, c, heap, rest);
      BareBlock(c');
      assert Own(0) == multiset{};
      if Tight(S) {
        TightHiddenCell(S, t, i, c);
        assert heap.lost + multiset{} == lost + multiset{};
        assert heap.lost + multiset{} == heap.lost && lost + multiset{} == lost;
      }
    } else {
      NullBlock(S, f, c);
    }
    BareBlock(c');
    assert rest == rest + Own(0);
  }

  lemma NullBlock(S: Schema, f: Field, c: Cell)
    requires CellOk(S, f, c) && c.Pointer? && c.block == 0 && f.atype.Pointer?
    ensures c == Cell.Pointer(0, [])
  {
  }

  lemma SinglePointerOk(S: Schema, t: nat, f: Field, block: nat, item: Cell)
    requires f.atype.Pointer? && !f.htype.Repeated? && f.ltype.Submessage? && block != 0
    requires item.Inline? && f.ptr.Table? && f.ptr.id < |S| && StructOk(S, f.ptr.id, item.parts) &&
             Tidy(S, f.ptr.id, item.parts)
    ensures var c := Cell.Pointer(block, [item]); CellOk(S, f, c) && TidyCell(S, t, f, c) && Sane(c) == Sane(item)
  {
    hide StructOk, Tidy;
    var parts := [item];
    assert AllSane(parts) <==> Sane(parts[0]);
  }

  lemma SinglePointerBacked(S: Schema, t: nat, run: Run, past: Slots, i: nat, w: nat, b: bytes, block: nat, item: Cell,
                            slots: Slots)
    requires t < |S| && i < |S[t]| == |run.m|
    requires var f := S[t][i];
             && f.atype.Pointer? && !f.htype.Repeated? && f.ltype.Submessage? && block != 0
             && item.Inline? && f.ptr.Table? && f.ptr.id < |S| && Backed(S, f.ptr.id, slots, item.parts)
    requires var p := DecField(S, S[t], run, i, w, b); p.Ok? && i < |p.value.m| && p.value.m[i] == One(true, Sub(slots))
    ensures FieldBacked(S, t, run, past, i, w, b, Cell.Pointer(block, [item]))
  {
    hide Backed, DecField;
    PointerBacked(S, t, run, past, i, w, b, Cell.Pointer(block, [item]));
  }

  lemma PointerBlocks(c: Cell)
    requires c.Pointer?
    ensures Blocks(c) == Own(c.block) + AllBlocks(c.parts)
  {
  }

  /** One more element of an array behind a pointer. */
  method DecodePointerItem(S: Schema, t: nat, run: Run, ghost past: Slots, i: nat, c: Cell, w: nat, b: bytes, heap: Heap,
                           ghost rest: multiset<nat>)
    returns (ok: bool, c': Cell)
    requires Supported(S) && CellFits(S, t, run, i, c) && heap.Accounts(rest + Blocks(c))
    requires S[t][i].atype.Pointer? && S[t][i].htype.Repeated? && !(w == 2 && Packable(S[t][i].ltype))
    modifies heap
    ensures CellOk(S, S[t][i], c') && TidyCell(S, t, S[t][i], c') && heap.Accounts(rest + Blocks(c'))
    ensures Careful(S, old(heap.lost), heap.lost, old(heap.wild), heap.wild, Sane(c), Sane(c'))
    ensures Agrees(heap, ok, FieldAccepted(S, t, run, i, w, b))
    ensures ok ==> FieldBacked(S, t, run, past, i, w, b, c')
    decreases |b|, 2
  {
    hide NoUnions, SchemaOk, CountsAhead, StructOk, Tidy, Tight, Clean, AllBlocks, Backed, Shaped, SubAccepted, DecField;
    hide DecItem, Fresh;
    hide CellOk, BackedSlot, BackedItem, ItemOk, InlineOk, ShapedSlot, Blocks, PointeeAccepted, CellFits, TidyCell;
    hide TidyItem, Sane;
    hide Careful, FieldBacked, AllSane, FieldAccepted;
    FitIndex(S, t, run, i, c);
    var f := S[t][i];
    PointerArrayFacts(S, t, run, i, c);
    PointerItemRecord(S, t, run, i, w, b);
    PointeeItem(S, f, b);
    AcceptedField(S, t, run, i, w, b);
    c' := c;
    ghost var lost, wild := heap.lost, heap.wild;
    CarefulSame(S, lost, wild, Sane(c));
    if |c.parts| == PB_SIZE_MAX {
      return false, c';
    }
    ghost var contents := rest + AllBlocks(c.parts);
    PointerBlocks(c);
    assert rest + Blocks(c) == contents + Own(c.block);
    var block := heap.Realloc(c.block, contents);
    if block == 0 {
      return false, c';
    }
    ghost var others := contents + Own(block);
    var item;
    ok, item := DecodePointee(S, t, i, b, heap, others);
    c' := Cell.Pointer(block, c.parts + [item]);
    AppendedBlocks(c.parts, block, item);
    assert rest + Blocks(c') == others + Blocks(item);
    AppendedOk(S, t, f, c, block, item);
    AppendedSane(S, c, block, item, lost, heap.lost, wild, heap.wild);
    if ok {
      AppendedBacked(S, t, run, past, i, w, b, c, block, item, DecItem(S, f, Fresh(S, f), b).value);
    }
  }

  lemma FitIndex(S: Schema, t: nat, run: Run, i: nat, c: Cell)
    requires Supported(S) && CellFits(S, t, run, i, c)
    ensures t < |S| && i < |S[t]| == |run.m| && !S[t][i].ltype.Extension? && !S[t][i].htype.Oneof?
    ensures CellOk(S, S[t][i], c) && TidyCell(S, t, S[t][i], c) && ShapedSlot(S, t, S[t][i], run.m[i])
    ensures FieldOk(S, t, S[t][i])
  {
    FieldFacts(S, t, i);
    hide SchemaOk, CountsAhead, CellOk, TidyCell, BackedSlot, ShapedSlot;
  }

  lemma AcceptedField(S: Schema, t: nat, run: Run, i: nat, w: nat, b: bytes)
    requires t < |S| && i < |S[t]| == |run.m|
    ensures FieldAccepted(S, t, run, i, w, b) <==> DecField(S, S[t], run, i, w, b).Ok?
  {
    hide DecField;
  }

  lemma PointerArrayFacts(S: Schema, t: nat, run: Run, i: nat, c: Cell)
    requires CellFits(S, t, run, i, c) && S[t][i].atype.Pointer? && S[t][i].htype.Repeated? && !S[t][i].ltype.Extension?
    ensures t < |S| && i < |S[t]| == |run.m| && CellOk(S, S[t][i], c) && ShapedSlot(S, t, S[t][i], run.m[i])
    ensures BackedSlot(S, S[t][i], run.m[i], c)
    ensures c.Pointer? && run.m[i].Many? && |run.m[i].items| == |c.parts| <= PB_SIZE_MAX
    ensures c.block == 0 ==> c.parts == []
    ensures Packable(S[t][i].ltype) ==> forall k :: 0 <= k < |c.parts| ==> c.parts[k].Plain?
  {
    if Packable(S[t][i].ltype) {
      forall k | 0 <= k < |c.parts|
        ensures c.parts[k].Plain?
      {
        assert ItemOk(S, S[t][i], c.parts[k]);
      }
    }
  }

  lemma AppendedBlocks(parts: seq<Cell>, block: nat, item: Cell)
    ensures Blocks(Cell.Pointer(block, parts + [item])) == Own(block) + AllBlocks(parts) + Blocks(item)
  {
    hide AllBlocks;
    BlocksConcat(parts, [item]);
    BlocksSingle(item);
  }

  lemma AppendedOk(S: Schema, t: nat, f: Field, c: Cell, block: nat, item: Cell)
    requires CellOk(S, f, c) && TidyCell(S, t, f, c) && f.atype.Pointer? && f.htype.Repeated? && c.Pointer? && block != 0
    requires ItemOk(S, f, item) && TidyItem(S, t, f, item) && |c.parts| < PB_SIZE_MAX
    ensures var c' := Cell.Pointer(block, c.parts + [item]); CellOk(S, f, c') && TidyCell(S, t, f, c')
  {
    hide InlineOk, Tidy;
  }

  lemma AppendedSane(S: Schema, c: Cell, block: nat, item: Cell, lost: multiset<nat>, lost': multiset<nat>, wild: bool,
                     wild': bool)
    requires c.Pointer? && Careful(S, lost, lost', wild, wild', true, Sane(item))
    ensures Careful(S, lost, lost', wild, wild', Sane(c), Sane(Cell.Pointer(block, c.parts + [item])))
  {
    hide Tight, Clean;
    var c' := Cell.Pointer(block, c.parts + [item]);
    if Sane(c) && Sane(item) {
      assert AllSane(c.parts);
      assert AllSane(c'.parts);
    }
  }

  lemma AppendedBacked(S: Schema, t: nat, run: Run, past: Slots, i: nat, w: nat, b: bytes, c: Cell, block: nat, item: Cell,
                       v: Value)
    requires t < |S| && i < |S[t]| == |run.m| && run.m[i].Many? && S[t][i].atype.Pointer? && block != 0
    requires c.Pointer? && BackedSlot(S, S[t][i], run.m[i], c)
    requires S[t][i].ltype.Submessage? ==> BackedItem(S, S[t][i], v, item)
    requires var p := DecField(S, S[t], run, i, w, b);
             p.Ok? && i < |p.value.m| && p.value.m[i] == Many(run.m[i].items + [v])
    ensures FieldBacked(S, t, run, past, i, w, b, Cell.Pointer(block, c.parts + [item]))
  {
    hide Backed, DecField, BackedItem;
    var f, items, c', values := S[t][i], run.m[i].items, Cell.Pointer(block, c.parts + [item]), run.m[i].items + [v];
    if f.ltype.Submessage? {
      forall k | 0 <= k < |values|
        ensures BackedItem(S, f, values[k], c'.parts[k])
      {
        if k < |items| {
          assert BackedItem(S, f, items[k], c.parts[k]);
        }
      }
    }
    PointerBacked(S, t, run, past, i, w, b, c');
  }

  lemma PointerBacked(S: Schema, t: nat, run: Run, past: Slots, i: nat, w: nat, b: bytes, c: Cell)
    requires t < |S| && i < |S[t]| == |run.m| && S[t][i].atype.Pointer?
    requires var p := DecField(S, S[t], run, i, w, b); p.Ok? && i < |p.value.m| && BackedSlot(S, S[t][i], p.value.m[i], c)
    ensures FieldBacked(S, t, run, past, i, w, b, c)
  {
    hide DecField, BackedSlot;
    var m := DecField(S, S[t], run, i, w, b).value.m;
    assert CellPast(S, t, past, m, i, c);
    assert FieldAccepted(S, t, run, i, w, b);
  }

  /** A packed record of an array behind a pointer. */
  method DecodePointerPacked(S: Schema, t: nat, run: Run, ghost past: Slots, i: nat, c: Cell, b: bytes, heap: Heap,
                             ghost rest: multiset<nat>)
    returns (ok: bool, c': Cell)
    requires Supported(S) && CellFits(S, t, run, i, c) && heap.Accounts(rest + Blocks(c))
    requires S[t][i].atype.Pointer? && S[t][i].htype.Repeated? && Packable(S[t][i].ltype)
    modifies heap
    ensures CellOk(S, S[t][i], c') && TidyCell(S, t, S[t][i], c') && heap.Accounts(rest + Blocks(c'))
    ensures Careful(S, old(heap.lost), heap.lost, old(heap.wild), heap.wild, Sane(c), Sane(c'))
    ensures Agrees(heap, ok, FieldAccepted(S, t, run, i, 2, b))
    ensures ok ==> FieldBacked(S, t, run, past, i, 2, b, c')
  {
    hide NoUnions, SchemaOk, CountsAhead, AllBlocks, DecField, DecPacked, DecPrefixed, BackedSlot, ShapedSlot, Blocks;
    hide CellFits, CellOk;
    hide TidyCell, Tight, Clean, Sane, FieldBacked, FieldAccepted;
    FitIndex(S, t, run, i, c);
    PointerArrayFacts(S, t, run, i, c);
    PointerPackedRecord(S, t, run, i, b);
    AcceptedField(S, t, run, i, 2, b);
    PointerBlocks(c);
    PlainOwnNothing(c.parts);
    ok, c' := DecodePackedPointer(S[t][i], c, run.m[i].items, b, heap, rest);
    PlainOwnNothing(c'.parts);
    PointerBlocks(c');
    PackedCellOk(S, t, S[t][i], c');
    if ok {
      CountBacked(S, S[t][i], DecPacked(S[t][i], run.m[i].items, |run.m[i].items|, DecPrefixed(b).value).value.0, c');
      PointerBacked(S, t, run, past, i, 2, b, c');
    }
  }

  lemma PackedCellOk(S: Schema, t: nat, f: Field, c: Cell)
    requires f.atype.Pointer? && f.htype.Repeated? && Packable(f.ltype) && c.Pointer? && (c.block == 0 ==> c.parts == [])
    requires |c.parts| <= PB_SIZE_MAX && forall k :: 0 <= k < |c.parts| ==> c.parts[k].Plain?
    ensures CellOk(S, f, c) && TidyCell(S, t, f, c) && Sane(c)
  {
  }

  lemma CountBacked(S: Schema, f: Field, items: seq<Value>, c: Cell)
    requires f.atype.Pointer? && !f.ltype.Submessage? && c.Pointer? && |items| == |c.parts|
    requires c.block == 0 ==> c.parts == []
    ensures BackedSlot(S, f, Many(items), c)
  {
  }

  /** A record of a pointer field. */
  method DecodePointerField(S: Schema, t: nat, run: Run, ghost past: Slots, i: nat, c: Cell, w: nat, b: bytes, heap: Heap,
                            ghost rest: multiset<nat>)
    returns (ok: bool, c': Cell)
    requires Supported(S) && CellFits(S, t, run, i, c) && heap.Accounts(rest + Blocks(c)) && S[t][i].atype.Pointer?
    modifies heap
    ensures CellOk(S, S[t][i], c') && TidyCell(S, t, S[t][i], c') && heap.Accounts(rest + Blocks(c'))
    ensures Careful(S, old(heap.lost), heap.lost, old(heap.wild), heap.wild, Sane(c), Sane(c'))
    ensures Agrees(heap, ok, FieldAccepted(S, t, run, i, w, b))
    ensures ok ==> FieldBacked(S, t, run, past, i, w, b, c')
    decreases |b|, 3
  {
    var f := S[t][i];
    hide SchemaOk, Tight, DecField, Shaped, StructOk, Backed;
    if f.htype.Repeated? {
      if w == 2 && Packable(f.ltype) {
        ok, c' := DecodePointerPacked(S, t, run, past, i, c, b, heap, rest);
      } else {
        ok, c' := DecodePointerItem(S, t, run, past, i, c, w, b, heap, rest);
      }
    } else if f.ltype.Submessage? {
      ok, c' := DecodePointerSubmessage(S, t, run, past, i, c, w, b, heap, rest);
    } else {
      ok, c' := DecodeScalarPointer(S, t, run, past, i, c, w, b, heap, rest);
    }
  }

  /** A single number, string or byte array behind a pointer. */
  method DecodeScalarPointer(S: Schema, t: nat, run: Run, ghost past: Slots, i: nat, c: Cell, w: nat, b: bytes, heap: Heap,
                             ghost rest: multiset<nat>)
    returns (ok: bool, c': Cell)
    requires Supported(S) && CellFits(S, t, run, i, c) && heap.Accounts(rest + Blocks(c))
    requires S[t][i].atype.Pointer? && !S[t][i].htype.Repeated? && !S[t][i].ltype.Submessage?
    modifies heap
    ensures CellOk(S, S[t][i], c') && TidyCell(S, t, S[t][i], c') && heap.Accounts(rest + Blocks(c'))
    ensures Careful(S, old(heap.lost), heap.lost, old(heap.wild), heap.wild, Sane(c), Sane(c'))
    ensures Agrees(heap, ok, FieldAccepted(S, t, run, i, w, b))
    ensures ok ==> FieldBacked(S, t, run, past, i, w, b, c')
  {
    hide NoUnions, SchemaOk, CountsAhead, DecField, DecItem, DecBlob, Fresh, CellFits, CellOk, TidyCell, BackedSlot;
    hide ShapedSlot;
    hide Tight, Clean, Sane, FieldBacked, FieldAccepted, Blocks;
    FitIndex(S, t, run, i, c);
    var f := S[t][i];
    LivePointer(S, t, run, i, c);
    BarePointer(S, t, f, c);
    SinglePointerRecord(S, t, run, i, w, b);
    PointeeItem(S, f, b);
    AcceptedField(S, t, run, i, w, b);
    if TextType(f.ltype) {
      ok, c' := DecodeText(f, c, b, heap, rest);
    } else {
      ok, c' := DecodePlain(c, DecItem(S, f, [], b).Ok?, heap, rest);
    }
    BarePointer(S, t, f, c');
    if ok {
      BareBacked(S, f, DecItem(S, f, Fresh(S, f), b).value, c');
      PointerBacked(S, t, run, past, i, w, b, c');
    }
  }

  lemma BarePointer(S: Schema, t: nat, f: Field, c: Cell)
    requires c.Pointer? && f.atype.Pointer? && !f.htype.Repeated? && !f.ltype.Submessage?
    ensures CellOk(S, f, c) <==> c.parts == []
    ensures c.parts == [] ==> TidyCell(S, t, f, c) && Sane(c)
  {
  }

  lemma BareBacked(S: Schema, f: Field, v: Value, c: Cell)
    requires c.Pointer? && f.atype.Pointer? && !f.ltype.Submessage? && c.block != 0
    ensures BackedSlot(S, f, One(true, v), c)
  {
  }

  // ---- records and messages ----

  /** A record of a static field. */
  method DecodeStaticField(S: Schema, t: nat, run: Run, ghost past: Slots, i: nat, c: Cell, w: nat, b: bytes, heap: Heap,
                           ghost rest: multiset<nat>)
    returns (ok: bool, c': Cell)
    requires Supported(S) && CellFits(S, t, run, i, c) && CellWaits(S, t, run, past, i, c) &&
             heap.Accounts(rest + Blocks(c))
    requires S[t][i].atype.Static? && Ready(S[t], run, i)
    modifies heap
    ensures CellOk(S, S[t][i], c') && TidyCell(S, t, S[t][i], c') && heap.Accounts(rest + Blocks(c'))
    ensures Careful(S, old(heap.lost), heap.lost, old(heap.wild), heap.wild, Sane(c), Sane(c'))
    ensures Agrees(heap, ok, FieldAccepted(S, t, run, i, w, b))
    ensures ok ==> FieldBacked(S, t, run, past, i, w, b, c')
    ensures Done(heap, FieldHarms(S, t, run, past, i, b, LostBlock), FieldHarms(S, t, run, past, i, b, TornPointer),
                 heap.lost, heap.wild, ShowsTorn(c'))
    ensures FixedSubs(S[t][i]) ==> LaterKept(S[t], run, i, c, c')
    decreases |b|, 2
  {
    var f := S[t][i];
    assert !f.htype.Oneof?;
    if f.ltype.Submessage? {
      hide Supported, CellFits, CellWaits, CellOk, TidyCell, Careful, DecField, FieldBacked, FieldHarms, LaterKept, Ready;
      if f.htype.Repeated? {
        ok, c' := DecodeItem(S, t, run, past, i, c, w, b, heap, rest);
      } else {
        ok, c' := DecodeInPlace(S, t, run, past, i, c, w, b, heap, rest);
      }
    } else {
      ok, c' := DecField(S, S[t], run, i, w, b).Ok?, c;
      PlainRecord(S, t, run, past, i, c, w, b);
      hide Supported, CellFits, CellWaits, CellOk, TidyCell, Tight, Clean, DecField, FieldBacked, FieldHarms, LaterKept;
      hide Ready;
    }
  }

  lemma PlainRecord(S: Schema, t: nat, run: Run, past: Slots, i: nat, c: Cell, w: nat, b: bytes)
    requires Supported(S) && CellFits(S, t, run, i, c) && S[t][i].atype.Static? && !S[t][i].ltype.Submessage? &&
             !S[t][i].htype.Oneof?
    ensures !FieldHarms(S, t, run, past, i, b, LostBlock) && !FieldHarms(S, t, run, past, i, b, TornPointer)
    ensures FieldAccepted(S, t, run, i, w, b) ==> FieldBacked(S, t, run, past, i, w, b, c)
  {
    hide SchemaOk, NoUnions, CountsAhead, DecScalar, DecPacked, DecPrefixed;
  }

  /** The other fields are not touched by a record. */
  lemma RecordLinked(S: Schema, t: nat, run: Run, past: Slots, i: nat, w: nat, b: bytes, fs: seq<Cell>, c': Cell)
    requires Supported(S) && Linked(S, t, run.m, fs) && PastHeld(S, t, past, run.m, fs) && i < |S[t]| == |fs| == |run.m|
    requires CellOk(S, S[t][i], c') && TidyCell(S, t, S[t][i], c') && FieldBacked(S, t, run, past, i, w, b, c')
    ensures DecField(S, S[t], run, i, w, b).Ok?
    ensures Linked(S, t, DecField(S, S[t], run, i, w, b).value.m, fs[i := c'])
    ensures PastHeld(S, t, past, DecField(S, S[t], run, i, w, b).value.m, fs[i := c'])
  {
    hide CellOk, TidyCell, BackedSlot, DecItem, DecRepeated, Shaped, PastSlot;
    var m' := DecField(S, S[t], run, i, w, b).value.m;
    Layout.FieldShaped(S, t, run, i, w, b);
    assert !S[t][i].htype.Oneof?;
    hide SchemaOk;
    forall j | 0 <= j < |fs| && j != i
      ensures m'[j] == run.m[j]
    {
    }
  }

  /** Nothing is ahead but untouched elements: the record used the next one. */
  lemma RecordUntouched(S: Schema, t: nat, run: Run, i: nat, w: nat, b: bytes, fs: seq<Cell>, c': Cell)
    requires t < |S| && i < |S[t]| == |run.m| && Untouched(S, t, run, fs) && DecField(S, S[t], run, i, w, b).Ok?
    requires FixedSubs(S[t][i]) ==> LaterKept(S[t], run, i, fs[i], c')
    ensures Untouched(S, t, DecField(S, S[t], run, i, w, b).value, fs[i := c'])
  {
    hide DecItem, DecPrefixed, DecPacked;
    var run' := DecField(S, S[t], run, i, w, b).value;
    var fs' := fs[i := c'];
    forall j | 0 <= j < |fs'|
      ensures CellUntouched(S, t, run', j, fs'[j])
    {
      assert CellUntouched(S, t, run, j, fs[j]);
      if FixedSubs(S[t][j]) && !FilledAgain(S, t, j) {
        forall k: nat | Ahead(run', j, k) && k < |fs'[j].ItemCells()|
          ensures Blocks(fs'[j].ItemCells()[k]) == multiset{}
        {
          assert OnlyFixed(S[t], j);
          if i == j {
            assert run'.fixedField == Some(i) && run'.fixedCount == CountOf(S[t], run, i) + 1;
            assert Ahead(run, i, k);
          } else {
            assert Ahead(run, j, k);
          }
        }
      }
    }
  }

  /** A record of a known field. */
  method DecodeField(S: Schema, t: nat, run: Run, ghost past: Slots, fs: seq<Cell>, i: nat, w: nat, b: bytes, heap: Heap,
                     ghost rest: multiset<nat>)
    returns (ok: bool, fs': seq<Cell>)
    requires Supported(S) && Linked(S, t, run.m, fs) && Waits(S, t, run, past, fs)
    requires i < |S[t]| == |run.m| && heap.Accounts(rest + AllBlocks(fs))
    modifies heap
    ensures StructOk(S, t, fs') && Tidy(S, t, fs') && heap.Accounts(rest + AllBlocks(fs'))
    ensures Careful(S, old(heap.lost), heap.lost, old(heap.wild), heap.wild, AllSane(fs), AllSane(fs'))
    ensures var p := DecField(S, S[t], run, i, w, b);
            && Agrees(heap, ok, p.Ok?)
            && (ok ==> Linked(S, t, p.value.m, fs') && Waits(S, t, p.value, past, fs'))
    ensures Done(heap, FieldHarms(S, t, run, past, i, b, LostBlock), FieldHarms(S, t, run, past, i, b, TornPointer),
                 heap.lost, heap.wild, AnyTorn(fs'))
    decreases |b|, 4
  {
    hide SchemaOk, NoUnions, CountsAhead, Tight, Clean, DecField, Linked, StructOk, Tidy, Untouched, PastHeld;
    hide CellUntouched, CellPast;
    hide FieldHarms, CellFits, CellWaits, AllBlocks, Others, Ready, Blocks, LaterKept, FieldBacked, BackedSlot, CellOk;
    hide TidyCell;
    hide Careful, Sane, AllSane, ShowsTorn, AnyTorn;
    FieldIsFit(S, t, run, past, fs, i);
    NotReady(S, t, run, past, i, w, b, LostBlock);
    NotReady(S, t, run, past, i, w, b, TornPointer);
    fs' := fs;
    if FixedCount(S[t][i]) && !Ready(S[t], run, i) {
      CarefulSame(S, heap.lost, heap.wild, AllSane(fs));
      return false, fs';
    }
    BlocksAt(fs, i, fs[i]);
    ghost var others, lost, wild := rest + Others(fs, i), heap.lost, heap.wild;
    assert rest + AllBlocks(fs) == others + Blocks(fs[i]);
    var c;
    if S[t][i].atype.Static? {
      ok, c := DecodeStaticField(S, t, run, past, i, fs[i], w, b, heap, others);
    } else {
      ok, c := DecodePointerField(S, t, run, past, i, fs[i], w, b, heap, others);
    }
    BlocksAt(fs, i, c);
    fs' := fs[i := c];
    assert rest + AllBlocks(fs') == others + Blocks(c);
    CellStored(S, t, fs, i, c, lost, heap.lost, wild, heap.wild);
    if ok {
      RecordLinked(S, t, run, past, i, w, b, fs, c);
      RecordUntouched(S, t, run, i, w, b, fs, c);
    }
  }

  lemma CarefulSame(S: Schema, lost: multiset<nat>, wild: bool, sane: bool)
    ensures Careful(S, lost, lost, wild, wild, sane, sane)
  {
    hide Tight, Clean;
  }

  lemma FieldIsFit(S: Schema, t: nat, run: Run, past: Slots, fs: seq<Cell>, i: nat)
    requires Supported(S) && Linked(S, t, run.m, fs) && Waits(S, t, run, past, fs) && i < |S[t]| == |run.m|
    ensures t < |S| && |fs| == |S[t]| && CellFits(S, t, run, i, fs[i]) && CellWaits(S, t, run, past, i, fs[i])
    ensures StructOk(S, t, fs) && Tidy(S, t, fs) && PastHeld(S, t, past, run.m, fs) && Untouched(S, t, run, fs)
    ensures FixedCount(S[t][i]) ==> run.m[i].Many?
    ensures !S[t][i].ltype.Extension?
  {
    hide CellOk, TidyCell, BackedSlot, PastSlot;
    assert ShapedSlot(S, t, S[t][i], run.m[i]);
  }

  lemma NotReady(S: Schema, t: nat, run: Run, past: Slots, i: nat, w: nat, b: bytes, h: Harm)
    requires t < |S| && i < |S[t]| == |run.m|
    ensures !FixedCount(S[t][i]) ==> Ready(S[t], run, i)
    ensures !Ready(S[t], run, i) && run.m[i].Many? ==>
              DecField(S, S[t], run, i, w, b).Fail? && !FieldHarms(S, t, run, past, i, b, h)
    ensures S[t][i].atype.Pointer? ==> !FieldHarms(S, t, run, past, i, b, h)
  {
    hide DecRepeated, DecItem, HarmsElement, HarmsLoop;
  }

  lemma CellStored(S: Schema, t: nat, fs: seq<Cell>, i: nat, c: Cell, lost: multiset<nat>, lost': multiset<nat>,
                   wild: bool, wild': bool)
    requires t < |S| && StructOk(S, t, fs) && Tidy(S, t, fs) && i < |fs| == |S[t]| && CellOk(S, S[t][i], c) &&
             TidyCell(S, t, S[t][i], c)
    requires Careful(S, lost, lost', wild, wild', Sane(fs[i]), Sane(c))
    ensures StructOk(S, t, fs[i := c]) && Tidy(S, t, fs[i := c]) && (ShowsTorn(c) ==> AnyTorn(fs[i := c]))
    ensures Careful(S, lost, lost', wild, wild', AllSane(fs), AllSane(fs[i := c]))
  {
    hide CellOk, TidyCell, Sane, ShowsTorn, Tight, Clean;
    var fs' := fs[i := c];
    assert fs'[i] == c;
  }

  /** The loop over the records, up to the end or the terminator. */
  method DecodeNoinit(S: Schema, t: nat, fs: seq<Cell>, m: Slots, ghost past: Slots, b: bytes, heap: Heap,
                      ghost rest: multiset<nat>)
    returns (ok: bool, fs': seq<Cell>)
    requires Supported(S) && Linked(S, t, m, fs) && heap.Accounts(rest + AllBlocks(fs))
    requires Waits(S, t, Start(m), past, fs)
    modifies heap
    ensures StructOk(S, t, fs') && Tidy(S, t, fs') && heap.Accounts(rest + AllBlocks(fs'))
    ensures Careful(S, old(heap.lost), heap.lost, old(heap.wild), heap.wild, AllSane(fs), AllSane(fs'))
    ensures Agrees(heap, ok, DecMessage(S, t, m, b).Ok?)
    ensures ok ==> var v := DecMessage(S, t, m, b).value; Backed(S, t, v, fs') && PastHeld(S, t, past, v, fs')
    ensures Done(heap, HarmsLoop(S, t, Start(m), past, b, LostBlock), HarmsLoop(S, t, Start(m), past, b, TornPointer),
                 heap.lost, heap.wild, AnyTorn(fs'))
    ensures b == [] ==> fs' == fs
    decreases |b|, 5
  {
    hide SchemaOk, NoUnions, CountsAhead, Tight, Clean, Linked, StructOk, Tidy, Waits, AllBlocks, DecLoop, HarmsLoop;
    hide Backed, RequiredSeen;
    hide FixedComplete, DecTag, Careful, AllSane, AnyTorn, PastHeld, FieldHarms, DecRecord, DecField, Find;
    LinkedFacts(S, t, m, fs);
    fs' := fs;
    var run, left, stop := Start(m), b, false;
    ok := true;
    ghost var lost0, wild0 := heap.lost, heap.wild;
    CarefulSame(S, lost0, wild0, AllSane(fs));
    while ok && !stop && left != []
      invariant |left| <= |b| && |run.m| == |S[t]| && StructOk(S, t, fs') && Tidy(S, t, fs') &&
                heap.Accounts(rest + AllBlocks(fs'))
      invariant Careful(S, lost0, heap.lost, wild0, heap.wild, AllSane(fs), AllSane(fs'))
      invariant ok ==> Linked(S, t, run.m, fs') && Waits(S, t, run, past, fs')
      invariant ok ==> DecLoop(S, S[t], Start(m), b) == if stop then End(run, left, true) else DecLoop(S, S[t], run, left)
      invariant !ok && heap.reliable ==> DecLoop(S, S[t], Start(m), b) == Bad
      invariant heap.reliable && HarmsLoop(S, t, Start(m), past, b, LostBlock) ==>
                  heap.lost != multiset{} || (ok && !stop && HarmsLoop(S, t, run, past, left, LostBlock))
      invariant heap.reliable && HarmsLoop(S, t, Start(m), past, b, TornPointer) ==>
                  heap.wild || (AnyTorn(fs') && (!ok || left == [])) ||
                  (ok && !stop && HarmsLoop(S, t, run, past, left, TornPointer))
      invariant b == [] ==> fs' == fs
      decreases ok, !stop, |left|
    {
      LoopStep(S, t, run, left);
      LoopHarms(S, t, run, past, left, LostBlock);
      LoopHarms(S, t, run, past, left, TornPointer);
      match DecTag(left)
      case NoTag => ok := false;
      case Terminator(after) => stop, left := true, after;
      case Tag(tag, w, after) =>
        var p := DecRecord(S, S[t], run, tag, w, after);
        var found := Find(S[t], tag);
        if found.Some? {
          ghost var lost, wild, before := heap.lost, heap.wild, fs';
          ok, fs' := DecodeField(S, t, run, past, fs', found.value, w, after, heap, rest);
          CarefulStep(S, lost0, lost, heap.lost, wild0, wild, heap.wild, AllSane(fs), AllSane(before), AllSane(fs'));
          CarefulGrows(S, lost, heap.lost, wild, heap.wild, AllSane(before), AllSane(fs'));
        } else {
          ok := p.Ok?;
        }
        if ok {
          run, left := p.value, p.rest;
        }
    }
    LoopIsOver(S, t, run, past);
    if ok {
      LinkedFacts(S, t, run.m, fs');
      WaitsFacts(S, t, run, past, fs');
      ok := FixedComplete(S[t], run) && RequiredSeen(S[t], run.seen);
    }
  }

  lemma LinkedFacts(S: Schema, t: nat, m: Slots, fs: seq<Cell>)
    requires Linked(S, t, m, fs)
    ensures t < |S| && |m| == |S[t]| && StructOk(S, t, fs) && Tidy(S, t, fs) && Backed(S, t, m, fs)
  {
    hide CellOk, BackedSlot;
  }

  lemma WaitsFacts(S: Schema, t: nat, run: Run, past: Slots, fs: seq<Cell>)
    requires Waits(S, t, run, past, fs)
    ensures t < |S| && PastHeld(S, t, past, run.m, fs)
  {
    hide PastHeld, Untouched;
  }

  /** One turn of the loop. */
  lemma LoopStep(S: Schema, t: nat, run: Run, b: bytes)
    requires t < |S| && |run.m| == |S[t]| && b != []
    ensures DecTag(b).NoTag? ==> DecLoop(S, S[t], run, b) == Bad
    ensures DecTag(b).Terminator? ==> DecLoop(S, S[t], run, b) == End(run, DecTag(b).rest, true)
    ensures var w := DecTag(b);
            w.Tag? ==>
              var p := DecRecord(S, S[t], run, w.tag, w.wireType, w.rest);
              && (p.Ok? ==> DecLoop(S, S[t], run, b) == DecLoop(S, S[t], p.value, p.rest))
              && (p.Fail? ==> DecLoop(S, S[t], run, b) == Bad)
              && (Find(S[t], w.tag).Some? ==> p == DecField(S, S[t], run, Find(S[t], w.tag).value, w.wireType, w.rest))
              && (Find(S[t], w.tag).None? && p.Ok? ==> p.value == run)
  {
    hide DecTag, DecField, Skip;
  }

  lemma LoopHarms(S: Schema, t: nat, run: Run, past: Slots, b: bytes, h: Harm)
    requires t < |S| && |run.m| == |S[t]| && b != []
    ensures !DecTag(b).Tag? ==> !HarmsLoop(S, t, run, past, b, h)
    ensures var w := DecTag(b);
            w.Tag? ==>
              var p := DecRecord(S, S[t], run, w.tag, w.wireType, w.rest);
              HarmsLoop(S, t, run, past, b, h) ==>
                (Find(S[t], w.tag).Some? && FieldHarms(S, t, run, past, Find(S[t], w.tag).value, w.rest, h) &&
                 (h.TornPointer? && p.Ok? ==> p.rest == [])) ||
                (p.Ok? && HarmsLoop(S, t, p.value, past, p.rest, h))
  {
    hide DecTag, DecField, HarmsRecord, Skip;
  }

  lemma LoopIsOver(S: Schema, t: nat, run: Run, past: Slots)
    requires t < |S| && |run.m| == |S[t]|
    ensures DecLoop(S, S[t], run, []) == End(run, [], false)
    ensures !HarmsLoop(S, t, run, past, [], LostBlock) && !HarmsLoop(S, t, run, past, [], TornPointer)
  {
  }
}
