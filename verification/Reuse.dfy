/** Which structs are initialised while they are in use, and what that can do to the pointers in them. */
module Reuse {
  import opened Bits
  import opened Varint
  import opened Descriptor
  import opened Message
  import opened Stale
  import opened FieldIterator
  import opened Ownership

  // ---- which types are initialised again ----

  /** Structs of this type are decoded into more than once. */
  predicate DecodedInto(S: Schema, t: nat) {
    exists u, e :: 0 <= u < |S| && 0 <= e < |S[u]| && InPlace(S[u][e]) && S[u][e].ptr == Table(t)
  }

  /** The only array without count in its table. */
  predicate OnlyFixed(table: Table, i: nat)
    requires i < |table|
  {
    forall j :: 0 <= j < |table| && j != i ==> !FixedCount(table[j])
  }

  /** The array of field i can be filled when its elements have been filled before: another array without count comes in
      between, or the struct is decoded into again, or it is initialised again. */
  predicate FilledAgain(S: Schema, t: nat, i: nat)
    requires t < |S| && i < |S[t]|
    decreases |S| - t, 1
  {
    !OnlyFixed(S[t], i) || DecodedInto(S, t) || Used(S, t)
  }

  /** Field i of table p stores structs of type t that are initialised while in use: the elements of an array without count
      that can be filled again; elements behind a count that went back to zero; and submessages in place, together with
      the struct around them. */
  predicate UsedBy(S: Schema, p: nat, i: nat, t: nat)
    requires t < p < |S| && i < |S[p]|
    decreases |S| - p, 2
  {
    var f := S[p][i];
    f.ltype.Submessage? && f.atype.Static? && f.ptr == Table(t) &&
      if FixedCount(f) then FilledAgain(S, p, i) else Used(S, p)
  }

  /** Structs of type t are initialised while they are in use. */
  predicate Used(S: Schema, t: nat)
    decreases |S| - t, 0
  {
    exists p, i :: 0 <= p < |S| && 0 <= i < |S[p]| && t < p && UsedBy(S, p, i, t)
  }

  // ---- when nothing is lost ----

  /** Structs of this type hold no pointers. */
  predicate PointerFree(S: Schema, t: nat)
    requires t < |S|
    decreases t
  {
    forall i :: 0 <= i < |S[t]| ==>
      S[t][i].atype.Static? &&
      (S[t][i].ltype.Submessage? ==> S[t][i].ptr.Table? && S[t][i].ptr.id < t && PointerFree(S, S[t][i].ptr.id))
  }

  /** The elements of the array may own blocks. */
  predicate Lossy(S: Schema, f: Field) {
    FixedSubs(f) && f.ptr.Table? && f.ptr.id < |S| && !PointerFree(S, f.ptr.id)
  }

  /** No array without count whose elements may own blocks can be filled a second time: it stands in a table of its own,
      which is not the type of a submessage in place. */
  predicate Tight(S: Schema) {
    forall t, i :: 0 <= t < |S| && 0 <= i < |S[t]| && Lossy(S, S[t][i]) ==> OnlyFixed(S[t], i) && !DecodedInto(S, t)
  }

  /** On a tight schema only structs without pointers are initialised while in use. */
  lemma {:induction false} TightUsed(S: Schema, t: nat)
    requires SchemaOk(S) && Tight(S) && t < |S| && Used(S, t)
    ensures PointerFree(S, t)
    decreases |S| - t
  {
    var p, i :| 0 <= p < |S| && 0 <= i < |S[p]| && t < p && UsedBy(S, p, i, t);
    hide SchemaOk, Tight, PointerFree, DecodedInto, OnlyFixed;
    FieldFacts(S, p, i);
    if !PointerFree(S, t) {
      TightField(S, p, i);
      if FixedCount(S[p][i]) {
        assert Lossy(S, S[p][i]) && FilledAgain(S, p, i);
      }
      TightUsed(S, p);
      PartFree(S, p, i);
      assert false;
    }
  }

  lemma TightField(S: Schema, p: nat, i: nat)
    requires Tight(S) && p < |S| && i < |S[p]|
    ensures Lossy(S, S[p][i]) ==> OnlyFixed(S[p], i) && !DecodedInto(S, p)
  {
  }

  lemma PartFree(S: Schema, p: nat, i: nat)
    requires p < |S| && PointerFree(S, p) && i < |S[p]| && S[p][i].ltype.Submessage?
    ensures S[p][i].ptr.Table? && S[p][i].ptr.id < |S| && PointerFree(S, S[p][i].ptr.id)
  {
  }

  /** Tightness is exact: otherwise some struct that may hold pointers is initialised while in use. */
  lemma NotTight(S: Schema) returns (t: nat)
    requires SchemaOk(S) && !Tight(S)
    ensures t < |S| && Used(S, t) && !PointerFree(S, t)
  {
    hide PointerFree, DecodedInto, OnlyFixed;
    var p: nat, i: nat :| p < |S| && i < |S[p]| && Lossy(S, S[p][i]) && (!OnlyFixed(S[p], i) || DecodedInto(S, p));
    FieldFacts(S, p, i);
    t := S[p][i].ptr.id;
    assert UsedBy(S, p, i, t);
  }

  // ---- when no pointer is torn ----

  /** A pointer stands within the first `room` bytes of a struct of this type. */
  predicate HeadPointer(S: Schema, t: nat, room: nat)
    requires t < |S|
    decreases t
  {
    exists i :: 0 <= i < |S[t]| && DataWalk(S[t], i) < room &&
      (S[t][i].atype.Pointer? ||
       (S[t][i].ltype.Submessage? && S[t][i].ptr.Table? && S[t][i].ptr.id < t &&
        HeadPointer(S, S[t][i].ptr.id, room - DataWalk(S[t], i))))
  }

  /** Initialisation clears the first bytes of each array without count; a pointer may stand there. */
  predicate Fragile(S: Schema, t: nat)
    requires t < |S|
  {
    exists j :: 0 <= j < |S[t]| && FragileField(S, S[t][j])
  }

  predicate FragileField(S: Schema, f: Field) {
    FixedSubs(f) && f.ptr.Table? && f.ptr.id < |S| && HeadPointer(S, f.ptr.id, COUNT_SIZE)
  }

  /** No struct with a pointer at such a place is initialised while in use. */
  predicate Clean(S: Schema) {
    forall t :: 0 <= t < |S| && Used(S, t) ==> !Fragile(S, t)
  }

  // ---- order in the memory ----

  /** Elements behind the count of an array own nothing, unless the array is in a struct that is initialised again. */
  ghost predicate TidyCell(S: Schema, t: nat, f: Field, c: Cell)
    decreases c, 0
  {
    match c
    case Plain => true
    case Inline(parts) => f.ptr.Table? && f.ptr.id < |S| ==> Tidy(S, f.ptr.id, parts)
    case Items(parts, count) =>
      && (forall k :: 0 <= k < |parts| ==> TidyItem(S, t, f, parts[k]))
      && (!FixedCount(f) && !Used(S, t) ==> forall k :: count <= k < |parts| ==> Blocks(parts[k]) == multiset{})
    case Pointer(_, parts) => forall k :: 0 <= k < |parts| ==> TidyItem(S, t, f, parts[k])
    case Torn => true
  }

  ghost predicate TidyItem(S: Schema, t: nat, f: Field, c: Cell)
    decreases c, 1
  {
    c.Inline? && f.ptr.Table? && f.ptr.id < |S| ==> Tidy(S, f.ptr.id, c.parts)
  }

  ghost predicate Tidy(S: Schema, t: nat, fs: seq<Cell>)
    requires t < |S|
    decreases fs, 0
  {
    |fs| == |S[t]| && forall i :: 0 <= i < |fs| ==> TidyCell(S, t, S[t][i], fs[i])
  }

  /** No pointer is torn, at any place. */
  predicate Sane(c: Cell) {
    match c
    case Plain => true
    case Inline(parts) => AllSane(parts)
    case Items(parts, _) => AllSane(parts)
    case Pointer(_, parts) => AllSane(parts)
    case Torn => false
  }

  predicate AllSane(cs: seq<Cell>) {
    forall i :: 0 <= i < |cs| ==> Sane(cs[i])
  }

  /** A torn pointer at a place that a release comes by. */
  predicate ShowsTorn(c: Cell) {
    match c
    case Plain => false
    case Inline(parts) => AnyTorn(parts)
    case Items(parts, count) => exists k :: 0 <= k < |parts| && k < count && ShowsTorn(parts[k])
    case Pointer(_, parts) => AnyTorn(parts)
    case Torn => true
  }

  predicate AnyTorn(cs: seq<Cell>) {
    exists i :: 0 <= i < |cs| && ShowsTorn(cs[i])
  }
}
