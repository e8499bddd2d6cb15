/** The memory of a decoded struct holds its values. The sets of `WordBytes` are what the first bytes of the image of the
    struct are, field by field and element by element, once its pointers have been released; so initialisation, records
    and whole messages keep it. */
module StructImage {
  import opened Bits
  import opened Varint
  import opened Integers
  import opened Descriptor
  import opened Message
  import opened DecodeSpec
  import opened FieldIterator
  import opened Stale
  import opened WordBytes
  import opened Unions
  import Layout

  // ---- the bytes of an item ----

  /** How an item is stored: numbers from their lowest byte on, strings with a zero behind, byte arrays with their size in
      front. */
  function Image(f: Field, v: Value): bytes {
    match v
    case Scalar(n) => EncFixed(f.dataSize, ToUnsigned(f.dataSize, n))
    case Blob(data) =>
      (match f.ltype
       case Bytes => EncFixed(4, |data|) + data
       case String => data + [0]
       case _ => data)
    case _ => []
  }

  /** The sizes of numbers are those of their types. */
  predicate NumberSize(f: Field) {
    match f.ltype
    case Bool => f.dataSize == 1
    case Fixed32 => f.dataSize == 4
    case Fixed64 => f.dataSize == 8
    case _ => Packable(f.ltype) ==> IntegerSize(f.dataSize)
  }

  /** The item has the type of the field and fits into its memory. */
  predicate Fits(f: Field, v: Value) {
    match v
    case Scalar(_) => Packable(f.ltype) && NumberSize(f)
    case Blob(data) => |data| < U32 && |Image(f, v)| <= f.dataSize
    case _ => false
  }

  function Power(w: nat): (m: nat)
    ensures m > 0
  {
    if w == 0 then 1 else 256 * Power(w - 1)
  }

  lemma {:induction false} ByteIs(n: int, q: int, r: nat, w: nat, p: nat)
    requires n == q * Power(w) + r && r < Power(w) && p < w
    ensures ByteOf(n, p) == EncFixed(w, r)[p]
    decreases p
  {
    var m := Power(w - 1);
    assert n == 256 * (q * m) + r;
    assert n % 256 == r % 256 && n / 256 == q * m + r / 256;
    if p > 0 {
      ByteIs(n / 256, q, r / 256, w - 1, p - 1);
    }
  }

  lemma Powers()
    ensures Power(1) == 0x100 && Power(2) == 0x1_0000 && Power(4) == U32 && Power(8) == U64
  {
    assert Power(0) == 1;
    assert Power(3) == 0x100_0000;
    assert Power(4) == U32;
    assert Power(5) == 0x100 * U32;
    assert Power(6) == 0x1_0000 * U32;
    assert Power(7) == 0x100_0000 * U32;
  }

  lemma NumberIs(n: int, w: nat, p: nat)
    requires IntegerSize(w) && p < w
    ensures ByteOf(n, p) == EncFixed(w, ToUnsigned(w, n))[p]
  {
    Powers();
    assert n == n / Power(w) * Power(w) + n % Power(w);
    ByteIs(n, n / Power(w), n % Power(w), w, p);
  }

  lemma ImageIs(f: Field, v: Value, p: nat)
    requires Fits(f, v)
    ensures Written(f, v, p) <==> p < |Image(f, v)|
    ensures Nonzero(f, v, p) <==> p < |Image(f, v)| && Image(f, v)[p] != 0
  {
    hide ByteOf, EncFixed, ToUnsigned;
    match v
    case Scalar(n) =>
      if p < f.dataSize {
        NumberIs(n, f.dataSize, p);
      }
    case Blob(data) =>
      if f.ltype.Bytes? && p < 4 {
        NumberIs(|data|, 4, p);
        UnsignedCast(4, |data|);
      }
  }

  // ---- memory that shows what is stored ----

  /** The bytes from d on are these, as far as the first k bytes of the struct go. */
  predicate Shows(data: bytes, d: int, left: set<nat>, k: int) {
    forall p: nat :: d <= p < d + |data| && p < k ==> (p in left <==> data[p - d] != 0)
  }

  /** The sets agree on n bytes from d on. */
  predicate Agree(left: set<nat>, left': set<nat>, d: int, n: nat, k: int) {
    forall p: nat :: d <= p < d + n && p < k ==> (p in left <==> p in left')
  }

  lemma LeafStored(f: Field, v: Value, d: nat, left: set<nat>, k: int)
    requires Fits(f, v) && k <= WORD
    ensures Shows(Image(f, v), d, StoreLeaf(f, v, d, left), k)
    ensures forall p: nat :: p < k && !(d <= p < d + |Image(f, v)|) ==> (p in StoreLeaf(f, v, d, left) <==> p in left)
  {
    hide Written, Nonzero, Image;
    forall p: nat | d <= p < k
      ensures WrittenAt(f, v, d, p) <==> p < d + |Image(f, v)|
      ensures NonzeroAt(f, v, d, p) <==> p < d + |Image(f, v)| && Image(f, v)[p - d] != 0
    {
      ImageIs(f, v, p - d);
    }
  }

  lemma WordStored(n: nat, z: int, left: set<nat>, k: int)
    requires n < U32 && k <= WORD
    ensures Shows(EncFixed(4, n), z, StoreWord(n, z, left), k)
    ensures forall p: nat :: p < k && !(z <= p < z + 4) ==> (p in StoreWord(n, z, left) <==> p in left)
  {
    hide ByteOf, EncFixed;
    UnsignedCast(4, n);
    forall q: nat | q < 4
      ensures ByteOf(n, q) == EncFixed(4, n)[q]
    {
      NumberIs(n, 4, q);
    }
    forall p: nat | p < k
      ensures p in StoreWord(n, z, left) <==> if z <= p < z + 4 then EncFixed(4, n)[p - z] != 0 else p in left
    {
      assert z <= p < z + 4 ==> ByteOf(n, p - z) == EncFixed(4, n)[p - z];
    }
  }

  lemma FlagStored(has: bool, z: int, left: set<nat>, k: int)
    requires k <= WORD
    ensures Shows([if has then 1 else 0], z, StoreFlag(has, z, left), k)
    ensures forall p: nat :: p < k && p != z ==> (p in StoreFlag(has, z, left) <==> p in left)
  {
  }

  lemma ClearStored(d: int, n: nat, left: set<nat>, k: int)
    ensures Shows(Zeros(n), d, Clear(left, d, n), k)
    ensures forall p: nat :: !(d <= p < d + n) ==> (p in Clear(left, d, n) <==> p in left)
  {
  }

  lemma PartStored(left: set<nat>, d: nat, n: nat, inner: set<nat>, k: int)
    requires k <= WORD
    ensures forall p: nat :: p < n && p + d < k ==> (p + d in Replace(left, d, n, inner) <==> p in inner)
    ensures forall p: nat :: p < k && !(d <= p < d + n) ==> (p in Replace(left, d, n, inner) <==> p in left)
    ensures forall p: nat :: p < n && p + d < k ==> (p in Inside(left, d, n) <==> p + d in left)
  {
    forall p: nat | p < n && p + d < k
      ensures p + d in Replace(left, d, n, inner) <==> p in inner
      ensures p in Inside(left, d, n) <==> p + d in left
    {
      assert Lands(inner, d, n, p + d) <==> p in inner;
      assert WordBytes.PartOf(left, d, n, p) <==> p + d in left;
    }
  }

  // ---- the image of a struct ----

  predicate At(left: set<nat>, d: int, k: int, p: nat) {
    p + d < k && p + d >= 0 && p + d in left
  }

  /** The n bytes at d, of which the first k of the struct count, seen from the start of the part. */
  function Window(left: set<nat>, d: int, n: nat, k: int): set<nat> {
    set p: nat | p < n && At(left, d, k, p)
  }

  /** How much of a part counts. */
  function Reach(d: int, n: nat, k: int): int {
    if k - d < n then k - d else n
  }

  /** The first k bytes of a released struct are those of its values: numbers, strings and byte arrays, at every depth and in
      each element, the flags, counts and selectors, and zeros for pointers and the counts of pointer arrays. */
  ghost predicate Shown(S: Schema, t: nat, m: Slots, left: set<nat>, k: int)
    decreases m, 1
  {
    t < |S| && |m| == |S[t]| && forall i :: 0 <= i < |m| ==> ShownSlot(S, S[t], i, m[i], left, k)
  }

  ghost predicate ShownSlot(S: Schema, table: Table, i: int, slot: Slot, left: set<nat>, k: int)
    requires 0 <= i < |table|
    decreases slot, 1
  {
    var f, d, z := table[i], DataWalk(table, i), SizeWalk(table, i);
    f.ltype.Extension? ||
    match slot
    case One(has, v) =>
      && (f.htype.Oneof? && has ==> Shows(EncFixed(4, f.tag), z, left, k))
      && (f.htype.Optional? && f.sizeOffset != 0 ==> Shows([if has then 1 else 0], z, left, k))
      && ((f.htype.Oneof? && !has) ||
          if f.atype.Pointer? then Shows(Zeros(8), d, left, k) else ShownItem(S, f, v, left, d, k))
    case Many(items) =>
      if f.atype.Pointer? then Shows(Zeros(8), d, left, k) && Shows(Zeros(4), z, left, k)
      else
        && |items| <= f.arraySize
        && (f.sizeOffset != 0 ==> Shows(EncFixed(4, |items|), z, left, k))
        && forall e :: 0 <= e < |items| ==> ShownItem(S, f, items[e], left, Place(d, e, f), k)
  }

  /** The place of an element. */
  function Place(d: nat, e: nat, f: Field): nat {
    d + e * f.dataSize
  }

  ghost predicate ShownItem(S: Schema, f: Field, v: Value, left: set<nat>, d: nat, k: int)
    decreases v, 0
  {
    match v
    case Indeterminate => true
    case Sub(slots) =>
      f.ptr.Table? && Shown(S, f.ptr.id, slots, Window(left, d, f.dataSize, k), Reach(d, f.dataSize, k))
    case _ => Fits(f, v) && Shows(Image(f, v), d, left, k)
  }

  // ---- fields apart from each other ----

  predicate Disjoint(a: int, n: nat, b: int, m: nat) {
    a + n <= b || b + m <= a
  }

  /** The size of the flag, count or selector. */
  function WordSize(f: Field): nat {
    if f.sizeOffset == 0 then 0 else if f.htype.Optional? then 1 else 4
  }

  predicate Apart(table: Table, i: int, j: int)
    requires 0 <= i < |table| && 0 <= j < |table|
  {
    var d, z, n, w := DataWalk(table, i), SizeWalk(table, i), StepSize(table[i]), WordSize(table[i]);
    var d', z', n', w' := DataWalk(table, j), SizeWalk(table, j), StepSize(table[j]), WordSize(table[j]);
    Disjoint(d, n, d', n') && Disjoint(d, n, z', w') && Disjoint(z, w, d', n') && Disjoint(z, w, z', w')
  }

  /** Different fields have different places, unless they are members of one union. */
  predicate Neat(table: Table) {
    && (forall i :: 0 <= i < |table| && !table[i].ltype.Extension? ==>
          NumberSize(table[i]) && table[i].arraySize < U32 &&
          Disjoint(DataWalk(table, i), StepSize(table[i]), SizeWalk(table, i), WordSize(table[i])))
    && forall i, j :: 0 <= i < |table| && 0 <= j < |table| && i != j && OwnPlaces(table[i], table[j]) ==> Apart(table, i, j)
  }

  predicate OwnPlaces(f: Field, g: Field) {
    !f.ltype.Extension? && !g.ltype.Extension? && !SameUnion(f, g)
  }

  /** Nothing but field i is changed. */
  predicate Only(table: Table, i: int, left: set<nat>, left': set<nat>, k: int)
    requires 0 <= i < |table|
  {
    forall p: nat :: p < k && Outside(table, i, p) ==> (p in left <==> p in left')
  }

  predicate Outside(table: Table, i: int, p: nat)
    requires 0 <= i < |table|
  {
    var d, z := DataWalk(table, i), SizeWalk(table, i);
    !(d <= p < d + StepSize(table[i])) && !(z <= p < z + WordSize(table[i]))
  }

  lemma ShowsAgree(data: bytes, d: int, left: set<nat>, left': set<nat>, n: nat, k: int)
    requires Agree(left, left', d, n, k) && |data| <= n && Shows(data, d, left, k)
    ensures Shows(data, d, left', k)
  {
  }

  lemma ItemAgrees(S: Schema, f: Field, v: Value, left: set<nat>, left': set<nat>, d: nat, k: int)
    requires Agree(left, left', d, f.dataSize, k) && ShownItem(S, f, v, left, d, k)
    ensures ShownItem(S, f, v, left', d, k)
  {
    match v
    case Indeterminate =>
    case Sub(slots) =>
      hide Shown;
      forall p: nat | p < f.dataSize
        ensures At(left, d, k, p) <==> At(left', d, k, p)
      {
        assert p + d < k ==> (p + d in left <==> p + d in left');
      }
      assert Window(left, d, f.dataSize, k) == Window(left', d, f.dataSize, k);
    case _ =>
      hide Shows, Image;
      FitsSize(f, v);
      ShowsAgree(Image(f, v), d, left, left', f.dataSize, k);
  }

  lemma FitsSize(f: Field, v: Value)
    requires Fits(f, v)
    ensures |Image(f, v)| <= f.dataSize
  {
    hide EncFixed, ToUnsigned;
  }

  lemma ElementInside(e: nat, n: nat, size: nat)
    requires e < n
    ensures e * size + size <= n * size
  {
    var rest := n - e - 1;
    assert n * size == e * size + size + rest * size;
  }

  lemma SlotAgrees(S: Schema, t: nat, table: Table, i: int, slot: Slot, left: set<nat>, left': set<nat>, k: int)
    requires 0 <= i < |table| && !table[i].ltype.Extension? && FieldOk(S, t, table[i])
    requires Agree(left, left', DataWalk(table, i), StepSize(table[i]), k)
    requires Agree(left, left', SizeWalk(table, i), WordSize(table[i]), k)
    requires ShownSlot(S, table, i, slot, left, k)
    requires table[i].htype.Repeated? <==> slot.Many?
    ensures ShownSlot(S, table, i, slot, left', k)
  {
    hide ShownItem, Shows, Agree, EncFixed;
    var f, d, z := table[i], DataWalk(table, i), SizeWalk(table, i);
    forall data: bytes | |data| <= WordSize(f) && Shows(data, z, left, k)
      ensures Shows(data, z, left', k)
    {
      ShowsAgree(data, z, left, left', WordSize(f), k);
    }
    match slot
    case One(has, v) =>
      if f.atype.Pointer? {
        if Shows(Zeros(8), d, left, k) {
          ShowsAgree(Zeros(8), d, left, left', 8, k);
        }
      } else if ShownItem(S, f, v, left, d, k) {
        ItemAgrees(S, f, v, left, left', d, k);
      }
    case Many(items) =>
      if f.atype.Pointer? {
        ShowsAgree(Zeros(8), d, left, left', 8, k);
      } else {
        forall e | 0 <= e < |items|
          ensures ShownItem(S, f, items[e], left', Place(d, e, f), k)
        {
          PlaceAgrees(left, left', d, e, f, k);
          ItemAgrees(S, f, items[e], left, left', Place(d, e, f), k);
        }
      }
  }

  lemma PlaceAgrees(left: set<nat>, left': set<nat>, d: nat, e: nat, f: Field, k: int)
    requires e < f.arraySize && Agree(left, left', d, f.dataSize * f.arraySize, k)
    ensures Agree(left, left', Place(d, e, f), f.dataSize, k)
  {
    ElementInside(e, f.arraySize, f.dataSize);
  }

  /** A change of another field leaves this one alone. */
  lemma OtherKept(S: Schema, t: nat, i: nat, j: nat, slot: Slot, left: set<nat>, left': set<nat>, k: int)
    requires t < |S| && TableOk(S, t, S[t]) && Neat(S[t]) && i < |S[t]| && j < |S[t]| && i != j
    requires !S[t][i].ltype.Extension? && !SameUnion(S[t][i], S[t][j])
    requires Only(S[t], i, left, left', k) && ShownSlot(S, S[t], j, slot, left, k)
    requires !S[t][j].ltype.Extension? ==> (S[t][j].htype.Repeated? <==> slot.Many?)
    ensures ShownSlot(S, S[t], j, slot, left', k)
  {
    hide ShownSlot, DataWalk, SizeWalk, StepSize;
    if !S[t][j].ltype.Extension? {
      ApartAgrees(S[t], i, j, left, left', k);
      SlotAgrees(S, t, S[t], j, slot, left, left', k);
    } else {
      ExtensionShown(S, S[t], j, slot, left', k);
    }
  }

  lemma ExtensionShown(S: Schema, table: Table, j: nat, slot: Slot, left: set<nat>, k: int)
    requires j < |table| && table[j].ltype.Extension?
    ensures ShownSlot(S, table, j, slot, left, k)
  {
  }

  lemma ApartAgrees(table: Table, i: nat, j: nat, left: set<nat>, left': set<nat>, k: int)
    requires Neat(table) && i < |table| && j < |table| && i != j && Only(table, i, left, left', k)
    requires !table[i].ltype.Extension? && !table[j].ltype.Extension? && !SameUnion(table[i], table[j])
    ensures Agree(left, left', DataWalk(table, j), StepSize(table[j]), k)
    ensures Agree(left, left', SizeWalk(table, j), WordSize(table[j]), k)
  {
    hide DataWalk, SizeWalk, StepSize, WordSize;
    assert Apart(table, i, j);
    var d, z, n, w := DataWalk(table, j), SizeWalk(table, j), StepSize(table[j]), WordSize(table[j]);
    forall p: nat | p < k && (d <= p < d + n || z <= p < z + w)
      ensures p in left <==> p in left'
    {
      assert Outside(table, i, p);
    }
  }

  // ---- initialisation ----

  /** Tables as the descriptor macros make them, with default values that fit. */
  ghost predicate Laid(S: Schema) {
    SchemaOk(S) && forall t :: 0 <= t < |S| ==> Neat(S[t]) && DefaultsFit(S, t)
  }

  ghost predicate DefaultsFit(S: Schema, t: nat)
    requires t < |S|
  {
    forall i :: 0 <= i < |S[t]| && SingleLeaf(S[t][i]) ==> Fits(S[t][i], DefaultItem(S, t, S[t][i]))
  }

  predicate SingleLeaf(f: Field) {
    f.atype.Static? && (f.htype.Required? || f.htype.Optional?) && !f.ltype.Submessage? && !f.ltype.Extension?
  }

  /** The form that the table asks for. */
  predicate Kinds(table: Table, m: Slots) {
    |m| == |table| && forall i :: 0 <= i < |table| && !table[i].ltype.Extension? ==> (table[i].htype.Repeated? <==> m[i].Many?)
  }

  lemma ShapedKinds(S: Schema, t: nat, m: Slots)
    requires t < |S| && Shaped(S, t, m)
    ensures Kinds(S[t], m)
  {
    forall i | 0 <= i < |m|
      ensures !S[t][i].ltype.Extension? ==> (S[t][i].htype.Repeated? <==> m[i].Many?)
    {
      assert ShapedSlot(S, t, S[t][i], m[i]);
    }
  }

  /** Only the bytes that count matter. */
  lemma ShownAgree(S: Schema, t: nat, m: Slots, left: set<nat>, left': set<nat>, k: int)
    requires SchemaOk(S) && Shown(S, t, m, left, k) && Kinds(S[t], m)
    requires forall p: nat :: p < k ==> (p in left <==> p in left')
    ensures Shown(S, t, m, left', k)
  {
    hide ShownSlot, SchemaOk, DataWalk, SizeWalk, StepSize, WordSize;
    forall i | 0 <= i < |m|
      ensures ShownSlot(S, S[t], i, m[i], left', k)
    {
      if S[t][i].ltype.Extension? {
        ExtensionShown(S, S[t], i, m[i], left', k);
      } else {
        assert FieldOk(S, t, S[t][i]) by { FieldIsOk(S, t, i); }
        SlotAgrees(S, t, S[t], i, m[i], left, left', k);
      }
    }
  }

  lemma FieldIsOk(S: Schema, t: nat, i: nat)
    requires SchemaOk(S) && t < |S| && i < |S[t]|
    ensures TableOk(S, t, S[t]) && FieldOk(S, t, S[t][i])
  {
  }

  lemma LaidFacts(S: Schema, t: nat, i: nat)
    requires Laid(S) && t < |S| && i < |S[t]|
    ensures SchemaOk(S) && TableOk(S, t, S[t]) && FieldOk(S, t, S[t][i]) && Neat(S[t])
    ensures SingleLeaf(S[t][i]) ==> Fits(S[t][i], DefaultItem(S, t, S[t][i]))
    ensures !S[t][i].ltype.Extension? ==>
              var f, d, z := S[t][i], DataWalk(S[t], i), SizeWalk(S[t], i);
              NumberSize(f) && f.arraySize < U32 && Disjoint(d, StepSize(f), z, WordSize(f))
  {
    hide DataWalk, SizeWalk, StepSize, WordSize, Apart, Fits, NumberSize, DefaultItem;
    FieldIsOk(S, t, i);
  }

  lemma InitFieldOnly(S: Schema, t: nat, i: nat, left: set<nat>, k: int)
    requires t < |S| && i < |S[t]| && FieldOk(S, t, S[t][i]) && k <= WORD
    requires SingleLeaf(S[t][i]) ==> Fits(S[t][i], DefaultItem(S, t, S[t][i]))
    ensures Only(S[t], i, left, InitField(S, t, i, left), k)
  {
    hide DataWalk, InitBytes, DefaultItem, Fits, StoreLeaf, Clear, Replace, StoreFlag, Image;
    var f, d, z := S[t][i], DataWalk(S[t], i), SizeWalk(S[t], i);
    ClearStored(d, WORD, left, k);
    ClearStored(z, COUNT_SIZE, left, k);
    ClearStored(z, COUNT_SIZE, Clear(left, d, WORD), k);
    FlagStored(false, z, left, k);
    var flagged := if f.htype.Optional? && f.sizeOffset != 0 then StoreFlag(false, z, left) else left;
    ClearStored(d, f.dataSize, flagged, k);
    if SingleLeaf(f) {
      var v := DefaultItem(S, t, f);
      FitsSize(f, v);
      LeafStored(f, v, d, Clear(flagged, d, f.dataSize), k);
    } else if f.ptr.Table? && f.ptr.id < t {
      PartStored(flagged, d, f.dataSize, InitBytes(S, f.ptr.id, Inside(flagged, d, f.dataSize)), k);
    }
    WalkOfFixed(S[t], i);
  }

  lemma WalkOfFixed(table: Table, i: nat)
    requires i < |table|
    ensures table[i].sizeOffset == 0 && table[i].htype.Repeated? ==> SizeWalk(table, i) == DataWalk(table, i)
  {
    hide DataWalk;
  }

  /** A part of a struct shows what the part by itself shows. */
  lemma PartShown(S: Schema, f: Field, m: Slots, left: set<nat>, d: nat, inner: set<nat>, k: int)
    requires SchemaOk(S) && f.ptr.Table? && f.ptr.id < |S| && Kinds(S[f.ptr.id], m) && k <= WORD
    requires Shown(S, f.ptr.id, m, inner, Reach(d, f.dataSize, k))
    ensures ShownItem(S, f, Sub(m), Replace(left, d, f.dataSize, inner), d, k)
  {
    hide SchemaOk, Shown, Kinds, Replace;
    var left' := Replace(left, d, f.dataSize, inner);
    PartStored(left, d, f.dataSize, inner, k);
    forall p: nat | p < Reach(d, f.dataSize, k)
      ensures p in inner <==> p in Window(left', d, f.dataSize, k)
    {
      assert At(left', d, k, p) <==> p + d in left';
    }
    ShownAgree(S, f.ptr.id, m, inner, Window(left', d, f.dataSize, k), Reach(d, f.dataSize, k));
  }

  /** And a part seen by itself shows what it shows in the struct. */
  lemma InsideShown(S: Schema, f: Field, m: Slots, left: set<nat>, d: nat, k: int)
    requires SchemaOk(S) && f.ptr.Table? && f.ptr.id < |S| && Kinds(S[f.ptr.id], m) && k <= WORD
    requires ShownItem(S, f, Sub(m), left, d, k)
    ensures Shown(S, f.ptr.id, m, Inside(left, d, f.dataSize), Reach(d, f.dataSize, k))
  {
    hide SchemaOk, Shown, Kinds, Inside;
    PartStored(left, d, f.dataSize, {}, k);
    forall p: nat | p < Reach(d, f.dataSize, k)
      ensures p in Inside(left, d, f.dataSize) <==> p in Window(left, d, f.dataSize, k)
    {
      assert At(left, d, k, p) <==> p + d in left;
    }
    ShownAgree(S, f.ptr.id, m, Window(left, d, f.dataSize, k), Inside(left, d, f.dataSize), Reach(d, f.dataSize, k));
  }

  lemma ZeroImage(n: nat)
    ensures forall q :: 0 <= q < n ==> EncFixed(n, 0)[q] == 0
  {
  }

  lemma {:induction false} InitFieldShown(S: Schema, t: nat, i: nat, left: set<nat>, k: int)
    requires Laid(S) && t < |S| && i < |S[t]| && k <= WORD
    ensures ShownSlot(S, S[t], i, DefaultSlot(S, t, S[t][i]), InitField(S, t, i, left), k)
    decreases t, 0, 1
  {
    hide Laid, SchemaOk, TableOk, Neat, DataWalk, SizeWalk, InitBytes, DefaultItem, Fits, Image, StoreLeaf, Clear, Replace;
    hide StoreFlag, Shown, Defaults;
    var f, d, z := S[t][i], DataWalk(S[t], i), SizeWalk(S[t], i);
    LaidFacts(S, t, i);
    ClearStored(d, WORD, left, k);
    ClearStored(z, COUNT_SIZE, left, k);
    ClearStored(z, COUNT_SIZE, Clear(left, d, WORD), k);
    ZeroImage(4);
    if f.atype.Static? && (f.htype.Required? || f.htype.Optional?) && !f.ltype.Extension? {
      if f.ltype.Submessage? {
        InitPartShown(S, t, i, left, k);
      } else {
        InitLeafShown(S, t, i, left, k);
      }
    }
  }

  function Flagged(f: Field, z: int, left: set<nat>): set<nat> {
    if f.htype.Optional? && f.sizeOffset != 0 then StoreFlag(false, z, left) else left
  }

  lemma InitLeafShown(S: Schema, t: nat, i: nat, left: set<nat>, k: int)
    requires Laid(S) && t < |S| && i < |S[t]| && k <= WORD && SingleLeaf(S[t][i])
    ensures ShownSlot(S, S[t], i, DefaultSlot(S, t, S[t][i]), InitField(S, t, i, left), k)
  {
    hide Laid, SchemaOk, TableOk, Neat, DataWalk, SizeWalk, DefaultItem, Fits, Image, StoreLeaf, Clear, StoreFlag;
    var f, d, z := S[t][i], DataWalk(S[t], i), SizeWalk(S[t], i);
    var v, flagged := DefaultItem(S, t, f), Flagged(f, z, left);
    LaidFacts(S, t, i);
    FlagStored(false, z, left, k);
    ClearStored(d, f.dataSize, flagged, k);
    FitsSize(f, v);
    LeafStored(f, v, d, Clear(flagged, d, f.dataSize), k);
    FitsShown(S, f, v, InitField(S, t, i, left), d, k);
  }

  lemma FitsShown(S: Schema, f: Field, v: Value, left: set<nat>, d: nat, k: int)
    requires Fits(f, v) && Shows(Image(f, v), d, left, k)
    ensures ShownItem(S, f, v, left, d, k)
  {
    hide Image, Shows;
  }

  lemma DefaultSub(S: Schema, t: nat, f: Field)
    requires t < |S| && f.ltype.Submessage? && f.ptr.Table? && f.ptr.id < t
    ensures DefaultItem(S, t, f) == Sub(Defaults(S, f.ptr.id))
  {
  }

  lemma {:induction false} InitPartShown(S: Schema, t: nat, i: nat, left: set<nat>, k: int)
    requires Laid(S) && t < |S| && i < |S[t]| && k <= WORD
    requires S[t][i].atype.Static? && S[t][i].ltype.Submessage? && (S[t][i].htype.Required? || S[t][i].htype.Optional?)
    ensures ShownSlot(S, S[t], i, DefaultSlot(S, t, S[t][i]), InitField(S, t, i, left), k)
    decreases t, 0, 0
  {
    hide Laid, SchemaOk, TableOk, Neat, DataWalk, SizeWalk, DefaultItem, InitBytes, Replace, StoreFlag, Shown, Defaults;
    var f, d, z := S[t][i], DataWalk(S[t], i), SizeWalk(S[t], i);
    var flagged := Flagged(f, z, left);
    LaidFacts(S, t, i);
    var m := Defaults(S, f.ptr.id);
    var inner := InitBytes(S, f.ptr.id, Inside(flagged, d, f.dataSize));
    FlagStored(false, z, left, k);
    InitShown(S, f.ptr.id, Inside(flagged, d, f.dataSize), Reach(d, f.dataSize, k));
    PartStored(flagged, d, f.dataSize, inner, k);
    DefaultsShaped(S, f.ptr.id);
    ShapedKinds(S, f.ptr.id, m);
    PartShown(S, f, m, flagged, d, inner, k);
    DefaultSub(S, t, f);
    hide ShownItem, Inside;
  }

  lemma {:induction false} InitFromShown(S: Schema, t: nat, i: nat, left: set<nat>, k: int)
    requires Laid(S) && t < |S| && i <= |S[t]| && k <= WORD
    requires forall j :: 0 <= j < i ==> ShownSlot(S, S[t], j, DefaultSlot(S, t, S[t][j]), left, k)
    ensures Shown(S, t, Defaults(S, t), InitFrom(S, t, i, left), k)
    decreases t, 1, |S[t]| - i
  {
    hide Laid, SchemaOk, TableOk, Neat, ShownSlot, InitField, DefaultSlot;
    if i < |S[t]| {
      var left' := InitField(S, t, i, left);
      InitFieldShown(S, t, i, left, k);
      LaidFacts(S, t, i);
      InitFieldOnly(S, t, i, left, k);
      forall j | 0 <= j < i
        ensures ShownSlot(S, S[t], j, DefaultSlot(S, t, S[t][j]), left', k)
      {
        if S[t][i].ltype.Extension? {
          assert left' == left by { SkipsExtension(S, t, i, left); }
        } else if SameUnion(S[t][i], S[t][j]) {
          UnsetShown(S, t, j, left', k);
        } else {
          DefaultKind(S, t, j);
          OtherKept(S, t, i, j, DefaultSlot(S, t, S[t][j]), left, left', k);
        }
      }
      InitFromShown(S, t, i + 1, left', k);
    } else {
      assert forall j :: 0 <= j < |S[t]| ==> Defaults(S, t)[j] == DefaultSlot(S, t, S[t][j]);
    }
  }

  lemma SkipsExtension(S: Schema, t: nat, i: nat, left: set<nat>)
    requires t < |S| && i < |S[t]| && S[t][i].ltype.Extension?
    ensures InitField(S, t, i, left) == left
  {
  }

  lemma UnsetShown(S: Schema, t: nat, j: nat, left: set<nat>, k: int)
    requires t < |S| && j < |S[t]| && S[t][j].htype.Oneof?
    ensures ShownSlot(S, S[t], j, DefaultSlot(S, t, S[t][j]), left, k)
    ensures ShownSlot(S, S[t], j, One(false, Indeterminate), left, k)
  {
  }

  lemma DefaultKind(S: Schema, t: nat, j: nat)
    requires t < |S| && j < |S[t]|
    ensures !S[t][j].ltype.Extension? ==> (S[t][j].htype.Repeated? <==> DefaultSlot(S, t, S[t][j]).Many?)
  {
  }

  /** Initialisation leaves the image of the default struct, whatever was there before. */
  lemma {:induction false} InitShown(S: Schema, t: nat, left: set<nat>, k: int)
    requires Laid(S) && t < |S| && k <= WORD
    ensures Shown(S, t, Defaults(S, t), InitBytes(S, t, left), k)
    decreases t, 2
  {
    hide Laid, ShownSlot, InitFrom, Defaults;
    InitFromShown(S, t, 0, left, k);
  }

  // ---- items as they are decoded ----

  lemma ItemFits(S: Schema, t: nat, f: Field, start: Slots, b: bytes)
    requires FieldOk(S, t, f) && NumberSize(f) && f.atype.Static? && !f.ltype.Submessage?
    requires DecItem(S, f, start, b).Ok?
    ensures Fits(f, DecItem(S, f, start, b).value)
  {
    hide DecScalar, DecVarint32, EncFixed;
  }

  /** Items n to n' are new, and there are no others. */
  predicate Grown(items: seq<Value>, items': seq<Value>, n: nat, n': nat) {
    && n <= n' && |items'| == (if n < n' && |items| < n' then n' else |items|)
    && forall e :: 0 <= e < |items'| && !(n <= e < n') ==> SameAt(items, items', e)
  }

  predicate SameAt(items: seq<Value>, items': seq<Value>, e: nat) {
    e < |items| && e < |items'| && items'[e] == items[e]
  }

  lemma GrownPut(items: seq<Value>, v: Value, items': seq<Value>, n: nat, n': nat)
    requires n <= |items| && Grown(Put(items, n, v), items', n + 1, n')
    ensures Grown(items, items', n, n') && n < n' && n < |items'| && items'[n] == v
  {
    assert SameAt(Put(items, n, v), items', n);
    forall e | 0 <= e < |items'| && !(n <= e < n')
      ensures SameAt(items, items', e)
    {
      assert SameAt(Put(items, n, v), items', e);
    }
  }

  lemma NumberFits(f: Field, n: int)
    requires Packable(f.ltype) && NumberSize(f)
    ensures Fits(f, Scalar(n))
  {
  }

  lemma {:induction false} PackedGrows(S: Schema, t: nat, f: Field, items: seq<Value>, n: nat, b: bytes)
    requires NumberSize(f) && Packable(f.ltype) && DecPacked(f, items, n, b).Some? && (n <= |items| || |items| == Capacity(f))
    ensures var (items', n') := DecPacked(f, items, n, b).value;
            Grown(items, items', n, n') && (n < n' ==> n' <= Capacity(f)) &&
            forall e :: n <= e < n' && e < |items'| ==> Fits(f, items'[e])
    decreases |b|
  {
    hide DecScalar;
    if b != [] {
      var p := DecScalar(f, b);
      PackedGrows(S, t, f, Put(items, n, Scalar(p.value)), n + 1, p.rest);
      hide Grown, Fits;
      GrownPut(items, Scalar(p.value), DecPacked(f, items, n, b).value.0, n, DecPacked(f, items, n, b).value.1);
      NumberFits(f, p.value);
    }
  }

  lemma RepeatedGrows(S: Schema, t: nat, f: Field, items: seq<Value>, n: nat, w: nat, b: bytes)
    requires FieldOk(S, t, f) && NumberSize(f) && f.atype.Static? && !f.ltype.Submessage?
    requires DecRepeated(S, f, items, n, w, b).Ok? && (n <= |items| || |items| == Capacity(f))
    ensures var (items', n') := DecRepeated(S, f, items, n, w, b).value;
            Grown(items, items', n, n') && (n < n' ==> n' <= Capacity(f)) &&
            forall e :: n <= e < n' && e < |items'| ==> Fits(f, items'[e])
  {
    hide DecItem, DecPacked, DecPrefixed, FieldOk;
    if w == 2 && Packable(f.ltype) {
      PackedGrows(S, t, f, items, n, DecPrefixed(b).value);
    } else {
      ItemFits(S, t, f, Fresh(S, f), b);
    }
  }

  lemma {:induction false} LeavesStored(f: Field, items: seq<Value>, n: nat, n': nat, d: nat, left: set<nat>, k: int)
    requires n <= n' <= |items| && k <= WORD && forall e :: n <= e < n' ==> Fits(f, items[e])
    ensures forall e :: n <= e < n' ==> Shows(Image(f, items[e]), Place(d, e, f), StoreLeaves(f, items, n, n', d, left), k)
    ensures forall p: nat :: p < k && !(Place(d, n, f) <= p < Place(d, n', f)) ==>
              (p in StoreLeaves(f, items, n, n', d, left) <==> p in left)
    decreases n' - n
  {
    hide Fits, Image, StoreLeaf, Shows;
    if n < n' {
      var left', at := StoreLeaf(f, items[n], d + n * f.dataSize, left), Place(d, n, f);
      FitsSize(f, items[n]);
      LeafStored(f, items[n], at, left, k);
      LeavesStored(f, items, n + 1, n', d, left', k);
      NextPlace(d, n, n', f);
      var left'' := StoreLeaves(f, items, n, n', d, left);
      assert Agree(left', left'', at, f.dataSize, k);
      ShowsAgree(Image(f, items[n]), at, left', left'', f.dataSize, k);
    }
  }

  lemma NextPlace(d: nat, n: nat, n': nat, f: Field)
    requires n < n'
    ensures Place(d, n + 1, f) == Place(d, n, f) + f.dataSize <= Place(d, n', f)
  {
    ElementInside(n, n', f.dataSize);
    assert (n + 1) * f.dataSize == n * f.dataSize + f.dataSize;
  }

  lemma PlacesOrdered(d: nat, n: nat, n': nat, f: Field)
    requires n <= n'
    ensures d <= Place(d, n, f) <= Place(d, n', f)
  {
    if n < n' {
      NextPlace(d, n, n', f);
    }
  }

  // ---- records ----

  function Counted(f: Field, z: int, n: nat, left: set<nat>): set<nat> {
    if f.sizeOffset != 0 then StoreWord(n, z, left) else left
  }

  /** The count is stored, and the elements stay. */
  lemma CountStored(S: Schema, t: nat, i: nat, items: seq<Value>, n: nat, left: set<nat>, k: int)
    requires Laid(S) && t < |S| && i < |S[t]| && k <= WORD && n < U32
    requires S[t][i].atype.Static? && S[t][i].htype.Repeated? && !S[t][i].ltype.Extension?
    requires ShownSlot(S, S[t], i, Many(items), left, k)
    ensures var f, d, z := S[t][i], DataWalk(S[t], i), SizeWalk(S[t], i);
            var counted := Counted(f, z, n, left);
            && |items| <= f.arraySize && Only(S[t], i, left, counted, k)
            && (f.sizeOffset != 0 ==> Shows(EncFixed(4, n), z, counted, k))
            && Agree(left, counted, d, f.dataSize * f.arraySize, k)
            && forall e :: 0 <= e < |items| ==> ShownItem(S, f, items[e], counted, Place(d, e, f), k)
  {
    hide Laid, SchemaOk, TableOk, FieldOk, Neat, DataWalk, SizeWalk, Fits, Image, StoreWord, EncFixed, Shown;
    var f, d, z := S[t][i], DataWalk(S[t], i), SizeWalk(S[t], i);
    LaidFacts(S, t, i);
    WordStored(n, z, left, k);
    var counted := Counted(f, z, n, left);
    forall e | 0 <= e < |items|
      ensures ShownItem(S, f, items[e], counted, Place(d, e, f), k)
    {
      PlaceAgrees(left, counted, d, e, f, k);
      ItemAgrees(S, f, items[e], left, counted, Place(d, e, f), k);
    }
  }

  /** What is stored between two places leaves the elements before and behind alone. */
  lemma OthersKept(S: Schema, f: Field, items: seq<Value>, items': seq<Value>, n: nat, n': nat, d: nat, left: set<nat>,
                   left': set<nat>, k: int)
    requires Grown(items, items', n, n')
    requires forall e :: 0 <= e < |items| ==> ShownItem(S, f, items[e], left, Place(d, e, f), k)
    requires forall p: nat :: p < k && !(Place(d, n, f) <= p < Place(d, n', f)) ==> (p in left' <==> p in left)
    ensures forall e :: 0 <= e < |items'| && !(n <= e < n') ==> ShownItem(S, f, items'[e], left', Place(d, e, f), k)
  {
    hide ShownItem, Place;
    forall e | 0 <= e < |items'| && !(n <= e < n')
      ensures ShownItem(S, f, items'[e], left', Place(d, e, f), k)
    {
      var at := Place(d, e, f);
      assert SameAt(items, items', e);
      if e < n {
        NextPlace(d, e, n, f);
      } else {
        PlacesOrdered(d, n', e, f);
      }
      assert Agree(left, left', at, f.dataSize, k);
      ItemAgrees(S, f, items[e], left, left', at, k);
    }
  }

  lemma LeafArrayShown(S: Schema, t: nat, i: nat, items: seq<Value>, items': seq<Value>, n: nat, n': nat, left: set<nat>,
                       b: bytes, k: int)
    requires Laid(S) && t < |S| && i < |S[t]| && k <= WORD && !S[t][i].ltype.Extension? && !S[t][i].ltype.Submessage?
    requires S[t][i].atype.Static? && S[t][i].htype.Repeated? && ShownSlot(S, S[t], i, Many(items), left, k)
    requires Grown(items, items', n, n') && |items'| <= S[t][i].arraySize && (n < n' ==> n' <= |items'|)
    requires forall e :: n <= e < n' && e < |items'| ==> Fits(S[t][i], items'[e])
    ensures ShownSlot(S, S[t], i, Many(items'), ArrayBytes(S, S[t], i, items', n, n', left, b), k)
    ensures Only(S[t], i, left, ArrayBytes(S, S[t], i, items', n, n', left, b), k)
  {
    hide Laid, SchemaOk, TableOk, FieldOk, Neat, DataWalk, SizeWalk, Fits, Image, StoreWord, EncFixed, Shown, StoreLeaves;
    var f, d, z := S[t][i], DataWalk(S[t], i), SizeWalk(S[t], i);
    LaidFacts(S, t, i);
    CountStored(S, t, i, items, |items'|, left, k);
    var counted := Counted(f, z, |items'|, left);
    var left' := ArrayBytes(S, S[t], i, items', n, n', left, b);
    if n < n' {
      LeavesStored(f, items', n, n', d, counted, k);
    } else {
      NoLeaves(f, items', n, d, counted);
    }
    assert left' == StoreLeaves(f, items', n, n', d, counted);
    PlacesOrdered(d, n, n', f);
    forall e | n <= e < n'
      ensures ShownItem(S, f, items'[e], left', Place(d, e, f), k)
    {
      FitsShown(S, f, items'[e], left', Place(d, e, f), k);
    }
    StoredWithin(S, t, i, items, items', n, n', left, counted, left', k);
  }

  lemma NoLeaves(f: Field, items: seq<Value>, n: nat, d: nat, left: set<nat>)
    ensures StoreLeaves(f, items, n, n, d, left) == left
  {
  }

  /** New elements that stand at their places make the array. */
  lemma StoredWithin(S: Schema, t: nat, i: nat, items: seq<Value>, items': seq<Value>, n: nat, n': nat, left: set<nat>,
                     counted: set<nat>, left': set<nat>, k: int)
    requires Laid(S) && t < |S| && i < |S[t]| && k <= WORD && !S[t][i].ltype.Extension?
    requires S[t][i].atype.Static? && S[t][i].htype.Repeated?
    requires Grown(items, items', n, n') && |items'| <= S[t][i].arraySize && (n < n' ==> n' <= |items'|)
    requires var f, d, z := S[t][i], DataWalk(S[t], i), SizeWalk(S[t], i);
             && Only(S[t], i, left, counted, k)
             && (f.sizeOffset != 0 ==> Shows(EncFixed(4, |items'|), z, counted, k))
             && (forall e :: 0 <= e < |items| ==> ShownItem(S, f, items[e], counted, Place(d, e, f), k))
             && (forall e :: n <= e < n' ==> ShownItem(S, f, items'[e], left', Place(d, e, f), k))
             && (forall p: nat :: p < k && !(Place(d, n, f) <= p < Place(d, n', f)) ==> (p in left' <==> p in counted))
    ensures ShownSlot(S, S[t], i, Many(items'), left', k) && Only(S[t], i, left, left', k)
  {
    hide Laid, SchemaOk, TableOk, FieldOk, Neat, DataWalk, SizeWalk, ShownItem, EncFixed, Place;
    var f, d, z := S[t][i], DataWalk(S[t], i), SizeWalk(S[t], i);
    LaidFacts(S, t, i);
    OthersKept(S, f, items, items', n, n', d, counted, left', k);
    PlacesOrdered(d, n, n', f);
    if n < n' {
      LastPlace(d, n', f);
    }
  }

  lemma LastPlace(d: nat, n': nat, f: Field)
    requires n' <= f.arraySize
    ensures Place(d, n', f) <= d + f.dataSize * f.arraySize
  {
    PlacesOrdered(d, n', f.arraySize, f);
  }

  lemma {:induction false} PayloadStored(S: Schema, f: Field, start: Slots, inner: set<nat>, b: bytes, k: int)
    requires Laid(S) && f.ltype.Submessage? && f.ptr.Table? && f.ptr.id < |S| && k <= WORD
    requires Shaped(S, f.ptr.id, start) && Shown(S, f.ptr.id, start, inner, k) && DecItem(S, f, start, b).Ok?
    ensures var v := DecItem(S, f, start, b).value;
            v.Sub? && Kinds(S[f.ptr.id], v.slots) && Shown(S, f.ptr.id, v.slots, PayloadInto(S, f, start, inner, b), k)
    decreases |b|, 0
  {
    hide Laid, Shaped, Shown, Kinds, DecMessage, BytesAfter;
    assert SchemaOk(S) by { LaidOk(S); }
    Layout.ItemShaped(S, f, start, b);
    ShapedKinds(S, f.ptr.id, DecItem(S, f, start, b).value.slots);
    MessageStored(S, f.ptr.id, start, inner, DecPrefixed(b).value, k);
  }

  lemma LaidOk(S: Schema)
    requires Laid(S)
    ensures SchemaOk(S)
  {
  }

  lemma {:induction false} SubArrayShown(S: Schema, t: nat, i: nat, items: seq<Value>, n: nat, left: set<nat>, b: bytes,
                                         k: int)
    requires Laid(S) && t < |S| && i < |S[t]| && k <= WORD && S[t][i].ltype.Submessage? && S[t][i].atype.Static?
    requires S[t][i].htype.Repeated? && ShownSlot(S, S[t], i, Many(items), left, k)
    requires n <= |items| && n < S[t][i].arraySize && DecItem(S, S[t][i], Fresh(S, S[t][i]), b).Ok?
    ensures var items' := Put(items, n, DecItem(S, S[t][i], Fresh(S, S[t][i]), b).value);
            forall n' :: n' == n + 1 ==>
              ShownSlot(S, S[t], i, Many(items'), ArrayBytes(S, S[t], i, items', n, n', left, b), k) &&
              Only(S[t], i, left, ArrayBytes(S, S[t], i, items', n, n', left, b), k)
    decreases |b|, 1, 0
  {
    hide Laid, SchemaOk, TableOk, Neat, DataWalk, SizeWalk, StoreWord, EncFixed, Shown, DecItem, InitBytes, Replace, Inside;
    hide Shaped, Defaults, PayloadInto, Kinds;
    var f, d := S[t][i], DataWalk(S[t], i);
    LaidFacts(S, t, i);
    var v, at := DecItem(S, f, Fresh(S, f), b).value, Place(d, n, f);
    var items' := Put(items, n, v);
    CountStored(S, t, i, items, |items'|, left, k);
    var counted := Counted(f, SizeWalk(S[t], i), |items'|, left);
    var inside, reach := Inside(counted, at, f.dataSize), Reach(at, f.dataSize, k);
    InitShown(S, f.ptr.id, inside, reach);
    DefaultsShaped(S, f.ptr.id);
    var inner := PayloadInto(S, f, Fresh(S, f), InitBytes(S, f.ptr.id, inside), b);
    PayloadStored(S, f, Fresh(S, f), InitBytes(S, f.ptr.id, inside), b, reach);
    PartShown(S, f, v.slots, counted, at, inner, k);
    PartStored(counted, at, f.dataSize, inner, k);
    var left' := ArrayBytes(S, S[t], i, items', n, n + 1, left, b);
    assert left' == Replace(counted, at, f.dataSize, inner);
    NextPlace(d, n, n + 1, f);
    assert Grown(items, items', n, n + 1);
    StoredWithin(S, t, i, items, items', n, n + 1, left, counted, left', k);
  }

  lemma {:induction false} SingleShown(S: Schema, t: nat, i: nat, was: Slot, left: set<nat>, b: bytes, k: int)
    requires Laid(S) && t < |S| && i < |S[t]| && k <= WORD && !S[t][i].ltype.Extension? && !S[t][i].htype.Repeated?
    requires was.One? && ShapedSlot(S, t, S[t][i], was) && ShownSlot(S, S[t], i, was, left, k)
    requires DecItem(S, S[t][i], StartOf(S, S[t][i], was), b).Ok?
    ensures var v := DecItem(S, S[t][i], StartOf(S, S[t][i], was), b).value;
            var left' := SingleBytes(S, S[t], i, was, v, left, b);
            ShownSlot(S, S[t], i, One(true, v), left', k) && Only(S[t], i, left, left', k)
    decreases |b|, 1, 1
  {
    LaidFacts(S, t, i);
    var f := S[t][i];
    if f.atype.Pointer? {
      PointerStored(S, t, i, was, left, b, k);
    } else if f.ltype.Submessage? {
      SinglePartShown(S, t, i, was, left, b, k);
    } else {
      SingleLeafShown(S, t, i, was, left, b, k);
    }
  }

  function Marked(f: Field, z: int, left: set<nat>): set<nat> {
    if f.htype.Oneof? then StoreWord(f.tag, z, left)
    else if f.htype.Optional? && f.sizeOffset != 0 then StoreFlag(true, z, left)
    else left
  }

  lemma MarkStored(S: Schema, t: nat, i: nat, left: set<nat>, k: int)
    requires Laid(S) && t < |S| && i < |S[t]| && k <= WORD && !S[t][i].ltype.Extension? && !S[t][i].htype.Repeated?
    ensures var f, d, z := S[t][i], DataWalk(S[t], i), SizeWalk(S[t], i);
            var marked := Marked(f, z, left);
            && Only(S[t], i, left, marked, k) && Agree(left, marked, d, StepSize(f), k)
            && (f.htype.Oneof? ==> Shows(EncFixed(4, f.tag), z, marked, k))
            && (f.htype.Optional? && f.sizeOffset != 0 ==> Shows([1], z, marked, k))
  {
    hide Laid, SchemaOk, TableOk, Neat, DataWalk, SizeWalk, StoreWord, StoreFlag, EncFixed;
    LaidFacts(S, t, i);
    WordStored(S[t][i].tag, SizeWalk(S[t], i), left, k);
    FlagStored(true, SizeWalk(S[t], i), left, k);
  }

  lemma PointerStored(S: Schema, t: nat, i: nat, was: Slot, left: set<nat>, b: bytes, k: int)
    requires Laid(S) && t < |S| && i < |S[t]| && k <= WORD && !S[t][i].ltype.Extension? && !S[t][i].htype.Repeated?
    requires S[t][i].atype.Pointer?
    ensures forall v :: ShownSlot(S, S[t], i, One(true, v), SingleBytes(S, S[t], i, was, v, left, b), k)
    ensures forall v :: Only(S[t], i, left, SingleBytes(S, S[t], i, was, v, left, b), k)
  {
    hide Laid, SchemaOk, TableOk, Neat, DataWalk, SizeWalk, StoreWord, Clear, EncFixed, ShownItem;
    LaidFacts(S, t, i);
    var d := DataWalk(S[t], i);
    ClearStored(d, WORD, left, k);
    WordStored(S[t][i].tag, SizeWalk(S[t], i), Clear(left, d, WORD), k);
  }

  lemma SingleLeafShown(S: Schema, t: nat, i: nat, was: Slot, left: set<nat>, b: bytes, k: int)
    requires Laid(S) && t < |S| && i < |S[t]| && k <= WORD && !S[t][i].ltype.Extension? && !S[t][i].htype.Repeated?
    requires S[t][i].atype.Static? && !S[t][i].ltype.Submessage? && was.One?
    requires DecItem(S, S[t][i], StartOf(S, S[t][i], was), b).Ok?
    ensures var v := DecItem(S, S[t][i], StartOf(S, S[t][i], was), b).value;
            var left' := SingleBytes(S, S[t], i, was, v, left, b);
            ShownSlot(S, S[t], i, One(true, v), left', k) && Only(S[t], i, left, left', k)
  {
    hide Laid, SchemaOk, TableOk, Neat, DataWalk, SizeWalk, StoreWord, StoreFlag, EncFixed, DecItem, StoreLeaf, Fits, Image;
    LaidFacts(S, t, i);
    var f, d, z := S[t][i], DataWalk(S[t], i), SizeWalk(S[t], i);
    var v := DecItem(S, f, StartOf(S, f, was), b).value;
    ItemFits(S, t, f, StartOf(S, f, was), b);
    FitsSize(f, v);
    MarkStored(S, t, i, left, k);
    var marked := Marked(f, z, left);
    LeafStored(f, v, d, marked, k);
    var left' := StoreLeaf(f, v, d, marked);
    assert SingleBytes(S, S[t], i, was, v, left, b) == left';
    FitsShown(S, f, v, left', d, k);
  }

  lemma {:induction false} SinglePartShown(S: Schema, t: nat, i: nat, was: Slot, left: set<nat>, b: bytes, k: int)
    requires Laid(S) && t < |S| && i < |S[t]| && k <= WORD && !S[t][i].htype.Repeated?
    requires S[t][i].atype.Static? && S[t][i].ltype.Submessage?
    requires was.One? && ShapedSlot(S, t, S[t][i], was) && ShownSlot(S, S[t], i, was, left, k)
    requires DecItem(S, S[t][i], StartOf(S, S[t][i], was), b).Ok?
    ensures var v := DecItem(S, S[t][i], StartOf(S, S[t][i], was), b).value;
            var left' := SingleBytes(S, S[t], i, was, v, left, b);
            ShownSlot(S, S[t], i, One(true, v), left', k) && Only(S[t], i, left, left', k)
    decreases |b|, 1, 0
  {
    hide Laid, SchemaOk, TableOk, Neat, DataWalk, SizeWalk, StoreWord, StoreFlag, EncFixed, DecItem, InitBytes, Replace, Inside;
    hide Shaped, Shown, Defaults, PayloadInto, Kinds, ShownItem;
    LaidFacts(S, t, i);
    var f, d, z := S[t][i], DataWalk(S[t], i), SizeWalk(S[t], i);
    var start, reach := StartOf(S, f, was), Reach(d, f.dataSize, k);
    var v := DecItem(S, f, start, b).value;
    MarkStored(S, t, i, left, k);
    var marked := Marked(f, z, left);
    var ready := if f.htype.Oneof? then InitBytes(S, f.ptr.id, {}) else Inside(marked, d, f.dataSize);
    if f.htype.Oneof? {
      InitShown(S, f.ptr.id, {}, reach);
      DefaultsShaped(S, f.ptr.id);
    } else {
      ShapedKinds(S, f.ptr.id, start);
      ItemAgrees(S, f, was.v, left, marked, d, k);
      InsideShown(S, f, start, marked, d, k);
    }
    PayloadStored(S, f, start, ready, b, reach);
    var inner := PayloadInto(S, f, start, ready, b);
    PartShown(S, f, v.slots, marked, d, inner, k);
    PartStored(marked, d, f.dataSize, inner, k);
    assert SingleBytes(S, S[t], i, was, v, left, b) == Replace(marked, d, f.dataSize, inner);
  }

  // ---- whole messages ----

  lemma {:induction false} FieldStored(S: Schema, t: nat, run: Run, i: nat, w: nat, b: bytes, left: set<nat>, k: int)
    requires Laid(S) && t < |S| && i < |S[t]| && k <= WORD && !S[t][i].ltype.Extension?
    requires Shaped(S, t, run.m) && Shown(S, t, run.m, left, k) && |run.m| == |S[t]|
    requires DecField(S, S[t], run, i, w, b).Ok?
    ensures var run' := DecField(S, S[t], run, i, w, b).value;
            var left' := RecordBytes(S, t, run, run', i, left, b);
            ShownSlot(S, S[t], i, run'.m[i], left', k) && Only(S[t], i, left, left', k)
    decreases |b|, 2, 0
  {
    hide Laid, Shaped, DecItem, SingleBytes, ArrayBytes, DecRepeated, Defaults;
    var f := S[t][i];
    assert ShapedSlot(S, t, f, run.m[i]) by { ShapedAt(S, t, run.m, i); }
    assert ShownSlot(S, S[t], i, run.m[i], left, k);
    hide ShownSlot, Shown, ShapedSlot, Only;
    match run.m[i]
    case One(_, _) => SingleShown(S, t, i, run.m[i], left, b, k);
    case Many(items) => ArrayStored(S, t, run, i, w, b, left, k);
  }

  lemma ShapedAt(S: Schema, t: nat, m: Slots, i: nat)
    requires t < |S| && Shaped(S, t, m) && i < |m|
    ensures |m| == |S[t]| && ShapedSlot(S, t, S[t][i], m[i])
  {
  }

  lemma {:induction false} ArrayStored(S: Schema, t: nat, run: Run, i: nat, w: nat, b: bytes, left: set<nat>, k: int)
    requires Laid(S) && t < |S| && i < |S[t]| == |run.m| && k <= WORD && !S[t][i].ltype.Extension? && run.m[i].Many?
    requires ShapedSlot(S, t, S[t][i], run.m[i]) && ShownSlot(S, S[t], i, run.m[i], left, k)
    requires DecField(S, S[t], run, i, w, b).Ok?
    ensures var run' := DecField(S, S[t], run, i, w, b).value;
            var left' := RecordBytes(S, t, run, run', i, left, b);
            ShownSlot(S, S[t], i, run'.m[i], left', k) && Only(S[t], i, left, left', k)
    decreases |b|, 1, 2
  {
    hide Laid, SchemaOk, TableOk, Neat, DecItem, ArrayBytes, Only, DataWalk, SizeWalk, DecScalar, DecPrefixed, DecPacked;
    LaidFacts(S, t, i);
    var f, items, n := S[t][i], run.m[i].items, CountOf(S[t], run, i);
    var (items', n') := DecRepeated(S, f, items, n, w, b).value;
    if f.atype.Pointer? {
      PointerArrayStored(S, t, i, items', n, |items'|, left, b, k);
    } else {
      assert |items| <= f.arraySize;
      assert FixedCount(f) ==> |items| == f.arraySize;
      if f.ltype.Submessage? {
        SubArrayShown(S, t, i, items, n, left, b, k);
      } else {
        RepeatedGrows(S, t, f, items, n, w, b);
        LeafArrayShown(S, t, i, items, items', n, n', left, b, k);
      }
    }
  }

  lemma PointerArrayStored(S: Schema, t: nat, i: nat, items: seq<Value>, n: nat, n': nat, left: set<nat>, b: bytes, k: int)
    requires Laid(S) && t < |S| && i < |S[t]| && k <= WORD && !S[t][i].ltype.Extension?
    requires S[t][i].atype.Pointer? && S[t][i].htype.Repeated?
    ensures ShownSlot(S, S[t], i, Many(items), ArrayBytes(S, S[t], i, items, n, n', left, b), k)
    ensures Only(S[t], i, left, ArrayBytes(S, S[t], i, items, n, n', left, b), k)
  {
    hide Laid, SchemaOk, TableOk, Neat, DataWalk, SizeWalk, Clear, ShownItem;
    LaidFacts(S, t, i);
    var d := DataWalk(S[t], i);
    ClearStored(d, WORD, left, k);
    ClearStored(SizeWalk(S[t], i), COUNT_SIZE, Clear(left, d, WORD), k);
  }

  lemma {:induction false} RecordStored(S: Schema, t: nat, run: Run, i: nat, w: nat, b: bytes, left: set<nat>, k: int)
    requires Laid(S) && t < |S| && i < |S[t]| && k <= WORD && !S[t][i].ltype.Extension?
    requires Shaped(S, t, run.m) && Shown(S, t, run.m, left, k) && |run.m| == |S[t]|
    requires DecField(S, S[t], run, i, w, b).Ok?
    ensures var run' := DecField(S, S[t], run, i, w, b).value;
            Shown(S, t, run'.m, RecordBytes(S, t, run, run', i, left, b), k)
    decreases |b|, 2, 1
  {
    FieldStored(S, t, run, i, w, b, left, k);
    var run' := DecField(S, S[t], run, i, w, b).value;
    var left' := RecordBytes(S, t, run, run', i, left, b);
    hide Laid, Shaped, RecordBytes, ShownSlot, Only, DecItem, DecRepeated;
    LaidFacts(S, t, i);
    ShapedKinds(S, t, run.m);
    forall j | 0 <= j < |S[t]| && j != i
      ensures ShownSlot(S, S[t], j, run'.m[j], left', k)
    {
      if SameUnion(S[t][i], S[t][j]) {
        UnsetShown(S, t, j, left', k);
        UnionsSingle(S, t, run.m, i);
      } else {
        OtherKept(S, t, i, j, run.m[j], left, left', k);
      }
    }
  }

  lemma UnionsSingle(S: Schema, t: nat, m: Slots, i: nat)
    requires t < |S| && i < |S[t]| && Kinds(S[t], m) && S[t][i].htype.Oneof? && !S[t][i].ltype.Extension?
    ensures m[i].One?
  {
  }

  /** As far as decoding goes, memory shows the values. */
  lemma {:induction false} LoopStored(S: Schema, t: nat, run: Run, left: set<nat>, b: bytes, k: int)
    requires Laid(S) && t < |S| && k <= WORD && Shaped(S, t, run.m) && Shown(S, t, run.m, left, k) && |run.m| == |S[t]|
    requires DecLoop(S, S[t], run, b).End?
    ensures Shown(S, t, DecLoop(S, S[t], run, b).run.m, BytesAfter(S, t, run, left, b), k)
    decreases |b|, 3
  {
    hide Laid, Shaped, Shown, DecTag, DecField, RecordBytes, Skip, DecVarint32, Find;
    if b != [] && DecTag(b).Tag? {
      var w := DecTag(b);
      var p := DecRecord(S, S[t], run, w.tag, w.wireType, w.rest);
      var left' := left;
      LaidOk(S);
      Layout.RecordShaped(S, t, run, w.tag, w.wireType, w.rest);
      if Find(S[t], w.tag).Some? {
        var i := Find(S[t], w.tag).value;
        FoundField(S[t], w.tag);
        RecordStored(S, t, run, i, w.wireType, w.rest, left, k);
        left' := RecordBytes(S, t, run, p.value, i, left, w.rest);
      }
      LoopStored(S, t, p.value, left', p.rest, k);
    }
  }

  lemma FoundField(table: Table, tag: nat)
    requires Find(table, tag).Some?
    ensures !table[Find(table, tag).value].ltype.Extension?
  {
  }

  lemma {:induction false} MessageStored(S: Schema, t: nat, start: Slots, left: set<nat>, b: bytes, k: int)
    requires Laid(S) && t < |S| && k <= WORD && Shaped(S, t, start) && Shown(S, t, start, left, k)
    requires DecMessage(S, t, start, b).Ok?
    ensures Shown(S, t, DecMessage(S, t, start, b).value, BytesAfter(S, t, Start(start), left, b), k)
    decreases |b|, 4
  {
    hide Laid, Shaped, Shown, DecLoop, BytesAfter, RequiredSeen, FixedComplete;
    LoopStored(S, t, Start(start), left, b, k);
  }

  // ---- unions ----

  /** An item stored in a union shows there. */
  lemma UnionStored(S: Schema, t: nat, f: Field, left: set<nat>, b: bytes)
    requires Laid(S) && t < |S| && FieldOk(S, t, f) && NumberSize(f) && f.atype.Static? && !f.ltype.Extension?
    requires DecItem(S, f, Fresh(S, f), b).Ok?
    ensures var v := DecItem(S, f, Fresh(S, f), b).value; ShownItem(S, f, v, UnionBytes(S, f, v, left, b), 0, WORD)
  {
    hide Laid, DecItem, BytesAfter, InitBytes, Replace, StoreLeaf, Fits, Image, Shown, Shaped, Defaults, Kinds;
    var start := Fresh(S, f);
    var v := DecItem(S, f, start, b).value;
    if f.ltype.Submessage? {
      LaidOk(S);
      var ready := InitBytes(S, f.ptr.id, {});
      InitShown(S, f.ptr.id, {}, Reach(0, f.dataSize, WORD));
      DefaultsShaped(S, f.ptr.id);
      PayloadStored(S, f, start, ready, b, Reach(0, f.dataSize, WORD));
      Announced(S, f, start, b);
      PartShown(S, f, v.slots, left, 0, PayloadInto(S, f, start, ready, b), WORD);
    } else {
      ItemFits(S, t, f, start, b);
      LeafStored(f, v, 0, left, WORD);
      FitsShown(S, f, v, StoreLeaf(f, v, 0, left), 0, WORD);
    }
  }

  lemma Announced(S: Schema, f: Field, start: Slots, b: bytes)
    requires DecItem(S, f, start, b).Ok? && f.ltype.Submessage?
    ensures DecPrefixed(b).Ok?
  {
    hide DecPrefixed, DecMessage;
  }

  /** When no item of the member leaves anything in the union, the first eight bytes of every item that it accepts are zero,
      whatever it is, apart from pointers and the counts of pointer arrays. */
  lemma NothingToMark(S: Schema, t: nat, f: Field, e: bytes)
    requires Laid(S) && t < |S| && FieldOk(S, t, f) && NumberSize(f) && f.atype.Static? && !f.ltype.Extension?
    requires Item(S, f, e) && !CanMark(S, f)
    ensures ShownItem(S, f, DecItem(S, f, Fresh(S, f), e).value, {}, 0, WORD)
  {
    hide Laid, DecItem, UnionBytes, ShownItem;
    UnionStored(S, t, f, {}, e);
    assert !MarkingItem(S, f, e);
  }

  /** Where a released item had a pointer or the count of a pointer array, there are zeros. */
  lemma {:induction false} PointersZero(S: Schema, f: Field, v: Value, left: set<nat>, d: nat, k: int, p: nat)
    requires ShownItem(S, f, v, left, d, k) && PointerItem(S, f, v, p) && p + d < k
    ensures p + d !in left
    decreases v, 0
  {
    var i :| 0 <= i < |v.slots| && PointerSlot(S, S[f.ptr.id], i, v.slots[i], p);
    var inner, reach := Window(left, d, f.dataSize, k), Reach(d, f.dataSize, k);
    assert ShownSlot(S, S[f.ptr.id], i, v.slots[i], inner, reach);
    PointerSlotZero(S, S[f.ptr.id], i, v.slots[i], inner, reach, p);
    assert !At(left, d, k, p);
  }

  lemma {:induction false} PointerSlotZero(S: Schema, table: Table, i: nat, slot: Slot, left: set<nat>, k: int, p: nat)
    requires i < |table| && ShownSlot(S, table, i, slot, left, k) && PointerSlot(S, table, i, slot, p) && p < k
    ensures p !in left
    decreases slot, 1
  {
    hide PointerItem, ShownItem, DataWalk, SizeWalk, EncFixed, ByteOf;
    var f, d := table[i], DataWalk(table, i);
    if f.atype.Static? {
      match slot
      case One(_, v) => PointersZero(S, f, v, left, d, k, p - d);
      case Many(items) =>
        var e :| 0 <= e < |items| && ElementAt(f, d, e, p) && PointerItem(S, f, items[e], p - d - e * f.dataSize);
        assert ShownItem(S, f, items[e], left, Place(d, e, f), k);
        PointersZero(S, f, items[e], left, Place(d, e, f), k, p - d - e * f.dataSize);
    }
  }

  /** What the release of an item clears is nothing of what stays. */
  lemma ClearedApart(S: Schema, t: nat, f: Field, e: bytes)
    requires Laid(S) && t < |S| && FieldOk(S, t, f) && NumberSize(f) && f.atype.Static? && !f.ltype.Extension?
    requires Item(S, f, e)
    ensures var v := DecItem(S, f, Fresh(S, f), e).value; ClearedBy(S, f, v) !! UnionBytes(S, f, v, {}, e)
  {
    hide Laid, DecItem, UnionBytes, ShownItem, PointerItem;
    UnionStored(S, t, f, {}, e);
    var v := DecItem(S, f, Fresh(S, f), e).value;
    forall p | p in ClearedBy(S, f, v)
      ensures p !in UnionBytes(S, f, v, {}, e)
    {
      PointersZero(S, f, v, UnionBytes(S, f, v, {}, e), 0, WORD, p);
    }
  }

  /** In the second example, once a name is set, the release clears the whole word. */
  lemma TitledCleared(name: bytes)
    ensures ClearedBy(TITLED, NAMED, Sub([One(true, Blob(name))])) == {0, 1, 2, 3, 4, 5, 6, 7}
  {
    TitledOk();
    forall p: nat | p < WORD
      ensures PointerItem(TITLED, NAMED, Sub([One(true, Blob(name))]), p)
    {
      var slots := [One(true, Blob(name))];
      assert PointerSlot(TITLED, TITLED[0], 0, slots[0], p);
    }
  }

  /** The tables of the two examples are such tables. */
  lemma ExamplesLaid()
    ensures Laid(MIXED) && Laid(TITLED)
  {
    MixedTable();
    TitledOk();
    hide SchemaOk, TableOk, UniformUnions, DefaultItem;
  }
}
