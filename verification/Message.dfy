/** Operations on whole messages: field lookup, default values, and when a table or a struct is well formed. */
module Message {
  import opened Bits
  import opened Varint
  import opened Integers
  import opened Descriptor

  // ---- tables ----

  /** The first field from position i on that has the tag and is not an extension placeholder. */
  function FindFrom(table: Table, tag: nat, i: nat): (found: Option<nat>)
    requires i <= |table|
    ensures found.Some? ==> i <= found.value < |table| && table[found.value].tag == tag
                            && !table[found.value].ltype.Extension?
    decreases |table| - i
  {
    if i == |table| then None
    else if table[i].tag == tag && !table[i].ltype.Extension? then Some(i)
    else FindFrom(table, tag, i + 1)
  }

  function Find(table: Table, tag: nat): (found: Option<nat>)
    ensures found.Some? ==> found.value < |table|
  {
    FindFrom(table, tag, 0)
  }

  /** The number of required fields before position i. */
  function RequiredBefore(table: Table, i: nat): (n: nat)
    requires i <= |table|
    ensures n <= i
  {
    if i == 0 then 0
    else RequiredBefore(table, i - 1) + if table[i - 1].htype.Required? then 1 else 0
  }

  predicate DistinctTags(table: Table) {
    forall i, j :: 0 <= i < j < |table| && !table[i].ltype.Extension? && !table[j].ltype.Extension? ==>
      table[i].tag != table[j].tag
  }

  /** The size of a count. Initialisation stores one at the start of an array even when it has no count, so that such an
      array must be large enough for it. */
  const COUNT_SIZE: nat := 4

  /** What the descriptor macros guarantee of one field of table t. A static submessage is stored inside its parent,
      so that its type must have been completed first: its table has a smaller number. */
  predicate FieldOk(S: Schema, t: nat, f: Field) {
    && 0 < f.tag < 0x2000_0000
    && (f.ltype.Submessage? ==> f.ptr.Table? && f.ptr.id < |S| && (f.atype.Static? ==> f.ptr.id < t))
    && f.dataSize <= PB_SIZE_MAX
    && (f.atype.Pointer? ==> f.dataSize > 0)
    && (f.atype.Pointer? && f.htype.Optional? ==> f.sizeOffset == 0)
    && (f.atype.Pointer? && f.htype.Repeated? ==> f.sizeOffset != 0)
    && (f.htype.Oneof? ==> f.sizeOffset != 0)
    && (f.ltype.Extension? ==> f.htype.Optional?)
    && (FixedCount(f) ==> f.dataSize * f.arraySize >= COUNT_SIZE)
    && (f.ltype.String? && f.atype.Static? ==> f.dataSize > 0)
  }

  predicate TableOk(S: Schema, t: nat, table: Table) {
    DistinctTags(table) && forall i :: 0 <= i < |table| ==> FieldOk(S, t, table[i])
  }

  predicate SchemaOk(S: Schema) {
    forall t :: 0 <= t < |S| ==> TableOk(S, t, S[t])
  }

  /** The members of a union are all stored in place or all behind a pointer. The decoder relies on this when a struct is in
      use or a message selects several members: it takes what the union holds for a pointer when the next member is one. */
  predicate UniformUnions(table: Table) {
    forall i, j :: 0 <= i < |table| && 0 <= j < |table| && table[i].htype.Oneof? && table[j].htype == table[i].htype ==>
      table[j].atype == table[i].atype
  }

  predicate UniformSchema(S: Schema) {
    forall t :: 0 <= t < |S| ==> UniformUnions(S[t])
  }

  lemma {:induction false} FindFromUnique(table: Table, i: nat, k: nat)
    requires DistinctTags(table) && k <= i < |table| && !table[i].ltype.Extension?
    ensures FindFrom(table, table[i].tag, k) == Some(i)
    decreases i - k
  {
    if k < i {
      FindFromUnique(table, i, k + 1);
    }
  }

  /** With distinct tags the position found depends on the tag alone. */
  lemma FindUnique(table: Table, i: nat)
    requires DistinctTags(table) && i < |table| && !table[i].ltype.Extension?
    ensures Find(table, table[i].tag) == Some(i)
  {
    FindFromUnique(table, i, 0);
  }

  lemma {:induction false} FindFromNone(table: Table, tag: nat, k: nat)
    requires k <= |table|
    ensures FindFrom(table, tag, k).None? <==>
            forall i :: k <= i < |table| ==> table[i].tag != tag || table[i].ltype.Extension?
    decreases |table| - k
  {
    if k < |table| {
      FindFromNone(table, tag, k + 1);
    }
  }

  // ---- storage ----

  function Zeros(n: nat): (b: bytes)
    ensures |b| == n
  {
    seq(n, _ => 0)
  }

  /** A field without default value is set to zero bytes. */
  function ZeroItem(f: Field): Value {
    match f.ltype
    case Bytes => Blob([])
    case String => Blob([])
    case FixedLengthBytes => Blob(Zeros(f.dataSize))
    case Extension => Indeterminate
    case Submessage => Indeterminate
    case _ => Scalar(0)
  }

  /** The struct of message type t after initialisation. Array contents are left alone, so that the elements of a
      fixed-count array have no known value. */
  function Defaults(S: Schema, t: nat): (m: Slots)
    requires t < |S|
    ensures |m| == |S[t]|
    decreases t, 2
  {
    seq(|S[t]|, i requires 0 <= i < |S[t]| => DefaultSlot(S, t, S[t][i]))
  }

  function DefaultSlot(S: Schema, t: nat, f: Field): Slot
    requires t < |S|
    decreases t, 1
  {
    if f.ltype.Extension? then One(false, Indeterminate)
    else if f.htype.Repeated? then
      Many(if FixedCount(f) then seq(f.arraySize, _ => Indeterminate) else [])
    else if f.htype.Oneof? || f.atype.Pointer? then One(false, Indeterminate)
    else One(f.htype.Required? || f.sizeOffset == 0, DefaultItem(S, t, f))
  }

  function DefaultItem(S: Schema, t: nat, f: Field): Value
    requires t < |S|
    decreases t, 0
  {
    if f.ltype.Submessage? then
      if f.ptr.Table? && f.ptr.id < t then Sub(Defaults(S, f.ptr.id)) else Indeterminate
    else if f.ptr.Default? then f.ptr.value
    else ZeroItem(f)
  }

  /** The fresh contents of a submessage that is initialised before it is decoded. */
  function Fresh(S: Schema, f: Field): Slots {
    if f.ltype.Submessage? && f.ptr.Table? && f.ptr.id < |S| then Defaults(S, f.ptr.id) else []
  }

  /** The struct a single submessage is decoded into: what is there for required and optional static fields, a fresh
      one for union members and pointers. */
  function StartOf(S: Schema, f: Field, slot: Slot): Slots
    requires slot.One?
  {
    if Embedded(f) && slot.v.Sub? then slot.v.slots else Fresh(S, f)
  }

  /** Making field i the member its union holds. */
  function Select(table: Table, m: Slots, i: nat): (m': Slots)
    requires i < |table| == |m|
    ensures |m'| == |m|
  {
    seq(|m|, j requires 0 <= j < |m| =>
      if table[i].htype.Oneof? && table[j].htype == table[i].htype && j != i then One(false, Indeterminate) else m[j])
  }

  /** Storing a single item: for a union member this replaces whatever the union held. */
  function StoreOne(table: Table, m: Slots, i: nat, v: Value): (m': Slots)
    requires i < |table| == |m|
    ensures |m'| == |m|
  {
    Select(table, m, i)[i := One(true, v)]
  }

  /** The n-th item of an array is overwritten, or appended when n items are counted so far. */
  function Put(items: seq<Value>, n: nat, v: Value): seq<Value> {
    if n < |items| then items[n := v] else items + [v]
  }

  /** The struct has the layout its table describes. */
  ghost predicate Shaped(S: Schema, t: nat, m: Slots)
    requires t < |S|
    decreases t, 1
  {
    |m| == |S[t]| && forall i :: 0 <= i < |m| ==> ShapedSlot(S, t, S[t][i], m[i])
  }

  ghost predicate ShapedSlot(S: Schema, t: nat, f: Field, slot: Slot)
    requires t < |S|
    decreases t, 0
  {
    if f.ltype.Extension? then true
    else if f.htype.Repeated? then
      slot.Many? && (FixedCount(f) ==> |slot.items| == f.arraySize) && (f.atype.Pointer? ==> |slot.items| <= PB_SIZE_MAX)
    else slot.One? && (Embedded(f) && f.ptr.Table? && f.ptr.id < t ==>
                         slot.v.Sub? && Shaped(S, f.ptr.id, slot.v.slots))
  }

  /** The submessage is part of its parent's struct for good: it is initialised with the parent and merged into. */
  predicate Embedded(f: Field) {
    f.ltype.Submessage? && f.atype.Static? && !f.htype.Oneof?
  }

  lemma {:induction false} DefaultsShaped(S: Schema, t: nat)
    requires t < |S|
    ensures Shaped(S, t, Defaults(S, t))
    decreases t
  {
    forall i | 0 <= i < |S[t]|
      ensures ShapedSlot(S, t, S[t][i], Defaults(S, t)[i])
    {
      var f := S[t][i];
      assert Defaults(S, t)[i] == DefaultSlot(S, t, f);
      if Embedded(f) && f.ptr.Table? && f.ptr.id < t {
        assert DefaultItem(S, t, f) == Sub(Defaults(S, f.ptr.id));
        DefaultsShaped(S, f.ptr.id);
      }
    }
  }
}
