/** What the encoder relies on in the struct it reads: the memory holds values, and their sizes can be counted. */
module SourceStruct {
  import opened Bits
  import opened Varint
  import opened Integers
  import opened Descriptor
  import opened Message
  import opened EncodeSpec
  import opened Allocation

  // ---- memory that holds values ----

  /** The item is a value of the field's type. */
  ghost predicate FilledItem(S: Schema, f: Field, v: Value)
    decreases v
  {
    match v
    case Indeterminate => false
    case Scalar(_) => Packable(f.ltype)
    case Blob(data) =>
      |data| <= SIZE_MAX &&
      (f.ltype.Bytes? || f.ltype.String? || (f.ltype.FixedLengthBytes? && |data| == f.dataSize))
    case Sub(slots) => f.ltype.Submessage? && f.ptr.Table? && f.ptr.id < |S| && Filled(S, f.ptr.id, slots)
  }

  /** Without a presence flag the encoder looks at the item in any case. */
  ghost predicate FilledSlot(S: Schema, f: Field, slot: Slot)
    decreases slot
  {
    match slot
    case One(has, v) => !f.htype.Repeated? && (has || AlwaysThere(f) ==> FilledItem(S, f, v))
    case Many(items) =>
      f.htype.Repeated? && (FixedCount(f) ==> |items| == f.arraySize) &&
      forall j :: 0 <= j < |items| ==> FilledItem(S, f, items[j])
  }

  /** Every place of the struct that the encoder reads holds a value of its type. */
  ghost predicate Filled(S: Schema, t: nat, m: Slots)
    requires t < |S|
    decreases m
  {
    |m| == |S[t]| && forall i :: 0 <= i < |m| && !S[t][i].ltype.Extension? ==> FilledSlot(S, S[t][i], m[i])
  }

  // ---- the number of bytes produced ----

  function Size(r: Result<bytes>): nat {
    if r.Success? then |r.value| else 0
  }

  /** The bytes that encoding counts before it is done or fails: the length of the encoding, or, when there is none, at
      most the sum over the parts. */
  function OfScalars(f: Field, items: seq<Value>): nat {
    if items == [] then 0
    else if EncScalars(f, items).Success? then |EncScalars(f, items).value|
    else (if items[0].Scalar? then Size(EncScalar(f, items[0].n)) else 0) + OfScalars(f, items[1..])
  }

  function OfItem(S: Schema, f: Field, v: Value): nat
    decreases v, 0
  {
    if EncItem(S, f, v).Success? then |EncItem(S, f, v).value|
    else if v.Sub? && f.ltype.Submessage? && f.ptr.Table? && f.ptr.id < |S| then OfMessage(S, f.ptr.id, v.slots)
    else 0
  }

  function OfTagged(S: Schema, f: Field, v: Value): nat
    decreases v, 1
  {
    Size(EncFieldTag(f)) + OfItem(S, f, v)
  }

  function OfEach(S: Schema, f: Field, items: seq<Value>): nat
    decreases items, 0
  {
    if items == [] then 0
    else if EncEach(S, f, items).Success? then |EncEach(S, f, items).value|
    else OfTagged(S, f, items[0]) + OfEach(S, f, items[1..])
  }

  function OfArray(S: Schema, f: Field, items: seq<Value>): nat
    decreases items, 1
  {
    if EncArray(S, f, items).Success? then |EncArray(S, f, items).value|
    else if Packable(f.ltype) then |EncTag(f.tag, 2)| + OfScalars(f, items)
    else OfEach(S, f, items)
  }

  function OfField(S: Schema, table: Table, m: Slots, i: nat): nat
    requires i < |table| == |m|
    decreases m, |m| - i, 0
  {
    if EncField(S, table, m, i).Success? then |EncField(S, table, m, i).value|
    else
      match m[i]
      case Many(items) => OfArray(S, table[i], items)
      case One(_, v) => assert m[i].v < m[i]; OfTagged(S, table[i], v)
  }

  function OfFrom(S: Schema, table: Table, m: Slots, i: nat): nat
    requires i <= |table| == |m|
    decreases m, |m| - i, 1
  {
    if i == |m| then 0
    else if EncFrom(S, table, m, i).Success? then |EncFrom(S, table, m, i).value|
    else OfField(S, table, m, i) + OfFrom(S, table, m, i + 1)
  }

  function OfMessage(S: Schema, t: nat, m: Slots): nat
    requires t < |S|
    decreases m, |m| + 1
  {
    if |m| == |S[t]| then OfFrom(S, S[t], m, 0) else 0
  }

  /** A message that can be encoded counts exactly the bytes of its encoding. */
  lemma ProducedSize(S: Schema, t: nat, m: Slots)
    requires t < |S| && EncMessage(S, t, m).Success?
    ensures OfMessage(S, t, m) == |EncMessage(S, t, m).value|
  {
  }

  lemma OfFromStep(S: Schema, table: Table, m: Slots, i: nat)
    requires i < |table| == |m|
    ensures OfField(S, table, m, i) + OfFrom(S, table, m, i + 1) == OfFrom(S, table, m, i)
  {
    hide EncField, OfArray, OfTagged;
    assert EncFrom(S, table, m, i) == Cat(EncField(S, table, m, i), EncFrom(S, table, m, i + 1));
    assert i + 1 == |m| ==> EncFrom(S, table, m, i + 1) == Success([]);
  }

  lemma OfScalarsStep(f: Field, items: seq<Value>)
    requires items != [] && items[0].Scalar?
    ensures Size(EncScalar(f, items[0].n)) + OfScalars(f, items[1..]) == OfScalars(f, items)
  {
    hide EncScalar;
    assert EncScalars(f, items) == Cat(EncScalar(f, items[0].n), EncScalars(f, items[1..]));
    assert items[1..] == [] ==> EncScalars(f, items[1..]) == Success([]);
  }

  lemma OfEachStep(S: Schema, f: Field, items: seq<Value>)
    requires items != []
    ensures OfTagged(S, f, items[0]) + OfEach(S, f, items[1..]) == OfEach(S, f, items)
  {
    hide EncItem, EncFieldTag;
    assert EncEach(S, f, items) == Cat(EncTagged(S, f, items[0]), EncEach(S, f, items[1..]));
    assert EncTagged(S, f, items[0]) == Cat(EncFieldTag(f), EncItem(S, f, items[0]));
  }
}
