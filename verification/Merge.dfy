/** Decoding the encoding of a message merges the message into the struct. */
module Merge {
  import opened Bits
  import opened Varint
  import opened Integers
  import opened Descriptor
  import opened Message
  import opened EncodeSpec
  import opened DecodeSpec

  // ---- what can be sent ----

  /** The payload of a byte array or string. */
  function Payload(f: Field, data: bytes): bytes {
    if f.ltype.String? then Characters(f, data) else data
  }

  /** The item can be encoded, and the receiver has room for it. */
  ghost predicate SendableItem(S: Schema, f: Field, v: Value)
    decreases v, 0
  {
    match v
    case Indeterminate => false
    case Scalar(n) => InRange(f, n)
    case Blob(data) => EncBlob(f, data).Success? && BlobFits(f, |Payload(f, data)|)
    case Sub(slots) =>
      f.ltype.Submessage? && f.ptr.Table? && f.ptr.id < |S| && Sendable(S, f.ptr.id, slots) &&
      EncMessage(S, f.ptr.id, slots).Success? && |EncMessage(S, f.ptr.id, slots).value| < U32
  }

  ghost predicate SendableField(S: Schema, table: Table, m: Slots, i: nat)
    requires i < |table| == |m|
    decreases m, 0
  {
    var f := table[i];
    f.ltype.Extension? ||
    match m[i]
    case One(has, v) =>
      !f.htype.Repeated? && (f.htype.Required? && f.atype.Pointer? ==> has) &&
      (Present(S, table, m, i) ==> assert v < m[i]; SendableItem(S, f, v))
    case Many(items) =>
      f.htype.Repeated? && (FixedCount(f) ==> |items| == f.arraySize) && |items| <= Capacity(f) &&
      (forall k :: 0 <= k < |items| ==> assert items[k] < m[i]; SendableItem(S, f, items[k])) &&
      (Packable(f.ltype) ==> EncScalars(f, items).Success? && |EncScalars(f, items).value| < U32)
  }

  /** Every present field can be encoded and has a payload length below 2^32. */
  ghost predicate Sendable(S: Schema, t: nat, m: Slots)
    decreases m, 1
  {
    t < |S| && |m| == |S[t]| && forall i :: 0 <= i < |m| ==> SendableField(S, S[t], m, i)
  }

  // ---- merging ----

  /** What becomes of an item at the receiver: submessages are merged into `start`. */
  function MergeItem(S: Schema, f: Field, start: Slots, v: Value): Option<Value>
    decreases v, 0
  {
    match v
    case Indeterminate => None
    case Scalar(n) => Some(Scalar(Normal(f, n)))
    case Blob(data) => Some(Blob(Payload(f, data)))
    case Sub(slots) =>
      if f.ptr.Table? && f.ptr.id < |S| then
        (match MergeMessage(S, f.ptr.id, start, slots) case Some(m) => Some(Sub(m)) case None => None)
      else None
  }

  function MergeItems(S: Schema, f: Field, items: seq<Value>): Option<seq<Value>>
    decreases items, 0
  {
    if items == [] then Some([])
    else
      match (MergeItem(S, f, Fresh(S, f), items[0]), MergeItems(S, f, items[1..]))
      case (Some(w), Some(ws)) => Some([w] + ws)
      case (_, _) => None
  }

  /** The effect of field i of m: a present single field replaces the one in `acc` or, if it is an embedded
      submessage, is merged into it; array items are appended as long as there is room; a fixed-count array is
      replaced; an absent field changes nothing. */
  function MergeField(S: Schema, table: Table, acc: Slots, m: Slots, i: nat): (acc': Option<Slots>)
    requires i < |table| == |m| == |acc|
    ensures acc'.Some? ==> |acc'.value| == |m|
    decreases m, |m| - i, 0
  {
    var f := table[i];
    match m[i]
    case One(_, v) =>
      if !Present(S, table, m, i) then Some(acc)
      else if !acc[i].One? then None
      else
        assert v < m[i];
        (match MergeItem(S, f, StartOf(S, f, acc[i]), v)
         case Some(w) => Some(StoreOne(table, acc, i, w))
         case None => None)
    case Many(items) =>
      if f.ltype.Extension? || items == [] then Some(acc)
      else if !acc[i].Many? then None
      else
        var kept := if FixedCount(f) then [] else acc[i].items;
        match MergeItems(S, f, items)
        case Some(ws) => if |kept| + |items| <= Capacity(f) then Some(acc[i := Many(kept + ws)]) else None
        case None => None
  }

  function MergeFrom(S: Schema, table: Table, acc: Slots, m: Slots, i: nat): (acc': Option<Slots>)
    requires i <= |table| == |m| == |acc|
    ensures acc'.Some? ==> |acc'.value| == |m|
    decreases m, |m| - i, 1
  {
    if i == |m| then Some(acc)
    else
      match MergeField(S, table, acc, m, i)
      case Some(acc') => MergeFrom(S, table, acc', m, i + 1)
      case None => None
  }

  /** The fields of m merged into m0 in table order; None when a static array overflows. */
  function MergeMessage(S: Schema, t: nat, m0: Slots, m: Slots): (merged: Option<Slots>)
    requires t < |S|
    decreases m, |m| + 1
  {
    if |m| == |m0| == |S[t]| then MergeFrom(S, S[t], m0, m, 0) else None
  }
}
