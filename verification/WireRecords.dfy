/** Encodings as sequences of wire format records. */
module WireRecords {
  import opened Bits
  import opened Varint
  import opened Integers
  import opened Descriptor
  import opened Message
  import opened EncodeSpec
  import opened DecodeSpec
  import opened Wire
  import opened Presence
  import Concat
  import Transfer

  // ---- records ----

  datatype Payload = VarintOf(n: nat) | Fixed64Of(n: nat) | Delimited(data: bytes) | Fixed32Of(n: nat)

  datatype Record = Record(tag: nat, payload: Payload)

  function Number(p: Payload): nat {
    match p
    case VarintOf(_) => 0
    case Fixed64Of(_) => 1
    case Delimited(_) => 2
    case Fixed32Of(_) => 5
  }

  function Body(p: Payload): bytes {
    match p
    case VarintOf(n) => EncVarint(n)
    case Fixed64Of(n) => EncFixed(8, n)
    case Delimited(data) => EncVarint(|data|) + data
    case Fixed32Of(n) => EncFixed(4, n)
  }

  function Write(r: Record): bytes {
    EncVarint(8 * r.tag + Number(r.payload)) + Body(r.payload)
  }

  function WriteAll(rs: seq<Record>): bytes {
    if rs == [] then [] else Write(rs[0]) + WriteAll(rs[1..])
  }

  // ---- the records of a struct ----

  function Natural(n: int): nat {
    if n < 0 then 0 else n
  }

  /** A negative number is a 64-bit two's complement varint, whatever the width of its field. */
  function ScalarPayload(f: Field, n: int): Payload {
    match f.ltype
    case Bool => VarintOf(if n == 0 then 0 else 1)
    case SVarint => VarintOf(if n < 0 then -2 * n - 1 else 2 * n)
    case Fixed32 => Fixed32Of(Natural(n))
    case Fixed64 => Fixed64Of(Natural(n))
    case _ => VarintOf(if n < 0 then Natural(0x1_0000_0000_0000_0000 + n) else n)
  }

  function ItemPayload(S: Schema, f: Field, v: Value): Payload
    decreases v, 0
  {
    match v
    case Indeterminate => Delimited([])
    case Scalar(n) => ScalarPayload(f, n)
    case Blob(data) => Delimited(if f.ltype.String? then Characters(f, data) else data)
    case Sub(slots) => Delimited(WriteAll(MessageRecords(S, f.ptr, slots)))
  }

  function ScalarBodies(f: Field, items: seq<Value>): bytes {
    if items == [] then []
    else (if items[0].Scalar? then Body(ScalarPayload(f, items[0].n)) else []) + ScalarBodies(f, items[1..])
  }

  function ItemRecords(S: Schema, f: Field, items: seq<Value>): seq<Record>
    decreases items, 1
  {
    if items == [] then [] else [Record(f.tag, ItemPayload(S, f, items[0]))] + ItemRecords(S, f, items[1..])
  }

  /** One record for a value that is set; of an array one for all numbers, or one for each other item. */
  function SlotRecords(S: Schema, f: Field, slot: Slot): seq<Record>
    decreases slot, 0
  {
    if f.ltype.Extension? || BlankSlot(S, f, slot) then []
    else
      match slot
      case One(_, v) => [Record(f.tag, ItemPayload(S, f, v))]
      case Many(items) =>
        if Packable(f.ltype) then [Record(f.tag, Delimited(ScalarBodies(f, items)))] else ItemRecords(S, f, items)
  }

  function RecordsFrom(S: Schema, table: Table, m: Slots, i: nat): seq<Record>
    requires i <= |m| == |table|
    decreases m, |m| - i
  {
    if i == |m| then [] else SlotRecords(S, table[i], m[i]) + RecordsFrom(S, table, m, i + 1)
  }

  function MessageRecords(S: Schema, target: Target, m: Slots): seq<Record>
    decreases m, |m| + 1
  {
    if target.Table? && target.id < |S| && |S[target.id]| == |m| then RecordsFrom(S, S[target.id], m, 0) else []
  }

  // ---- what can be encoded ----

  /** Numbers are in the range of their fields, as memory makes sure. */
  predicate Ranged(S: Schema, t: nat, m: Slots)
    decreases m, 1
  {
    t < |S| && |m| == |S[t]| && forall i :: 0 <= i < |m| ==> RangedSlot(S, S[t][i], m[i])
  }

  predicate RangedSlot(S: Schema, f: Field, slot: Slot)
    decreases slot, 0
  {
    match slot
    case One(_, v) => RangedItem(S, f, v)
    case Many(items) => forall k :: 0 <= k < |items| ==> RangedItem(S, f, items[k])
  }

  predicate RangedItem(S: Schema, f: Field, v: Value)
    decreases v, 0
  {
    match v
    case Scalar(n) => InRange(f, n)
    case Sub(slots) => f.ptr.Table? ==> Ranged(S, f.ptr.id, slots)
    case _ => true
  }

  /** The required pointers are set, the arrays without count are complete, and no count or size exceeds its array. */
  predicate Encodable(S: Schema, t: nat, m: Slots)
    decreases m, 1
  {
    t < |S| && |m| == |S[t]| && forall i :: 0 <= i < |m| ==> EncodableSlot(S, S[t][i], m[i])
  }

  predicate EncodableSlot(S: Schema, f: Field, slot: Slot)
    decreases slot, 0
  {
    f.ltype.Extension? || BlankSlot(S, f, slot) ||
    match slot
    case One(has, v) =>
      !f.htype.Repeated? && (f.htype.Required? && f.atype.Pointer? ==> has) && EncodableItem(S, f, v)
    case Many(items) =>
      && f.htype.Repeated?
      && (f.atype.Static? ==> |items| <= f.arraySize)
      && (FixedCount(f) ==> |items| == f.arraySize)
      && forall k :: 0 <= k < |items| ==> EncodableItem(S, f, items[k])
  }

  predicate EncodableItem(S: Schema, f: Field, v: Value)
    decreases v, 0
  {
    match v
    case Indeterminate => false
    case Scalar(_) => Packable(f.ltype)
    case Blob(data) =>
      (match f.ltype
       case Bytes => |data| + 4 < 0x1_0000_0000_0000_0000 && (f.atype.Static? ==> |data| + 4 <= f.dataSize)
       case String => true
       case FixedLengthBytes => |data| == f.dataSize
       case _ => false)
    case Sub(slots) => f.ltype.Submessage? && f.ptr.Table? && Encodable(S, f.ptr.id, slots)
  }

  // ---- the encoder writes these records ----

  /** A number is written as its type asks: the value of its varint, whatever the width of the field, or its words. */
  lemma ScalarWritten(f: Field, n: int)
    requires InRange(f, n)
    ensures EncScalar(f, n) == Success(Body(ScalarPayload(f, n)))
    ensures WireType(f.ltype) == Some(Number(ScalarPayload(f, n)))
  {
    hide EncVarint, EncFixed, ZigZag, ToSigned;
    UnsignedCast(4, n);
    UnsignedCast(8, n);
    SignedCast(8, n);
    Remainder(U64, n);
    if FitsSigned(8, n) {
      ZigZagOrder(n);
    }
  }

  lemma {:induction false} ItemWritten(S: Schema, f: Field, v: Value)
    requires SchemaOk(S) && RangedItem(S, f, v)
    ensures EncItem(S, f, v) == if EncodableItem(S, f, v) then Success(Body(ItemPayload(S, f, v))) else Failure
    ensures EncodableItem(S, f, v) ==> WireType(f.ltype) == Some(Number(ItemPayload(S, f, v)))
    decreases v, 0
  {
    hide SchemaOk, EncVarint, EncFixed, Characters, EncMessage, MessageRecords, Encodable, Ranged;
    match v
    case Indeterminate =>
    case Scalar(n) => ScalarWritten(f, n);
    case Blob(data) =>
    case Sub(slots) =>
      if f.ptr.Table? {
        MessageWritten(S, f.ptr.id, slots);
      }
  }

  lemma {:induction false} TaggedWritten(S: Schema, f: Field, v: Value)
    requires SchemaOk(S) && RangedItem(S, f, v)
    ensures EncTagged(S, f, v) ==
            if EncodableItem(S, f, v) then Success(Write(Record(f.tag, ItemPayload(S, f, v)))) else Failure
    decreases v, 1
  {
    hide SchemaOk, EncItem, EncodableItem, ItemPayload, EncVarint;
    ItemWritten(S, f, v);
  }

  lemma {:induction false} EachWritten(S: Schema, f: Field, items: seq<Value>)
    requires SchemaOk(S) && forall k :: 0 <= k < |items| ==> RangedItem(S, f, items[k])
    ensures EncEach(S, f, items) ==
            if forall k :: 0 <= k < |items| ==> EncodableItem(S, f, items[k]) then
              Success(WriteAll(ItemRecords(S, f, items)))
            else Failure
    decreases items, 0
  {
    hide SchemaOk, EncTagged, EncodableItem, ItemPayload, RangedItem, Write;
    if items != [] {
      TaggedWritten(S, f, items[0]);
      EachWritten(S, f, items[1..]);
      assert forall k :: 1 <= k < |items| ==> items[k] == items[1..][k - 1];
    }
  }

  lemma {:induction false} ScalarsWritten(S: Schema, f: Field, items: seq<Value>)
    requires Packable(f.ltype) && forall k :: 0 <= k < |items| ==> RangedItem(S, f, items[k])
    ensures EncScalars(f, items) ==
            if forall k :: 0 <= k < |items| ==> EncodableItem(S, f, items[k]) then Success(ScalarBodies(f, items))
            else Failure
  {
    hide EncScalar, ScalarPayload, InRange, Body, WireType;
    if items != [] {
      assert RangedItem(S, f, items[0]);
      if items[0].Scalar? {
        ScalarWritten(f, items[0].n);
      }
      ScalarsWritten(S, f, items[1..]);
      assert forall k :: 1 <= k < |items| ==> items[k] == items[1..][k - 1];
    }
  }

  lemma {:induction false} SlotWritten(S: Schema, t: nat, m: Slots, i: nat)
    requires SchemaOk(S) && t < |S| && i < |m| == |S[t]| && RangedSlot(S, S[t][i], m[i])
    ensures EncField(S, S[t], m, i) ==
            if EncodableSlot(S, S[t][i], m[i]) then Success(WriteAll(SlotRecords(S, S[t][i], m[i]))) else Failure
    decreases m, 0
  {
    hide SchemaOk, EncTagged, EncEach, EncScalars, EncodableItem, ItemPayload, RangedItem, Write, ScalarBodies, ItemRecords;
    hide BlankSlot, EncVarint;
    var f := S[t][i];
    FieldSilent(S, t, m, i);
    NothingBlank(S, f, m[i]);
    if !f.ltype.Extension? && !BlankSlot(S, f, m[i]) {
      match m[i]
      case One(has, v) =>
        assert v < m[i];
        TaggedWritten(S, f, v);
        OneRecord(Record(f.tag, ItemPayload(S, f, v)));
      case Many(items) =>
        if Packable(f.ltype) {
          ScalarsWritten(S, f, items);
          PackedRecord(f, items);
          OneRecord(Record(f.tag, Delimited(ScalarBodies(f, items))));
        } else {
          EachWritten(S, f, items);
        }
    }
  }

  lemma OneRecord(r: Record)
    ensures WriteAll([r]) == Write(r)
  {
  }

  lemma PackedRecord(f: Field, items: seq<Value>)
    ensures Write(Record(f.tag, Delimited(ScalarBodies(f, items)))) ==
            EncTag(f.tag, 2) + (EncVarint(|ScalarBodies(f, items)|) + ScalarBodies(f, items))
  {
    hide EncVarint, ScalarBodies;
  }

  lemma NothingBlank(S: Schema, f: Field, slot: Slot)
    ensures f.ltype.Extension? ==> BlankSlot(S, f, slot)
    ensures slot.One? && f.htype.Repeated? && !f.ltype.Extension? ==> !BlankSlot(S, f, slot)
  {
  }

  lemma {:induction false} FromWritten(S: Schema, t: nat, m: Slots, i: nat)
    requires SchemaOk(S) && t < |S| && i <= |m| && Ranged(S, t, m)
    ensures EncFrom(S, S[t], m, i) ==
            if forall k :: i <= k < |m| ==> EncodableSlot(S, S[t][k], m[k]) then
              Success(WriteAll(RecordsFrom(S, S[t], m, i)))
            else Failure
    decreases m, |m| - i
  {
    hide SchemaOk, EncField, EncodableSlot, SlotRecords, RangedSlot, Write;
    if i < |m| {
      SlotWritten(S, t, m, i);
      FromWritten(S, t, m, i + 1);
      WriteBoth(SlotRecords(S, S[t][i], m[i]), RecordsFrom(S, S[t], m, i + 1));
    }
  }

  lemma {:induction false} WriteBoth(rs: seq<Record>, more: seq<Record>)
    ensures WriteAll(rs + more) == WriteAll(rs) + WriteAll(more)
  {
    hide Write;
    if rs == [] {
      assert rs + more == more;
    } else {
      assert (rs + more)[1..] == rs[1..] + more;
      WriteBoth(rs[1..], more);
    }
  }

  /** The encoder succeeds exactly on what can be encoded, and writes one after the other the records of the struct. */
  lemma {:induction false} MessageWritten(S: Schema, t: nat, m: Slots)
    requires SchemaOk(S) && Ranged(S, t, m)
    ensures t < |S| && EncMessage(S, t, m) ==
            if Encodable(S, t, m) then Success(WriteAll(MessageRecords(S, Table(t), m))) else Failure
    decreases m, |m| + 1
  {
    hide SchemaOk, EncFrom, EncodableSlot, RangedSlot, RecordsFrom;
    RangedLength(S, t, m);
    FromWritten(S, t, m, 0);
  }

  lemma RangedLength(S: Schema, t: nat, m: Slots)
    requires Ranged(S, t, m)
    ensures t < |S| && |m| == |S[t]|
  {
  }

  // ---- the default struct ----

  /** The struct as initialised can be encoded: nothing required is behind a pointer, no array has to be filled first, and the
      default values in the descriptors fit. */
  predicate EncodableType(S: Schema, t: nat)
    requires t < |S|
    decreases t, 1
  {
    forall i :: 0 <= i < |S[t]| ==> S[t][i].ltype.Extension? || EncodableDefault(S, t, S[t][i])
  }

  predicate EncodableDefault(S: Schema, t: nat, f: Field)
    requires t < |S|
    decreases t, 0
  {
    !FixedCount(f) && (f.htype.Required? ==> f.atype.Static?) &&
    (AlwaysThere(f) ==>
       if f.ltype.Submessage? then f.ptr.Table? && f.ptr.id < t && EncodableType(S, f.ptr.id)
       else if f.ptr.Default? then EncodableItem(S, f, f.ptr.value) || (f.htype.Optional? && BlankItem(S, f, f.ptr.value))
       else f.htype.Required? && f.ltype.Bytes? ==> 4 <= f.dataSize)
  }

  lemma {:induction false} BlankEncodable(S: Schema, t: nat, m: Slots)
    requires Blank(S, t, m)
    ensures Encodable(S, t, m)
  {
    hide BlankSlot;
  }

  lemma {:induction false} DefaultSlotEncodable(S: Schema, t: nat, f: Field)
    requires SchemaOk(S) && t < |S| && FieldOk(S, t, f) && !f.ltype.Extension?
    ensures EncodableSlot(S, f, DefaultSlot(S, t, f)) <==> EncodableDefault(S, t, f)
    decreases t, 0
  {
    hide SchemaOk, Blank, Encodable, EncodableType, Defaults;
    var slot := DefaultSlot(S, t, f);
    if FixedCount(f) {
      assert f.arraySize > 0 && slot.items[0] == Indeterminate && !EncodableItem(S, f, slot.items[0]);
    } else if AlwaysThere(f) {
      var v := DefaultItem(S, t, f);
      assert slot == One(true, v);
      assert EncodableSlot(S, f, slot) == ((f.htype.Optional? && BlankItem(S, f, v)) || EncodableItem(S, f, v));
      if f.ltype.Submessage? {
        var m := Defaults(S, f.ptr.id);
        assert v == Sub(m);
        DefaultsEncodable(S, f.ptr.id);
        if Blank(S, f.ptr.id, m) {
          BlankEncodable(S, f.ptr.id, m);
        }
      } else if !f.ptr.Default? {
        assert v == ZeroItem(f);
      }
    } else if !f.htype.Required? {
      assert BlankSlot(S, f, slot);
    }
  }

  lemma {:induction false} DefaultsEncodable(S: Schema, t: nat)
    requires SchemaOk(S) && t < |S|
    ensures Encodable(S, t, Defaults(S, t)) <==> EncodableType(S, t)
    decreases t, 1
  {
    hide EncodableSlot, EncodableDefault, DefaultSlot;
    var m := Defaults(S, t);
    forall i | 0 <= i < |S[t]|
      ensures EncodableSlot(S, S[t][i], m[i]) <==> S[t][i].ltype.Extension? || EncodableDefault(S, t, S[t][i])
    {
      assert m[i] == DefaultSlot(S, t, S[t][i]);
      if S[t][i].ltype.Extension? {
        ExtensionEncodable(S, S[t][i], m[i]);
      } else {
        DefaultSlotEncodable(S, t, S[t][i]);
      }
    }
  }

  lemma ExtensionEncodable(S: Schema, f: Field, slot: Slot)
    requires f.ltype.Extension?
    ensures EncodableSlot(S, f, slot)
  {
  }

  /** Initialising a struct is enough to encode it exactly when its type is such a one. */
  lemma DefaultsEncode(S: Schema, t: nat)
    requires SchemaOk(S) && t < |S| && Ranged(S, t, Defaults(S, t))
    ensures EncMessage(S, t, Defaults(S, t)).Success? <==> EncodableType(S, t)
  {
    hide SchemaOk, EncMessage, Ranged, Encodable, EncodableType, Defaults;
    DefaultsEncodable(S, t);
    MessageWritten(S, t, Defaults(S, t));
  }
}
