/** The decoder for messages. Each method is proved against its function in DecodeSpec: the stream, the iterator, the
    bitmap of required fields, the counter of the array without count and the struct follow the run of the specification,
    record by record. */
module MessageDecoder {
  import opened Bits
  import opened Varint
  import opened Integers
  import opened Descriptor
  import opened Message
  import opened DecodeSpec
  import opened InputStream
  import opened Reader
  import opened FieldIterator
  import opened Decoder
  import opened Addresses
  import Allocation
  import Framing
  import Layout
  import RequiredBitmap
  import Stale

  // ---- initialisation ----

  /** Initialises one field of a struct. */
  method FieldSetToDefault(S: Schema, t: nat, dest: Struct, i: nat)
    requires SchemaOk(S) && t < |S| && i < |S[t]| == |dest.slots|
    modifies dest
    ensures dest.slots == old(dest.slots)[i := DefaultSlot(S, t, S[t][i])]
    decreases t, 0
  {
    var f := S[t][i];
    assert FieldOk(S, t, f);
    if f.ltype.Extension? {
      dest.slots := dest.slots[i := One(false, Indeterminate)];
    } else if f.atype.Static? {
      var initData := true;
      var has := true;
      if f.htype.Optional? && f.sizeOffset != 0 {
        has := false;
      } else if f.htype.Repeated? {
        dest.slots := dest.slots[i := Many(if f.sizeOffset == 0 then seq(f.arraySize, _ => Indeterminate) else [])];
        initData := false;
      } else if f.htype.Oneof? {
        dest.slots := dest.slots[i := One(false, Indeterminate)];
        initData := false;
      }
      if initData {
        var v: Value;
        if f.ltype.Submessage? {
          var sub := new Struct(seq(|S[f.ptr.id]|, _ => One(false, Indeterminate)));
          SetToDefaults(S, f.ptr.id, sub);
          v := Sub(sub.slots);
        } else if f.ptr.Default? {
          v := f.ptr.value;
        } else {
          v := ZeroItem(f);
        }
        dest.slots := dest.slots[i := One(has, v)];
      }
    } else if f.htype.Repeated? {
      dest.slots := dest.slots[i := Many([])];
    } else {
      dest.slots := dest.slots[i := One(false, Indeterminate)];
    }
  }

  /** Initialises a struct, recursively. */
  method SetToDefaults(S: Schema, t: nat, dest: Struct)
    requires SchemaOk(S) && t < |S| && |dest.slots| == |S[t]|
    modifies dest
    ensures dest.slots == Defaults(S, t)
    decreases t, 1
  {
    hide SchemaOk, DefaultSlot;
    var iter := new FieldIter.Begin(S[t], 0);
    var more := S[t] != [];
    while more
      invariant iter.Valid() && iter.table == S[t] && |dest.slots| == |S[t]|
      invariant more ==> iter.pos < |S[t]|
      invariant forall j :: 0 <= j < (if more then iter.pos else |S[t]|) ==> dest.slots[j] == DefaultSlot(S, t, S[t][j])
      decreases more, |S[t]| - iter.pos
    {
      FieldSetToDefault(S, t, dest, iter.pos);
      more := iter.Next();
    }
  }

  // ---- packed arrays ----

  /** A packed array of a static field. */
  method DecodePackedStatic(s: IStream, f: Field, items: seq<Value>, count: nat)
    returns (ok: bool, items': seq<Value>, count': nat)
    requires s.Valid() && Packable(f.ltype) && f.atype.Static?
    modifies s
    ensures s.Valid() && s.Limit() <= old(s.Limit())
    ensures var p := DecPrefixed(old(s.Rest()));
            && (ok <==> p.Ok? && DecPacked(f, items, count, p.value).Some?)
            && (ok ==> DecPacked(f, items, count, p.value) == Some((items', count')) && s.Rest() == p.rest)
    ensures ok ==> s.Limit() == old(s.Limit())
  {
    hide DecScalar, DecPrefixed;
    items', count' := items, count;
    var sub;
    ok, sub := MakeStringSubstream(s);
    if !ok {
      return;
    }
    ghost var payload, limit := sub.Rest(), sub.Limit();
    var status := true;
    while status && sub.bytesLeft > 0 && count' < f.arraySize
      invariant sub.Valid() && sub.Limit() == limit
      invariant DecPacked(f, items, count, payload) ==
                if status then DecPacked(f, items', count', sub.Rest()) else None
      decreases status, sub.bytesLeft
      modifies sub
    {
      var n;
      status, n := DecodeScalar(sub, f);
      if status {
        items' := Put(items', count', Scalar(n));
        count' := count' + 1;
      }
    }
    if sub.bytesLeft != 0 {
      return false, items', count';
    }
    CloseStringSubstream(s, sub);
    return status, items', count';
  }

  /** A packed array of a pointer field. Storage is enlarged as needed; `capacity` is the number of items there is room
      for, and every item is stored below it. */
  method DecodePackedPointer(s: IStream, f: Field, items: seq<Value>)
    returns (ok: bool, items': seq<Value>)
    requires s.Valid() && Packable(f.ltype) && f.atype.Pointer? && 0 < f.dataSize <= PB_SIZE_MAX && |items| <= PB_SIZE_MAX
    modifies s
    ensures s.Valid() && s.Limit() <= old(s.Limit())
    ensures var p := DecPrefixed(old(s.Rest()));
            && (ok <==> p.Ok? && DecPacked(f, items, |items|, p.value).Some?)
            && (ok ==> DecPacked(f, items, |items|, p.value) == Some((items', |items'|)) && s.Rest() == p.rest)
    ensures ok ==> s.Limit() == old(s.Limit())
  {
    hide DecScalar, DecPrefixed;
    items' := items;
    var capacity := |items|;
    var sub;
    ok, sub := MakeStringSubstream(s);
    if !ok {
      return;
    }
    ghost var payload, limit := sub.Rest(), sub.Limit();
    var status := true;
    while status && sub.bytesLeft > 0
      invariant sub.Valid() && sub.Limit() == limit && |items'| <= capacity <= PB_SIZE_MAX
      invariant DecPacked(f, items, |items|, payload) ==
                if status then DecPacked(f, items', |items'|, sub.Rest()) else None
      decreases status, sub.bytesLeft
      modifies sub
    {
      status, capacity := Reserve(|items'|, capacity, sub.bytesLeft, f.dataSize);
      if status {
        var n;
        assert |items'| < capacity;
        status, n := DecodeScalar(sub, f);
        if status {
          items' := items' + [Scalar(n)];
        }
      }
    }
    CloseStringSubstream(s, sub);
    return status, items';
  }

  /** Makes room for one more item. */
  method Reserve(count: nat, capacity: nat, bytesLeft: nat, dataSize: nat) returns (ok: bool, capacity': nat)
    requires count <= capacity <= PB_SIZE_MAX && bytesLeft > 0 && 0 < dataSize <= PB_SIZE_MAX
    ensures ok <==> count < PB_SIZE_MAX
    ensures ok ==> count < capacity'
    ensures capacity' <= PB_SIZE_MAX && count <= capacity'
  {
    capacity' := capacity;
    if count == PB_SIZE_MAX {
      return false, capacity';
    }
    if count + 1 > capacity' {
      capacity' := Allocation.Grow(capacity', bytesLeft, dataSize);
      Allocation.SmallProduct(capacity', dataSize);
      ok := Allocation.SizeAcceptable(dataSize, capacity');
      return;
    }
    return true, capacity';
  }

  // ---- items ----

  /** The submessage in front of the stream is decoded through a substream. An array element is initialised first, any
      other submessage already is. */
  method DecSubmessage(s: IStream, S: Schema, f: Field, start: Slots, ghost d: Dirt) returns (ok: bool, v: Value)
    requires s.Valid() && SchemaOk(S) && f.ltype.Submessage? && f.ptr.Table? && f.ptr.id < |S|
    requires !f.htype.Repeated? ==> Shaped(S, f.ptr.id, start)
    requires f.htype.Repeated? ==> d == NoDirt
    requires ItemFinds(S, f, if f.htype.Repeated? then Fresh(S, f) else start, d, s.Rest())
    modifies s
    ensures s.Valid() && s.Limit() <= old(s.Limit()) && (ok ==> s.Limit() == old(s.Limit()))
    ensures var p := DecItem(S, f, if f.htype.Repeated? then Fresh(S, f) else start, old(s.Rest()));
            (ok <==> p.Ok?) && (ok ==> p == Ok(v, s.Rest()))
    decreases s.bytesLeft, 0
  {
    SubmessageIs(S, f, if f.htype.Repeated? then Fresh(S, f) else start, s.Rest());
    hide DecPrefixed, DecMessage, Shaped, SchemaOk, Defaults, DecItem, AllFind;
    ghost var s0 := s.Rest();
    v := Indeterminate;
    var sub;
    ok, sub := MakeStringSubstream(s);
    if !ok {
      return;
    }
    ghost var rest := DecPrefixed(s0).rest;
    var slots;
    ok, slots := DecodeInto(sub, S, f, start, d);
    v := Sub(slots);
    assert ok ==> s.buf[sub.Limit()..sub.Limit() + s.bytesLeft] == rest;
    CloseStringSubstream(s, sub);
  }

  /** The substream is decoded into a struct of its own. */
  method DecodeInto(sub: IStream, S: Schema, f: Field, start: Slots, ghost d: Dirt) returns (ok: bool, slots: Slots)
    requires sub.Valid() && SchemaOk(S) && f.ltype.Submessage? && f.ptr.Table? && f.ptr.id < |S|
    requires !f.htype.Repeated? ==> Shaped(S, f.ptr.id, start)
    requires f.htype.Repeated? ==> d == NoDirt
    requires AllFind(S, f.ptr.id, Start(if f.htype.Repeated? then Fresh(S, f) else start), d, sub.Rest())
    modifies sub
    ensures sub.Valid() && sub.Limit() <= old(sub.Limit()) && (ok ==> sub.Limit() == old(sub.Limit()))
    ensures var p := DecMessage(S, f.ptr.id, if f.htype.Repeated? then Fresh(S, f) else start, old(sub.Rest()));
            (ok <==> p.Ok?) && (ok ==> p.value == slots)
    decreases sub.bytesLeft, 10
  {
    hide DecMessage, Shaped, SchemaOk, Defaults, AllFind;
    var dest;
    if f.htype.Repeated? {
      dest := new Struct(seq(|S[f.ptr.id]|, _ => One(false, Indeterminate)));
      ok := Decode(sub, S, f.ptr.id, dest);
    } else {
      dest := new Struct(start);
      ok := DecodeNoinit(sub, S, f.ptr.id, dest, d);
    }
    slots := dest.slots;
  }

  lemma SubmessageIs(S: Schema, f: Field, start: Slots, b: bytes)
    requires f.ltype.Submessage? && f.ptr.Table? && f.ptr.id < |S|
    ensures var p := DecPrefixed(b);
            DecItem(S, f, start, b) ==
            if p.Ok? && DecMessage(S, f.ptr.id, start, p.value).Ok?
            then Ok(Sub(DecMessage(S, f.ptr.id, start, p.value).value), p.rest)
            else Fail
  {
    hide DecPrefixed, DecMessage;
  }

  /** One item of any type. */
  method DecodeItem(s: IStream, S: Schema, f: Field, start: Slots, ghost d: Dirt) returns (ok: bool, v: Value)
    requires s.Valid() && SchemaOk(S) && !f.ltype.Extension?
    requires f.ltype.Submessage? ==> f.ptr.Table? && f.ptr.id < |S| && (!f.htype.Repeated? ==> Shaped(S, f.ptr.id, start))
    requires f.htype.Repeated? ==> d == NoDirt
    requires ItemFinds(S, f, if f.htype.Repeated? then Fresh(S, f) else start, d, s.Rest())
    modifies s
    ensures s.Valid() && s.Limit() <= old(s.Limit()) && (ok ==> s.Limit() == old(s.Limit()))
    ensures var p := DecItem(S, f, if f.htype.Repeated? then Fresh(S, f) else start, old(s.Rest()));
            (ok <==> p.Ok?) && (ok ==> p == Ok(v, s.Rest()))
    decreases s.bytesLeft, 1
  {
    hide DecScalar, DecBlob, DecPrefixed, DecMessage, Shaped, SchemaOk, Fresh, AllFind;
    if Packable(f.ltype) {
      var n;
      ok, n := DecodeScalar(s, f);
      v := Scalar(n);
    } else if f.ltype.Submessage? {
      ok, v := DecSubmessage(s, S, f, start, d);
    } else {
      var data;
      if f.ltype.Bytes? {
        ok, data := DecBytes(s, f);
      } else if f.ltype.String? {
        ok, data := DecString(s, f);
      } else {
        ok, data := DecFixedLengthBytes(s, f);
      }
      v := Blob(data);
    }
  }

  // ---- fields ----

  /** What one record does to the slots, given the number n of items counted so far. */
  function FieldResult(S: Schema, table: Table, m: Slots, i: nat, n: nat, wireType: nat, b: bytes): Parsed<(Slots, nat)>
    requires i < |table| == |m|
  {
    var f := table[i];
    match m[i]
    case One(_, _) =>
      (match DecItem(S, f, StartOf(S, f, m[i]), b)
       case Ok(v, rest) => Ok((StoreOne(table, m, i, v), n), rest)
       case Fail => Fail)
    case Many(items) =>
      (match DecRepeated(S, f, items, n, wireType, b)
       case Ok(r, rest) => Ok((m[i := Many(r.0)], r.1), rest)
       case Fail => Fail)
  }

  function CountIn(slot: Slot): nat {
    if slot.Many? then |slot.items| else 0
  }

  /** The slot has the form that its descriptor asks for. */
  ghost predicate FieldReady(S: Schema, t: nat, m: Slots, i: nat) {
    t < |S| && i < |S[t]| == |m| && !S[t][i].ltype.Extension? && ShapedSlot(S, t, S[t][i], m[i])
  }

  lemma FieldReadyFacts(S: Schema, t: nat, m: Slots, i: nat)
    requires SchemaOk(S) && FieldReady(S, t, m, i)
    ensures FieldOk(S, t, S[t][i])
    ensures S[t][i].htype.Repeated? ==> m[i].Many? && (S[t][i].atype.Pointer? ==> |m[i].items| <= PB_SIZE_MAX)
    ensures !S[t][i].htype.Repeated? ==> m[i].One?
    ensures S[t][i].ltype.Submessage? && m[i].One? ==> Shaped(S, S[t][i].ptr.id, StartOf(S, S[t][i], m[i]))
    ensures S[t][i].ltype.Submessage? ==> Shaped(S, S[t][i].ptr.id, Fresh(S, S[t][i]))
    ensures Embedded(S[t][i]) && !S[t][i].htype.Repeated? ==> m[i].v.Sub?
  {
    var f := S[t][i];
    assert FieldOk(S, t, f);
    if f.ltype.Submessage? {
      DefaultsShaped(S, f.ptr.id);
    }
  }

  /** A fresh submessage struct with default values. */
  method FreshSubmessage(S: Schema, f: Field) returns (slots: Slots)
    requires SchemaOk(S) && f.ltype.Submessage? && f.ptr.Table? && f.ptr.id < |S|
    ensures slots == Fresh(S, f)
  {
    hide SchemaOk, Defaults;
    var sub := new Struct(seq(|S[f.ptr.id]|, _ => One(false, Indeterminate)));
    SetToDefaults(S, f.ptr.id, sub);
    return sub.slots;
  }

  /** A record of a static field that is not repeated. */
  method DecodeStaticSingle(s: IStream, S: Schema, t: nat, dest: Struct, i: nat, ghost d: Dirt) returns (ok: bool)
    requires s.Valid() && SchemaOk(S) && FieldReady(S, t, dest.slots, i)
    requires S[t][i].atype.Static? && !S[t][i].htype.Repeated?
    requires FieldFinds(S, S[t], dest.slots, i, 0, d, s.Rest())
    modifies s, dest
    ensures s.Valid() && s.Limit() <= old(s.Limit()) && (ok ==> s.Limit() == old(s.Limit()))
    ensures var p := FieldResult(S, S[t], old(dest.slots), i, 0, 0, old(s.Rest()));
            (ok <==> p.Ok?) && (ok ==> p == Ok((dest.slots, 0), s.Rest()))
    decreases s.bytesLeft, 2
  {
    hide DecItem, Shaped, SchemaOk, Fresh, ShapedSlot, AllFind;
    FieldReadyFacts(S, t, dest.slots, i);
    var f := S[t][i];
    var start := [];
    if f.ltype.Submessage? && dest.slots[i].v.Sub? {
      start := dest.slots[i].v.slots;
    }
    if f.htype.Optional? && f.sizeOffset != 0 {
      dest.slots := dest.slots[i := One(true, dest.slots[i].v)];
    } else if f.htype.Oneof? {
      dest.slots := Select(S[t], dest.slots, i)[i := One(true, dest.slots[i].v)];
      if f.ltype.Submessage? {
        start := FreshSubmessage(S, f);
      }
    }
    var v;
    ok, v := DecodeItem(s, S, f, start, if Stale.InPlace(f) then PartAt(d, i) else NoDirt);
    dest.slots := dest.slots[i := One(true, v)];
    if !f.ltype.Submessage? {
      StartIrrelevant(S, f, start, StartOf(S, f, old(dest.slots)[i]), old(s.Rest()));
    }
    SelectSingle(S[t], old(dest.slots), i);
    assert dest.slots == StoreOne(S[t], old(dest.slots), i, v);
  }

  lemma StartIrrelevant(S: Schema, f: Field, start: Slots, start': Slots, b: bytes)
    requires !f.ltype.Submessage?
    ensures DecItem(S, f, start, b) == DecItem(S, f, start', b)
  {
  }

  lemma SelectSingle(table: Table, m: Slots, i: nat)
    requires i < |table| == |m|
    ensures !table[i].htype.Oneof? ==> Select(table, m, i) == m
  {
  }

  /** A record of a repeated static field: packed, or one item. */
  method DecodeStaticRepeated(s: IStream, S: Schema, t: nat, dest: Struct, i: nat, wireType: nat, n: nat, ghost d: Dirt)
    returns (ok: bool, n': nat)
    requires s.Valid() && SchemaOk(S) && FieldReady(S, t, dest.slots, i)
    requires S[t][i].atype.Static? && S[t][i].htype.Repeated?
    requires FieldFinds(S, S[t], dest.slots, i, n, d, s.Rest())
    modifies s, dest
    ensures s.Valid() && s.Limit() <= old(s.Limit()) && (ok ==> s.Limit() == old(s.Limit()))
    ensures var p := FieldResult(S, S[t], old(dest.slots), i, n, wireType, old(s.Rest()));
            (ok <==> p.Ok?) && (ok ==> p == Ok((dest.slots, n'), s.Rest()))
    decreases s.bytesLeft, 2
  {
    hide DecItem, DecPacked, DecPrefixed, Shaped, SchemaOk, Fresh, ShapedSlot, AllFind;
    FieldReadyFacts(S, t, dest.slots, i);
    var f := S[t][i];
    var items := dest.slots[i].items;
    n' := n;
    if wireType == 2 && Packable(f.ltype) {
      ok, items, n' := DecodePackedStatic(s, f, items, n);
      dest.slots := dest.slots[i := Many(items)];
    } else {
      n' := n + 1;
      if n >= f.arraySize {
        return false, n';
      }
      var v;
      ok, v := DecodeItem(s, S, f, [], NoDirt);
      dest.slots := dest.slots[i := Many(Put(items, n, v))];
    }
  }

  /** A record of a pointer field that is not repeated: what was there is dropped, submessages start afresh. */
  method DecodePointerSingle(s: IStream, S: Schema, t: nat, dest: Struct, i: nat, ghost d: Dirt) returns (ok: bool)
    requires s.Valid() && SchemaOk(S) && FieldReady(S, t, dest.slots, i)
    requires S[t][i].atype.Pointer? && !S[t][i].htype.Repeated?
    requires FieldFinds(S, S[t], dest.slots, i, 0, d, s.Rest())
    modifies s, dest
    ensures s.Valid() && s.Limit() <= old(s.Limit()) && (ok ==> s.Limit() == old(s.Limit()))
    ensures var p := FieldResult(S, S[t], old(dest.slots), i, 0, 0, old(s.Rest()));
            (ok <==> p.Ok?) && (ok ==> p == Ok((dest.slots, 0), s.Rest()))
    decreases s.bytesLeft, 2
  {
    hide DecItem, Shaped, SchemaOk, Fresh, ShapedSlot, AllFind;
    FieldReadyFacts(S, t, dest.slots, i);
    var f := S[t][i];
    var start := [];
    if f.htype.Oneof? {
      dest.slots := Select(S[t], dest.slots, i)[i := One(true, dest.slots[i].v)];
    }
    if !f.ltype.String? && !f.ltype.Bytes? {
      Allocation.SmallProduct(1, f.dataSize);
      var room := Allocation.SizeAcceptable(f.dataSize, 1);
      if !room {
        return false;
      }
      if f.ltype.Submessage? {
        start := FreshSubmessage(S, f);
      }
    }
    var v;
    ok, v := DecodeItem(s, S, f, start, NoDirt);
    dest.slots := dest.slots[i := One(true, v)];
    if !f.ltype.Submessage? {
      StartIrrelevant(S, f, start, StartOf(S, f, old(dest.slots)[i]), old(s.Rest()));
    }
    SelectSingle(S[t], old(dest.slots), i);
    assert dest.slots == StoreOne(S[t], old(dest.slots), i, v);
  }

  /** A record of a repeated pointer field: packed, or one item behind the others. */
  method DecodePointerRepeated(s: IStream, S: Schema, t: nat, dest: Struct, i: nat, wireType: nat, ghost d: Dirt)
    returns (ok: bool, n': nat)
    requires s.Valid() && SchemaOk(S) && FieldReady(S, t, dest.slots, i)
    requires S[t][i].atype.Pointer? && S[t][i].htype.Repeated?
    requires FieldFinds(S, S[t], dest.slots, i, CountIn(dest.slots[i]), d, s.Rest())
    modifies s, dest
    ensures s.Valid() && s.Limit() <= old(s.Limit()) && (ok ==> s.Limit() == old(s.Limit()))
    ensures var p := FieldResult(S, S[t], old(dest.slots), i, CountIn(old(dest.slots)[i]), wireType, old(s.Rest()));
            (ok <==> p.Ok?) && (ok ==> p.rest == s.Rest() && p.value.0 == dest.slots && n' == CountIn(dest.slots[i]))
    decreases s.bytesLeft, 2
  {
    hide DecItem, DecPacked, DecPrefixed, Shaped, SchemaOk, Fresh, ShapedSlot, AllFind;
    FieldReadyFacts(S, t, dest.slots, i);
    var f := S[t][i];
    var items := dest.slots[i].items;
    n' := |items|;
    if wireType == 2 && Packable(f.ltype) {
      ok, items := DecodePackedPointer(s, f, items);
      dest.slots := dest.slots[i := Many(items)];
      n' := |items|;
    } else {
      if |items| == PB_SIZE_MAX {
        return false, n';
      }
      Allocation.SmallProduct(|items| + 1, f.dataSize);
      var room := Allocation.SizeAcceptable(f.dataSize, |items| + 1);
      if !room {
        return false, n';
      }
      var v;
      ok, v := DecodeItem(s, S, f, [], NoDirt);
      dest.slots := dest.slots[i := Many(items + [v])];
      n' := |items| + 1;
    }
  }

  /** A record of any field; n is the count that applies to it. */
  method DecodeField(s: IStream, S: Schema, t: nat, dest: Struct, i: nat, wireType: nat, n: nat, ghost d: Dirt)
    returns (ok: bool, n': nat)
    requires s.Valid() && SchemaOk(S) && FieldReady(S, t, dest.slots, i)
    requires !FixedCount(S[t][i]) ==> n == CountIn(dest.slots[i])
    requires FieldFinds(S, S[t], dest.slots, i, if dest.slots[i].Many? then n else 0, d, s.Rest())
    modifies s, dest
    ensures s.Valid() && s.Limit() <= old(s.Limit()) && (ok ==> s.Limit() == old(s.Limit()))
    ensures var p := FieldResult(S, S[t], old(dest.slots), i, n, wireType, old(s.Rest()));
            (ok <==> p.Ok?) && (ok ==> p == Ok((dest.slots, n'), s.Rest()))
    decreases s.bytesLeft, 3
  {
    hide DecItem, DecPacked, DecPrefixed, Shaped, SchemaOk, Fresh, ShapedSlot, DecRepeated, ItemFinds;
    FieldReadyFacts(S, t, dest.slots, i);
    n' := n;
    if S[t][i].atype.Static? {
      if S[t][i].htype.Repeated? {
        ok, n' := DecodeStaticRepeated(s, S, t, dest, i, wireType, n, d);
      } else {
        ok := DecodeStaticSingle(s, S, t, dest, i, d);
      }
    } else if S[t][i].htype.Repeated? {
      ok, n' := DecodePointerRepeated(s, S, t, dest, i, wireType, d);
      if ok {
        AppendedCount(S, S[t][i], old(dest.slots)[i].items, wireType, old(s.Rest()));
      }
    } else {
      ok := DecodePointerSingle(s, S, t, dest, i, d);
    }
  }

  lemma {:induction false} PackedAppends(f: Field, items: seq<Value>, b: bytes)
    ensures var r := DecPacked(f, items, |items|, b); r.Some? ==> r.value.1 == |r.value.0|
    decreases |b|
  {
    hide DecScalar;
    if b != [] && DecScalar(f, b).Ok? {
      var p := DecScalar(f, b);
      PackedAppends(f, items + [Scalar(p.value)], p.rest);
    }
  }

  lemma AppendedCount(S: Schema, f: Field, items: seq<Value>, wireType: nat, b: bytes)
    ensures var p := DecRepeated(S, f, items, |items|, wireType, b); p.Ok? ==> p.value.1 == |p.value.0|
  {
    hide DecItem, DecPacked, DecPrefixed;
    if DecPrefixed(b).Ok? {
      PackedAppends(f, items, DecPrefixed(b).value);
    }
  }

  // ---- records ----

  /** What is between the result for the slots and the decoder's bookkeeping. */
  lemma FieldResultIsDecField(S: Schema, t: nat, run: Run, i: nat, wireType: nat, b: bytes)
    requires SchemaOk(S) && FieldReady(S, t, run.m, i)
    ensures !Ready(S[t], run, i) && run.m[i].Many? ==> DecField(S, S[t], run, i, wireType, b) == Fail
    ensures var n := if run.m[i].Many? then CountOf(S[t], run, i) else 0;
            Ready(S[t], run, i) || run.m[i].One? ==>
              DecField(S, S[t], run, i, wireType, b) ==
              match FieldResult(S, S[t], run.m, i, n, wireType, b)
              case Fail => Fail
              case Ok(r, rest) =>
                Ok(Run(r.0,
                       if S[t][i].htype.Required? then run.seen + {i} else run.seen,
                       if FixedCount(S[t][i]) then Some(i) else run.fixedField,
                       if FixedCount(S[t][i]) then r.1 else run.fixedCount), rest)
  {
    hide DecItem, DecRepeated, ShapedSlot;
    FieldReadyFacts(S, t, run.m, i);
  }

  /** A record whose tag belongs to field i, with the counter that stands in for the missing count of a fixed-count
      array. `run` is the decoder's state as the specification has it. */
  method DecodeFound(s: IStream, S: Schema, t: nat, dest: Struct, iter: FieldIter, wireType: nat,
                     fixedField: Option<nat>, fixedCount: nat, ghost run: Run, ghost d: Dirt)
    returns (ok: bool, fixedField': Option<nat>, fixedCount': nat)
    requires s.Valid() && SchemaOk(S) && FieldReady(S, t, dest.slots, iter.pos)
    requires iter.Valid() && iter.table == S[t]
    requires run.m == dest.slots && run.fixedField == fixedField && run.fixedCount == fixedCount
    requires fixedField.Some? ==> fixedField.value < |S[t]|
    requires RecordFinds(S, S[t], run, d, iter.pos, s.Rest())
    modifies s, dest
    ensures s.Valid() && s.Limit() <= old(s.Limit()) && (ok ==> s.Limit() == old(s.Limit()))
    ensures var p := DecField(S, S[t], run, iter.pos, wireType, old(s.Rest()));
            (ok <==> p.Ok?) &&
            (ok ==> p.rest == s.Rest() && p.value == Run(dest.slots, p.value.seen, fixedField', fixedCount'))
    decreases s.bytesLeft, 4
  {
    hide DecField, FieldResult, Shaped, SchemaOk, ShapedSlot, FieldFinds;
    var i := iter.pos;
    var f := S[t][i];
    FieldReadyFacts(S, t, dest.slots, i);
    FieldResultIsDecField(S, t, run, i, wireType, s.Rest());
    fixedField', fixedCount' := fixedField, fixedCount;
    CountPointer(S, t, iter);
    if f.htype.Repeated? && iter.pSize == iter.pData {
      if fixedField' != Some(i) {
        if fixedField'.Some? && fixedCount' != S[t][fixedField'.value].arraySize {
          return false, fixedField', fixedCount';
        }
        fixedField' := Some(i);
        fixedCount' := 0;
      }
      ok, fixedCount' := DecodeField(s, S, t, dest, i, wireType, fixedCount', d);
    } else {
      var n := CountIn(dest.slots[i]);
      ok, n := DecodeField(s, S, t, dest, i, wireType, n, d);
    }
  }

  /** The count pointer of an array coincides with its data exactly when there is no count. */
  lemma CountPointer(S: Schema, t: nat, iter: FieldIter)
    requires SchemaOk(S) && t < |S| && iter.Valid() && iter.table == S[t] && iter.pos < |S[t]|
    ensures var f := S[t][iter.pos];
            f.htype.Repeated? ==> (iter.pSize == iter.pData <==> f.sizeOffset == 0) &&
                                    (f.atype.Pointer? ==> f.sizeOffset != 0)
  {
    assert FieldOk(S, t, S[t][iter.pos]);
  }

  // ---- the required fields ----

  /** The bitmap notes the required fields met so far, by their number among the required fields. */
  ghost predicate Noted(table: Table, words: seq<nat>, seen: set<nat>) {
    && RequiredBitmap.WordsOk(words)
    && (forall i :: 0 <= i < |table| && table[i].htype.Required? && RequiredBefore(table, i) < MAX_REQUIRED ==>
          (i in seen <==> RequiredBitmap.Seen(words, RequiredBefore(table, i))))
    && (forall k :: RequiredBefore(table, |table|) <= k < MAX_REQUIRED ==> !RequiredBitmap.Seen(words, k))
  }

  lemma {:induction false} RequiredIncreases(table: Table, i: nat, j: nat)
    requires i < j <= |table| && table[i].htype.Required?
    ensures RequiredBefore(table, i) < RequiredBefore(table, j)
    decreases j
  {
    if i < j - 1 {
      RequiredIncreases(table, i, j - 1);
    }
  }

  lemma {:induction false} RequiredNumber(table: Table, n: nat, k: nat) returns (i: nat)
    requires n <= |table| && k < RequiredBefore(table, n)
    ensures i < n && table[i].htype.Required? && RequiredBefore(table, i) == k
    decreases n
  {
    if k < RequiredBefore(table, n - 1) {
      i := RequiredNumber(table, n - 1, k);
    } else {
      i := n - 1;
    }
  }

  lemma NoteRequired(table: Table, words: seq<nat>, seen: set<nat>, i: nat, words': seq<nat>)
    requires Noted(table, words, seen) && i < |table| && table[i].htype.Required?
    requires RequiredBitmap.WordsOk(words')
    requires forall k :: 0 <= k < MAX_REQUIRED ==>
               (RequiredBitmap.Seen(words', k) <==> RequiredBitmap.Seen(words, k) || k == RequiredBefore(table, i))
    ensures Noted(table, words', seen + {i})
  {
    hide RequiredBitmap.Seen, RequiredBefore;
    RequiredIncreases(table, i, |table|);
    forall j | 0 <= j < |table| && table[j].htype.Required? && j != i
      ensures RequiredBefore(table, j) != RequiredBefore(table, i)
    {
      if j < i {
        RequiredIncreases(table, j, i);
      } else {
        RequiredIncreases(table, i, j);
      }
    }
  }

  lemma NoteIrrelevant(table: Table, words: seq<nat>, seen: set<nat>, i: nat)
    requires Noted(table, words, seen) && i < |table| && table[i].htype.Required?
    requires RequiredBefore(table, i) >= MAX_REQUIRED
    ensures Noted(table, words, seen + {i})
  {
  }

  /** The comparison of the bitmap is the check of the required fields. */
  lemma NotedMeaning(table: Table, words: seq<nat>, seen: set<nat>)
    requires Noted(table, words, seen)
    ensures RequiredSeen(table, seen) <==>
            forall k :: 0 <= k < RequiredBefore(table, |table|) && k < MAX_REQUIRED ==> RequiredBitmap.Seen(words, k)
  {
    hide RequiredBitmap.Seen, RequiredBefore;
    forall k | 0 <= k < RequiredBefore(table, |table|) && k < MAX_REQUIRED && RequiredSeen(table, seen)
      ensures RequiredBitmap.Seen(words, k)
    {
      var i := RequiredNumber(table, |table|, k);
    }
    forall i | 0 <= i < |table| && table[i].htype.Required?
      ensures RequiredBefore(table, i) < RequiredBefore(table, |table|)
    {
      RequiredIncreases(table, i, |table|);
    }
  }

  lemma NothingNoted(table: Table, words: seq<nat>)
    requires words == [0, 0]
    ensures Noted(table, words, {})
  {
    forall k | 0 <= k < MAX_REQUIRED
      ensures !RequiredBitmap.Seen(words, k)
    {
      RequiredBitmap.ZeroBits(k % 32);
    }
  }

  /** Counts the required fields by moving the iterator to the end of the table, and checks the bitmap. */
  method CheckRequired(iter: FieldIter, words: array<nat>, ghost seen: set<nat>) returns (ok: bool)
    requires iter.Valid() && Noted(iter.table, words[..], seen)
    modifies iter
    ensures ok <==> RequiredSeen(old(iter.table), seen)
  {
    hide RequiredBitmap.Seen, Noted, RequiredSeen;
    ghost var table := iter.table;
    var count := iter.requiredIndex;
    var lastRequired := iter.table != [] && iter.table[iter.pos].htype.Required?;
    var more := true;
    while more
      invariant iter.Valid() && iter.table == table
      invariant more && table != [] ==> iter.pos < |table|
      invariant !more && table != [] ==>
                count == RequiredBefore(table, |table| - 1) && lastRequired == table[|table| - 1].htype.Required?
      invariant table == [] ==> count == 0 && !lastRequired
      decreases more, |table| - iter.pos
    {
      count := iter.requiredIndex;
      lastRequired := iter.table != [] && iter.table[iter.pos].htype.Required?;
      more := iter.Next();
    }
    if lastRequired {
      count := count + 1;
    }
    ghost var w := words[..];
    assert count == RequiredBefore(table, |table|);
    NotedMeaning(table, w, seen);
    NotedWords(table, w, seen);
    ok := RequiredBitmap.Check(words, count);
    assert words[..] == w;
    assert ok <==> forall k :: 0 <= k < count && k < MAX_REQUIRED ==> RequiredBitmap.Seen(w, k);
  }

  lemma NotedWords(table: Table, words: seq<nat>, seen: set<nat>)
    requires Noted(table, words, seen)
    ensures RequiredBitmap.WordsOk(words)
    ensures forall k :: RequiredBefore(table, |table|) <= k < MAX_REQUIRED ==> !RequiredBitmap.Seen(words, k)
  {
  }

  /** An unknown record. With no extension attached the placeholder takes no bytes, so the record is passed over;
      `extensionStart` remembers from which tag on it is worth looking for the placeholder. */
  method SkipUnknown(s: IStream, iter: FieldIter, tag: nat, wireType: nat, extensionStart: nat)
    returns (ok: bool, extensionStart': nat)
    requires s.Valid() && iter.Valid()
    modifies s, iter
    ensures s.Valid() && s.Limit() == old(s.Limit())
    ensures iter.Valid() && iter.table == old(iter.table)
    ensures ok <==> Skip(wireType, old(s.Rest())).Some?
    ensures ok ==> Skip(wireType, old(s.Rest())) == Some(s.Rest())
  {
    hide Skip;
    extensionStart' := extensionStart;
    if tag >= extensionStart' {
      var found, _ := iter.FindExtension();
      extensionStart' := if found then iter.table[iter.pos].tag else U32 - 1;
    }
    ok := SkipField(s, wireType);
  }

  /** The next record up to the point where its field is known. Unknown records are passed over. */
  method NextField(s: IStream, S: Schema, t: nat, iter: FieldIter, extensionStart: nat, ghost run: Run, ghost d: Dirt)
    returns (ok: bool, stop: bool, found: bool, wireType: nat, extensionStart': nat)
    requires s.Valid() && s.bytesLeft > 0 && SchemaOk(S) && t < |S| && |run.m| == |S[t]|
    requires iter.Valid() && iter.table == S[t] && AllFind(S, t, run, d, s.Rest())
    modifies s, iter
    ensures s.Valid() && s.Limit() == old(s.Limit()) && (ok ==> s.bytesLeft <= old(s.bytesLeft))
    ensures iter.Valid() && iter.table == S[t]
    ensures !ok ==> DecLoop(S, S[t], run, old(s.Rest())) == Bad
    ensures ok && stop ==> DecLoop(S, S[t], run, old(s.Rest())) == End(run, s.Rest(), true)
    ensures ok && !stop ==> s.bytesLeft < old(s.bytesLeft)
    ensures ok && !stop && !found ==> DecLoop(S, S[t], run, old(s.Rest())) == DecLoop(S, S[t], run, s.Rest())
    ensures ok && !stop && found ==>
              iter.pos < |S[t]| && !S[t][iter.pos].ltype.Extension? &&
              DecLoop(S, S[t], run, old(s.Rest())) == AfterField(S, S[t], run, iter.pos, wireType, s.Rest())
    ensures ok && !stop ==>
              if found then FieldThen(S, t, run, d, iter.pos, wireType, s.Rest()) else AllFind(S, t, run, d, s.Rest())
  {
    AllFindStep(S, t, run, d, s.Rest());
    hide DecTag, DecField, Skip, DecVarint32, Find, AllFind, FieldThen;
    extensionStart' := extensionStart;
    var tag, eof;
    found := false;
    stop := false;
    ok, tag, wireType, eof := DecodeTag(s);
    if !ok {
      return eof, true, false, 0, extensionStart';
    }
    LookupFacts(S, t, tag);
    ghost var steps;
    found, steps := iter.Find(tag);
    if !found {
      ok, extensionStart' := SkipUnknown(s, iter, tag, wireType, extensionStart');
    } else if S[t] == [] {
      var value;
      ok, value := DecodeVarint32(s);
      found := false;
    } else {
      SearchIsFind(S[t], tag, iter.pos);
    }
  }

  /** A record of field i finds addresses, and so does what follows it. */
  ghost predicate FieldThen(S: Schema, t: nat, run: Run, d: Dirt, i: nat, w: nat, b: bytes) {
    && t < |S| && i < |S[t]| == |run.m| && RecordFinds(S, S[t], run, d, i, b)
    && var p := DecField(S, S[t], run, i, w, b);
       p.Ok? ==> AllFind(S, t, p.value, DirtAfter(S, t, run, d, Some(i), p.value.m, b), p.rest)
  }

  lemma AllFindStep(S: Schema, t: nat, run: Run, d: Dirt, b: bytes)
    requires t < |S| && |run.m| == |S[t]| && AllFind(S, t, run, d, b) && b != []
    ensures var w := DecTag(b);
            w.Tag? ==>
              var p := DecRecord(S, S[t], run, w.tag, w.wireType, w.rest);
              match Find(S[t], w.tag)
              case Some(i) => FieldThen(S, t, run, d, i, w.wireType, w.rest)
              case None => p.Ok? ==> AllFind(S, t, run, d, p.rest)
  {
    hide DecTag, DecField, Find, RecordFinds, DirtAfter, Skip, DecVarint32;
    var w := DecTag(b);
    if w.Tag? && Find(S[t], w.tag).None? {
      assert DirtAfter(S, t, run, d, None, run.m, w.rest) == d by { NothingFound(S, t, run, d, w.rest); }
    }
  }

  lemma NothingFound(S: Schema, t: nat, run: Run, d: Dirt, b: bytes)
    requires t < |S| && |run.m| == |S[t]|
    ensures DirtAfter(S, t, run, d, None, run.m, b) == d
  {
  }

  /** The rest of the message when a record of field i follows. */
  function AfterField(S: Schema, table: Table, run: Run, i: nat, wireType: nat, b: bytes): Outcome
    requires i < |table| == |run.m|
  {
    match DecField(S, table, run, i, wireType, b)
    case Fail => Bad
    case Ok(run', rest) => DecLoop(S, table, run', rest)
  }

  lemma LookupFacts(S: Schema, t: nat, tag: nat)
    requires SchemaOk(S) && t < |S|
    ensures DistinctTags(S[t])
    ensures Find(S[t], tag).None? <==>
            !exists i :: 0 <= i < |S[t]| && S[t][i].tag == tag && !S[t][i].ltype.Extension?
  {
    assert TableOk(S, t, S[t]);
    SearchFails(S[t], tag);
  }

  /** The bitmap after a record of field i. */
  ghost predicate Updated(table: Table, words: seq<nat>, words': seq<nat>, i: nat)
    requires i < |table|
  {
    var k := RequiredBefore(table, i);
    if table[i].htype.Required? && k < MAX_REQUIRED then
      && RequiredBitmap.WordsOk(words) && RequiredBitmap.WordsOk(words')
      && forall j :: 0 <= j < MAX_REQUIRED ==> (RequiredBitmap.Seen(words', j) <==> RequiredBitmap.Seen(words, j) || j == k)
    else words' == words
  }

  lemma RecordNoted(table: Table, seen: set<nat>, i: nat, words: seq<nat>, words': seq<nat>)
    requires i < |table| && Noted(table, words, seen) && Updated(table, words, words', i)
    ensures Noted(table, words', if table[i].htype.Required? then seen + {i} else seen)
  {
    hide Noted, RequiredBefore, RequiredBitmap.Seen, RequiredBitmap.WordsOk;
    if table[i].htype.Required? {
      if RequiredBefore(table, i) < MAX_REQUIRED {
        NoteRequired(table, words, seen, i, words');
      } else {
        NoteIrrelevant(table, words, seen, i);
      }
    }
  }

  /** The decoder's variables stand for a state of the specification. */
  ghost predicate Tracks(S: Schema, t: nat, run: Run, m: Slots, fixedField: Option<nat>, fixedCount: nat, words: seq<nat>) {
    && t < |S| && |run.m| == |S[t]| && Shaped(S, t, run.m)
    && run == Run(m, run.seen, fixedField, fixedCount)
    && (fixedField.Some? ==> fixedField.value < |S[t]|)
    && Noted(S[t], words, run.seen)
  }

  lemma RecordSeen(S: Schema, t: nat, run: Run, i: nat, wireType: nat, b: bytes)
    requires SchemaOk(S) && t < |S| && i < |S[t]| == |run.m|
    ensures var p := DecField(S, S[t], run, i, wireType, b);
            p.Ok? ==>
              (p.value.fixedField == run.fixedField || p.value.fixedField == Some(i)) &&
              p.value.seen == if S[t][i].htype.Required? then run.seen + {i} else run.seen
  {
    hide DecItem, DecRepeated, StoreOne, CountOf, Ready;
  }

  /** A decoded record keeps what the loop relies on. */
  lemma RecordTracked(S: Schema, t: nat, run: Run, i: nat, wireType: nat, b: bytes, words: seq<nat>, words': seq<nat>)
    requires SchemaOk(S) && Tracks(S, t, run, run.m, run.fixedField, run.fixedCount, words)
    requires i < |S[t]| && !S[t][i].ltype.Extension? && Updated(S[t], words, words', i)
    ensures var p := DecField(S, S[t], run, i, wireType, b);
            p.Ok? ==> Tracks(S, t, p.value, p.value.m, p.value.fixedField, p.value.fixedCount, words')
  {
    hide Shaped, SchemaOk, Noted, Updated, DecField;
    RecordNoted(S[t], run.seen, i, words, words');
    RecordSeen(S, t, run, i, wireType, b);
    if DecField(S, S[t], run, i, wireType, b).Ok? {
      Layout.FieldShaped(S, t, run, i, wireType, b);
    }
  }

  /** Notes a required field in the bitmap. */
  method Note(words: array<nat>, iter: FieldIter)
    requires RequiredBitmap.WordsOk(words[..]) && iter.Valid() && iter.pos < |iter.table|
    modifies words
    ensures Updated(iter.table, old(words[..]), words[..], iter.pos)
  {
    hide RequiredBitmap.Seen;
    if iter.table[iter.pos].htype.Required? && iter.requiredIndex < MAX_REQUIRED {
      RequiredBitmap.Mark(words, iter.requiredIndex);
    }
  }

  /** A record whose field is known. */
  method DecodeRecord(s: IStream, S: Schema, t: nat, dest: Struct, iter: FieldIter, wireType: nat, words: array<nat>,
                      fixedField: Option<nat>, fixedCount: nat, ghost run: Run, ghost d: Dirt)
    returns (ok: bool, fixedField': Option<nat>, fixedCount': nat, ghost run': Run, ghost d': Dirt)
    requires s.Valid() && SchemaOk(S) && Tracks(S, t, run, dest.slots, fixedField, fixedCount, words[..])
    requires iter.Valid() && iter.table == S[t] && iter.pos < |S[t]| && !S[t][iter.pos].ltype.Extension?
    requires FieldThen(S, t, run, d, iter.pos, wireType, s.Rest())
    modifies s, dest, words
    ensures s.Valid() && s.Limit() <= old(s.Limit())
    ensures ok ==> s.Limit() == old(s.Limit()) && s.bytesLeft <= old(s.bytesLeft)
    ensures !ok ==> AfterField(S, S[t], run, iter.pos, wireType, old(s.Rest())) == Bad
    ensures ok ==> Tracks(S, t, run', dest.slots, fixedField', fixedCount', words[..])
    ensures ok ==> AfterField(S, S[t], run, iter.pos, wireType, old(s.Rest())) == DecLoop(S, S[t], run', s.Rest())
    ensures ok ==> AllFind(S, t, run', d', s.Rest())
    decreases s.bytesLeft, 5
  {
    ShapedFacts(S, t, run, iter.pos);
    TracksFacts(S, t, run, dest.slots, fixedField, fixedCount, words[..]);
    hide Shaped, ShapedSlot, SchemaOk, Noted, Updated, DecField, DecLoop, Tracks, AllFind, RecordFinds, DirtAfter;
    ghost var was, b := words[..], s.Rest();
    Note(words, iter);
    assert s.Rest() == b;
    RecordTracked(S, t, run, iter.pos, wireType, b, was, words[..]);
    ok, fixedField', fixedCount' := DecodeFound(s, S, t, dest, iter, wireType, fixedField, fixedCount, run, d);
    run' := if ok then DecField(S, S[t], run, iter.pos, wireType, b).value else run;
    d' := if ok then DirtAfter(S, t, run, d, Some(iter.pos), run'.m, b) else d;
  }

  lemma TracksFacts(S: Schema, t: nat, run: Run, m: Slots, fixedField: Option<nat>, fixedCount: nat, words: seq<nat>)
    requires Tracks(S, t, run, m, fixedField, fixedCount, words)
    ensures |run.m| == |S[t]| && run == Run(m, run.seen, fixedField, fixedCount)
    ensures fixedField.Some? ==> fixedField.value < |S[t]|
    ensures RequiredBitmap.WordsOk(words) && Noted(S[t], words, run.seen)
  {
  }

  lemma ShapedFacts(S: Schema, t: nat, run: Run, i: nat)
    requires t < |S| && |run.m| == |S[t]| && Shaped(S, t, run.m) && i < |S[t]| && !S[t][i].ltype.Extension?
    ensures FieldReady(S, t, run.m, i)
  {
  }

  /** The loop over the records of a message. */
  method DecodeRecords(s: IStream, S: Schema, t: nat, dest: Struct, iter: FieldIter, words: array<nat>, ghost run: Run,
                       ghost d: Dirt)
    returns (ok: bool, fixedField: Option<nat>, fixedCount: nat, ghost run': Run)
    requires s.Valid() && SchemaOk(S) && Tracks(S, t, run, dest.slots, None, 0, words[..])
    requires iter.Valid() && iter.table == S[t] && AllFind(S, t, run, d, s.Rest())
    modifies s, dest, iter, words
    ensures s.Valid() && s.Limit() <= old(s.Limit()) && (ok ==> s.Limit() == old(s.Limit()))
    ensures ok ==> Tracks(S, t, run', dest.slots, fixedField, fixedCount, words[..]) && iter.Valid() && iter.table == S[t]
    ensures var o := DecLoop(S, S[t], run, old(s.Rest()));
            if ok then o.End? && o.run == run' && o.rest == s.Rest() else o == Bad
    decreases s.bytesLeft, 6
  {
    TracksFacts(S, t, run, dest.slots, None, 0, words[..]);
    hide SchemaOk, Tracks, DecLoop, AfterField, AllFind, FieldThen;
    fixedField, fixedCount := None, 0;
    var extensionStart: nat := 0;
    var stop := false;
    run' := run;
    ghost var d' := d;
    while !stop && s.bytesLeft != 0
      invariant s.Valid() && s.Limit() == old(s.Limit()) && s.bytesLeft <= old(s.bytesLeft)
      invariant iter.Valid() && iter.table == S[t]
      invariant Tracks(S, t, run', dest.slots, fixedField, fixedCount, words[..]) && |run'.m| == |S[t]|
      invariant DecLoop(S, S[t], run, old(s.Rest())) ==
                if stop then End(run', s.Rest(), true) else DecLoop(S, S[t], run', s.Rest())
      invariant !stop ==> AllFind(S, t, run', d', s.Rest())
      decreases !stop, s.bytesLeft
    {
      var found, wireType;
      ok, stop, found, wireType, extensionStart := NextField(s, S, t, iter, extensionStart, run', d');
      if ok && !stop && found {
        ok, fixedField, fixedCount, run', d' :=
          DecodeRecord(s, S, t, dest, iter, wireType, words, fixedField, fixedCount, run', d');
      }
      if !ok {
        return;
      }
      TracksFacts(S, t, run', dest.slots, fixedField, fixedCount, words[..]);
    }
    LoopEnds(S, S[t], run');
    return true, fixedField, fixedCount, run';
  }

  lemma LoopEnds(S: Schema, table: Table, run: Run)
    requires |table| == |run.m|
    ensures DecLoop(S, table, run, []) == End(run, [], false)
  {
  }

  /** The checks behind the last record. */
  method CheckComplete(S: Schema, t: nat, iter: FieldIter, words: array<nat>, fixedField: Option<nat>, fixedCount: nat,
                       ghost run: Run)
    returns (ok: bool)
    requires Tracks(S, t, run, run.m, fixedField, fixedCount, words[..]) && iter.Valid() && iter.table == S[t]
    modifies iter
    ensures ok <==> FixedComplete(S[t], run) && RequiredSeen(S[t], run.seen)
  {
    hide Noted, RequiredSeen, Shaped;
    if fixedField.Some? && fixedCount != S[t][fixedField.value].arraySize {
      return false;
    }
    ok := CheckRequired(iter, words, run.seen);
  }

  /** Decodes a message into a struct that is already initialised. */
  method DecodeNoinit(s: IStream, S: Schema, t: nat, dest: Struct, ghost d: Dirt) returns (ok: bool)
    requires s.Valid() && SchemaOk(S) && t < |S| && Shaped(S, t, dest.slots)
    requires AllFind(S, t, Start(dest.slots), d, s.Rest())
    modifies s, dest
    ensures s.Valid() && s.Limit() <= old(s.Limit()) && (ok ==> s.Limit() == old(s.Limit()))
    ensures var p := DecMessage(S, t, old(dest.slots), old(s.Rest()));
            (ok <==> p.Ok?) && (ok ==> p == Ok(dest.slots, s.Rest()))
    decreases s.bytesLeft, 8
  {
    assert |dest.slots| == |S[t]|;
    hide DecLoop, Shaped, SchemaOk, Noted, Tracks, FixedComplete, RequiredSeen, AllFind;
    var words := new nat[2](_ => 0);
    var iter := new FieldIter.Begin(S[t], 0);
    StartTracked(S, t, dest.slots, words[..]);
    var fixedField, fixedCount;
    ghost var run;
    ok, fixedField, fixedCount, run := DecodeRecords(s, S, t, dest, iter, words, Start(dest.slots), d);
    if ok {
      TracksFacts(S, t, run, dest.slots, fixedField, fixedCount, words[..]);
      ok := CheckComplete(S, t, iter, words, fixedField, fixedCount, run);
    }
  }

  lemma StartTracked(S: Schema, t: nat, m: Slots, words: seq<nat>)
    requires t < |S| && Shaped(S, t, m) && words == [0, 0]
    ensures Tracks(S, t, Start(m), m, None, 0, words)
  {
    NothingNoted(S[t], words);
  }

  /** Initialises a struct and decodes a message into it. */
  method Decode(s: IStream, S: Schema, t: nat, dest: Struct) returns (ok: bool)
    requires s.Valid() && SchemaOk(S) && t < |S| && |dest.slots| == |S[t]|
    requires AllFind(S, t, Start(Defaults(S, t)), NoDirt, s.Rest())
    modifies s, dest
    ensures s.Valid() && s.Limit() <= old(s.Limit()) && (ok ==> s.Limit() == old(s.Limit()))
    ensures var p := DecFresh(S, t, old(s.Rest()));
            (ok <==> p.Ok?) && (ok ==> p == Ok(dest.slots, s.Rest()))
    decreases s.bytesLeft, 9
  {
    hide DecMessage, Shaped, SchemaOk, AllFind, Defaults;
    SetToDefaults(S, t, dest);
    DefaultsShaped(S, t);
    ok := DecodeNoinit(s, S, t, dest, NoDirt);
  }

  // ---- framed messages ----

  /** Decodes a message behind its length into an initialised struct. */
  method DecodeDelimitedNoinit(s: IStream, S: Schema, t: nat, dest: Struct, ghost d: Dirt) returns (ok: bool)
    requires s.Valid() && SchemaOk(S) && t < |S| && Shaped(S, t, dest.slots)
    requires DecPrefixed(s.Rest()).Ok? ==> AllFind(S, t, Start(dest.slots), d, DecPrefixed(s.Rest()).value)
    modifies s, dest
    ensures s.Valid() && (ok ==> s.Limit() == old(s.Limit()))
    ensures var p := DecPrefixed(old(s.Rest()));
            && (ok <==> p.Ok? && DecMessage(S, t, old(dest.slots), p.value).Ok?)
            && (ok ==> dest.slots == DecMessage(S, t, old(dest.slots), p.value).value && s.Rest() == p.rest)
  {
    hide DecPrefixed, DecMessage, Shaped, SchemaOk, AllFind;
    var sub;
    ok, sub := MakeStringSubstream(s);
    if ok {
      ok := DecodeNoinit(sub, S, t, dest, d);
      CloseStringSubstream(s, sub);
    }
  }

  /** Initialises a struct and decodes a message behind its length into it. */
  method DecodeDelimited(s: IStream, S: Schema, t: nat, dest: Struct) returns (ok: bool)
    requires s.Valid() && SchemaOk(S) && t < |S| && |dest.slots| == |S[t]|
    requires DecPrefixed(s.Rest()).Ok? ==> AllFind(S, t, Start(Defaults(S, t)), NoDirt, DecPrefixed(s.Rest()).value)
    modifies s, dest
    ensures s.Valid() && (ok ==> s.Limit() == old(s.Limit()))
    ensures var p := Framing.DecDelimited(S, t, old(s.Rest()));
            (ok <==> p.Ok?) && (ok ==> p == Ok(dest.slots, s.Rest()))
  {
    hide DecPrefixed, DecFresh, Shaped, SchemaOk, AllFind, Defaults;
    var sub;
    ok, sub := MakeStringSubstream(s);
    if ok {
      ok := Decode(sub, S, t, dest);
      CloseStringSubstream(s, sub);
    }
  }

  /** A message that ends with a zero byte is read by the ordinary decoder. */
  method DecodeNullTerminated(s: IStream, S: Schema, t: nat, dest: Struct) returns (ok: bool)
    requires s.Valid() && SchemaOk(S) && t < |S| && |dest.slots| == |S[t]|
    requires AllFind(S, t, Start(Defaults(S, t)), NoDirt, s.Rest())
    modifies s, dest
    ensures s.Valid() && (ok ==> s.Limit() == old(s.Limit()))
    ensures var p := DecFresh(S, t, old(s.Rest()));
            (ok <==> p.Ok?) && (ok ==> p == Ok(dest.slots, s.Rest()))
  {
    ok := Decode(s, S, t, dest);
  }
}
