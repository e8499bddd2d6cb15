/** Decoding never changes the layout of a struct: every step keeps each slot in the form its descriptor asks for. */
module Layout {
  import opened Bits
  import opened Varint
  import opened Descriptor
  import opened Message
  import opened DecodeSpec

  lemma {:induction false} PackedLength(f: Field, items: seq<Value>, n: nat, b: bytes)
    requires DecPacked(f, items, n, b).Some? && |items| == Capacity(f)
    ensures |DecPacked(f, items, n, b).value.0| == |items|
    decreases |b|
  {
    hide DecScalar;
    if b != [] {
      var p := DecScalar(f, b);
      PackedLength(f, Put(items, n, Scalar(p.value)), n + 1, p.rest);
    }
  }

  lemma {:induction false} PackedBound(f: Field, items: seq<Value>, n: nat, b: bytes)
    requires DecPacked(f, items, n, b).Some? && |items| <= n <= Capacity(f)
    ensures |DecPacked(f, items, n, b).value.0| <= Capacity(f)
    decreases |b|
  {
    hide DecScalar;
    if b != [] {
      var p := DecScalar(f, b);
      PackedBound(f, Put(items, n, Scalar(p.value)), n + 1, p.rest);
    }
  }

  /** The count of an array never exceeds its capacity. */
  lemma RepeatedBound(S: Schema, f: Field, items: seq<Value>, w: nat, b: bytes)
    requires DecRepeated(S, f, items, |items|, w, b).Ok? && |items| <= Capacity(f)
    ensures |DecRepeated(S, f, items, |items|, w, b).value.0| <= Capacity(f)
  {
    hide DecItem, DecPacked, DecPrefixed;
    if w == 2 && Packable(f.ltype) {
      PackedBound(f, items, |items|, DecPrefixed(b).value);
    }
  }

  lemma RepeatedLength(S: Schema, f: Field, items: seq<Value>, n: nat, w: nat, b: bytes)
    requires DecRepeated(S, f, items, n, w, b).Ok? && |items| == Capacity(f)
    ensures |DecRepeated(S, f, items, n, w, b).value.0| == |items|
  {
    hide DecItem, DecPacked, DecPrefixed;
    if w == 2 && Packable(f.ltype) {
      PackedLength(f, items, n, DecPrefixed(b).value);
    }
  }

  lemma {:induction false} ItemShaped(S: Schema, f: Field, start: Slots, b: bytes)
    requires SchemaOk(S) && DecItem(S, f, start, b).Ok?
    requires f.ltype.Submessage? && f.ptr.Table? && f.ptr.id < |S| ==> Shaped(S, f.ptr.id, start)
    ensures f.ltype.Submessage? ==>
              f.ptr.Table? && f.ptr.id < |S| && DecItem(S, f, start, b).value.Sub? &&
              Shaped(S, f.ptr.id, DecItem(S, f, start, b).value.slots)
    decreases |b|, 0
  {
    hide DecMessage, Shaped, DecScalar, DecBlob;
    if f.ltype.Submessage? {
      MessageShaped(S, f.ptr.id, start, DecPrefixed(b).value);
    }
  }

  lemma {:induction false} FieldShaped(S: Schema, t: nat, run: Run, i: nat, w: nat, b: bytes)
    requires SchemaOk(S) && t < |S| && Shaped(S, t, run.m) && i < |S[t]| && !S[t][i].ltype.Extension?
    requires DecField(S, S[t], run, i, w, b).Ok?
    ensures Shaped(S, t, DecField(S, S[t], run, i, w, b).value.m)
    decreases |b|, 1
  {
    hide DecItem, DecRepeated, ShapedSlot;
    var table := S[t];
    var f := table[i];
    var m' := DecField(S, table, run, i, w, b).value.m;
    assert FieldOk(S, t, f) && ShapedSlot(S, t, f, run.m[i]);
    match run.m[i]
    case One(_, _) =>
      StoredShaped(S, t, run.m, i, b);
    case Many(items) =>
      if FixedCount(f) {
        FixedLength(S, t, f, run.m[i]);
        RepeatedLength(S, f, items, CountOf(table, run, i), w, b);
      } else if f.atype.Pointer? {
        CountBound(S, t, f, run.m[i]);
        RepeatedBound(S, f, items, w, b);
      }
      ManyShaped(S, t, f, run.m[i], m'[i]);
      forall j | 0 <= j < |m'|
        ensures ShapedSlot(S, t, table[j], m'[j])
      {
        assert ShapedSlot(S, t, table[j], run.m[j]);
      }
  }

  lemma FixedLength(S: Schema, t: nat, f: Field, slot: Slot)
    requires t < |S| && ShapedSlot(S, t, f, slot) && FixedCount(f) && !f.ltype.Extension?
    ensures slot.Many? && |slot.items| == f.arraySize
  {
  }

  lemma CountBound(S: Schema, t: nat, f: Field, slot: Slot)
    requires t < |S| && ShapedSlot(S, t, f, slot) && f.atype.Pointer? && f.htype.Repeated? && !f.ltype.Extension?
    ensures slot.Many? && |slot.items| <= Capacity(f)
  {
  }

  lemma ManyShaped(S: Schema, t: nat, f: Field, slot: Slot, slot': Slot)
    requires t < |S| && ShapedSlot(S, t, f, slot) && !f.ltype.Extension? && f.htype.Repeated?
    requires slot.Many? && slot'.Many? && (FixedCount(f) ==> |slot'.items| == |slot.items|)
    requires f.atype.Pointer? ==> |slot'.items| <= PB_SIZE_MAX
    ensures ShapedSlot(S, t, f, slot')
  {
  }

  lemma {:induction false} StoredShaped(S: Schema, t: nat, m: Slots, i: nat, b: bytes)
    requires SchemaOk(S) && t < |S| && Shaped(S, t, m) && i < |S[t]| && m[i].One?
    requires !S[t][i].ltype.Extension? && !S[t][i].htype.Repeated?
    requires DecItem(S, S[t][i], StartOf(S, S[t][i], m[i]), b).Ok?
    ensures Shaped(S, t, StoreOne(S[t], m, i, DecItem(S, S[t][i], StartOf(S, S[t][i], m[i]), b).value))
    decreases |b|, 1, 0
  {
    hide DecItem;
    var f := S[t][i];
    var v := DecItem(S, f, StartOf(S, f, m[i]), b).value;
    var m' := StoreOne(S[t], m, i, v);
    assert FieldOk(S, t, f) && ShapedSlot(S, t, f, m[i]);
    if f.ltype.Submessage? {
      DefaultsShaped(S, f.ptr.id);
    }
    ItemShaped(S, f, StartOf(S, f, m[i]), b);
    forall j | 0 <= j < |m'|
      ensures ShapedSlot(S, t, S[t][j], m'[j])
    {
      assert ShapedSlot(S, t, S[t][j], m[j]);
    }
  }

  lemma {:induction false} RecordShaped(S: Schema, t: nat, run: Run, tag: nat, w: nat, b: bytes)
    requires SchemaOk(S) && t < |S| && Shaped(S, t, run.m) && DecRecord(S, S[t], run, tag, w, b).Ok?
    ensures Shaped(S, t, DecRecord(S, S[t], run, tag, w, b).value.m)
    decreases |b|, 2
  {
    hide DecField, Skip, DecVarint32, Shaped;
    if Find(S[t], tag).Some? {
      FieldShaped(S, t, run, Find(S[t], tag).value, w, b);
    }
  }

  lemma {:induction false} LoopShaped(S: Schema, t: nat, run: Run, b: bytes)
    requires SchemaOk(S) && t < |S| && Shaped(S, t, run.m) && DecLoop(S, S[t], run, b).End?
    ensures Shaped(S, t, DecLoop(S, S[t], run, b).run.m)
    decreases |b|, 3
  {
    assert |run.m| == |S[t]|;
    hide DecRecord, DecTag, Shaped;
    if b != [] && DecTag(b).Tag? {
      var w := DecTag(b);
      RecordShaped(S, t, run, w.tag, w.wireType, w.rest);
      LoopShaped(S, t, DecRecord(S, S[t], run, w.tag, w.wireType, w.rest).value,
                 DecRecord(S, S[t], run, w.tag, w.wireType, w.rest).rest);
    }
  }

  /** A decoded struct has the layout of its message type. */
  lemma {:induction false} MessageShaped(S: Schema, t: nat, m: Slots, b: bytes)
    requires SchemaOk(S) && t < |S| && Shaped(S, t, m) && DecMessage(S, t, m, b).Ok?
    ensures Shaped(S, t, DecMessage(S, t, m, b).value)
    decreases |b|, 4
  {
    assert |m| == |S[t]|;
    hide DecLoop, Shaped;
    LoopShaped(S, t, Start(m), b);
  }
}
