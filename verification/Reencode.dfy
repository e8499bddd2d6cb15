/** What the decoder accepts can be sent on: a decoded struct that the encoder encodes comes back unchanged. */
module Reencode {
  import opened Bits
  import opened Varint
  import opened Integers
  import opened Descriptor
  import opened Message
  import opened EncodeSpec
  import opened DecodeSpec
  import opened Merge
  import opened RoundTrip
  import opened Observe
  import opened Stale
  import opened Addresses
  import Layout
  import Transfer

  // ---- structs as the decoder leaves them ----

  ghost predicate SoundItem(S: Schema, f: Field, v: Value)
    decreases v, 0
  {
    match v
    case Indeterminate => true
    case Scalar(n) => EncScalar(f, n).Success? ==> InRange(f, n)
    case Blob(data) => EncBlob(f, data).Success? ==> BlobFits(f, |Payload(f, data)|)
    case Sub(slots) => f.ltype.Submessage? ==> f.ptr.Table? && f.ptr.id < |S| && Sound(S, f.ptr.id, slots)
  }

  ghost predicate SoundSlot(S: Schema, f: Field, slot: Slot)
    decreases slot, 0
  {
    match slot
    case One(_, v) => SoundItem(S, f, v)
    case Many(items) => (f.atype.Pointer? ==> |items| <= PB_SIZE_MAX) && forall k :: 0 <= k < |items| ==> SoundItem(S, f, items[k])
  }

  predicate OneChosen(table: Table, m: Slots) {
    |m| == |table| &&
    forall i, j :: 0 <= i < |m| && 0 <= j < |m| && i != j && table[i].htype.Oneof? && table[i].htype == table[j].htype ==>
      !(Chosen(m[i]) && Chosen(m[j]))
  }

  /** The values that can be encoded would be accepted, and a union holds at most one member. */
  ghost predicate Sound(S: Schema, t: nat, m: Slots)
    requires t < |S|
    decreases m, 0
  {
    |m| == |S[t]| && OneChosen(S[t], m) && forall i :: 0 <= i < |m| ==> SoundSlot(S, S[t][i], m[i])
  }

  /** The default values are values of their fields. */
  ghost predicate FitDefaults(S: Schema) {
    forall t, i :: 0 <= t < |S| && 0 <= i < |S[t]| ==> FitDefault(S, S[t][i])
  }

  ghost predicate FitDefault(S: Schema, f: Field) {
    f.ptr.Default? ==> SoundItem(S, f, f.ptr.value)
  }

  lemma {:induction false} DefaultsSound(S: Schema, t: nat)
    requires SchemaOk(S) && FitDefaults(S) && t < |S|
    ensures Sound(S, t, Defaults(S, t))
    decreases t, 1
  {
    hide SchemaOk, FitDefaults, SoundSlot, DefaultSlot;
    forall i | 0 <= i < |S[t]|
      ensures SoundSlot(S, S[t][i], Defaults(S, t)[i])
      ensures S[t][i].htype.Oneof? ==> !Chosen(Defaults(S, t)[i])
    {
      DefaultSound(S, t, i);
      assert Defaults(S, t)[i] == DefaultSlot(S, t, S[t][i]);
    }
  }

  lemma {:induction false} DefaultSound(S: Schema, t: nat, i: nat)
    requires SchemaOk(S) && FitDefaults(S) && t < |S| && i < |S[t]|
    ensures SoundSlot(S, S[t][i], DefaultSlot(S, t, S[t][i]))
    ensures S[t][i].htype.Oneof? ==> !Chosen(DefaultSlot(S, t, S[t][i]))
    decreases t, 0
  {
    var f := S[t][i];
    FieldFacts(S, t, i);
    assert FitDefault(S, f);
    hide SchemaOk, FitDefaults, Sound, Defaults;
    if f.ltype.Submessage? && f.atype.Static? {
      DefaultsSound(S, f.ptr.id);
    }
  }

  // ---- decoding keeps structs sound ----

  lemma {:induction false} Base256Bound(b: bytes)
    ensures Base256(b) < Shl(1, 8 * |b|)
  {
    if b != [] {
      Base256Bound(b[1..]);
      ShlShl(1, 8 * (|b| - 1), 8);
      Shl8(Shl(1, 8 * (|b| - 1)));
    }
  }

  lemma ScalarSound(f: Field, b: bytes)
    requires DecScalar(f, b).Ok?
    ensures InRange(f, DecScalar(f, b).value)
  {
    hide DecVarint, DecVarint32, UnZigZag, ToSigned, ToUnsigned, Base256;
    if f.ltype.Fixed32? || f.ltype.Fixed64? {
      ShlWords();
      Base256Bound(b[..if f.ltype.Fixed32? then 4 else 8]);
    } else if f.ltype.Varint? || f.ltype.UVarint? || f.ltype.SVarint? {
      var v := DecVarint(b).value;
      UnsignedCast(f.dataSize, v);
      SignedCast(f.dataSize, UnZigZag(v));
      SignedCast(f.dataSize, if f.dataSize == 8 then ToSigned(8, v) else ToSigned(4, v));
    }
  }

  lemma BlobSound(f: Field, b: bytes)
    requires DecBlob(f, b).Ok? && f.dataSize <= PB_SIZE_MAX
    ensures BlobFits(f, |Payload(f, DecBlob(f, b).value)|)
  {
    hide DecVarint32, UpToNul;
  }

  lemma {:induction false} PackedSound(S: Schema, f: Field, items: seq<Value>, n: nat, b: bytes)
    requires DecPacked(f, items, n, b).Some? && SoundSlot(S, f, Many(items)) && n <= |items|
    ensures SoundSlot(S, f, Many(DecPacked(f, items, n, b).value.0))
    decreases |b|
  {
    hide DecScalar, InRange;
    if b != [] {
      var p := DecScalar(f, b);
      ScalarSound(f, b);
      PackedSound(S, f, Put(items, n, Scalar(p.value)), n + 1, p.rest);
    }
  }

  lemma {:induction false} ItemSound(S: Schema, t: nat, f: Field, start: Slots, b: bytes)
    requires SchemaOk(S) && FitDefaults(S) && t < |S| && FieldOk(S, t, f) && DecItem(S, f, start, b).Ok?
    requires f.ltype.Submessage? ==> Sound(S, f.ptr.id, start) && Shaped(S, f.ptr.id, start)
    ensures SoundItem(S, f, DecItem(S, f, start, b).value)
    decreases |b|, 0
  {
    hide SchemaOk, FitDefaults, Shaped, DecMessage, Sound, DecScalar, DecBlob, BlobFits, InRange, EncScalar, EncBlob;
    if Packable(f.ltype) {
      ScalarSound(f, b);
    } else if f.ltype.Submessage? {
      MessageSound(S, f.ptr.id, start, DecPrefixed(b).value);
    } else {
      BlobSound(f, b);
    }
  }

  lemma {:induction false} RepeatedSound(S: Schema, t: nat, f: Field, items: seq<Value>, n: nat, w: nat, b: bytes)
    requires SchemaOk(S) && FitDefaults(S) && t < |S| && FieldOk(S, t, f) && DecRepeated(S, f, items, n, w, b).Ok?
    requires SoundSlot(S, f, Many(items)) && n <= |items| && (f.atype.Pointer? ==> n == |items|)
    ensures SoundSlot(S, f, Many(DecRepeated(S, f, items, n, w, b).value.0))
    decreases |b|, 1
  {
    hide SchemaOk, FitDefaults, DecItem, DecPacked, DecPrefixed, SoundItem;
    if w == 2 && Packable(f.ltype) {
      PackedSound(S, f, items, n, DecPrefixed(b).value);
    } else {
      if f.ltype.Submessage? {
        DefaultsSound(S, f.ptr.id);
        DefaultsShaped(S, f.ptr.id);
      }
      ItemSound(S, t, f, Fresh(S, f), b);
    }
  }

  /** The counter of an array without count is inside the array. */
  predicate CounterOk(table: Table, run: Run) {
    run.fixedField.Some? ==> run.fixedField.value < |table| && run.fixedCount <= table[run.fixedField.value].arraySize
  }

  lemma CountInside(S: Schema, t: nat, run: Run, i: nat)
    requires t < |S| && i < |S[t]| == |run.m| && ShapedSlot(S, t, S[t][i], run.m[i]) && run.m[i].Many?
    requires S[t][i].htype.Repeated? && !S[t][i].ltype.Extension? && CounterOk(S[t], run)
    ensures CountOf(S[t], run, i) <= |run.m[i].items| && (S[t][i].atype.Pointer? ==> CountOf(S[t], run, i) == |run.m[i].items|)
    ensures FixedCount(S[t][i]) ==> CountOf(S[t], run, i) <= Capacity(S[t][i])
  {
  }

  lemma {:induction false} PackedCounter(f: Field, items: seq<Value>, n: nat, b: bytes)
    requires DecPacked(f, items, n, b).Some? && n <= Capacity(f)
    ensures DecPacked(f, items, n, b).value.1 <= Capacity(f)
    decreases |b|
  {
    hide DecScalar;
    if b != [] {
      var p := DecScalar(f, b);
      PackedCounter(f, Put(items, n, Scalar(p.value)), n + 1, p.rest);
    }
  }

  lemma RepeatedCounter(S: Schema, f: Field, items: seq<Value>, n: nat, w: nat, b: bytes)
    requires DecRepeated(S, f, items, n, w, b).Ok? && n <= Capacity(f)
    ensures DecRepeated(S, f, items, n, w, b).value.1 <= Capacity(f)
  {
    hide DecItem, DecPacked, DecPrefixed;
    if w == 2 && Packable(f.ltype) {
      PackedCounter(f, items, n, DecPrefixed(b).value);
    }
  }

  lemma SameChosen(table: Table, m: Slots, i: nat, m': Slots)
    requires OneChosen(table, m) && i < |m| == |m'| && !Chosen(m'[i]) && forall j :: 0 <= j < |m| && j != i ==> m'[j] == m[j]
    ensures OneChosen(table, m')
  {
  }

  lemma StoredSound(S: Schema, t: nat, m: Slots, i: nat, v: Value)
    requires t < |S| && Sound(S, t, m) && i < |m| && SoundItem(S, S[t][i], v)
    ensures |m| == |S[t]| && Sound(S, t, StoreOne(S[t], m, i, v))
  {
    hide SoundItem;
    var m' := StoreOne(S[t], m, i, v);
    forall j | 0 <= j < |m'|
      ensures SoundSlot(S, S[t][j], m'[j])
    {
      assert SoundSlot(S, S[t][j], m[j]);
      assert SoundItem(S, S[t][j], Indeterminate) by { NothingIsSound(S, S[t][j]); }
    }
  }

  lemma NothingIsSound(S: Schema, f: Field)
    ensures SoundItem(S, f, Indeterminate)
  {
  }

  lemma {:induction false} FieldSound(S: Schema, t: nat, run: Run, i: nat, w: nat, b: bytes)
    requires SchemaOk(S) && FitDefaults(S) && t < |S| && Sound(S, t, run.m) && Shaped(S, t, run.m) && i < |S[t]|
    requires !S[t][i].ltype.Extension? && DecField(S, S[t], run, i, w, b).Ok? && CounterOk(S[t], run)
    ensures Sound(S, t, DecField(S, S[t], run, i, w, b).value.m)
    ensures CounterOk(S[t], DecField(S, S[t], run, i, w, b).value)
    decreases |b|, 3
  {
    assert |run.m| == |S[t]|;
    FieldFacts(S, t, i);
    assert SoundSlot(S, S[t][i], run.m[i]) && ShapedSlot(S, t, S[t][i], run.m[i]);
    hide SchemaOk, FitDefaults, DecItem, DecRepeated, Shaped, DecPrefixed;
    var f := S[t][i];
    match run.m[i]
    case One(_, v) =>
      if f.ltype.Submessage? {
        DefaultsSound(S, f.ptr.id);
        DefaultsShaped(S, f.ptr.id);
      }
      ItemSound(S, t, f, StartOf(S, f, run.m[i]), b);
      hide SoundItem, Sound;
      StoredSound(S, t, run.m, i, DecItem(S, f, StartOf(S, f, run.m[i]), b).value);
    case Many(items) =>
      ManySound(S, t, run, i, w, b);
  }

  lemma {:induction false} ManySound(S: Schema, t: nat, run: Run, i: nat, w: nat, b: bytes)
    requires SchemaOk(S) && FitDefaults(S) && t < |S| && Sound(S, t, run.m) && i < |S[t]| && run.m[i].Many?
    requires SoundSlot(S, S[t][i], run.m[i]) && ShapedSlot(S, t, S[t][i], run.m[i])
    requires !S[t][i].ltype.Extension? && DecField(S, S[t], run, i, w, b).Ok? && CounterOk(S[t], run)
    ensures Sound(S, t, DecField(S, S[t], run, i, w, b).value.m)
    ensures CounterOk(S[t], DecField(S, S[t], run, i, w, b).value)
    decreases |b|, 2
  {
    FieldFacts(S, t, i);
    hide SchemaOk, FitDefaults, DecItem, DecRepeated, SoundSlot, ShapedSlot;
    var f, items, n := S[t][i], run.m[i].items, CountOf(S[t], run, i);
    CountInside(S, t, run, i);
    RepeatedSound(S, t, f, items, n, w, b);
    if FixedCount(f) {
      RepeatedCounter(S, f, items, n, w, b);
    }
    var m' := run.m[i := Many(DecRepeated(S, f, items, n, w, b).value.0)];
    SameChosen(S[t], run.m, i, m');
  }

  lemma {:induction false} RecordSound(S: Schema, t: nat, run: Run, tag: nat, w: nat, b: bytes)
    requires SchemaOk(S) && FitDefaults(S) && t < |S| && Sound(S, t, run.m) && Shaped(S, t, run.m) && CounterOk(S[t], run)
    requires |run.m| == |S[t]| && DecRecord(S, S[t], run, tag, w, b).Ok?
    ensures Sound(S, t, DecRecord(S, S[t], run, tag, w, b).value.m)
    ensures CounterOk(S[t], DecRecord(S, S[t], run, tag, w, b).value)
    decreases |b|, 4
  {
    hide SchemaOk, FitDefaults, DecField, Sound, Shaped, Skip, DecVarint32;
    if Find(S[t], tag).Some? {
      FieldSound(S, t, run, Find(S[t], tag).value, w, b);
    }
  }

  lemma {:induction false} LoopSound(S: Schema, t: nat, run: Run, b: bytes)
    requires SchemaOk(S) && FitDefaults(S) && t < |S| && Sound(S, t, run.m) && Shaped(S, t, run.m) && CounterOk(S[t], run)
    requires |run.m| == |S[t]| && DecLoop(S, S[t], run, b).End?
    ensures Sound(S, t, DecLoop(S, S[t], run, b).run.m)
    decreases |b|, 5
  {
    hide SchemaOk, FitDefaults, DecRecord, DecTag, Sound, Shaped, CounterOk;
    if b != [] && DecTag(b).Tag? {
      var w := DecTag(b);
      var p := DecRecord(S, S[t], run, w.tag, w.wireType, w.rest);
      RecordSound(S, t, run, w.tag, w.wireType, w.rest);
      Layout.RecordShaped(S, t, run, w.tag, w.wireType, w.rest);
      LoopSound(S, t, p.value, p.rest);
    }
  }

  /** Decoding any bytes into a sound struct leaves it sound. */
  lemma {:induction false} MessageSound(S: Schema, t: nat, m: Slots, b: bytes)
    requires SchemaOk(S) && FitDefaults(S) && t < |S| && Sound(S, t, m) && Shaped(S, t, m) && DecMessage(S, t, m, b).Ok?
    ensures Sound(S, t, DecMessage(S, t, m, b).value)
    decreases |b|, 6
  {
    assert |m| == |S[t]|;
    hide SchemaOk, FitDefaults, DecLoop, Sound, Shaped;
    LoopSound(S, t, Start(m), b);
  }

  // ---- what is encoded can be sent ----

  lemma {:induction false} ScalarsSendable(S: Schema, f: Field, items: seq<Value>)
    requires EncScalars(f, items).Success? && SoundSlot(S, f, Many(items)) && Packable(f.ltype)
    ensures forall k :: 0 <= k < |items| ==> SendableItem(S, f, items[k])
    decreases |items|
  {
    hide EncScalar, InRange;
    if items != [] {
      assert SoundItem(S, f, items[0]);
      ScalarsSendable(S, f, items[1..]);
    }
  }

  lemma {:induction false} ItemSendable(S: Schema, f: Field, v: Value)
    requires SchemaOk(S) && SoundItem(S, f, v) && EncItem(S, f, v).Success? && |EncItem(S, f, v).value| < U32
    ensures SendableItem(S, f, v)
    decreases v, 0
  {
    hide SchemaOk, EncScalar, EncBlob, EncMessage, InRange, BlobFits, EncVarint, Sound, Sendable;
    if v.Sub? {
      Sendable32(S, f.ptr.id, v.slots);
    }
  }

  lemma {:induction false} EachSendable(S: Schema, f: Field, items: seq<Value>)
    requires SchemaOk(S) && SoundSlot(S, f, Many(items)) && EncEach(S, f, items).Success?
    requires |EncEach(S, f, items).value| < U32
    ensures forall k :: 0 <= k < |items| ==> SendableItem(S, f, items[k])
    decreases items, 0
  {
    hide SchemaOk, EncItem, EncFieldTag, SendableItem, SoundItem;
    if items != [] {
      assert EncEach(S, f, items) == Cat(EncTagged(S, f, items[0]), EncEach(S, f, items[1..]));
      assert EncTagged(S, f, items[0]) == Cat(EncFieldTag(f), EncItem(S, f, items[0]));
      ItemSendable(S, f, items[0]);
      EachSendable(S, f, items[1..]);
    }
  }

  lemma {:induction false} FieldIsSendable(S: Schema, t: nat, m: Slots, i: nat)
    requires SchemaOk(S) && t < |S| && i < |m| == |S[t]| && SoundSlot(S, S[t][i], m[i])
    requires EncField(S, S[t], m, i).Success? && |EncField(S, S[t], m, i).value| < U32
    ensures SendableField(S, S[t], m, i)
    decreases m, 0
  {
    hide SchemaOk, EncItem, EncEach, EncScalars, SendableItem, SoundItem, EncFieldTag, IsZeroField;
    var f := S[t][i];
    if !f.ltype.Extension? {
      match m[i]
      case One(has, v) =>
        if Present(S, S[t], m, i) {
          assert v < m[i];
          assert EncField(S, S[t], m, i) == Cat(EncFieldTag(f), EncItem(S, f, v));
          ItemSendable(S, f, v);
        }
      case Many(items) =>
        if items == [] {
          assert EncScalars(f, []) == Success([]) by { NoScalars(f); }
        } else if Packable(f.ltype) {
          ScalarsSendable(S, f, items);
        } else {
          EachSendable(S, f, items);
        }
    }
  }

  lemma NoScalars(f: Field)
    ensures EncScalars(f, []) == Success([])
  {
  }

  /** A sound struct with an encoding below 2^32 bytes can be sent. */
  lemma {:induction false} Sendable32(S: Schema, t: nat, m: Slots)
    requires SchemaOk(S) && t < |S| && Sound(S, t, m) && EncMessage(S, t, m).Success? && |EncMessage(S, t, m).value| < U32
    ensures Sendable(S, t, m)
    decreases m, 1
  {
    hide SchemaOk, EncFrom, EncField, SoundSlot, SendableField;
    forall i | 0 <= i < |m|
      ensures SendableField(S, S[t], m, i)
    {
      Transfer.PartLength(S, S[t], m, 0, i);
      FieldIsSendable(S, t, m, i);
    }
  }

  lemma {:induction false} SoundExclusive(S: Schema, t: nat, m: Slots)
    requires t < |S| && Sound(S, t, m)
    ensures Exclusive(S, t, m)
    decreases m, 1
  {
    forall i | 0 <= i < |m|
      ensures ExclusiveSlot(S, S[t][i], m[i])
    {
      assert SoundSlot(S, S[t][i], m[i]);
      match m[i]
      case One(_, v) =>
        assert v < m[i];
        SoundExclusiveItem(S, S[t][i], v);
      case Many(items) =>
        forall k | 0 <= k < |items|
          ensures ExclusiveItem(S, S[t][i], items[k])
        {
          assert items[k] < m[i];
          SoundExclusiveItem(S, S[t][i], items[k]);
        }
    }
  }

  lemma {:induction false} SoundExclusiveItem(S: Schema, f: Field, v: Value)
    requires SoundItem(S, f, v)
    ensures ExclusiveItem(S, f, v)
    decreases v, 0
  {
    if v.Sub? && f.ltype.Submessage? {
      SoundExclusive(S, f.ptr.id, v.slots);
    }
  }

  // ---- passing a message on ----

  /** Whatever bytes the decoder accepts: when the encoder encodes the struct in fewer than 2^32 bytes, these bytes are
      accepted and used up, give exactly the struct as it was sent, and, with zero defaults, one that looks the same. */
  lemma Reencoded(S: Schema, t: nat, b: bytes)
    requires SchemaOk(S) && FitDefaults(S) && t < |S| && DecFresh(S, t, b).Ok?
    requires AllFind(S, t, Start(Defaults(S, t)), NoDirt, b)
    requires var e := EncMessage(S, t, DecFresh(S, t, b).value); e.Success? && |e.value| < U32
    ensures var m := DecFresh(S, t, b).value;
            var e := EncMessage(S, t, m).value;
            && Sendable(S, t, m) && Exclusive(S, t, m) && |m| == |S[t]|
            && AllFind(S, t, Start(Defaults(S, t)), NoDirt, e) && DecFresh(S, t, e) == Ok(Received(S, t, m), [])
            && (ZeroDefaults(S) ==> View(S, t, Received(S, t, m)) == View(S, t, m))
  {
    hide SchemaOk, FitDefaults, ZeroDefaults, DecMessage, EncMessage, Sendable, Exclusive, Sound, Shaped, Received, View, AllFind;
    var m := DecFresh(S, t, b).value;
    DefaultsSound(S, t);
    DefaultsShaped(S, t);
    MessageSound(S, t, Defaults(S, t), b);
    Sendable32(S, t, m);
    SoundExclusive(S, t, m);
    EncodingFinds(S, t, m, []);
    assert EncMessage(S, t, m).value + [] == EncMessage(S, t, m).value;
    MessageReceived(S, t, m);
    if ZeroDefaults(S) {
      ReceivedView(S, t, m);
    }
  }
}
