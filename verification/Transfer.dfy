/** The main theorem about the codec pair: decoding the encoding of a message has the effect of merging it. */
module Transfer {
  import opened Bits
  import opened Varint
  import opened Integers
  import opened Descriptor
  import opened Message
  import opened EncodeSpec
  import opened DecodeSpec
  import opened Merge

  // ---- tags, lengths, byte strings ----

  lemma TagRoundTrip(tag: nat, w: nat, tail: bytes)
    requires 0 < tag < 0x2000_0000 && w < 8
    ensures DecTag(EncTag(tag, w) + tail) == Tag(tag, w, tail)
  {
    hide EncVarint, DecVarint32;
    Varint32RoundTrip(tag * 8 + w, tail);
  }

  lemma PrefixedRoundTrip(p: bytes, tail: bytes)
    requires |p| < U32
    ensures DecPrefixed(EncVarint(|p|) + p + tail) == Ok(p, tail)
  {
    hide EncVarint, DecVarint32;
    Varint32RoundTrip(|p|, p + tail);
    assert EncVarint(|p|) + p + tail == EncVarint(|p|) + (p + tail);
    assert (p + tail)[..|p|] == p && (p + tail)[|p|..] == tail;
  }

  lemma BlobRoundTrip(f: Field, data: bytes, tail: bytes)
    requires EncBlob(f, data).Success? && BlobFits(f, |Payload(f, data)|)
    ensures DecBlob(f, EncBlob(f, data).value + tail) == Ok(Payload(f, data), tail)
  {
    hide EncVarint, DecBlob, Characters, BlobFits;
    var p := Payload(f, data);
    assert EncBlob(f, data).value == EncVarint(|p|) + p;
    ZeroLength(f, p);
    ReadBlob(f, p, tail);
  }

  lemma ZeroLength(f: Field, p: bytes)
    ensures |p| == f.dataSize == 0 ==> p == Zeros(f.dataSize)
  {
  }

  lemma ReadBlob(f: Field, p: bytes, tail: bytes)
    requires BlobFits(f, |p|) && (f.ltype.FixedLengthBytes? && |p| == 0 ==> p == Zeros(f.dataSize))
    ensures DecBlob(f, EncVarint(|p|) + p + tail) == Ok(p, tail)
  {
    hide EncVarint, DecVarint32;
    BlobBound(f, |p|);
    Varint32RoundTrip(|p|, p + tail);
    assert EncVarint(|p|) + p + tail == EncVarint(|p|) + (p + tail);
    assert (p + tail)[..|p|] == p && (p + tail)[|p|..] == tail;
  }

  lemma BlobBound(f: Field, size: nat)
    requires BlobFits(f, size)
    ensures size < U32
  {
  }

  // ---- storing several items ----

  function PutAll(items: seq<Value>, n: nat, ws: seq<Value>): seq<Value>
    decreases |ws|
  {
    if ws == [] then items else PutAll(Put(items, n, ws[0]), n + 1, ws[1..])
  }

  lemma {:induction false} PutAllAppends(items: seq<Value>, ws: seq<Value>)
    ensures PutAll(items, |items|, ws) == items + ws
    decreases |ws|
  {
    if ws != [] {
      PutAllAppends(items + [ws[0]], ws[1..]);
      assert items + [ws[0]] + ws[1..] == items + ws;
    }
  }

  lemma {:induction false} PutAllReplaces(items: seq<Value>, n: nat, ws: seq<Value>)
    requires n + |ws| == |items|
    ensures PutAll(items, n, ws) == items[..n] + ws
    decreases |ws|
  {
    if ws != [] {
      PutAllReplaces(items[n := ws[0]], n + 1, ws[1..]);
      assert items[n := ws[0]][..n + 1] == items[..n] + [ws[0]];
    }
  }

  // ---- packed arrays ----

  lemma {:induction false} PackedDecodes(S: Schema, f: Field, cur: seq<Value>, n: nat, items: seq<Value>)
    requires Packable(f.ltype) && forall k :: 0 <= k < |items| ==> SendableItem(S, f, items[k])
    requires EncScalars(f, items).Success?
    ensures MergeItems(S, f, items).Some? && |MergeItems(S, f, items).value| == |items|
    ensures DecPacked(f, cur, n, EncScalars(f, items).value) ==
            if n + |items| <= Capacity(f) || items == [] then
              Some((PutAll(cur, n, MergeItems(S, f, items).value), n + |items|))
            else None
    decreases |items|
  {
    hide EncScalar, DecScalar, InRange;
    if items != [] {
      var x := items[0].n;
      assert SendableItem(S, f, items[0]);
      var e, es := EncScalar(f, x).value, EncScalars(f, items[1..]).value;
      ScalarRoundTrip(f, x, es);
      ScalarNonEmpty(f, x, es);
      PackedDecodes(S, f, Put(cur, n, Scalar(Normal(f, x))), n + 1, items[1..]);
    }
  }

  lemma ScalarNonEmpty(f: Field, n: int, tail: bytes)
    requires InRange(f, n)
    ensures EncScalar(f, n).Success? && EncScalar(f, n).value + tail != []
  {
    hide EncVarint, EncFixed, ZigZag;
  }

  // ---- one record ----

  lemma TagFound(S: Schema, t: nat, i: nat, w: nat, b: bytes)
    requires t < |S| && TableOk(S, t, S[t]) && i < |S[t]| && !S[t][i].ltype.Extension? && w < 8
    ensures EncTag(S[t][i].tag, w) + b != [] && DecTag(EncTag(S[t][i].tag, w) + b) == Tag(S[t][i].tag, w, b)
    ensures Find(S[t], S[t][i].tag) == Some(i)
  {
    hide DecTag, EncTag;
    assert FieldOk(S, t, S[t][i]);
    TagRoundTrip(S[t][i].tag, w, b);
    FindUnique(S[t], i);
    TagNonEmpty(S[t][i].tag, w, b);
  }

  /** The decoder on the record of field i. */
  lemma RecordStep(S: Schema, t: nat, run: Run, i: nat, w: nat, b: bytes)
    requires SchemaOk(S) && t < |S| && i < |S[t]| == |run.m| && !S[t][i].ltype.Extension? && w < 8
    ensures DecLoop(S, S[t], run, EncTag(S[t][i].tag, w) + b) ==
            match DecField(S, S[t], run, i, w, b)
            case Ok(run', rest) => DecLoop(S, S[t], run', rest)
            case Fail => Bad
  {
    hide DecTag, EncTag, DecField;
    assert TableOk(S, t, S[t]);
    TagFound(S, t, i, w, b);
  }

  lemma TagNonEmpty(tag: nat, w: nat, b: bytes)
    ensures EncTag(tag, w) + b != []
  {
  }

  // ---- the state after a field ----

  /** The decoder's bookkeeping after the records of field i, when `acc` is the struct then. */
  function Mark(table: Table, run: Run, acc: Slots, m: Slots, i: nat): (run': Run)
    requires i < |table| == |m|
  {
    var f := table[i];
    var run' := run.(m := acc, seen := if f.htype.Required? && m[i].One? then run.seen + {i} else run.seen);
    if FixedCount(f) && m[i].Many? && m[i].items != [] then
      run'.(fixedField := Some(i), fixedCount := f.arraySize)
    else run'
  }

  /** The decoder's state after the records of the fields of m from position i on. */
  function Absorbed(S: Schema, table: Table, run: Run, m: Slots, i: nat): (run': Option<Run>)
    requires i <= |table| == |m| == |run.m|
    ensures run'.Some? ==> |run'.value.m| == |table|
    decreases |m| - i
  {
    if i == |m| then Some(run)
    else
      match MergeField(S, table, run.m, m, i)
      case Some(acc) => Absorbed(S, table, Mark(table, run, acc, m, i), m, i + 1)
      case None => None
  }

  /** Fixed-count arrays of earlier fields are full. */
  predicate FixedOk(table: Table, run: Run, i: nat) {
    run.fixedField.Some? ==> run.fixedField.value < i && FixedComplete(table, run)
  }

  /** What decoding gives when the struct is merged into `acc` and `tail` is left. */
  function After(S: Schema, table: Table, run: Option<Run>, tail: bytes): Outcome
    requires run.Some? ==> |run.value.m| == |table|
  {
    match run
    case Some(r) => DecLoop(S, table, r, tail)
    case None => Bad
  }

  lemma {:induction false} AbsorbedFacts(S: Schema, table: Table, run: Run, m: Slots, i: nat)
    requires i <= |table| == |m| == |run.m| && FixedOk(table, run, i)
    requires forall k :: 0 <= k < |m| && FixedCount(table[k]) && m[k].Many? ==> |m[k].items| == table[k].arraySize
    ensures var run' := Absorbed(S, table, run, m, i);
            var acc := MergeFrom(S, table, run.m, m, i);
            && (run'.Some? <==> acc.Some?)
            && (run'.Some? ==>
                  && run'.value.m == acc.value
                  && FixedOk(table, run'.value, |m|)
                  && run.seen <= run'.value.seen
                  && forall k :: i <= k < |m| && table[k].htype.Required? && m[k].One? ==> k in run'.value.seen)
    decreases |m| - i
  {
    hide MergeField;
    if i < |m| {
      match MergeField(S, table, run.m, m, i)
      case Some(acc) => AbsorbedFacts(S, table, Mark(table, run, acc, m, i), m, i + 1);
      case None =>
    }
  }

  // ---- items and messages ----

  /** What decoding an item must give. */
  function Expected(w: Option<Value>, tail: bytes): Parsed<Value> {
    match w
    case Some(v) => Ok(v, tail)
    case None => Fail
  }

  lemma ScalarItemDecodes(S: Schema, f: Field, start: Slots, n: int, tail: bytes)
    requires InRange(f, n)
    ensures EncScalar(f, n).Success?
    ensures DecItem(S, f, start, EncScalar(f, n).value + tail) == Ok(Scalar(Normal(f, n)), tail)
  {
    hide EncScalar, DecScalar;
    ScalarRoundTrip(f, n, tail);
  }

  lemma BlobItemDecodes(S: Schema, f: Field, start: Slots, data: bytes, tail: bytes)
    requires EncBlob(f, data).Success? && BlobFits(f, |Payload(f, data)|)
    ensures DecItem(S, f, start, EncBlob(f, data).value + tail) == Ok(Blob(Payload(f, data)), tail)
  {
    assert !Packable(f.ltype) && !f.ltype.Submessage?;
    BlobRoundTrip(f, data, tail);
    hide EncBlob, DecBlob, Payload;
  }

  lemma {:induction false} ItemDecodes(S: Schema, f: Field, start: Slots, v: Value, tail: bytes)
    requires SchemaOk(S) && SendableItem(S, f, v)
    requires v.Sub? ==> Shaped(S, f.ptr.id, start)
    ensures EncItem(S, f, v).Success?
    ensures DecItem(S, f, start, EncItem(S, f, v).value + tail) == Expected(MergeItem(S, f, start, v), tail)
    decreases v, 0
  {
    match v
    case Scalar(n) => ScalarItemDecodes(S, f, start, n, tail);
    case Blob(data) => BlobItemDecodes(S, f, start, data, tail);
    case Sub(slots) =>
      var p := EncMessage(S, f.ptr.id, slots).value;
      PrefixedRoundTrip(p, tail);
      EncodingDecodes(S, f.ptr.id, start, slots);
      assert EncItem(S, f, v).value == EncVarint(|p|) + p;
      hide DecPrefixed, DecMessage, EncMessage, MergeMessage;
  }

  /** The main theorem: decoding the encoding of m into an initialised struct gives exactly the merge of the two,
      consumes every byte, and fails exactly when the merge overflows a static array. */
  lemma MessageDecodes(S: Schema, t: nat, start: Slots, m: Slots)
    requires SchemaOk(S) && UniformSchema(S) && Sendable(S, t, m) && Shaped(S, t, start)
    ensures EncMessage(S, t, m).Success?
    ensures DecMessage(S, t, start, EncMessage(S, t, m).value) ==
            match MergeMessage(S, t, start, m)
            case Some(merged) => Ok(merged, [])
            case None => Fail
  {
    EncodingDecodes(S, t, start, m);
  }

  /** The same for the decoding function alone, whatever the unions: in a fresh struct, and with one member of each union in
      the message, the decoder follows it on all tables. */
  lemma {:induction false} EncodingDecodes(S: Schema, t: nat, start: Slots, m: Slots)
    requires SchemaOk(S) && Sendable(S, t, m) && Shaped(S, t, start)
    ensures EncMessage(S, t, m).Success?
    ensures DecMessage(S, t, start, EncMessage(S, t, m).value) ==
            match MergeMessage(S, t, start, m)
            case Some(merged) => Ok(merged, [])
            case None => Fail
    decreases m, |m| + 2
  {
    FromDecodes(S, t, Start(start), m, 0, []);
    var e := EncMessage(S, t, m).value;
    assert e + [] == e;
    AbsorbedComplete(S, t, start, m);
    hide EncMessage, DecLoop, MergeFrom, Absorbed, RequiredSeen, FixedComplete;
    forall run: Run | |run.m| == |S[t]|
      ensures DecLoop(S, S[t], run, []) == End(run, [], false)
    {
      EmptyLoop(S, S[t], run);
    }
  }

  lemma EmptyLoop(S: Schema, table: Table, run: Run)
    requires |table| == |run.m|
    ensures DecLoop(S, table, run, []) == End(run, [], false)
  {
  }

  /** All records of a message leave the decoder complete, with the merged struct. */
  lemma AbsorbedComplete(S: Schema, t: nat, start: Slots, m: Slots)
    requires SchemaOk(S) && Sendable(S, t, m) && |start| == |S[t]|
    ensures var run' := Absorbed(S, S[t], Start(start), m, 0);
            var merged := MergeMessage(S, t, start, m);
            && (run'.Some? <==> merged.Some?)
            && (run'.Some? ==>
                  run'.value.m == merged.value && FixedComplete(S[t], run'.value) && RequiredSeen(S[t], run'.value.seen))
  {
    var table := S[t];
    forall k | 0 <= k < |m|
      ensures FixedCount(table[k]) && m[k].Many? ==> |m[k].items| == table[k].arraySize
      ensures table[k].htype.Required? ==> m[k].One?
    {
      assert FieldOk(S, t, table[k]);
      assert SendableField(S, table, m, k);
    }
    AbsorbedFacts(S, table, Start(start), m, 0);
    hide MergeFrom, Absorbed;
  }

  /** With anything behind it, the encoding of a message is decoded record by record. */
  lemma EncodingLoop(S: Schema, t: nat, start: Slots, m: Slots, tail: bytes)
    requires SchemaOk(S) && Sendable(S, t, m) && Shaped(S, t, start)
    ensures EncMessage(S, t, m).Success?
    ensures var run' := Absorbed(S, S[t], Start(start), m, 0);
            DecLoop(S, S[t], Start(start), EncMessage(S, t, m).value + tail) == After(S, S[t], run', tail)
    ensures var run' := Absorbed(S, S[t], Start(start), m, 0);
            var merged := MergeMessage(S, t, start, m);
            (run'.Some? <==> merged.Some?) && (run'.Some? ==> run'.value.m == merged.value)
  {
    FromDecodes(S, t, Start(start), m, 0, tail);
    AbsorbedComplete(S, t, start, m);
    hide Absorbed, DecLoop, MergeFrom;
  }

  lemma {:induction false} FromDecodes(S: Schema, t: nat, run: Run, m: Slots, i: nat, tail: bytes)
    requires SchemaOk(S) && Sendable(S, t, m) && i <= |m| == |run.m|
    requires FixedOk(S[t], run, i) && forall j :: i <= j < |m| ==> ShapedSlot(S, t, S[t][j], run.m[j])
    ensures EncFrom(S, S[t], m, i).Success?
    ensures DecLoop(S, S[t], run, EncFrom(S, S[t], m, i).value + tail)
            == After(S, S[t], Absorbed(S, S[t], run, m, i), tail)
    decreases m, |m| - i + 1
  {
    hide DecLoop, EncField, MergeField, ShapedSlot, SendableField;
    var table := S[t];
    SendableEncodes(S, t, m, i);
    if i == |m| {
      assert [] + tail == tail;
    } else {
      SendableEncodes(S, t, m, i + 1);
      var e, es := EncField(S, table, m, i).value, EncFrom(S, table, m, i + 1).value;
      assert e + es + tail == e + (es + tail);
      FieldDecodes(S, t, run, m, i, es + tail);
      match MergeField(S, table, run.m, m, i)
      case None =>
      case Some(acc) =>
        FieldKeepsShape(S, t, run, m, i);
        FromDecodes(S, t, Mark(table, run, acc, m, i), m, i + 1, tail);
    }
  }

  lemma SendableItemEncodes(S: Schema, f: Field, v: Value)
    requires SendableItem(S, f, v)
    ensures EncItem(S, f, v).Success?
  {
    hide EncScalar, EncBlob, EncMessage, InRange;
    match v
    case Scalar(n) => ScalarRoundTrip(f, n, []);
    case _ =>
  }

  lemma {:induction false} SendableEachEncodes(S: Schema, f: Field, items: seq<Value>)
    requires WireType(f.ltype).Some? && forall k :: 0 <= k < |items| ==> SendableItem(S, f, items[k])
    ensures EncEach(S, f, items).Success?
    decreases |items|
  {
    if items != [] {
      SendableItemEncodes(S, f, items[0]);
      SendableEachEncodes(S, f, items[1..]);
    }
  }

  lemma SendableFieldEncodes(S: Schema, t: nat, m: Slots, i: nat)
    requires SchemaOk(S) && Sendable(S, t, m) && i < |m|
    ensures EncField(S, S[t], m, i).Success?
  {
    var f := S[t][i];
    assert SendableField(S, S[t], m, i) && FieldOk(S, t, f);
    if !f.ltype.Extension? {
      match m[i]
      case One(has, v) =>
        if Present(S, S[t], m, i) {
          SendableItemEncodes(S, f, v);
        }
      case Many(items) =>
        if items != [] && !Packable(f.ltype) {
          SendableEachEncodes(S, f, items);
        }
    }
  }

  /** A sendable message can be encoded. */
  lemma {:induction false} SendableEncodes(S: Schema, t: nat, m: Slots, i: nat)
    requires SchemaOk(S) && Sendable(S, t, m) && i <= |m|
    ensures EncFrom(S, S[t], m, i).Success?
    decreases |m| - i
  {
    if i < |m| {
      SendableFieldEncodes(S, t, m, i);
      SendableEncodes(S, t, m, i + 1);
    }
  }

  lemma FieldKeepsShape(S: Schema, t: nat, run: Run, m: Slots, i: nat)
    requires t < |S| && i < |m| == |S[t]| == |run.m|
    requires FixedOk(S[t], run, i) && forall j :: i <= j < |m| ==> ShapedSlot(S, t, S[t][j], run.m[j])
    requires MergeField(S, S[t], run.m, m, i).Some?
    ensures var run' := Mark(S[t], run, MergeField(S, S[t], run.m, m, i).value, m, i);
            FixedOk(S[t], run', i + 1) && forall j :: i < j < |m| ==> ShapedSlot(S, t, S[t][j], run'.m[j])
  {
    hide MergeItem, MergeItems, Present;
    var table := S[t];
    var acc := MergeField(S, table, run.m, m, i).value;
    forall j | i < j < |m|
      ensures ShapedSlot(S, t, table[j], acc[j])
    {
      assert ShapedSlot(S, t, table[j], run.m[j]);
    }
  }

  /** The encoding of a field is no longer than that of the message. */
  lemma {:induction false} PartLength(S: Schema, table: Table, m: Slots, j: nat, i: nat)
    requires j <= i < |table| == |m| && EncFrom(S, table, m, j).Success?
    ensures EncField(S, table, m, i).Success? && |EncField(S, table, m, i).value| <= |EncFrom(S, table, m, j).value|
    decreases i - j
  {
    hide EncField;
    if j < i {
      PartLength(S, table, m, j + 1, i);
    }
  }

  // ---- the records of one field ----

  lemma {:induction false} FieldDecodes(S: Schema, t: nat, run: Run, m: Slots, i: nat, tail: bytes)
    requires SchemaOk(S) && Sendable(S, t, m) && i < |m| == |run.m|
    requires FixedOk(S[t], run, i) && ShapedSlot(S, t, S[t][i], run.m[i])
    ensures EncField(S, S[t], m, i).Success?
    ensures var acc := MergeField(S, S[t], run.m, m, i);
            DecLoop(S, S[t], run, EncField(S, S[t], m, i).value + tail) ==
            After(S, S[t], if acc.Some? then Some(Mark(S[t], run, acc.value, m, i)) else None, tail)
    decreases m, |m| - i
  {
    hide DecLoop, EncTagged, EncEach, EncScalars, MergeItems, MergeItem, EncFieldTag;
    var f := S[t][i];
    SendableFieldEncodes(S, t, m, i);
    assert SendableField(S, S[t], m, i) && FieldOk(S, t, f);
    assert [] + tail == tail;
    match m[i]
    case One(has, v) =>
      if Present(S, S[t], m, i) {
        SingleDecodes(S, t, run, m, i, tail);
      }
    case Many(items) =>
      if !f.ltype.Extension? && items != [] {
        ArrayDecodes(S, t, run, m, i, tail);
      }
  }

  /** The bookkeeping of a present field that has been merged to `acc`, or a failure. */
  function Merged(S: Schema, t: nat, run: Run, m: Slots, i: nat): Option<Run>
    requires t < |S| && i < |m| == |S[t]| == |run.m|
  {
    var acc := MergeField(S, S[t], run.m, m, i);
    if acc.Some? then Some(Mark(S[t], run, acc.value, m, i)) else None
  }

  lemma {:induction false} SingleDecodes(S: Schema, t: nat, run: Run, m: Slots, i: nat, tail: bytes)
    requires SchemaOk(S) && Sendable(S, t, m) && i < |m| == |run.m|
    requires ShapedSlot(S, t, S[t][i], run.m[i]) && m[i].One? && Present(S, S[t], m, i)
    ensures EncField(S, S[t], m, i).Success?
    ensures DecLoop(S, S[t], run, EncField(S, S[t], m, i).value + tail)
            == After(S, S[t], Merged(S, t, run, m, i), tail)
    decreases m, 0
  {
    hide DecLoop, MergeItem, EncItem, DecItem, EncBlob, EncMessage;
    var table := S[t];
    var f, v := table[i], m[i].v;
    SendableFieldEncodes(S, t, m, i);
    assert SendableField(S, table, m, i) && FieldOk(S, t, f);
    StartShaped(S, t, f, run.m[i]);
    assert v < m[i];
    var w := WireType(f.ltype).value;
    var start := StartOf(S, f, run.m[i]);
    ItemDecodes(S, f, start, v, tail);
    var e := EncItem(S, f, v).value;
    RecordStep(S, t, run, i, w, e + tail);
    assert EncTag(f.tag, w) + e + tail == EncTag(f.tag, w) + (e + tail);
    hide EncTag;
  }

  lemma StartShaped(S: Schema, t: nat, f: Field, slot: Slot)
    requires SchemaOk(S) && t < |S| && FieldOk(S, t, f) && slot.One?
    requires ShapedSlot(S, t, f, slot)
    ensures f.ltype.Submessage? ==> Shaped(S, f.ptr.id, StartOf(S, f, slot)) && Shaped(S, f.ptr.id, Fresh(S, f))
  {
    if f.ltype.Submessage? {
      DefaultsShaped(S, f.ptr.id);
    }
  }

  lemma {:induction false} ArrayDecodes(S: Schema, t: nat, run: Run, m: Slots, i: nat, tail: bytes)
    requires SchemaOk(S) && Sendable(S, t, m) && i < |m| == |run.m| && !S[t][i].ltype.Extension?
    requires FixedOk(S[t], run, i) && ShapedSlot(S, t, S[t][i], run.m[i])
    requires m[i].Many? && m[i].items != []
    ensures EncField(S, S[t], m, i).Success?
    ensures DecLoop(S, S[t], run, EncField(S, S[t], m, i).value + tail)
            == After(S, S[t], Merged(S, t, run, m, i), tail)
    decreases m, 0
  {
    hide DecLoop, EncEach, EncScalars, MergeItem, MergeItems, SendableItem;
    var f, items := S[t][i], m[i].items;
    SendableFieldEncodes(S, t, m, i);
    assert SendableField(S, S[t], m, i) && FieldOk(S, t, f);
    if Packable(f.ltype) {
      PackedRecordDecodes(S, t, run, i, items, tail);
    } else {
      EachDecodes(S, t, run, i, items, tail);
    }
    StoredItems(S, t, run, m, i);
  }

  /** What the records of the items of an array field give. */
  function Stored(S: Schema, table: Table, run: Run, i: nat, items: seq<Value>): Option<Run>
    requires i < |table| == |run.m| && run.m[i].Many?
  {
    var n := CountOf(table, run, i);
    match MergeItems(S, table[i], items)
    case Some(ws) =>
      if n + |items| <= Capacity(table[i]) then
        Some(SetItems(table, run, i, PutAll(run.m[i].items, n, ws), n + |items|))
      else None
    case None => None
  }

  lemma {:induction false} MergeItemsLength(S: Schema, f: Field, items: seq<Value>)
    ensures MergeItems(S, f, items).Some? ==> |MergeItems(S, f, items).value| == |items|
    decreases |items|
  {
    hide MergeItem;
    if items != [] {
      MergeItemsLength(S, f, items[1..]);
    }
  }

  lemma StoredItems(S: Schema, t: nat, run: Run, m: Slots, i: nat)
    requires t < |S| && i < |m| == |run.m| == |S[t]| && !S[t][i].ltype.Extension? && S[t][i].htype.Repeated?
    requires FixedOk(S[t], run, i) && m[i].Many? && m[i].items != [] && run.m[i].Many?
    requires FixedCount(S[t][i]) ==> |m[i].items| == |run.m[i].items| == S[t][i].arraySize
    ensures Stored(S, S[t], run, i, m[i].items) == Merged(S, t, run, m, i)
  {
    hide MergeItem, MergeItems;
    var f, items, cur := S[t][i], m[i].items, run.m[i].items;
    MergeItemsLength(S, f, items);
    match MergeItems(S, f, items)
    case None =>
    case Some(ws) =>
      PutAllAppends(cur, ws);
      if FixedCount(f) {
        PutAllReplaces(cur, 0, ws);
        assert cur[..0] + ws == ws;
        assert [] + ws == ws;
      }
  }

  lemma PackedRecordDecodes(S: Schema, t: nat, run: Run, i: nat, items: seq<Value>, tail: bytes)
    requires SchemaOk(S) && t < |S| && i < |S[t]| == |run.m| && Packable(S[t][i].ltype) && S[t][i].htype.Repeated?
    requires run.m[i].Many? && Ready(S[t], run, i) && items != []
    requires forall k :: 0 <= k < |items| ==> SendableItem(S, S[t][i], items[k])
    requires EncScalars(S[t][i], items).Success? && |EncScalars(S[t][i], items).value| < U32
    ensures var f := S[t][i];
            var body := EncScalars(f, items).value;
            DecLoop(S, S[t], run, EncTag(f.tag, 2) + (EncVarint(|body|) + body) + tail)
            == After(S, S[t], Stored(S, S[t], run, i, items), tail)
  {
    hide DecLoop, EncScalars, DecPacked, MergeItem, MergeItems, SendableItem, EncTag, DecPrefixed;
    var f := S[t][i];
    var body := EncScalars(f, items).value;
    PackedDecodes(S, f, run.m[i].items, CountOf(S[t], run, i), items);
    PrefixedRoundTrip(body, tail);
    RecordStep(S, t, run, i, 2, EncVarint(|body|) + body + tail);
    assert EncTag(f.tag, 2) + (EncVarint(|body|) + body) + tail == EncTag(f.tag, 2) + (EncVarint(|body|) + body + tail);
  }

  lemma {:induction false} EachDecodes(S: Schema, t: nat, run: Run, i: nat, items: seq<Value>, tail: bytes)
    requires SchemaOk(S) && t < |S| && i < |S[t]| == |run.m| && !Packable(S[t][i].ltype) && S[t][i].htype.Repeated?
    requires !S[t][i].ltype.Extension? && run.m[i].Many? && Ready(S[t], run, i) && items != []
    requires forall k :: 0 <= k < |items| ==> SendableItem(S, S[t][i], items[k])
    ensures EncEach(S, S[t][i], items).Success?
    ensures DecLoop(S, S[t], run, EncEach(S, S[t][i], items).value + tail)
            == After(S, S[t], Stored(S, S[t], run, i, items), tail)
    decreases items, 1
  {
    hide DecLoop, MergeItem, EncItem, DecItem, EncTag, Sendable, EncBlob, EncMessage;
    var table := S[t];
    var f, v, n, cur := table[i], items[0], CountOf(table, run, i), run.m[i].items;
    SendableEachEncodes(S, f, items);
    assert FieldOk(S, t, f);
    var w := WireType(f.ltype).value;
    if f.ltype.Submessage? { DefaultsShaped(S, f.ptr.id); }
    var e, es := EncItem(S, f, v).value, EncEach(S, f, items[1..]).value;
    ItemDecodes(S, f, Fresh(S, f), v, es + tail);
    RecordStep(S, t, run, i, w, e + (es + tail));
    assert EncTag(f.tag, w) + e + es + tail == EncTag(f.tag, w) + (e + (es + tail));
    if n < Capacity(f) && MergeItem(S, f, Fresh(S, f), v).Some? {
      var run' := SetItems(table, run, i, Put(cur, n, MergeItem(S, f, Fresh(S, f), v).value), n + 1);
      StoredStep(S, table, run, i, items);
      if items[1..] == [] {
        assert es + tail == tail;
      } else {
        EachDecodes(S, t, run', i, items[1..], tail);
      }
    }
  }

  lemma StoredStep(S: Schema, table: Table, run: Run, i: nat, items: seq<Value>)
    requires i < |table| == |run.m| && table[i].htype.Repeated? && run.m[i].Many? && Ready(table, run, i) && items != []
    requires MergeItem(S, table[i], Fresh(S, table[i]), items[0]).Some? && CountOf(table, run, i) < Capacity(table[i])
    ensures var n := CountOf(table, run, i);
            var w := MergeItem(S, table[i], Fresh(S, table[i]), items[0]).value;
            var run' := SetItems(table, run, i, Put(run.m[i].items, n, w), n + 1);
            && Ready(table, run', i)
            && Stored(S, table, run, i, items) ==
               if items[1..] == [] then Some(run') else Stored(S, table, run', i, items[1..])
  {
    hide MergeItem;
    var n := CountOf(table, run, i);
    var w := MergeItem(S, table[i], Fresh(S, table[i]), items[0]).value;
    var run' := SetItems(table, run, i, Put(run.m[i].items, n, w), n + 1);
    assert CountOf(table, run', i) == n + 1;
    if MergeItems(S, table[i], items[1..]).Some? {
      var ws := MergeItems(S, table[i], items[1..]).value;
      var cur := run.m[i].items;
      assert ([w] + ws)[1..] == ws;
      assert PutAll(cur, n, [w] + ws) == PutAll(Put(cur, n, w), n + 1, ws);
      assert items[1..] == [] ==> |items| == 1 && ws == [];
      forall x: seq<Value>, k: nat
        ensures SetItems(table, run', i, x, k) == SetItems(table, run, i, x, k)
      {
        assert run.m[i := Many(Put(run.m[i].items, n, w))][i := Many(x)] == run.m[i := Many(x)];
      }
    }
  }
}
