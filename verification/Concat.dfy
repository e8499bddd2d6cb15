/** Decoding a concatenation, and records of unknown fields. */
module Concat {
  import opened Bits
  import opened Varint
  import opened Integers
  import opened Descriptor
  import opened Message
  import opened EncodeSpec
  import opened DecodeSpec
  import opened Wire
  import Transfer

  // ---- a record is decoded the same whatever follows it ----

  lemma DecPrefixedFrame(b: bytes, tail: bytes)
    requires DecPrefixed(b).Ok?
    ensures DecPrefixed(b + tail) == Ok(DecPrefixed(b).value, DecPrefixed(b).rest + tail)
  {
    hide DecVarint32;
    DecVarint32Frame(b, tail);
    var rest := DecVarint32(b).rest;
    var size := DecVarint32(b).value;
    assert (rest + tail)[..size] == rest[..size] && (rest + tail)[size..] == rest[size..] + tail;
  }

  lemma DecBlobFrame(f: Field, b: bytes, tail: bytes)
    requires DecBlob(f, b).Ok?
    ensures DecBlob(f, b + tail) == Ok(DecBlob(f, b).value, DecBlob(f, b).rest + tail)
  {
    hide DecVarint32, BlobFits;
    DecVarint32Frame(b, tail);
    var rest := DecVarint32(b).rest;
    var size := DecVarint32(b).value;
    if size <= |rest| {
      assert (rest + tail)[..size] == rest[..size] && (rest + tail)[size..] == rest[size..] + tail;
    }
  }

  lemma SkipFrame(w: nat, b: bytes, tail: bytes)
    requires Skip(w, b).Some?
    ensures Skip(w, b + tail) == Some(Skip(w, b).value + tail)
  {
    hide DecPrefixed, VarintLen;
    if w == 0 {
      VarintLenFrame(b, tail);
      assert (b + tail)[VarintLen(b)..] == b[VarintLen(b)..] + tail;
    } else if w == 2 {
      DecPrefixedFrame(b, tail);
    } else {
      assert |b| >= 4 ==> (b + tail)[4..] == b[4..] + tail;
      assert |b| >= 8 ==> (b + tail)[8..] == b[8..] + tail;
    }
  }

  lemma DecTagFrame(b: bytes, tail: bytes)
    requires DecTag(b).Tag?
    ensures var w := DecTag(b); DecTag(b + tail) == Tag(w.tag, w.wireType, w.rest + tail)
  {
    hide DecVarint32;
    DecVarint32Frame(b, tail);
  }

  lemma DecItemFrame(S: Schema, f: Field, start: Slots, b: bytes, tail: bytes)
    requires DecItem(S, f, start, b).Ok?
    ensures var p := DecItem(S, f, start, b); DecItem(S, f, start, b + tail) == Ok(p.value, p.rest + tail)
  {
    hide DecScalar, DecPrefixed, DecBlob, DecMessage;
    if Packable(f.ltype) {
      DecScalarFrame(f, b, tail);
    } else if f.ltype.Submessage? {
      DecPrefixedFrame(b, tail);
    } else {
      DecBlobFrame(f, b, tail);
    }
  }

  lemma DecRepeatedFrame(S: Schema, f: Field, items: seq<Value>, n: nat, w: nat, b: bytes, tail: bytes)
    requires DecRepeated(S, f, items, n, w, b).Ok?
    ensures var p := DecRepeated(S, f, items, n, w, b);
            DecRepeated(S, f, items, n, w, b + tail) == Ok(p.value, p.rest + tail)
  {
    hide DecItem, DecPrefixed, DecPacked;
    if w == 2 && Packable(f.ltype) {
      DecPrefixedFrame(b, tail);
    } else {
      DecItemFrame(S, f, Fresh(S, f), b, tail);
    }
  }

  lemma DecFieldFrame(S: Schema, table: Table, run: Run, i: nat, w: nat, b: bytes, tail: bytes)
    requires i < |table| == |run.m| && DecField(S, table, run, i, w, b).Ok?
    ensures var p := DecField(S, table, run, i, w, b);
            DecField(S, table, run, i, w, b + tail) == Ok(p.value, p.rest + tail)
  {
    hide DecItem, DecRepeated;
    match run.m[i]
    case One(_, _) => DecItemFrame(S, table[i], StartOf(S, table[i], run.m[i]), b, tail);
    case Many(items) => DecRepeatedFrame(S, table[i], items, CountOf(table, run, i), w, b, tail);
  }

  lemma DecRecordFrame(S: Schema, table: Table, run: Run, tag: nat, w: nat, b: bytes, tail: bytes)
    requires |table| == |run.m| && DecRecord(S, table, run, tag, w, b).Ok?
    ensures var p := DecRecord(S, table, run, tag, w, b);
            DecRecord(S, table, run, tag, w, b + tail) == Ok(p.value, p.rest + tail)
  {
    hide DecField, Skip, Find, DecVarint32;
    match Find(table, tag)
    case Some(i) => DecFieldFrame(S, table, run, i, w, b, tail);
    case None =>
      if |table| == 0 && tag == 0 {
        DecVarint32Frame(b, tail);
      } else {
        SkipFrame(w, b, tail);
      }
  }

  // ---- concatenation ----

  /** All of b is decoded as whole records, without a terminator. */
  predicate Whole(S: Schema, table: Table, run: Run, b: bytes)
    requires |table| == |run.m|
  {
    var o := DecLoop(S, table, run, b);
    o.End? && !o.stopped
  }

  lemma {:induction false} WholeRest(S: Schema, table: Table, run: Run, b: bytes)
    requires |table| == |run.m| && Whole(S, table, run, b)
    ensures DecLoop(S, table, run, b).rest == []
    decreases |b|
  {
    hide DecRecord, DecTag;
    if b != [] {
      var w := DecTag(b);
      var p := DecRecord(S, table, run, w.tag, w.wireType, w.rest);
      WholeRest(S, table, p.value, p.rest);
    }
  }

  /** The records of s2 continue where those of s1 left off. */
  lemma {:induction false} LoopConcat(S: Schema, table: Table, run: Run, s1: bytes, s2: bytes)
    requires |table| == |run.m| && Whole(S, table, run, s1)
    ensures DecLoop(S, table, run, s1 + s2) == DecLoop(S, table, DecLoop(S, table, run, s1).run, s2)
    decreases |s1|
  {
    hide DecRecord, DecTag;
    if s1 == [] {
      assert s1 + s2 == s2;
    } else {
      var w := DecTag(s1);
      var p := DecRecord(S, table, run, w.tag, w.wireType, w.rest);
      DecTagFrame(s1, s2);
      DecRecordFrame(S, table, run, w.tag, w.wireType, w.rest, s2);
      LoopConcat(S, table, p.value, p.rest, s2);
      assert s1 + s2 != [];
    }
  }

  // ---- last one wins ----

  predicate NoFixedCount(table: Table) {
    forall i :: 0 <= i < |table| ==> !FixedCount(table[i])
  }

  /** A run that has seen more required fields. */
  function More(run: Run, extra: set<nat>): Run {
    run.(seen := run.seen + extra)
  }

  lemma RecordMore(S: Schema, table: Table, run: Run, extra: set<nat>, tag: nat, w: nat, b: bytes)
    requires |table| == |run.m|
    ensures DecRecord(S, table, More(run, extra), tag, w, b) ==
            match DecRecord(S, table, run, tag, w, b)
            case Ok(run', rest) => Ok(More(run', extra), rest)
            case Fail => Fail
  {
    hide DecItem, DecRepeated, Skip, Find, DecVarint32;
    if Find(table, tag).Some? {
      var i := Find(table, tag).value;
      assert (run.seen + extra) + {i} == (run.seen + {i}) + extra;
    }
  }

  lemma {:induction false} LoopMore(S: Schema, table: Table, run: Run, extra: set<nat>, b: bytes)
    requires |table| == |run.m|
    ensures DecLoop(S, table, More(run, extra), b) ==
            match DecLoop(S, table, run, b)
            case End(run', rest, stopped) => End(More(run', extra), rest, stopped)
            case Bad => Bad
    decreases |b|
  {
    hide DecRecord, DecTag;
    if b != [] && DecTag(b).Tag? {
      var w := DecTag(b);
      RecordMore(S, table, run, extra, w.tag, w.wireType, w.rest);
      var p := DecRecord(S, table, run, w.tag, w.wireType, w.rest);
      if p.Ok? {
        LoopMore(S, table, p.value, extra, p.rest);
      }
    }
  }

  lemma RecordNoFixed(S: Schema, table: Table, run: Run, tag: nat, w: nat, b: bytes)
    requires |table| == |run.m| && NoFixedCount(table) && DecRecord(S, table, run, tag, w, b).Ok?
    ensures var run' := DecRecord(S, table, run, tag, w, b).value;
            run'.fixedField == run.fixedField && run'.fixedCount == run.fixedCount
  {
    hide DecItem, DecRepeated, Skip, Find, DecVarint32;
    if Find(table, tag).Some? {
      assert !FixedCount(table[Find(table, tag).value]);
    }
  }

  lemma {:induction false} LoopNoFixed(S: Schema, table: Table, run: Run, b: bytes)
    requires |table| == |run.m| && NoFixedCount(table)
    ensures var o := DecLoop(S, table, run, b);
            o.End? ==> o.run.fixedField == run.fixedField && o.run.fixedCount == run.fixedCount
    decreases |b|
  {
    hide DecRecord, DecTag, NoFixedCount;
    if b != [] && DecTag(b).Tag? {
      var w := DecTag(b);
      var p := DecRecord(S, table, run, w.tag, w.wireType, w.rest);
      if p.Ok? {
        RecordNoFixed(S, table, run, w.tag, w.wireType, w.rest);
        LoopNoFixed(S, table, p.value, p.rest);
      }
    }
  }

  /** "Last one wins": once s1 has been decoded completely, decoding s1 + s2 is decoding s2 into the result; the
      required fields need not be repeated in s2. */
  lemma LastOneWins(S: Schema, t: nat, m: Slots, s1: bytes, s2: bytes)
    requires SchemaOk(S) && UniformSchema(S) && t < |S| && |m| == |S[t]| && NoFixedCount(S[t])
    requires Whole(S, S[t], Start(m), s1) && DecMessage(S, t, m, s1).Ok?
    ensures var m1 := DecMessage(S, t, m, s1).value;
            && |m1| == |S[t]|
            && DecMessage(S, t, m, s1 + s2) ==
               (match DecLoop(S, S[t], Start(m1), s2)
                case End(run, rest, _) => Ok(run.m, rest)
                case Bad => Fail)
            && (DecMessage(S, t, m1, s2).Ok? ==> DecMessage(S, t, m, s1 + s2) == DecMessage(S, t, m1, s2))
  {
    hide DecLoop, NoFixedCount;
    var run1 := DecLoop(S, S[t], Start(m), s1).run;
    LoopConcat(S, S[t], Start(m), s1, s2);
    LoopNoFixed(S, S[t], Start(m), s1);
    LoopNoFixed(S, S[t], Start(run1.m), s2);
    assert More(Start(run1.m), run1.seen) == run1;
    LoopMore(S, S[t], Start(run1.m), run1.seen, s2);
  }

  // ---- unknown fields ----

  /** A tag word that belongs to no field of the table, and a payload of its wire type. */
  predicate UnknownRecord(table: Table, u: bytes) {
    var w := DecTag(u);
    w.Tag? && w.tag != 0 && Find(table, w.tag).None? && IsPayload(w.wireType, w.rest)
  }

  /** The form that encoders write. */
  lemma UnknownForm(table: Table, tag: nat, wireType: nat, payload: bytes)
    requires 0 < tag < 0x2000_0000 && Find(table, tag).None? && IsPayload(wireType, payload)
    ensures UnknownRecord(table, EncTag(tag, wireType) + payload)
  {
    hide EncTag, DecTag, Find, IsVarint, IsLength;
    Transfer.TagRoundTrip(tag, wireType, payload);
  }

  lemma UnknownStep(S: Schema, table: Table, run: Run, u: bytes, b: bytes)
    requires |table| == |run.m| && UnknownRecord(table, u)
    ensures DecLoop(S, table, run, u + b) == DecLoop(S, table, run, b)
  {
    hide DecTag, Skip, Find, IsPayload;
    var w := DecTag(u);
    DecTagFrame(u, b);
    SkipsPayload(w.wireType, w.rest, b);
    assert u + b != [] by { TagNonEmpty(u); }
  }

  lemma TagNonEmpty(u: bytes)
    requires DecTag(u).Tag?
    ensures u != []
  {
  }

  /** An unknown record between records changes neither the struct, nor the verdicts on required fields and
      fixed-count arrays, nor where decoding stops; and the place behind it is again between records. */
  lemma UnknownFieldTransparent(S: Schema, t: nat, m: Slots, s1: bytes, u: bytes, s2: bytes)
    requires t < |S| && |m| == |S[t]| && UnknownRecord(S[t], u)
    requires Whole(S, S[t], Start(m), s1)
    ensures DecMessage(S, t, m, s1 + u + s2) == DecMessage(S, t, m, s1 + s2)
    ensures Whole(S, S[t], Start(m), s1 + u)
  {
    hide DecLoop, UnknownRecord;
    var run1 := DecLoop(S, S[t], Start(m), s1).run;
    LoopConcat(S, S[t], Start(m), s1, u + s2);
    LoopConcat(S, S[t], Start(m), s1, s2);
    LoopConcat(S, S[t], Start(m), s1, u);
    UnknownStep(S, S[t], run1, u, s2);
    UnknownStep(S, S[t], run1, u, []);
    assert u + [] == u;
    assert s1 + u + s2 == s1 + (u + s2);
    assert DecLoop(S, S[t], run1, []) == End(run1, [], false) by { Transfer.EmptyLoop(S, S[t], run1); }
  }
}
