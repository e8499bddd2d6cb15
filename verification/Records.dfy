/** Which records a successful decoding has met: required fields, and the runs of fixed-count arrays. */
module Records {
  import opened Bits
  import opened Varint
  import opened Integers
  import opened Descriptor
  import opened Message
  import opened DecodeSpec

  // ---- the records on the wire ----

  /** A record that belongs to a field, with the number of items it carries. */
  datatype Hit = Hit(field: nat, count: nat)

  /** The number of scalars in the payload of a packed array. */
  function ScalarsIn(f: Field, b: bytes): nat
    decreases |b|
  {
    match DecScalar(f, b)
    case Ok(_, rest) => 1 + ScalarsIn(f, rest)
    case Fail => 0
  }

  /** The number of items a record carries: one, unless it is a packed array. */
  function ItemsIn(f: Field, wireType: nat, b: bytes): nat {
    if f.htype.Repeated? && wireType == 2 && Packable(f.ltype) then
      (match DecPrefixed(b) case Ok(payload, _) => ScalarsIn(f, payload) case Fail => 0)
    else 1
  }

  function HitOf(table: Table, tag: nat, wireType: nat, b: bytes): seq<Hit> {
    match Find(table, tag)
    case Some(i) => [Hit(i, ItemsIn(table[i], wireType, b))]
    case None => []
  }

  /** The records that are met while b is decoded, in order, as far as they belong to fields of the table. */
  function Trace(S: Schema, table: Table, run: Run, b: bytes): seq<Hit>
    requires |table| == |run.m|
    decreases |b|
  {
    if b == [] then []
    else
      match DecTag(b)
      case Tag(tag, w, rest) =>
        (match DecRecord(S, table, run, tag, w, rest)
         case Ok(run', rest') => HitOf(table, tag, w, rest) + Trace(S, table, run', rest')
         case Fail => [])
      case _ => []
  }

  lemma {:induction false} TraceFields(S: Schema, table: Table, run: Run, b: bytes)
    requires |table| == |run.m|
    ensures forall k :: 0 <= k < |Trace(S, table, run, b)| ==> Trace(S, table, run, b)[k].field < |table|
    decreases |b|
  {
    hide DecRecord, DecTag, ItemsIn;
    if b != [] && DecTag(b).Tag? {
      var w := DecTag(b);
      var p := DecRecord(S, table, run, w.tag, w.wireType, w.rest);
      if p.Ok? {
        TraceFields(S, table, p.value, p.rest);
      }
    }
  }

  // ---- required fields ----

  predicate Occurs(hits: seq<Hit>, i: nat) {
    exists k :: 0 <= k < |hits| && hits[k].field == i
  }

  lemma OccursAppend(hits: seq<Hit>, more: seq<Hit>, i: nat)
    ensures Occurs(hits + more, i) <==> Occurs(hits, i) || Occurs(more, i)
  {
    if Occurs(hits, i) {
      var k :| 0 <= k < |hits| && hits[k].field == i;
      assert (hits + more)[k].field == i;
    }
    if Occurs(more, i) {
      var k :| 0 <= k < |more| && more[k].field == i;
      assert (hits + more)[|hits| + k].field == i;
    }
  }

  lemma RecordSeen(S: Schema, table: Table, run: Run, tag: nat, w: nat, b: bytes, i: nat)
    requires |table| == |run.m| && i < |table| && table[i].htype.Required?
    requires DecRecord(S, table, run, tag, w, b).Ok?
    ensures i in DecRecord(S, table, run, tag, w, b).value.seen <==> i in run.seen || Occurs(HitOf(table, tag, w, b), i)
  {
    hide DecItem, DecRepeated, Skip, Find, DecVarint32, ItemsIn;
    if Find(table, tag) == Some(i) {
      assert HitOf(table, tag, w, b)[0].field == i;
    }
  }

  /** The decoder's set of seen fields is the set of required fields that occurred. */
  lemma {:induction false} SeenOccurs(S: Schema, table: Table, run: Run, b: bytes, i: nat)
    requires |table| == |run.m| && i < |table| && table[i].htype.Required?
    requires DecLoop(S, table, run, b).End?
    ensures i in DecLoop(S, table, run, b).run.seen <==> i in run.seen || Occurs(Trace(S, table, run, b), i)
    decreases |b|
  {
    hide DecRecord, DecTag, HitOf, Occurs;
    if b != [] && DecTag(b).Tag? {
      var w := DecTag(b);
      var p := DecRecord(S, table, run, w.tag, w.wireType, w.rest);
      RecordSeen(S, table, run, w.tag, w.wireType, w.rest, i);
      SeenOccurs(S, table, p.value, p.rest, i);
      OccursAppend(HitOf(table, w.tag, w.wireType, w.rest), Trace(S, table, p.value, p.rest), i);
    } else {
      assert !Occurs([], i) by { NothingOccurs(i); }
    }
  }

  lemma NothingOccurs(i: nat)
    ensures !Occurs([], i)
  {
  }

  function RequiredAhead(table: Table, i: nat): set<nat>
    requires i <= |table|
  {
    set k: nat | k < i && table[k].htype.Required?
  }

  lemma {:induction false} RequiredCounted(table: Table, i: nat)
    requires i <= |table|
    ensures RequiredBefore(table, i) == |RequiredAhead(table, i)|
  {
    if i > 0 {
      RequiredCounted(table, i - 1);
      var more := if table[i - 1].htype.Required? then {i - 1} else {};
      assert RequiredAhead(table, i) == RequiredAhead(table, i - 1) + more;
    }
  }

  /** When all records decode, decoding succeeds exactly when the last fixed-count array is full and each of the
      first 64 required fields occurred. */
  lemma RequiredExact(S: Schema, t: nat, m: Slots, b: bytes)
    requires t < |S| && |m| == |S[t]| && DecLoop(S, S[t], Start(m), b).End?
    ensures var hits := Trace(S, S[t], Start(m), b);
            DecMessage(S, t, m, b).Ok? <==>
            FixedComplete(S[t], DecLoop(S, S[t], Start(m), b).run) &&
            forall i :: 0 <= i < |S[t]| && S[t][i].htype.Required? && |RequiredAhead(S[t], i)| < 64 ==> Occurs(hits, i)
  {
    hide DecLoop, Trace, Occurs, FixedComplete, RequiredBefore, RequiredAhead;
    var hits := Trace(S, S[t], Start(m), b);
    var seen := DecLoop(S, S[t], Start(m), b).run.seen;
    forall i | 0 <= i < |S[t]| && S[t][i].htype.Required?
      ensures i in seen <==> Occurs(hits, i)
    {
      SeenOccurs(S, S[t], Start(m), b, i);
    }
    forall i: nat | i < |S[t]|
      ensures RequiredBefore(S[t], i) == |RequiredAhead(S[t], i)|
    {
      RequiredCounted(S[t], i);
    }
  }

  // ---- fixed-count arrays ----

  /** The records of fixed-count arrays. */
  function FixedHits(table: Table, hits: seq<Hit>): seq<Hit> {
    if hits == [] then []
    else (if hits[0].field < |table| && FixedCount(table[hits[0].field]) then [hits[0]] else [])
         + FixedHits(table, hits[1..])
  }

  function Total(hits: seq<Hit>): nat {
    if hits == [] then 0 else Total(hits[..|hits| - 1]) + hits[|hits| - 1].count
  }

  /** hits[a..b] are records of one array, and the neighbours on both sides are not. */
  predicate MaximalRun(hits: seq<Hit>, a: int, b: int) {
    && 0 <= a < b <= |hits|
    && (forall k :: a <= k < b ==> hits[k].field == hits[a].field)
    && (a > 0 ==> hits[a - 1].field != hits[a].field)
    && (b < |hits| ==> hits[b].field != hits[a].field)
  }

  /** The number of items in the last run. */
  function LastTotal(hits: seq<Hit>): nat {
    if hits == [] then 0
    else
      var n := |hits| - 1;
      (if n > 0 && hits[n - 1].field == hits[n].field then LastTotal(hits[..n]) else 0) + hits[n].count
  }

  lemma {:induction false} LastRunTotal(hits: seq<Hit>, a: nat)
    requires MaximalRun(hits, a, |hits|)
    ensures Total(hits[a..]) == LastTotal(hits)
    decreases |hits|
  {
    var n := |hits| - 1;
    assert hits[a..][..|hits[a..]| - 1] == hits[..n][a..];
    if a < n {
      LastRunTotal(hits[..n], a);
    } else {
      assert hits[..n][a..] == [];
    }
  }

  /** The decoder's two variables describe the last run, and the runs before it are complete. */
  ghost predicate Tracks(table: Table, run: Run, hits: seq<Hit>) {
    && (forall k :: 0 <= k < |hits| ==> hits[k].field < |table|)
    && (hits == [] ==> run.fixedField.None?)
    && (hits != [] ==> run.fixedField == Some(hits[|hits| - 1].field) && run.fixedCount == LastTotal(hits))
    && (forall a, b :: MaximalRun(hits, a, b) && b < |hits| ==> Total(hits[a..b]) == table[hits[a].field].arraySize)
  }

  lemma TracksAppend(table: Table, run: Run, hits: seq<Hit>, h: Hit, run': Run)
    requires Tracks(table, run, hits) && h.field < |table|
    requires run.fixedField == Some(h.field) || FixedComplete(table, run)
    requires run'.fixedField == Some(h.field)
    requires run'.fixedCount == (if run.fixedField == Some(h.field) then run.fixedCount else 0) + h.count
    ensures Tracks(table, run', hits + [h])
  {
    hide Total;
    var more := hits + [h];
    assert more[..|hits|] == hits;
    forall a, b | MaximalRun(more, a, b) && b < |more|
      ensures Total(more[a..b]) == table[more[a].field].arraySize
    {
      assert more[a..b] == hits[a..b];
      assert hits[a] == more[a];
      assert MaximalRun(hits, a, b);
      if b == |hits| {
        LastRunTotal(hits, a);
        assert hits[a..b] == hits[a..];
        assert more[b] == h;
        assert hits[|hits| - 1].field == hits[a].field;
      }
    }
  }

  lemma {:induction false} PackedCount(f: Field, items: seq<Value>, n: nat, b: bytes)
    requires DecPacked(f, items, n, b).Some?
    ensures DecPacked(f, items, n, b).value.1 == n + ScalarsIn(f, b)
    decreases |b|
  {
    if b == [] {
      assert DecScalar(f, b).Fail?;
    } else {
      var p := DecScalar(f, b);
      PackedCount(f, Put(items, n, Scalar(p.value)), n + 1, p.rest);
    }
  }

  lemma RepeatedCount(S: Schema, f: Field, items: seq<Value>, n: nat, w: nat, b: bytes)
    requires f.htype.Repeated? && DecRepeated(S, f, items, n, w, b).Ok?
    ensures DecRepeated(S, f, items, n, w, b).value.1 == n + ItemsIn(f, w, b)
  {
    hide DecItem, DecPrefixed, ScalarsIn, DecPacked;
    if w == 2 && Packable(f.ltype) {
      PackedCount(f, items, n, DecPrefixed(b).value);
    }
  }

  lemma RecordTracks(S: Schema, table: Table, run: Run, tag: nat, w: nat, b: bytes, hits: seq<Hit>)
    requires |table| == |run.m| && DecRecord(S, table, run, tag, w, b).Ok? && Tracks(table, run, hits)
    ensures var run' := DecRecord(S, table, run, tag, w, b).value;
            Tracks(table, run', hits + FixedHits(table, HitOf(table, tag, w, b)))
  {
    hide DecItem, DecRepeated, Skip, Find, DecVarint32, ItemsIn;
    var run' := DecRecord(S, table, run, tag, w, b).value;
    if Find(table, tag).Some? {
      var i := Find(table, tag).value;
      var h := Hit(i, ItemsIn(table[i], w, b));
      if FixedCount(table[i]) {
        RepeatedCount(S, table[i], run.m[i].items, CountOf(table, run, i), w, b);
        assert FixedHits(table, [h]) == [h];
        TracksAppend(table, run, hits, h, run');
      } else {
        assert FixedHits(table, [h]) == [];
        TracksSame(table, run, run', hits);
      }
    } else {
      TracksSame(table, run, run', hits);
    }
  }

  lemma TracksNothing(table: Table, m: Slots)
    ensures Tracks(table, Start(m), [])
  {
  }

  lemma TracksSame(table: Table, run: Run, run': Run, hits: seq<Hit>)
    requires Tracks(table, run, hits) && run'.fixedField == run.fixedField && run'.fixedCount == run.fixedCount
    ensures Tracks(table, run', hits + [])
  {
    assert hits + [] == hits;
  }

  lemma {:induction false} FixedHitsAppend(table: Table, a: seq<Hit>, b: seq<Hit>)
    ensures FixedHits(table, a + b) == FixedHits(table, a) + FixedHits(table, b)
    decreases |a|
  {
    if a == [] {
      assert a + b == b;
    } else {
      assert (a + b)[1..] == a[1..] + b;
      FixedHitsAppend(table, a[1..], b);
    }
  }

  lemma {:induction false} LoopTracks(S: Schema, table: Table, run: Run, b: bytes, hits: seq<Hit>)
    requires |table| == |run.m| && Tracks(table, run, hits) && DecLoop(S, table, run, b).End?
    ensures Tracks(table, DecLoop(S, table, run, b).run, hits + FixedHits(table, Trace(S, table, run, b)))
    decreases |b|
  {
    hide DecRecord, DecTag, HitOf, Tracks;
    if b != [] && DecTag(b).Tag? {
      var w := DecTag(b);
      var p := DecRecord(S, table, run, w.tag, w.wireType, w.rest);
      var h, rest := HitOf(table, w.tag, w.wireType, w.rest), Trace(S, table, p.value, p.rest);
      RecordTracks(S, table, run, w.tag, w.wireType, w.rest, hits);
      LoopTracks(S, table, p.value, p.rest, hits + FixedHits(table, h));
      FixedHitsAppend(table, h, rest);
      assert hits + (FixedHits(table, h) + FixedHits(table, rest)) == hits + FixedHits(table, h) + FixedHits(table, rest);
    } else {
      assert hits + [] == hits;
    }
  }

  /** In a successful decoding every maximal run of records of a fixed-count array (records of other kinds of fields
      may stand between them) carries exactly as many items as the array has elements. */
  lemma FixedCountRuns(S: Schema, t: nat, m: Slots, b: bytes)
    requires t < |S| && |m| == |S[t]| && DecMessage(S, t, m, b).Ok?
    ensures var hits := FixedHits(S[t], Trace(S, S[t], Start(m), b));
            forall i, j :: MaximalRun(hits, i, j) ==>
              hits[i].field < |S[t]| && Total(hits[i..j]) == S[t][hits[i].field].arraySize
  {
    hide DecLoop, Trace, FixedHits, Total, LastTotal;
    var hits := FixedHits(S[t], Trace(S, S[t], Start(m), b));
    var run := DecLoop(S, S[t], Start(m), b).run;
    TracksNothing(S[t], m);
    LoopTracks(S, S[t], Start(m), b, []);
    assert [] + hits == hits;
    forall i, j | MaximalRun(hits, i, j)
      ensures hits[i].field < |S[t]| && Total(hits[i..j]) == S[t][hits[i].field].arraySize
    {
      if j == |hits| {
        LastRunTotal(hits, i);
        assert hits[i..j] == hits[i..];
      }
    }
  }
}
