/** Packed arrays and single records, in any mixture, give the same array. */
module Packing {
  import opened Bits
  import opened Varint
  import opened Integers
  import opened Descriptor
  import opened Message
  import opened EncodeSpec
  import opened DecodeSpec
  import Transfer

  /** One record of the field: a single element, or any number of elements packed. Elements are given by their bytes. */
  datatype Chunk = Lone(e: bytes) | Packed(es: seq<bytes>)

  /** The bytes read as one element, with nothing left over. They need not be what the encoder would write. */
  predicate Element(f: Field, e: bytes) {
    DecScalar(f, e).Ok? && DecScalar(f, e).rest == []
  }

  function Flat(es: seq<bytes>): bytes {
    if es == [] then [] else es[0] + Flat(es[1..])
  }

  ghost predicate ChunkOk(f: Field, c: Chunk) {
    match c
    case Lone(e) => Element(f, e)
    case Packed(es) => |Flat(es)| < U32 && forall k :: 0 <= k < |es| ==> Element(f, es[k])
  }

  function Elements(c: Chunk): seq<bytes> {
    match c
    case Lone(e) => [e]
    case Packed(es) => es
  }

  function AllElements(cs: seq<Chunk>): seq<bytes> {
    if cs == [] then [] else Elements(cs[0]) + AllElements(cs[1..])
  }

  function ChunkBytes(f: Field, c: Chunk): bytes
    requires Packable(f.ltype)
  {
    match c
    case Lone(e) => EncTag(f.tag, WireType(f.ltype).value) + e
    case Packed(es) => EncTag(f.tag, 2) + (EncVarint(|Flat(es)|) + Flat(es))
  }

  function AllBytes(f: Field, cs: seq<Chunk>): bytes
    requires Packable(f.ltype)
  {
    if cs == [] then [] else ChunkBytes(f, cs[0]) + AllBytes(f, cs[1..])
  }

  function ValuesOf(f: Field, es: seq<bytes>): (vs: seq<Value>)
    requires forall k :: 0 <= k < |es| ==> Element(f, es[k])
    ensures |vs| == |es|
  {
    seq(|es|, k requires 0 <= k < |es| && Element(f, es[k]) => Scalar(DecScalar(f, es[k]).value))
  }

  /** The values written over the items from index n on. For a counted array n is its count, so they are appended; for
      an array without count they replace what is there. */
  function Overlaid(items: seq<Value>, n: nat, vs: seq<Value>): seq<Value>
    requires n <= |items|
  {
    items[..n] + vs + if n + |vs| < |items| then items[n + |vs|..] else []
  }

  lemma OverlaidFirst(items: seq<Value>, n: nat, v: Value, vs: seq<Value>)
    requires n <= |items|
    ensures Overlaid(Put(items, n, v), n + 1, vs) == Overlaid(items, n, [v] + vs)
  {
  }

  lemma OverlaidTwice(items: seq<Value>, n: nat, vs: seq<Value>, ws: seq<Value>)
    requires n <= |items|
    ensures n + |vs| <= |Overlaid(items, n, vs)|
    ensures Overlaid(Overlaid(items, n, vs), n + |vs|, ws) == Overlaid(items, n, vs + ws)
  {
    var first := Overlaid(items, n, vs);
    assert first[..n + |vs|] == items[..n] + vs;
    if n + |vs| + |ws| < |items| {
      assert first[n + |vs| + |ws|..] == items[n + |vs| + |ws|..];
    }
    assert items[..n] + vs + ws == items[..n] + (vs + ws);
  }

  lemma {:induction false} PackedElements(f: Field, items: seq<Value>, n: nat, es: seq<bytes>)
    requires n <= |items| && forall k :: 0 <= k < |es| ==> Element(f, es[k])
    ensures DecPacked(f, items, n, Flat(es)) ==
            if es == [] || n + |es| <= Capacity(f) then Some((Overlaid(items, n, ValuesOf(f, es)), n + |es|)) else None
    decreases |es|
  {
    hide DecScalar, Overlaid;
    assert es != [] ==> Element(f, es[0]);
    if es == [] {
      assert Overlaid(items, n, []) == items by { OverlaidNothing(items, n); }
    } else {
      var v := Scalar(DecScalar(f, es[0]).value);
      FirstElement(f, es);
      hide Element, Flat;
      PackedElements(f, Put(items, n, v), n + 1, es[1..]);
      OverlaidFirst(items, n, v, ValuesOf(f, es[1..]));
      assert [v] + ValuesOf(f, es[1..]) == ValuesOf(f, es);
    }
  }

  lemma FirstElement(f: Field, es: seq<bytes>)
    requires es != [] && Element(f, es[0])
    ensures Flat(es) != [] && DecScalar(f, es[0]).Ok?
    ensures DecScalar(f, Flat(es)) == Ok(DecScalar(f, es[0]).value, Flat(es[1..]))
  {
    hide DecScalar;
    DecScalarFrame(f, es[0], Flat(es[1..]));
    assert [] + Flat(es[1..]) == Flat(es[1..]);
    assert |DecScalar(f, es[0]).rest| < |es[0]|;
  }

  lemma OverlaidNothing(items: seq<Value>, n: nat)
    requires n <= |items|
    ensures Overlaid(items, n, []) == items
  {
  }

  /** The array can take elements: it is counted, or without count with the decoder's counter inside it. */
  predicate Fillable(table: Table, run: Run, i: nat) {
    && i < |table| == |run.m| && table[i].htype.Repeated? && run.m[i].Many? && Ready(table, run, i)
    && CountOf(table, run, i) <= |run.m[i].items| <= Capacity(table[i])
  }

  /** The state when the elements of one record have been collected. */
  function Collected(table: Table, run: Run, i: nat, vs: seq<Value>): (run': Run)
    requires Fillable(table, run, i)
    ensures |run'.m| == |table|
  {
    var n := CountOf(table, run, i);
    SetItems(table, run, i, Overlaid(run.m[i].items, n, vs), n + |vs|)
  }

  lemma ChunkStep(S: Schema, t: nat, run: Run, i: nat, c: Chunk, tail: bytes)
    requires SchemaOk(S) && t < |S| && Fillable(S[t], run, i)
    requires Packable(S[t][i].ltype) && ChunkOk(S[t][i], c)
    ensures forall k :: 0 <= k < |Elements(c)| ==> Element(S[t][i], Elements(c)[k])
    ensures var f := S[t][i];
            DecLoop(S, S[t], run, ChunkBytes(f, c) + tail) ==
            if CountOf(S[t], run, i) + |Elements(c)| <= Capacity(f) then
              DecLoop(S, S[t], Collected(S[t], run, i, ValuesOf(f, Elements(c))), tail)
            else Bad
  {
    hide DecLoop, DecScalar, EncTag, DecPacked, DecPrefixed, Overlaid;
    var f := S[t][i];
    var items, n := run.m[i].items, CountOf(S[t], run, i);
    match c
    case Lone(e) =>
      var w := WireType(f.ltype).value;
      Transfer.RecordStep(S, t, run, i, w, e + tail);
      assert EncTag(f.tag, w) + e + tail == EncTag(f.tag, w) + (e + tail);
      LoneElement(S, f, items, n, w, e, tail);
    case Packed(es) =>
      var body := Flat(es);
      PackedElements(f, items, n, es);
      Transfer.PrefixedRoundTrip(body, tail);
      Transfer.RecordStep(S, t, run, i, 2, EncVarint(|body|) + body + tail);
      assert EncTag(f.tag, 2) + (EncVarint(|body|) + body) + tail == EncTag(f.tag, 2) + (EncVarint(|body|) + body + tail);
  }

  lemma LoneElement(S: Schema, f: Field, items: seq<Value>, n: nat, w: nat, e: bytes, tail: bytes)
    requires Packable(f.ltype) && w != 2 && Element(f, e) && n <= |items|
    ensures DecRepeated(S, f, items, n, w, e + tail) ==
            if n < Capacity(f) then Ok((Overlaid(items, n, ValuesOf(f, [e])), n + 1), tail) else Fail
  {
    hide DecScalar, Overlaid;
    DecScalarFrame(f, e, tail);
    assert [] + tail == tail;
    var v := Scalar(DecScalar(f, e).value);
    assert ValuesOf(f, [e]) == [v] + [];
    OverlaidFirst(items, n, v, []);
    OverlaidNothing(Put(items, n, v), n + 1);
    assert DecItem(S, f, Fresh(S, f), e + tail) == Ok(v, tail);
  }

  /** Any split of the elements into records gives the elements in order from the count on, and is accepted exactly when
      there is room for all of them. Nothing is ever stored outside the array. */
  lemma {:induction false} MixedRecords(S: Schema, t: nat, run: Run, i: nat, cs: seq<Chunk>, tail: bytes)
    requires SchemaOk(S) && t < |S| && Fillable(S[t], run, i)
    requires Packable(S[t][i].ltype) && cs != [] && forall k :: 0 <= k < |cs| ==> ChunkOk(S[t][i], cs[k])
    ensures forall k :: 0 <= k < |AllElements(cs)| ==> Element(S[t][i], AllElements(cs)[k])
    ensures var f := S[t][i];
            DecLoop(S, S[t], run, AllBytes(f, cs) + tail) ==
            if CountOf(S[t], run, i) + |AllElements(cs)| <= Capacity(f) then
              DecLoop(S, S[t], Collected(S[t], run, i, ValuesOf(f, AllElements(cs))), tail)
            else Bad
    decreases |cs|
  {
    assert i < |S[t]| == |run.m| && run.m[i].Many?;
    hide DecLoop, Element, ChunkBytes, ChunkOk, Elements, Collected, Fillable, CountOf;
    var f := S[t][i];
    var es := Elements(cs[0]);
    var rest := AllBytes(f, cs[1..]);
    ChunkStep(S, t, run, i, cs[0], rest + tail);
    assert ChunkBytes(f, cs[0]) + rest + tail == ChunkBytes(f, cs[0]) + (rest + tail);
    RestElements(f, cs[1..]);
    var more := AllElements(cs[1..]);
    assert AllElements(cs) == es + more;
    assert AllBytes(f, cs) + tail == ChunkBytes(f, cs[0]) + (rest + tail);
    if cs[1..] == [] {
      assert rest + tail == tail && es + more == es;
    } else if CountOf(S[t], run, i) + |es| <= Capacity(f) {
      hide AllElements, AllBytes, ValuesOf;
      CollectTwice(S[t], run, i, ValuesOf(f, es), ValuesOf(f, more));
      MixedRecords(S, t, Collected(S[t], run, i, ValuesOf(f, es)), i, cs[1..], tail);
      ValuesConcat(f, es, more);
    }
  }

  lemma ValuesConcat(f: Field, es: seq<bytes>, more: seq<bytes>)
    requires forall k :: 0 <= k < |es| ==> Element(f, es[k])
    requires forall k :: 0 <= k < |more| ==> Element(f, more[k])
    ensures ValuesOf(f, es + more) == ValuesOf(f, es) + ValuesOf(f, more)
  {
    hide Element, DecScalar;
  }

  lemma CollectTwice(table: Table, run: Run, i: nat, vs: seq<Value>, ws: seq<Value>)
    requires Fillable(table, run, i) && CountOf(table, run, i) + |vs| <= Capacity(table[i])
    ensures var run' := Collected(table, run, i, vs);
            && Fillable(table, run', i) && CountOf(table, run', i) == CountOf(table, run, i) + |vs|
            && Collected(table, run', i, ws) == Collected(table, run, i, vs + ws)
  {
    var items, n := run.m[i].items, CountOf(table, run, i);
    OverlaidTwice(items, n, vs, ws);
    var mid := Overlaid(items, n, vs);
    var end := Overlaid(items, n, vs + ws);
    assert run.m[i := Many(mid)][i := Many(end)] == run.m[i := Many(end)];
  }

  lemma {:induction false} RestElements(f: Field, cs: seq<Chunk>)
    requires forall k :: 0 <= k < |cs| ==> ChunkOk(f, cs[k])
    ensures forall k :: 0 <= k < |AllElements(cs)| ==> Element(f, AllElements(cs)[k])
    decreases |cs|
  {
    if cs != [] {
      assert ChunkOk(f, cs[0]);
      RestElements(f, cs[1..]);
    }
  }
}
