/** Several messages in one byte string, with a length in front of each or a zero byte behind each. */
module Framing {
  import opened Bits
  import opened Varint
  import opened Integers
  import opened Descriptor
  import opened Message
  import opened EncodeSpec
  import opened DecodeSpec
  import opened Merge
  import opened RoundTrip
  import Transfer

  /** A struct together with its message type. */
  datatype Typed = Typed(t: nat, m: Slots)

  ghost predicate Ready(S: Schema, x: Typed) {
    Sendable(S, x.t, x.m) && Exclusive(S, x.t, x.m)
  }

  /** A length prefix has 32 bits. */
  predicate Short(S: Schema, x: Typed) {
    x.t < |S| && EncMessage(S, x.t, x.m).Success? && |EncMessage(S, x.t, x.m).value| < U32
  }

  function EncDelimited(S: Schema, t: nat, m: Slots): Result<bytes>
    requires t < |S|
  {
    Prefixed(EncMessage(S, t, m))
  }

  function EncNullTerminated(S: Schema, t: nat, m: Slots): Result<bytes>
    requires t < |S|
  {
    Cat(EncMessage(S, t, m), Success([0]))
  }

  function DecDelimited(S: Schema, t: nat, b: bytes): Parsed<Slots>
    requires t < |S|
  {
    match DecPrefixed(b)
    case Fail => Fail
    case Ok(payload, rest) => (match DecFresh(S, t, payload) case Ok(m, _) => Ok(m, rest) case Fail => Fail)
  }

  /** All messages with one of the two framings, written one after the other. */
  function EncAll(S: Schema, xs: seq<Typed>, delimited: bool): Result<bytes>
    requires forall k :: 0 <= k < |xs| ==> xs[k].t < |S|
  {
    if xs == [] then Success([])
    else
      Cat(if delimited then EncDelimited(S, xs[0].t, xs[0].m) else EncNullTerminated(S, xs[0].t, xs[0].m),
          EncAll(S, xs[1..], delimited))
  }

  /** Messages of the given types, read one after the other by the matching decoder. */
  function DecAll(S: Schema, ts: seq<nat>, delimited: bool, b: bytes): Parsed<seq<Slots>>
    requires forall k :: 0 <= k < |ts| ==> ts[k] < |S|
  {
    if ts == [] then Ok([], b)
    else
      match if delimited then DecDelimited(S, ts[0], b) else DecFresh(S, ts[0], b)
      case Fail => Fail
      case Ok(m, rest) =>
        match DecAll(S, ts[1..], delimited, rest)
        case Fail => Fail
        case Ok(ms, rest') => Ok([m] + ms, rest')
  }

  function TypesOf(xs: seq<Typed>): (ts: seq<nat>)
    ensures |ts| == |xs| && forall k :: 0 <= k < |xs| ==> ts[k] == xs[k].t
  {
    seq(|xs|, k requires 0 <= k < |xs| => xs[k].t)
  }

  function ReceivedAll(S: Schema, xs: seq<Typed>): (ms: seq<Slots>)
    requires forall k :: 0 <= k < |xs| ==> xs[k].t < |S| && |xs[k].m| == |S[xs[k].t]|
    ensures |ms| == |xs|
  {
    seq(|xs|, k requires 0 <= k < |xs| && xs[k].t < |S| && |xs[k].m| == |S[xs[k].t]| => Received(S, xs[k].t, xs[k].m))
  }

  /** The decoder stops exactly behind the length-prefixed message. */
  lemma DelimitedDecodes(S: Schema, x: Typed, tail: bytes)
    requires SchemaOk(S) && Ready(S, x) && Short(S, x)
    ensures x.t < |S| && |x.m| == |S[x.t]| && EncDelimited(S, x.t, x.m).Success?
    ensures DecDelimited(S, x.t, EncDelimited(S, x.t, x.m).value + tail) == Ok(Received(S, x.t, x.m), tail)
  {
    hide Sendable, Exclusive, EncMessage, DecMessage, MergeMessage, Received, DecPrefixed;
    SendableLength(S, x.t, x.m);
    var p := EncMessage(S, x.t, x.m).value;
    Transfer.PrefixedRoundTrip(p, tail);
    DefaultsShaped(S, x.t);
    Transfer.EncodingDecodes(S, x.t, Defaults(S, x.t), x.m);
    MergeFresh(S, x.t, x.m);
  }

  /** The decoder stops exactly behind the zero byte: no tag word of the message is zero. */
  lemma NullTerminatedDecodes(S: Schema, x: Typed, tail: bytes)
    requires SchemaOk(S) && Ready(S, x)
    ensures x.t < |S| && |x.m| == |S[x.t]| && EncNullTerminated(S, x.t, x.m).Success?
    ensures DecFresh(S, x.t, EncNullTerminated(S, x.t, x.m).value + tail) == Ok(Received(S, x.t, x.m), tail)
  {
    hide Sendable, Exclusive, DecLoop, MergeFrom, Received, Transfer.Absorbed, RequiredSeen, FixedComplete, EncFrom;
    SendableLength(S, x.t, x.m);
    var t, m := x.t, x.m;
    var start := Defaults(S, t);
    DefaultsShaped(S, t);
    Transfer.FromDecodes(S, t, Start(start), m, 0, [0] + tail);
    MergeFresh(S, t, m);
    Transfer.AbsorbedComplete(S, t, start, m);
    var run := Transfer.Absorbed(S, S[t], Start(start), m, 0).value;
    TerminatorStops(S, S[t], run, tail);
    var e := EncMessage(S, t, m).value;
    assert e + [0] + tail == e + ([0] + tail);
  }

  lemma TerminatorStops(S: Schema, table: Table, run: Run, tail: bytes)
    requires |table| == |run.m|
    ensures DecLoop(S, table, run, [0] + tail) == End(run, tail, true)
  {
    var b := [0] + tail;
    assert b[1..] == tail;
    assert DecTag(b) == Terminator(tail);
  }

  /** A sequence of messages is read back as the same sequence, and the decoder ends where the encoder did. */
  lemma {:induction false} FramedRoundTrip(S: Schema, xs: seq<Typed>, delimited: bool, tail: bytes)
    requires SchemaOk(S) && forall k :: 0 <= k < |xs| ==> Ready(S, xs[k]) && (delimited ==> Short(S, xs[k]))
    ensures forall k :: 0 <= k < |xs| ==> xs[k].t < |S| && |xs[k].m| == |S[xs[k].t]|
    ensures EncAll(S, xs, delimited).Success?
    ensures DecAll(S, TypesOf(xs), delimited, EncAll(S, xs, delimited).value + tail) == Ok(ReceivedAll(S, xs), tail)
    decreases |xs|
  {
    hide Ready, Short, EncDelimited, EncNullTerminated, DecDelimited, DecFresh, Received;
    if xs == [] {
      assert [] + tail == tail;
    } else {
      var x := xs[0];
      FramedRoundTrip(S, xs[1..], delimited, tail);
      var es := EncAll(S, xs[1..], delimited).value;
      if delimited {
        DelimitedDecodes(S, x, es + tail);
      } else {
        NullTerminatedDecodes(S, x, es + tail);
      }
      assert TypesOf(xs)[1..] == TypesOf(xs[1..]);
      assert ReceivedAll(S, xs) == [Received(S, x.t, x.m)] + ReceivedAll(S, xs[1..]);
      var e := if delimited then EncDelimited(S, x.t, x.m).value else EncNullTerminated(S, x.t, x.m).value;
      assert EncAll(S, xs, delimited).value + tail == e + (es + tail);
      forall k | 0 <= k < |xs|
        ensures xs[k].t < |S| && |xs[k].m| == |S[xs[k].t]|
      {
        if k > 0 {
          assert xs[k] == xs[1..][k - 1];
        }
      }
    }
  }
}
