/** What decoding makes of a byte string, as a function on structs. */
module DecodeSpec {
  import opened Bits
  import opened Varint
  import opened Integers
  import opened Descriptor
  import opened Message

  // ---- records ----

  datatype TagWord = Terminator(rest: bytes) | Tag(tag: nat, wireType: nat, rest: bytes) | NoTag

  /** The tag word in front of a record; a zero word ends the message. */
  function DecTag(b: bytes): (w: TagWord)
    ensures w.Tag? || w.Terminator? ==> |w.rest| < |b|
  {
    match DecVarint32(b)
    case Fail => NoTag
    case Ok(v, rest) => if v == 0 then Terminator(rest) else Tag(v / 8, v % 8, rest)
  }

  /** A length and that many bytes. */
  function DecPrefixed(b: bytes): (p: Parsed<bytes>)
    ensures p.Ok? ==> |p.value| + |p.rest| < |b|
  {
    match DecVarint32(b)
    case Fail => Fail
    case Ok(size, rest) => if size <= |rest| then Ok(rest[..size], rest[size..]) else Fail
  }

  /** The payload of an unknown record is passed over by its wire type alone. */
  function Skip(wireType: nat, b: bytes): (rest: Option<bytes>)
    ensures rest.Some? ==> |rest.value| <= |b|
  {
    if wireType == 0 then (if VarintLen(b) > 0 then Some(b[VarintLen(b)..]) else None)
    else if wireType == 1 then (if |b| >= 8 then Some(b[8..]) else None)
    else if wireType == 2 then (match DecPrefixed(b) case Ok(_, rest) => Some(rest) case Fail => None)
    else if wireType == 5 then (if |b| >= 4 then Some(b[4..]) else None)
    else None
  }

  // ---- items ----

  function DecBlob(f: Field, b: bytes): (p: Parsed<bytes>)
    ensures p.Ok? ==> |p.rest| < |b|
  {
    match DecVarint32(b)
    case Fail => Fail
    case Ok(size, rest) =>
      if !BlobFits(f, size) then Fail
      else if f.ltype.FixedLengthBytes? && size == 0 then Ok(Zeros(f.dataSize), rest)
      else if size <= |rest| then Ok(rest[..size], rest[size..])
      else Fail
  }

  /** Whether the decoder has room for `size` bytes. */
  predicate BlobFits(f: Field, size: nat) {
    match f.ltype
    case Bytes => size <= PB_SIZE_MAX && (f.atype.Static? ==> size + BYTES_OFFSET <= f.dataSize)
    case String => size < U32 - 1 && (f.atype.Static? ==> size + 1 <= f.dataSize)
    case FixedLengthBytes => size <= PB_SIZE_MAX && (size == 0 || size == f.dataSize)
    case _ => false
  }

  /** The elements of a packed array, stored one after the other from index n on. */
  function DecPacked(f: Field, items: seq<Value>, n: nat, b: bytes): (p: Option<(seq<Value>, nat)>)
    decreases |b|
  {
    if b == [] then Some((items, n))
    else if n >= Capacity(f) then None
    else
      match DecScalar(f, b)
      case Fail => None
      case Ok(x, rest) => DecPacked(f, Put(items, n, Scalar(x)), n + 1, rest)
  }

  /** The state of decoding one struct: the struct, the required fields that occurred, and the fixed-count array that
      is being filled with the number of its elements so far. */
  datatype Run = Run(m: Slots, seen: set<nat>, fixedField: Option<nat>, fixedCount: nat)

  datatype Outcome = End(run: Run, rest: bytes, stopped: bool) | Bad

  function Start(m: Slots): Run {
    Run(m, {}, None, 0)
  }

  /** The number of required fields the decoder keeps track of. */
  const MAX_REQUIRED: nat := 64

  predicate FixedComplete(table: Table, run: Run) {
    run.fixedField.Some? ==> run.fixedField.value < |table| && run.fixedCount == table[run.fixedField.value].arraySize
  }

  /** Every required field that is kept track of occurred. */
  predicate RequiredSeen(table: Table, seen: set<nat>) {
    forall i :: 0 <= i < |table| && table[i].htype.Required? && RequiredBefore(table, i) < MAX_REQUIRED ==> i in seen
  }

  function SetItem(table: Table, run: Run, i: nat, v: Value): (run': Run)
    requires i < |table| == |run.m|
    ensures |run'.m| == |table|
  {
    run.(m := StoreOne(table, run.m, i, v), seen := if table[i].htype.Required? then run.seen + {i} else run.seen)
  }

  /** A fixed-count array can be started only when the previous one is full. */
  predicate Ready(table: Table, run: Run, i: nat)
    requires i < |table|
  {
    FixedCount(table[i]) ==> run.fixedField == Some(i) || FixedComplete(table, run)
  }

  /** The number of items stored so far in the array of field i. */
  function CountOf(table: Table, run: Run, i: nat): nat
    requires i < |table| == |run.m| && run.m[i].Many?
  {
    if !FixedCount(table[i]) then |run.m[i].items|
    else if run.fixedField == Some(i) then run.fixedCount
    else 0
  }

  function SetItems(table: Table, run: Run, i: nat, items: seq<Value>, n: nat): (run': Run)
    requires i < |table| == |run.m|
    ensures |run'.m| == |table|
  {
    var run' := run.(m := run.m[i := Many(items)]);
    if FixedCount(table[i]) then run'.(fixedField := Some(i), fixedCount := n) else run'
  }

  // ---- the decoder ----

  function DecItem(S: Schema, f: Field, start: Slots, b: bytes): (p: Parsed<Value>)
    ensures p.Ok? ==> |p.rest| < |b|
    decreases |b|, 0
  {
    if Packable(f.ltype) then
      (match DecScalar(f, b) case Ok(n, rest) => Ok(Scalar(n), rest) case Fail => Fail)
    else if f.ltype.Submessage? then
      match DecPrefixed(b)
      case Fail => Fail
      case Ok(payload, rest) =>
        if f.ptr.Table? && f.ptr.id < |S| then
          (match DecMessage(S, f.ptr.id, start, payload) case Ok(m, _) => Ok(Sub(m), rest) case Fail => Fail)
        else Fail
    else
      (match DecBlob(f, b) case Ok(data, rest) => Ok(Blob(data), rest) case Fail => Fail)
  }

  /** One record of a repeated field: a packed array, or a single item. */
  function DecRepeated(S: Schema, f: Field, items: seq<Value>, n: nat, wireType: nat, b: bytes)
    : (p: Parsed<(seq<Value>, nat)>)
    ensures p.Ok? ==> |p.rest| < |b|
    decreases |b|, 1
  {
    if wireType == 2 && Packable(f.ltype) then
      match DecPrefixed(b)
      case Fail => Fail
      case Ok(payload, rest) =>
        (match DecPacked(f, items, n, payload) case Some(r) => Ok(r, rest) case None => Fail)
    else if n >= Capacity(f) then Fail
    else
      match DecItem(S, f, Fresh(S, f), b)
      case Fail => Fail
      case Ok(v, rest) => Ok((Put(items, n, v), n + 1), rest)
  }

  function DecField(S: Schema, table: Table, run: Run, i: nat, wireType: nat, b: bytes): (p: Parsed<Run>)
    requires i < |table| == |run.m|
    ensures p.Ok? ==> |p.rest| < |b| && |p.value.m| == |table|
    decreases |b|, 2
  {
    var f := table[i];
    match run.m[i]
    case One(_, _) =>
      if f.htype.Repeated? then Fail
      else
        (match DecItem(S, f, StartOf(S, f, run.m[i]), b)
         case Fail => Fail
         case Ok(v, rest) => Ok(SetItem(table, run, i, v), rest))
    case Many(items) =>
      if !f.htype.Repeated? || !Ready(table, run, i) then Fail
      else
        (match DecRepeated(S, f, items, CountOf(table, run, i), wireType, b)
         case Fail => Fail
         case Ok(r, rest) => Ok(SetItems(table, run, i, r.0, r.1), rest))
  }

  /** One record behind its tag word. In a table without fields the lookup of tag 0 finds the terminator entry, which
      reads as a boolean field outside the struct. */
  function DecRecord(S: Schema, table: Table, run: Run, tag: nat, wireType: nat, b: bytes): (p: Parsed<Run>)
    requires |table| == |run.m|
    ensures p.Ok? ==> |p.rest| <= |b| && |p.value.m| == |table|
    decreases |b|, 3
  {
    match Find(table, tag)
    case Some(i) => DecField(S, table, run, i, wireType, b)
    case None =>
      if |table| == 0 && tag == 0 then
        (match DecVarint32(b) case Ok(_, rest) => Ok(run, rest) case Fail => Fail)
      else
        (match Skip(wireType, b) case Some(rest) => Ok(run, rest) case None => Fail)
  }

  function DecLoop(S: Schema, table: Table, run: Run, b: bytes): (o: Outcome)
    requires |table| == |run.m|
    ensures o.End? ==> |o.rest| <= |b| && |o.run.m| == |table|
    decreases |b|, 4
  {
    if b == [] then End(run, [], false)
    else
      match DecTag(b)
      case NoTag => Bad
      case Terminator(rest) => End(run, rest, true)
      case Tag(tag, wireType, rest) =>
        match DecRecord(S, table, run, tag, wireType, rest)
        case Fail => Bad
        case Ok(run', rest') => DecLoop(S, table, run', rest')
  }

  /** Decoding into a struct that is already initialised. */
  function DecMessage(S: Schema, t: nat, m: Slots, b: bytes): (p: Parsed<Slots>)
    requires t < |S|
    ensures p.Ok? ==> |p.rest| <= |b|
    decreases |b|, 5
  {
    if |m| != |S[t]| then Fail
    else
      match DecLoop(S, S[t], Start(m), b)
      case Bad => Fail
      case End(run, rest, _) =>
        if FixedComplete(S[t], run) && RequiredSeen(S[t], run.seen) then Ok(run.m, rest) else Fail
  }

  /** Decoding into a fresh struct. */
  function DecFresh(S: Schema, t: nat, b: bytes): (p: Parsed<Slots>)
    requires t < |S|
  {
    DecMessage(S, t, Defaults(S, t), b)
  }
}
