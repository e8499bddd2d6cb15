/** Two inputs for one schema, byte by byte: fifteen bytes that lose a block, and fourteen that tear a pointer. Both are
    accepted; what becomes of the memory is followed by the methods of the decoder. */
module LostExample {
  import opened Bits
  import opened Varint
  import opened Integers
  import opened Descriptor
  import opened Message
  import opened EncodeSpec
  import opened DecodeSpec
  import opened Merge
  import opened FieldIterator
  import opened Reuse
  import opened Ownership
  import opened Release
  import opened Backing
  import opened Damage
  import Concat
  import Overwritten
  import Lifecycle
  import Samples

  /** A message with one string behind a pointer. */
  const NAME: Field := Field(1, String, Optional, AType.Pointer, 0, 0, 1, 0, Null)

  /** A fixed-count array of one such message, and a fixed-count array of one number. */
  const PEOPLE: Field := Field(1, Submessage, Repeated, Static, 0, 0, 8, 1, Table(0))
  const CODES: Field := Field(2, Fixed32, Repeated, Static, 0, 0, 4, 1, Null)

  const TYPES: Schema := [[NAME], [PEOPLE, CODES]]

  function Person(c: byte): bytes {
    [0x0A, 3, 0x0A, 1, c]
  }

  function Code(): bytes {
    [0x15, 1, 0, 0, 0]
  }

  /** The struct with one person, whose name has one character. */
  function Named(c: byte): Value {
    Sub([One(true, Blob([c]))])
  }

  lemma TypesOk()
    ensures SchemaOk(TYPES)
  {
    assert TYPES[0] == [NAME] && TYPES[1] == [PEOPLE, CODES];
    assert TableOk(TYPES, 0, [NAME]);
    assert TableOk(TYPES, 1, [PEOPLE, CODES]);
  }

  lemma PersonDecodes(S: Schema, c: byte)
    requires |S| > 0 && S[0] == [NAME]
    ensures DecMessage(S, 0, Defaults(S, 0), [0x0A, 1, c]) == Ok([One(true, Blob([c]))], [])
  {
    var m := Defaults(S, 0);
    assert m == [One(false, Indeterminate)];
    hide Defaults, DecLoop;
    NameLoop(S, Start(m), c);
  }

  lemma NameLoop(S: Schema, run: Run, c: byte)
    requires run.m == [One(false, Indeterminate)]
    ensures DecLoop(S, [NAME], run, [0x0A, 1, c]) == End(run.(m := [One(true, Blob([c]))]), [], false)
  {
    NameBytes(c);
    NameRecord(S, run, c);
    Ends(S, [NAME], run.(m := [One(true, Blob([c]))]));
    hide DecBlob, DecRecord, DecTag;
  }

  lemma NameBytes(c: byte)
    ensures DecTag([0x0A, 1, c]) == Tag(1, 2, [1, c]) && DecBlob(NAME, [1, c]) == Ok([c], [])
  {
    var b := [0x0A, 1, c];
    assert b[1..] == [1, c];
    assert [1, c][1..] == [c] && [c][..1] == [c] && [c][1..] == [];
  }

  lemma NameRecord(S: Schema, run: Run, c: byte)
    requires run.m == [One(false, Indeterminate)] && DecBlob(NAME, [1, c]) == Ok([c], [])
    ensures DecRecord(S, [NAME], run, 1, 2, [1, c]) == Ok(run.(m := [One(true, Blob([c]))]), [])
  {
    hide DecBlob;
    assert FindFrom([NAME], 1, 0) == Some(0);
    assert DecItem(S, NAME, StartOf(S, NAME, run.m[0]), [1, c]) == Ok(Blob([c]), []);
    assert StoreOne([NAME], run.m, 0, Blob([c])) == [One(true, Blob([c]))];
  }

  lemma PersonItem(S: Schema, c: byte, tail: bytes)
    requires |S| > 0 && S[0] == [NAME]
    ensures DecItem(S, PEOPLE, Fresh(S, PEOPLE), [3, 0x0A, 1, c] + tail) == Ok(Named(c), tail)
  {
    hide DecMessage, Defaults;
    var b := [3, 0x0A, 1, c] + tail;
    assert b[1..] == [0x0A, 1, c] + tail;
    assert b[1..][..3] == [0x0A, 1, c] && b[1..][3..] == tail;
    assert DecPrefixed(b) == Ok([0x0A, 1, c], tail);
    PersonDecodes(S, c);
  }

  lemma CodeItem(S: Schema, tail: bytes)
    ensures DecItem(S, CODES, Fresh(S, CODES), [1, 0, 0, 0] + tail) == Ok(Scalar(1), tail)
  {
    var b := [1, 0, 0, 0] + tail;
    assert b[..4] == [1, 0, 0, 0] && b[4..] == tail;
    assert Base256([1, 0, 0, 0]) == 1 by {
      assert [1, 0, 0, 0][1..] == [0, 0, 0] && [0, 0, 0][1..] == [0, 0] && [0, 0][1..] == [0] && [0][1..] == [];
    }
  }

  // ---- arrays of one element without count ----

  /** The array of field i has one element, and can be filled now. */
  predicate CanFill(table: Table, run: Run, i: nat) {
    && i < |table| == |run.m| && FixedCount(table[i]) && table[i].arraySize == 1 && table[i].atype.Static?
    && run.m[i].Many? && |run.m[i].items| == 1 && run.fixedField != Some(i) && FixedComplete(table, run)
  }

  function Filled(run: Run, i: nat, v: Value): Run
    requires i < |run.m|
  {
    Run(run.m[i := Many([v])], run.seen, Some(i), 1)
  }

  /** A record that fills it. */
  lemma FillField(S: Schema, table: Table, run: Run, i: nat, w: nat, b: bytes, v: Value, tail: bytes)
    requires CanFill(table, run, i) && !(w == 2 && Packable(table[i].ltype))
    requires DecItem(S, table[i], Fresh(S, table[i]), b) == Ok(v, tail)
    ensures DecField(S, table, run, i, w, b) == Ok(Filled(run, i, v), tail)
  {
    hide DecItem, FixedComplete, Fresh;
    var items := run.m[i].items;
    assert Put(items, 0, v) == [v];
    assert DecRepeated(S, table[i], items, 0, w, b) == Ok(([v], 1), tail);
  }

  lemma FillRecord(S: Schema, table: Table, run: Run, i: nat, w: nat, b: bytes, rest: bytes, v: Value, tail: bytes)
    requires CanFill(table, run, i) && !(w == 2 && Packable(table[i].ltype))
    requires b != [] && DecTag(b) == Tag(table[i].tag, w, rest) && Find(table, table[i].tag) == Some(i)
    requires DecItem(S, table[i], Fresh(S, table[i]), rest) == Ok(v, tail)
    ensures DecLoop(S, table, run, b) == DecLoop(S, table, Filled(run, i, v), tail)
  {
    hide DecItem, Fresh, CanFill, DecTag, Find, DecField;
    FillField(S, table, run, i, w, rest, v, tail);
  }

  lemma Ends(S: Schema, table: Table, run: Run)
    requires |run.m| == |table|
    ensures DecLoop(S, table, run, []) == End(run, [], false)
  {
  }

  lemma PersonRecord(S: Schema, table: Table, run: Run, c: byte, tail: bytes)
    requires |S| > 0 && S[0] == [NAME] && CanFill(table, run, 0) && table[0] == PEOPLE && Find(table, 1) == Some(0)
    ensures DecLoop(S, table, run, Person(c) + tail) == DecLoop(S, table, Filled(run, 0, Named(c)), tail)
  {
    hide CanFill, Find, DecItem;
    var b, rest := Person(c) + tail, [3, 0x0A, 1, c] + tail;
    assert b[1..] == rest;
    assert DecTag(b) == Tag(1, 2, rest);
    PersonItem(S, c, tail);
    FillRecord(S, table, run, 0, 2, b, rest, Named(c), tail);
  }

  lemma CodeRecord(S: Schema, table: Table, run: Run, tail: bytes)
    requires CanFill(table, run, 1) && table[1] == CODES && Find(table, 2) == Some(1)
    ensures DecLoop(S, table, run, Code() + tail) == DecLoop(S, table, Filled(run, 1, Scalar(1)), tail)
  {
    hide CanFill, Find, DecItem;
    var b, rest := Code() + tail, [1, 0, 0, 0] + tail;
    assert b[1..] == rest;
    assert DecTag(b) == Tag(2, 5, rest);
    CodeItem(S, tail);
    FillRecord(S, table, run, 1, 5, b, rest, Scalar(1), tail);
  }

  // ---- a lost block ----

  const OUTER: Table := [PEOPLE, CODES]

  lemma Tags()
    ensures Find(OUTER, 1) == Some(0) && Find(OUTER, 2) == Some(1)
  {
    assert FindFrom(OUTER, 1, 0) == Some(0) && FindFrom(OUTER, 2, 1) == Some(1);
  }

  /** The states behind the first person, the code, and the second person. */
  function First(x: byte): Run {
    Run([Many([Named(x)]), Many([Indeterminate])], {}, Some(0), 1)
  }

  function Second(x: byte): Run {
    Run([Many([Named(x)]), Many([Scalar(1)])], {}, Some(1), 1)
  }

  function Third(y: byte): Run {
    Run([Many([Named(y)]), Many([Scalar(1)])], {}, Some(0), 1)
  }

  /** What the two first records are decoded to. */
  lemma Halfway(x: byte, tail: bytes)
    ensures Defaults(TYPES, 1) == [Many([Indeterminate]), Many([Indeterminate])]
    ensures DecLoop(TYPES, OUTER, Start(Defaults(TYPES, 1)), Person(x) + Code() + tail) ==
            DecLoop(TYPES, OUTER, Second(x), tail)
  {
    hide DecLoop, DecItem;
    var d := Defaults(TYPES, 1);
    assert TYPES[0] == [NAME] && TYPES[1] == OUTER;
    assert seq(1, _ => Indeterminate) == [Indeterminate];
    assert d == [Many([Indeterminate]), Many([Indeterminate])];
    Tags();
    assert Person(x) + Code() + tail == Person(x) + (Code() + tail);
    PersonRecord(TYPES, OUTER, Start(d), x, Code() + tail);
    assert Filled(Start(d), 0, Named(x)) == First(x);
    CodeRecord(TYPES, OUTER, First(x), tail);
    assert Filled(First(x), 1, Scalar(1)) == Second(x);
  }

  /** The decoder accepts two runs of the people with a run of the codes between them. After the first run the person
      has a name, which is memory of its own; the second run puts another person in its place. */
  lemma FilledTwice(x: byte, y: byte)
    ensures SchemaOk(TYPES)
    ensures DecFresh(TYPES, 1, Person(x) + Code()) == Ok([Many([Named(x)]), Many([Scalar(1)])], [])
    ensures DecFresh(TYPES, 1, Person(x) + Code() + Person(y)) == Ok([Many([Named(y)]), Many([Scalar(1)])], [])
  {
    hide DecLoop, Defaults;
    TypesOk();
    assert TYPES[0] == [NAME] && TYPES[1] == OUTER;
    Tags();
    Halfway(x, []);
    assert Person(x) + Code() + [] == Person(x) + Code();
    Ends(TYPES, OUTER, Second(x));
    Halfway(x, Person(y));
    PersonRecord(TYPES, OUTER, Second(x), y, []);
    assert Person(y) + [] == Person(y);
    assert Filled(Second(x), 0, Named(y)) == Third(y);
    Ends(TYPES, OUTER, Third(y));
  }

  lemma TypesSupported()
    ensures Supported(TYPES)
  {
    TypesOk();
    assert TYPES[0] == [NAME] && TYPES[1] == OUTER;
  }

  /** The second run of the people overwrites the name. */
  lemma SecondRunLoses(x: byte, y: byte)
    ensures Harms(TYPES, 1, Person(x) + Code() + Person(y), LostBlock)
  {
    hide DecLoop, HarmsLoop, Defaults;
    TypesOk();
    assert TYPES[1] == OUTER && TYPES[0] == [NAME];
    var d := Defaults(TYPES, 1);
    Halfway(x, []);
    assert Person(x) + Code() + [] == Person(x) + Code();
    Ends(TYPES, OUTER, Second(x));
    var payload := [3, 0x0A, 1, y];
    assert payload[1..] == [0x0A, 1, y] && payload[1..][..3] == [0x0A, 1, y];
    assert DecPrefixed(payload).Ok?;
    assert DropsSlot(TYPES, NAME, [One(true, Blob([x]))][0]);
    assert Drops(TYPES, 0, [One(true, Blob([x]))]);
    assert Was(Second(x).m[0].items, [], 0, 0) == Named(x);
    assert HarmsRecord(TYPES, 1, Second(x), [], 0, payload, LostBlock);
    Overwritten.HarmsFirst(TYPES, 1, Second(x), [], 0, payload, LostBlock);
    assert Person(y) == [0x0A] + payload;
    Overwritten.HarmsAfter(TYPES, 1, Start(d), [], Person(x) + Code(), Person(y), LostBlock);
  }

  /** With enough memory the decoder accepts the input, and afterwards a block is allocated that no slot owns; releasing
      the struct does not free it. */
  method LosingRun(x: byte, y: byte) returns (ok: bool, decoded: seq<Cell>, held: set<nat>, kept: set<nat>)
    ensures ok && multiset(held) > AllBlocks(decoded) && kept != {}
  {
    TypesSupported();
    FilledTwice(x, y);
    SecondRunLoses(x, y);
    hide Harms, SchemaOk, NoUnions, CountsAhead, DecFresh, AllBlocks, StructOk, AllNull, Backed, Tight, Clean;
    ghost var lost;
    var released, keptAgain, wild;
    ok, decoded, held, lost, released, kept, keptAgain, wild :=
      Lifecycle.Lifetime(TYPES, 1, Person(x) + Code() + Person(y), true);
    assert multiset(held) - AllBlocks(decoded) == lost;
  }

  /** Without the second array the schema is tight. */
  lemma AloneIsTight()
    ensures var alone := [[NAME], [PEOPLE]]; Supported(alone) && Tight(alone)
    ensures !Tight(TYPES)
  {
    var alone := [[NAME], [PEOPLE]];
    assert alone[0] == [NAME] && alone[1] == [PEOPLE] && TYPES[0] == [NAME] && TYPES[1] == [PEOPLE, CODES];
    assert TableOk(alone, 0, [NAME]) && TableOk(alone, 1, [PEOPLE]);
    assert TYPES[0][0].atype.Pointer? && !PointerFree(TYPES, 0);
    assert Lossy(TYPES, TYPES[1][0]) && FixedCount(TYPES[1][1]) && !OnlyFixed(TYPES[1], 0);
  }

  /** The samples of these types can be sent. */
  lemma TypesSampled()
    ensures Samples.Sampled(TYPES)
  {
    var name, codes := [One(true, Blob([]))], [Scalar(0)];
    assert TYPES[0] == [NAME] && TYPES[1] == [PEOPLE, CODES];
    assert Samples.Rich(TYPES, 0) == name;
    NameSent();
    EncodedName();
    CodesSent();
    var m := Samples.Rich(TYPES, 1);
    assert m[0] == Many([Sub(name)]) && m[1] == Many(codes);
    hide Sendable, EncMessage, Samples.Rich;
    assert SendableItem(TYPES, PEOPLE, Sub(name));
    hide EncScalars;
    assert SendableField(TYPES, TYPES[1], m, 0);
    assert SendableField(TYPES, TYPES[1], m, 1);
    assert Sendable(TYPES, 1, m) by {
      BothSent(m);
    }
  }

  lemma NameSent()
    ensures Sendable(TYPES, 0, [One(true, Blob([]))])
  {
    assert TYPES[0] == [NAME];
    assert EncBlob(NAME, []) == Success([0]) by {
      assert EncVarint(0) + [] == [0];
    }
    assert SendableField(TYPES, TYPES[0], [One(true, Blob([]))], 0);
  }

  lemma CodesSent()
    ensures EncScalars(CODES, [Scalar(0)]).Success? && |EncScalars(CODES, [Scalar(0)]).value| == 4
  {
    assert [Scalar(0)][1..] == [];
  }

  lemma BothSent(m: Slots)
    requires |m| == 2 && SendableField(TYPES, TYPES[1], m, 0) && SendableField(TYPES, TYPES[1], m, 1)
    ensures Sendable(TYPES, 1, m)
  {
    hide SendableField;
  }

  lemma EncodedName()
    ensures EncMessage(TYPES, 0, [One(true, Blob([]))]).Success? &&
            |EncMessage(TYPES, 0, [One(true, Blob([]))]).value| < U32
  {
    assert TYPES[0] == [NAME];
  }

  // ---- a torn pointer ----

  /** A fixed-count array of one message with such an array, next to the codes. */
  const MIDS: Field := Field(1, Submessage, Repeated, Static, 0, 0, 8, 1, Table(1))

  const DEEP: Schema := [[NAME], [PEOPLE], [MIDS, CODES]]
  const TOP: Table := [MIDS, CODES]

  function Mid(c: byte): bytes {
    [0x0A, 5] + Person(c)
  }

  /** Seven bytes, five and two: a name, a code, and an empty message in place of the one that holds the name. */
  function FourteenBytes(c: byte): bytes {
    Mid(c) + Code() + [0x0A, 0]
  }

  lemma DeepSupported()
    ensures Supported(DEEP)
  {
    assert DEEP[0] == [NAME] && DEEP[1] == [PEOPLE] && DEEP[2] == TOP;
    assert TableOk(DEEP, 0, [NAME]) && TableOk(DEEP, 1, [PEOPLE]) && TableOk(DEEP, 2, TOP);
  }

  lemma MidDecodes(c: byte)
    ensures DecMessage(DEEP, 1, Defaults(DEEP, 1), Person(c)) == Ok([Many([Named(c)])], [])
    ensures DecMessage(DEEP, 1, Defaults(DEEP, 1), []) == Ok([Many([Indeterminate])], [])
  {
    hide DecLoop;
    var d := Defaults(DEEP, 1);
    assert DEEP[0] == [NAME] && DEEP[1] == [PEOPLE];
    assert seq(1, _ => Indeterminate) == [Indeterminate];
    assert d == [Many([Indeterminate])];
    assert FindFrom([PEOPLE], 1, 0) == Some(0);
    PersonRecord(DEEP, [PEOPLE], Start(d), c, []);
    assert Person(c) + [] == Person(c);
    assert Filled(Start(d), 0, Named(c)) == Run([Many([Named(c)])], {}, Some(0), 1);
    Ends(DEEP, [PEOPLE], Filled(Start(d), 0, Named(c)));
    Ends(DEEP, [PEOPLE], Start(d));
  }

  lemma MidItem(c: byte, tail: bytes)
    ensures DecItem(DEEP, MIDS, Fresh(DEEP, MIDS), [5] + Person(c) + tail) == Ok(Sub([Many([Named(c)])]), tail)
    ensures DecItem(DEEP, MIDS, Fresh(DEEP, MIDS), [0] + tail) == Ok(Sub([Many([Indeterminate])]), tail)
    ensures DecPrefixed([0] + tail) == Ok([], tail)
  {
    hide DecMessage, Defaults;
    var b := [5] + Person(c) + tail;
    assert b[1..] == Person(c) + tail;
    assert b[1..][..5] == Person(c) && b[1..][5..] == tail;
    assert DecPrefixed(b) == Ok(Person(c), tail);
    var e := [0] + tail;
    assert e[1..] == tail && tail[..0] == [] && tail[0..] == tail;
    MidDecodes(c);
  }

  /** The state behind the name and the code. */
  function NameInPlace(c: byte): Run {
    Run([Many([Sub([Many([Named(c)])])]), Many([Scalar(1)])], {}, Some(1), 1)
  }

  lemma DeepHalfway(c: byte, tail: bytes)
    ensures DecLoop(DEEP, TOP, Start(Defaults(DEEP, 2)), Mid(c) + Code() + tail) == DecLoop(DEEP, TOP, NameInPlace(c), tail)
  {
    hide DecLoop, DecItem;
    var d := Defaults(DEEP, 2);
    assert DEEP[2] == TOP;
    assert seq(1, _ => Indeterminate) == [Indeterminate];
    assert d == [Many([Indeterminate]), Many([Indeterminate])];
    assert FindFrom(TOP, 1, 0) == Some(0) && FindFrom(TOP, 2, 1) == Some(1);
    var b, rest := Mid(c) + Code() + tail, [5] + Person(c) + (Code() + tail);
    assert b[1..] == rest;
    assert DecTag(b) == Tag(1, 2, rest);
    MidItem(c, Code() + tail);
    var v := Sub([Many([Named(c)])]);
    FillRecord(DEEP, TOP, Start(d), 0, 2, b, rest, v, Code() + tail);
    CodeRecord(DEEP, TOP, Filled(Start(d), 0, v), tail);
    assert Filled(Filled(Start(d), 0, v), 1, Scalar(1)) == NameInPlace(c);
  }

  /** The decoder accepts the fourteen bytes. */
  lemma FourteenAccepted(c: byte)
    ensures DecFresh(DEEP, 2, FourteenBytes(c)) == Ok([Many([Sub([Many([Indeterminate])])]), Many([Scalar(1)])], [])
  {
    hide DecLoop, Defaults, DecItem;
    assert DEEP[2] == TOP;
    assert FindFrom(TOP, 1, 0) == Some(0);
    var last, v := [0x0A, 0], Sub([Many([Indeterminate])]);
    DeepHalfway(c, last);
    MidItem(c, []);
    assert last[1..] == [0] + [];
    assert DecTag(last) == Tag(1, 2, [0]);
    FillRecord(DEEP, TOP, NameInPlace(c), 0, 2, last, [0], v, []);
    var run := Filled(NameInPlace(c), 0, v);
    assert run == Run([Many([v]), Many([Scalar(1)])], {}, Some(0), 1);
    Ends(DEEP, TOP, run);
  }

  /** The last record initialises the message that holds the name, and with it the first four bytes of the array: half of
      the pointer to the name. */
  lemma FourteenTears(c: byte)
    ensures Harms(DEEP, 2, FourteenBytes(c), TornPointer)
  {
    DeepSupported();
    hide DecLoop, HarmsLoop, Defaults, SchemaOk, NoUnions, CountsAhead;
    assert DEEP[0] == [NAME] && DEEP[1] == [PEOPLE] && DEEP[2] == TOP;
    var first := Mid(c) + Code();
    DeepHalfway(c, []);
    assert first + [] == first;
    Ends(DEEP, TOP, NameInPlace(c));
    MidItem(c, []);
    NameAtHead(c);
    assert Was(NameInPlace(c).m[0].items, [], 0, 0) == Sub([Many([Named(c)])]);
    assert HarmsRecord(DEEP, 2, NameInPlace(c), [], 0, [0], TornPointer);
    Overwritten.HarmsFirst(DEEP, 2, NameInPlace(c), [], 0, [0], TornPointer);
    assert [0x0A, 0] == [0x0A] + [0];
    Overwritten.HarmsAfter(DEEP, 2, Start(Defaults(DEEP, 2)), [], first, [0x0A, 0], TornPointer);
  }

  lemma NameAtHead(c: byte)
    ensures Tears(DEEP, 1, [Many([Named(c)])])
  {
    assert DEEP[0] == [NAME] && DEEP[1] == [PEOPLE];
    var m := [One(true, Blob([c]))];
    assert HeadSlot(DEEP, NAME, m[0], COUNT_SIZE) && DataWalk(DEEP[0], 0) == 0;
    assert HeadSet(DEEP, 0, m, COUNT_SIZE);
    assert HeadItem(DEEP, PEOPLE, Named(c), COUNT_SIZE);
    assert TearsSlot(DEEP, DEEP[1][0], [Many([Named(c)])][0]);
  }

  /** With enough memory the decoder accepts the fourteen bytes, and the release is given the address of which half has been
      cleared. */
  method TearingRun(c: byte) returns (ok: bool, wild: bool)
    ensures ok && wild && |FourteenBytes(c)| == 14 && !Clean(DEEP)
  {
    DeepSupported();
    FourteenAccepted(c);
    FourteenTears(c);
    hide Harms, SchemaOk, NoUnions, CountsAhead, DecFresh, AllBlocks, StructOk, AllNull, Backed, Tight, Clean;
    ghost var lost;
    var decoded, held, released, kept, keptAgain;
    ok, decoded, held, lost, released, kept, keptAgain, wild := Lifecycle.Lifetime(DEEP, 2, FourteenBytes(c), true);
  }
}
