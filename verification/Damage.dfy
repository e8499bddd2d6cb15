/** The inputs that do damage: they lose a block, or leave a torn pointer. */
module Damage {
  import opened Bits
  import opened Varint
  import opened Descriptor
  import opened Message
  import opened DecodeSpec
  import opened Stale
  import opened Backing

  /** A static array of submessages. */
  predicate StaticSubs(f: Field) {
    f.atype.Static? && f.ltype.Submessage? && f.htype.Repeated?
  }

  datatype Harm = LostBlock | TornPointer

  /** What the memory of element n held: the element decoded there in this run, or an older one. */
  function Was(items: seq<Value>, past: Slots, i: nat, n: nat): Value {
    if n < |items| && items[n].Sub? then items[n]
    else if i < |past| && past[i].Many? && n < |past[i].items| then past[i].items[n]
    else Indeterminate
  }

  function Inner(past: Slots, i: nat): Slots {
    if i < |past| && past[i].One? then SlotsOf(past[i].v) else []
  }

  function SlotsOf(v: Value): Slots {
    if v.Sub? then v.slots else []
  }

  /** Overwriting an element that held v with the given payload does damage: by initialising it, or when an array inside it
      is filled anew. A pointer that initialisation has torn is there as long as nothing is decoded over it. */
  ghost predicate HarmsElement(S: Schema, id: nat, v: Value, payload: bytes, h: Harm)
    requires id < |S|
    decreases |payload|, 2
  {
    match h
    case LostBlock =>
      (v.Sub? && Drops(S, id, v.slots)) || HarmsLoop(S, id, Start(Defaults(S, id)), SlotsOf(v), payload, h)
    case TornPointer =>
      if v.Sub? && Tears(S, id, v.slots) then payload == []
      else HarmsLoop(S, id, Start(Defaults(S, id)), SlotsOf(v), payload, h)
  }

  /** A record of field i, with its payload in front of b. */
  ghost predicate HarmsRecord(S: Schema, t: nat, run: Run, past: Slots, i: nat, b: bytes, h: Harm)
    requires t < |S| && i < |S[t]| == |run.m|
    decreases |b|, 0
  {
    var f := S[t][i];
    var p := DecPrefixed(b);
    && f.atype.Static? && f.ltype.Submessage? && f.ptr.Table? && f.ptr.id < |S| && p.Ok?
    && match run.m[i]
       case One(_, v) => InPlace(f) && v.Sub? && HarmsLoop(S, f.ptr.id, Start(v.slots), Inner(past, i), p.value, h)
       case Many(items) =>
         && f.htype.Repeated? && Ready(S[t], run, i)
         && var n := CountOf(S[t], run, i);
            n < f.arraySize && HarmsElement(S, f.ptr.id, Was(items, past, i, n), p.value, h)
  }

  /** Decoding b in the given state, with older values in the memory, does damage. */
  ghost predicate HarmsLoop(S: Schema, t: nat, run: Run, past: Slots, b: bytes, h: Harm)
    requires t < |S|
    decreases |b|, 1
  {
    && |run.m| == |S[t]| && b != [] && DecTag(b).Tag?
    && var w := DecTag(b);
       var p := DecRecord(S, S[t], run, w.tag, w.wireType, w.rest);
       (Find(S[t], w.tag).Some? && HarmsRecord(S, t, run, past, Find(S[t], w.tag).value, w.rest, h) &&
        (h.TornPointer? && p.Ok? ==> p.rest == [])) ||
       (p.Ok? && HarmsLoop(S, t, p.value, past, p.rest, h))
  }

  /** Decoding b into a fresh struct of type t does damage. */
  ghost predicate Harms(S: Schema, t: nat, b: bytes, h: Harm)
    requires t < |S|
  {
    HarmsLoop(S, t, Start(Defaults(S, t)), [], b, h)
  }
}
