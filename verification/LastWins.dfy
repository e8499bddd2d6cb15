/** "Last one wins" for the encoder's own output: concatenated encodings decode to the merge of the messages. */
module LastWins {
  import opened Bits
  import opened Varint
  import opened Integers
  import opened Descriptor
  import opened Message
  import opened EncodeSpec
  import opened DecodeSpec
  import opened Merge
  import Concat
  import Transfer

  lemma {:induction false} MergeShaped(S: Schema, t: nat, m0: Slots, m: Slots)
    requires SchemaOk(S) && Sendable(S, t, m) && Shaped(S, t, m0) && MergeMessage(S, t, m0, m).Some?
    ensures Shaped(S, t, MergeMessage(S, t, m0, m).value)
    decreases m, |m| + 1
  {
    hide MergeFrom;
    MergeFromShaped(S, t, m0, m, 0);
  }

  lemma {:induction false} MergeFromShaped(S: Schema, t: nat, acc: Slots, m: Slots, i: nat)
    requires SchemaOk(S) && Sendable(S, t, m) && Shaped(S, t, acc) && i <= |m|
    requires MergeFrom(S, S[t], acc, m, i).Some?
    ensures Shaped(S, t, MergeFrom(S, S[t], acc, m, i).value)
    decreases m, |m| - i
  {
    hide MergeField, ShapedSlot, SendableField;
    if i < |m| {
      MergeFieldShaped(S, t, acc, m, i);
      MergeFromShaped(S, t, MergeField(S, S[t], acc, m, i).value, m, i + 1);
    }
  }

  lemma {:induction false} MergeFieldShaped(S: Schema, t: nat, acc: Slots, m: Slots, i: nat)
    requires SchemaOk(S) && Sendable(S, t, m) && Shaped(S, t, acc) && i < |m|
    requires MergeField(S, S[t], acc, m, i).Some?
    ensures Shaped(S, t, MergeField(S, S[t], acc, m, i).value)
    decreases m, 0
  {
    hide MergeItem, MergeItems, EncBlob, EncMessage, ShapedSlot, Present;
    var table := S[t];
    var f := table[i];
    var acc' := MergeField(S, table, acc, m, i).value;
    assert SendableField(S, table, m, i) && FieldOk(S, t, f);
    assert ShapedSlot(S, t, f, acc'[i]) by {
      assert ShapedSlot(S, t, f, acc[i]);
      MergedSlotShaped(S, t, acc, m, i);
    }
    forall j | 0 <= j < |m|
      ensures ShapedSlot(S, t, table[j], acc'[j])
    {
      assert ShapedSlot(S, t, table[j], acc[j]);
      if j != i && acc'[j] != acc[j] {
        ClearedShaped(S, t, table[j]);
      }
    }
  }

  lemma ClearedShaped(S: Schema, t: nat, f: Field)
    requires t < |S| && f.htype.Oneof?
    ensures ShapedSlot(S, t, f, One(false, Indeterminate))
  {
  }

  lemma {:induction false} MergedSlotShaped(S: Schema, t: nat, acc: Slots, m: Slots, i: nat)
    requires SchemaOk(S) && Sendable(S, t, m) && i < |m| == |acc|
    requires ShapedSlot(S, t, S[t][i], acc[i]) && MergeField(S, S[t], acc, m, i).Some?
    ensures ShapedSlot(S, t, S[t][i], MergeField(S, S[t], acc, m, i).value[i])
    decreases m, 0, 0
  {
    hide MergeMessage, EncMessage, Present;
    var f := S[t][i];
    assert SendableField(S, S[t], m, i) && FieldOk(S, t, f);
    match m[i]
    case One(_, v) =>
      if Present(S, S[t], m, i) && Embedded(f) && !f.htype.Repeated? && !f.ltype.Extension? {
        assert v < m[i];
        assert v.Sub?;
        MergeShaped(S, f.ptr.id, StartOf(S, f, acc[i]), v.slots);
      }
    case Many(items) =>
      if !f.ltype.Extension? && items != [] {
        Transfer.MergeItemsLength(S, f, items);
      }
  }

  /** Decoding two encodings one behind the other gives the first message merged with the second: later scalars
      replace earlier ones, embedded submessages are merged, arrays are appended. */
  lemma ConcatenatedEncodings(S: Schema, t: nat, m0: Slots, m1: Slots, m2: Slots)
    requires SchemaOk(S) && UniformSchema(S) && Sendable(S, t, m1) && Sendable(S, t, m2) && Shaped(S, t, m0)
    requires Concat.NoFixedCount(S[t])
    ensures EncMessage(S, t, m1).Success? && EncMessage(S, t, m2).Success?
    ensures DecMessage(S, t, m0, EncMessage(S, t, m1).value + EncMessage(S, t, m2).value) ==
            match MergeMessage(S, t, m0, m1)
            case None => Fail
            case Some(m01) =>
              match MergeMessage(S, t, m01, m2)
              case None => Fail
              case Some(m012) => Ok(m012, [])
  {
    assert t < |S| && |m0| == |S[t]|;
    hide Sendable, Shaped, DecLoop, EncMessage, Concat.NoFixedCount, RequiredSeen, FixedComplete, MergeMessage, Transfer.Absorbed;
    var e2 := SecondEncoding(S, t, m2);
    Transfer.EncodingDecodes(S, t, m0, m1);
    var e1 := EncMessage(S, t, m1).value;
    assert e1 + [] == e1 && e2 + [] == e2;
    Transfer.EncodingLoop(S, t, m0, m1, e2);
    if MergeMessage(S, t, m0, m1).Some? {
      var m01 := MergeMessage(S, t, m0, m1).value;
      MergeShaped(S, t, m0, m1);
      Transfer.EncodingLoop(S, t, m0, m1, []);
      Transfer.EncodingLoop(S, t, m01, m2, []);
      forall run: Run | |run.m| == |S[t]|
        ensures DecLoop(S, S[t], run, []) == End(run, [], false)
      {
        Transfer.EmptyLoop(S, S[t], run);
      }
      Concat.LastOneWins(S, t, m0, e1, e2);
    }
  }

  lemma SecondEncoding(S: Schema, t: nat, m: Slots) returns (e: bytes)
    requires SchemaOk(S) && Sendable(S, t, m)
    ensures EncMessage(S, t, m) == Success(e)
  {
    Transfer.SendableEncodes(S, t, m, 0);
    e := EncMessage(S, t, m).value;
  }
}
