/** The wire format by itself: payloads and records, without any table. */
module Wire {
  import opened Bits
  import opened Varint
  import opened DecodeSpec

  // ---- the payload of an unknown record ----

  /** Bytes with continuation bit and then one without. */
  predicate IsVarint(u: bytes) {
    u != [] && u[|u| - 1] < 128 && forall k :: 0 <= k < |u| - 1 ==> u[k] >= 128
  }

  /** The bytes that may stand behind a tag word with this wire type. */
  predicate IsPayload(wireType: nat, u: bytes) {
    match wireType
    case 0 => IsVarint(u)
    case 1 => |u| == 8
    case 2 => exists n :: 0 <= n <= |u| && IsLength(u, n)
    case 5 => |u| == 4
    case _ => false
  }

  /** The first n bytes are the number of the others. */
  predicate IsLength(u: bytes, n: nat)
    requires n <= |u|
  {
    DecVarint32(u[..n]) == Ok(|u| - n, [])
  }

  lemma {:induction false} VarintLenIs(b: bytes)
    ensures VarintLen(b) > 0 ==> IsVarint(b[..VarintLen(b)])
    ensures VarintLen(b) == 0 ==> forall k :: 0 <= k < |b| ==> b[k] >= 128
  {
    if b != [] && b[0] >= 128 {
      VarintLenIs(b[1..]);
      var n := VarintLen(b[1..]);
      if n > 0 {
        assert forall k :: 0 < k <= n ==> b[k] == b[1..][..n][k - 1];
      } else {
        assert forall k :: 0 < k < |b| ==> b[k] == b[1..][k - 1];
      }
    }
  }

  lemma {:induction false} VarintLenOf(u: bytes, tail: bytes)
    requires IsVarint(u)
    ensures VarintLen(u + tail) == |u|
  {
    assert (u + tail)[1..] == u[1..] + tail;
    if |u| > 1 {
      VarintLenOf(u[1..], tail);
    }
  }

  /** The decoder passes over exactly the payload in front of b, and refuses b when there is none. */
  lemma SkipExact(wireType: nat, b: bytes, rest: bytes)
    ensures Skip(wireType, b) == Some(rest) <==> exists u :: IsPayload(wireType, u) && b == u + rest
  {
    if u :| IsPayload(wireType, u) && b == u + rest {
      SkipsPayload(wireType, u, rest);
    }
    if Skip(wireType, b) == Some(rest) {
      var u := SkippedPayload(wireType, b);
      assert b == u + rest;
    }
  }

  lemma DelimitedAt(head: bytes, body: bytes, rest: bytes)
    requires DecVarint32(head) == Ok(|body|, [])
    ensures DecPrefixed(head + body + rest) == Ok(body, rest)
  {
    hide DecVarint32;
    DecVarint32Frame(head, body + rest);
    assert head + body + rest == head + (body + rest) && [] + (body + rest) == body + rest;
    assert (body + rest)[..|body|] == body && (body + rest)[|body|..] == rest;
  }

  lemma SkipsPayload(wireType: nat, u: bytes, rest: bytes)
    requires IsPayload(wireType, u)
    ensures Skip(wireType, u + rest) == Some(rest)
  {
    hide DecPrefixed, DecVarint32, VarintLen;
    if wireType == 2 {
      var n :| 0 <= n <= |u| && IsLength(u, n);
      DelimitedAt(u[..n], u[n..], rest);
      assert u[..n] + u[n..] == u;
    } else {
      assert (u + rest)[|u|..] == rest;
      if wireType == 0 {
        VarintLenOf(u, rest);
      }
    }
  }

  lemma SkippedPayload(wireType: nat, b: bytes) returns (u: bytes)
    requires Skip(wireType, b).Some?
    ensures IsPayload(wireType, u) && b == u + Skip(wireType, b).value
  {
    hide DecVarint32, VarintLen, IsVarint;
    u := b[..|b| - |Skip(wireType, b).value|];
    if wireType == 0 {
      VarintLenIs(b);
      assert u == b[..VarintLen(b)];
    } else if wireType == 2 {
      var rest := DecVarint32(b).rest;
      var size := DecVarint32(b).value;
      var e := Varint32Bytes(b);
      var n := |e|;
      assert u == b[..n + size] && u[..n] == e;
      assert IsLength(u, n);
    }
  }

  lemma {:induction false} Varint32TailBytes(result: nat, bitpos: nat, b: bytes) returns (e: bytes)
    requires Varint32Tail(result, bitpos, b).Ok?
    ensures Varint32Tail(result, bitpos, e) == Ok(Varint32Tail(result, bitpos, b).value, [])
    ensures e + Varint32Tail(result, bitpos, b).rest == b
    decreases |b|
  {
    hide Absorb;
    var p := Varint32Tail(result, bitpos, b);
    if b[0] >= 128 {
      var more := Varint32TailBytes(Absorb(result, bitpos, b[0]).value, (bitpos + 7) % 256, b[1..]);
      e := [b[0]] + more;
      assert e[1..] == more;
    } else {
      e := [b[0]];
      assert e[1..] == [];
    }
  }

  lemma Varint32Bytes(b: bytes) returns (e: bytes)
    requires DecVarint32(b).Ok?
    ensures DecVarint32(e) == Ok(DecVarint32(b).value, []) && e + DecVarint32(b).rest == b
  {
    hide Varint32Tail;
    if b[0] < 128 {
      e := [b[0]];
      assert e[1..] == [];
    } else {
      var more := Varint32TailBytes(b[0] % 128, 7, b[1..]);
      e := [b[0]] + more;
      assert e[1..] == more;
    }
  }
}
