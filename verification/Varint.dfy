/** Base-128 varints: what the encoder emits and what the two readers accept. */
module Varint {
  import opened Bits

  /** The outcome of reading something from the front of a byte string. */
  datatype Parsed<+T> = Ok(value: T, rest: bytes) | Fail

  /** The groups of seven bits of v, least significant first; all but the last carry the continuation bit. */
  function EncVarint(v: nat): (b: bytes)
    ensures |b| > 0
  {
    if v < 128 then [v] else [v % 128 + 128] + EncVarint(v / 128)
  }

  /** The number of bytes of the varint at the front of b, or 0 when no byte without continuation bit ends it. */
  function VarintLen(b: bytes): (n: nat)
    ensures n <= |b|
  {
    if b == [] then 0
    else if b[0] < 128 then 1
    else if VarintLen(b[1..]) == 0 then 0
    else 1 + VarintLen(b[1..])
  }

  /** The number written by the seven-bit groups of b. */
  function Base128(b: bytes): nat {
    if b == [] then 0 else b[0] % 128 + 128 * Base128(b[1..])
  }

  /** What the 64-bit reader returns: at most ten bytes, and the value modulo 2^64. */
  function DecVarint(b: bytes): (p: Parsed<nat>)
    ensures p.Ok? ==> |p.rest| < |b| && p.value < U64
  {
    var n := VarintLen(b);
    if 0 < n <= 10 then Ok(Base128(b[..n]) % U64, b[n..]) else Fail
  }

  datatype Option<+T> = None | Some(value: T)

  /** The 32-bit reader's treatment of one byte behind the first: below bit 32 the payload is or-ed in (bits that
      do not fit are lost), from there on only zeros or the sign extension of a negative number may follow. */
  function Absorb(result: nat, bitpos: nat, c: byte): Option<nat> {
    if bitpos < 32 then
      Some(BitOr(result, Shl(c % 128, bitpos) % U32))
    else if c % 128 != 0 && (result < U31 || c != if bitpos < 63 then 0xFF else 0x01) then
      None
    else
      Some(result)
  }

  /** The rest of the 32-bit reader, after the bits below `bitpos` have gone into `result`.
      The bit position is kept in an 8-bit variable. */
  function Varint32Tail(result: nat, bitpos: nat, b: bytes): (p: Parsed<nat>)
    ensures p.Ok? ==> |p.rest| < |b|
    decreases |b|
  {
    if b == [] then Fail
    else
      match Absorb(result, bitpos, b[0])
      case None => Fail
      case Some(result') =>
        var bitpos' := (bitpos + 7) % 256;
        if b[0] >= 128 then Varint32Tail(result', bitpos', b[1..])
        else if bitpos' == 35 && b[0] >= 16 then Fail
        else Ok(result', b[1..])
  }

  /** What the 32-bit reader used for tags, lengths and booleans returns. */
  function DecVarint32(b: bytes): (p: Parsed<nat>)
    ensures p.Ok? ==> |p.rest| < |b|
  {
    if b == [] then Fail
    else if b[0] < 128 then Ok(b[0], b[1..])
    else Varint32Tail(b[0] % 128, 7, b[1..])
  }

  // ---- the encoder's output ----

  lemma {:induction false} EncVarintSpells(v: nat)
    ensures Base128(EncVarint(v)) == v && VarintLen(EncVarint(v)) == |EncVarint(v)|
  {
    if v < 128 {
      assert [v][1..] == [];
    } else {
      assert EncVarint(v)[1..] == EncVarint(v / 128);
      EncVarintSpells(v / 128);
    }
  }

  function Power128(k: nat): (n: nat)
    ensures n > 0
  {
    if k == 0 then 1 else 128 * Power128(k - 1)
  }

  lemma DivideTwice(v: nat, m: nat)
    requires m > 0
    ensures v / 128 / m == v / (128 * m)
  {
    var w := v / 128;
    var q, r := w / m, w % m;
    assert w == m * q + r;
    var low := 128 * r + v % 128;
    assert v == 128 * (m * q) + low;
    assert 128 * (m * q) == (128 * m) * q;
    Quotient(v, 128 * m, q, low);
  }

  lemma Quotient(v: nat, m: nat, q: nat, low: nat)
    requires m > 0 && v == m * q + low && low < m
    ensures v / m == q
  {
    assert m * (v / m - q) == low - v % m;
    Multiples(m, v / m - q);
  }

  lemma {:induction false} Multiples(m: nat, d: int)
    ensures d > 0 ==> m * d >= m
    ensures d < 0 ==> m * d <= 0 - m
    decreases if d < 0 then -d else d
  {
    if d > 1 {
      Multiples(m, d - 1);
      assert m * d == m * (d - 1) + m;
    } else if d < -1 {
      Multiples(m, d + 1);
      assert m * d == m * (d + 1) - m;
    }
  }

  /** Byte k of the encoding has the seven bits of v from bit 7 k on, and the continuation bit unless it is the last. */
  lemma {:induction false} VarintGroup(v: nat, k: nat)
    requires k < |EncVarint(v)|
    ensures EncVarint(v)[k] == v / Power128(k) % 128 + if k + 1 < |EncVarint(v)| then 128 else 0
  {
    if k > 0 {
      VarintGroup(v / 128, k - 1);
      DivideTwice(v, Power128(k - 1));
    }
  }

  /** The encoder emits max(1, ceil(bits of v / 7)) bytes. */
  lemma {:induction false} EncVarintLength(v: nat)
    ensures var n := |EncVarint(v)|; v < Shl(1, 7 * n) && (n > 1 ==> Shl(1, 7 * (n - 1)) <= v)
  {
    Shl7(1);
    if v >= 128 {
      EncVarintLength(v / 128);
      var n := |EncVarint(v / 128)|;
      ShlGroup(1, 7 * n);
      ShlGroup(1, 7 * (n - 1));
    }
  }

  /** A 64-bit value fits the encoder's ten-byte buffer. */
  lemma EncVarintFits(v: nat)
    requires v < U64
    ensures |EncVarint(v)| <= 10
  {
    ShlWords();
    EncVarintLength(v);
    if |EncVarint(v)| > 10 {
      ShlPositive(1, 64, 7 * (|EncVarint(v)| - 1));
    }
  }

  // ---- reading does not look past the end of the varint ----

  lemma {:induction false} VarintLenFrame(b: bytes, tail: bytes)
    requires VarintLen(b) > 0
    ensures VarintLen(b + tail) == VarintLen(b)
  {
    assert (b + tail)[0] == b[0];
    assert (b + tail)[1..] == b[1..] + tail;
    if b[0] >= 128 {
      VarintLenFrame(b[1..], tail);
    }
  }

  lemma DecVarintFrame(b: bytes, tail: bytes)
    requires DecVarint(b).Ok?
    ensures DecVarint(b + tail) == Ok(DecVarint(b).value, DecVarint(b).rest + tail)
  {
    VarintLenFrame(b, tail);
    var n := VarintLen(b);
    assert (b + tail)[..n] == b[..n];
    assert (b + tail)[n..] == b[n..] + tail;
  }

  lemma {:induction false} Varint32TailFrame(result: nat, bitpos: nat, b: bytes, tail: bytes)
    requires Varint32Tail(result, bitpos, b).Ok?
    ensures var p := Varint32Tail(result, bitpos, b);
            Varint32Tail(result, bitpos, b + tail) == Ok(p.value, p.rest + tail)
    decreases |b|
  {
    assert (b + tail)[0] == b[0];
    assert (b + tail)[1..] == b[1..] + tail;
    if b[0] >= 128 {
      Varint32TailFrame(Absorb(result, bitpos, b[0]).value, (bitpos + 7) % 256, b[1..], tail);
    }
  }

  lemma DecVarint32Frame(b: bytes, tail: bytes)
    requires DecVarint32(b).Ok?
    ensures DecVarint32(b + tail) == Ok(DecVarint32(b).value, DecVarint32(b).rest + tail)
  {
    assert (b + tail)[0] == b[0];
    assert (b + tail)[1..] == b[1..] + tail;
    if b[0] >= 128 {
      Varint32TailFrame(b[0] % 128, 7, b[1..], tail);
    }
  }

  // ---- round trips ----

  /** The 64-bit reader returns the value that was encoded and stops exactly behind it, whatever follows. */
  lemma VarintRoundTrip(v: nat, tail: bytes)
    requires v < U64
    ensures DecVarint(EncVarint(v) + tail) == Ok(v, tail)
  {
    var b := EncVarint(v);
    EncVarintSpells(v);
    EncVarintFits(v);
    assert b[..|b|] == b && b[|b|..] == [];
    assert DecVarint(b) == Ok(v, []);
    DecVarintFrame(b, tail);
    assert [] + tail == tail;
  }

  /** No encoding is a proper prefix of another. */
  lemma VarintPrefixFree(v: nat, w: nat, tail: bytes)
    requires v < U64 && w < U64
    requires EncVarint(v) + tail == EncVarint(w)
    ensures v == w && tail == []
  {
    VarintRoundTrip(v, tail);
    VarintRoundTrip(w, []);
    assert EncVarint(w) + [] == EncVarint(w);
  }

  // ---- one byte of the 32-bit reader ----

  lemma ShiftSplit(w: nat, n: nat)
    ensures Shl(w, n) == Shl(w % 128, n) + Shl(w / 128, n + 7)
  {
    Shl7(w / 128);
    ShlShl(w / 128, 7, n);
    ShlSum(w % 128, 128 * (w / 128), n);
  }

  lemma ShiftBound(result: nat, d: nat, n: nat)
    requires result < Shl(1, n) && d < 128
    ensures result + Shl(d, n) < Shl(1, n + 7)
  {
    ShlSum(d, 1, n);
    ShlMonotone(d + 1, 128, n);
    Shl7(1);
    ShlShl(1, 7, n);
  }

  lemma EncVarintUnfold(w: nat)
    requires w >= 128
    ensures EncVarint(w)[0] == w % 128 + 128 && EncVarint(w)[1..] == EncVarint(w / 128)
  {
  }

  /** The 32-bit reader on a group below bit 28. */
  lemma AbsorbLow(result: nat, k: nat, c: byte)
    requires 1 <= k <= 3 && result < Shl(1, 7 * k)
    ensures Absorb(result, 7 * k, c) == Some(result + Shl(c % 128, 7 * k))
  {
    hide Shl, BitOr;
    var d := c % 128;
    LowShift(d, k);
    BitOrDisjoint(result, d, 7 * k);
  }

  lemma LowShift(d: nat, k: nat)
    requires d < 128 && 1 <= k <= 3
    ensures Shl(d, 7 * k) < U32
  {
    hide Shl;
    ShlGroups(d);
  }

  lemma SameRemainder(q: int, y: int)
    ensures (q * U32 + y) % U32 == y % U32
  {
  }

  lemma LowNibble(c: byte)
    ensures c % 128 % 16 == c % 16
  {
  }

  lemma TopShift(d: nat)
    requires d < 128
    ensures Shl(d, 28) % U32 == Shl(d % 16, 28)
  {
    hide Shl;
    ShlGroups(d);
    ShlGroups(d % 16);
    FifthGroup(d);
    SameRemainder(d / 16, 0x1000_0000 * (d % 16));
    Small32(0x1000_0000 * (d % 16));
  }

  lemma FifthGroup(d: nat)
    ensures 0x1000_0000 * d == d / 16 * U32 + 0x1000_0000 * (d % 16)
  {
    assert d == 16 * (d / 16) + d % 16;
  }

  lemma Small32(x: nat)
    requires x < U32
    ensures x % U32 == x
  {
  }

  /** The fifth group contributes its four low bits. */
  lemma AbsorbTop(result: nat, c: byte)
    requires result < Shl(1, 28)
    ensures Absorb(result, 28, c) == Some(result + Shl(c % 16, 28))
  {
    hide Shl;
    LowNibble(c);
    TopShift(c % 128);
    BitOrDisjoint(result, c % 16, 28);
  }

  lemma TailUnfold(result: nat, bitpos: nat, b: bytes, result': nat)
    requires b != [] && Absorb(result, bitpos, b[0]) == Some(result')
    ensures b[0] >= 128 ==> Varint32Tail(result, bitpos, b) == Varint32Tail(result', (bitpos + 7) % 256, b[1..])
    ensures b[0] < 128 ==>
              Varint32Tail(result, bitpos, b) ==
              if (bitpos + 7) % 256 == 35 && b[0] >= 16 then Fail else Ok(result', b[1..])
  {
  }

  // ---- round trips of the 32-bit reader ----

  lemma {:induction false} Varint32TailRoundTrip(result: nat, k: nat, w: nat, tail: bytes)
    requires 1 <= k <= 4 && result < Shl(1, 7 * k) && w > 0 && result + Shl(w, 7 * k) < U32
    ensures Varint32Tail(result, 7 * k, EncVarint(w) + tail) == Ok(result + Shl(w, 7 * k), tail)
    decreases 4 - k
  {
    hide Varint32Tail, Absorb, BitOr, Shl;
    var b := EncVarint(w) + tail;
    if k == 4 {
      Varint32LastRoundTrip(result, w, tail);
    } else {
      AbsorbLow(result, k, b[0]);
      TailUnfold(result, 7 * k, b, result + Shl(w % 128, 7 * k));
      if w >= 128 {
        EncVarintUnfold(w);
        assert b[1..] == EncVarint(w / 128) + tail;
        ShiftSplit(w, 7 * k);
        ShiftBound(result, w % 128, 7 * k);
        Varint32TailRoundTrip(result + Shl(w % 128, 7 * k), k + 1, w / 128, tail);
      } else {
        assert b[1..] == tail;
      }
    }
  }

  lemma Varint32LastRoundTrip(result: nat, w: nat, tail: bytes)
    requires result < Shl(1, 28) && 0 < w && result + Shl(w, 28) < U32
    ensures Varint32Tail(result, 28, EncVarint(w) + tail) == Ok(result + Shl(w, 28), tail)
  {
    hide Varint32Tail, Absorb, BitOr, Shl;
    ShlGroups(w);
    assert w < 16;
    var b := EncVarint(w) + tail;
    assert b[0] == w && b[1..] == tail;
    AbsorbTop(result, b[0]);
    TailUnfold(result, 28, b, result + Shl(w, 28));
  }

  /** Every value below 2^32 is read back by the 32-bit reader. */
  lemma Varint32RoundTrip(v: nat, tail: bytes)
    requires v < U32
    ensures DecVarint32(EncVarint(v) + tail) == Ok(v, tail)
  {
    hide Varint32Tail;
    var b := EncVarint(v) + tail;
    if v < 128 {
      assert b[1..] == tail;
    } else {
      EncVarintUnfold(v);
      assert b[1..] == EncVarint(v / 128) + tail;
      Shl7(1);
      Shl7(v / 128);
      Varint32TailRoundTrip(v % 128, 1, v / 128, tail);
    }
  }

  // ---- the two readers agree ----

  lemma LowHalf(x: int)
    ensures x % U64 % U32 == x % U32
  {
    var q, y := x / U64, x % U64;
    assert x == (q * U32) * U32 + y;
    SameRemainder(q * U32, y);
  }

  lemma {:induction false} HighTailValue(result: nat, k: nat, b: bytes)
    requires 5 <= k && 0 < VarintLen(b) && k + VarintLen(b) <= 10
    requires Varint32Tail(result, 7 * k, b).Ok?
    ensures Varint32Tail(result, 7 * k, b) == Ok(result, b[VarintLen(b)..])
    decreases |b|
  {
    if b[0] >= 128 {
      HighTailValue(result, k + 1, b[1..]);
    }
  }

  lemma Base128Unfold(b: bytes)
    requires 0 < VarintLen(b)
    ensures var n := VarintLen(b);
            Base128(b[..n]) == b[0] % 128 + 128 * Base128(b[1..][..n - 1])
    ensures b[0] < 128 ==> VarintLen(b) == 1 && Base128(b[..1]) == b[0]
    ensures b[0] >= 128 ==> VarintLen(b[1..]) == VarintLen(b) - 1 > 0
  {
    var n := VarintLen(b);
    assert b[..n][1..] == b[1..][..n - 1];
    if b[0] < 128 {
      assert b[1..][..0] == [];
    }
  }

  lemma TopRemainder(result: nat, c: byte, x: nat)
    requires result < Shl(1, 28)
    ensures (result + Shl(c % 128 + 128 * x, 28)) % U32 == result + Shl(c % 16, 28)
  {
    hide Shl;
    var d := c % 128;
    var r := result + 0x1000_0000 * (d % 16);
    LowNibble(c);
    ShlGroups(1);
    ShlGroups(d % 16);
    ShlGroups(d + 128 * x);
    FifthGroup(d);
    SameRemainder(d / 16 + 8 * x, r);
    Small32(r);
  }

  lemma {:induction false} LowTailValue(result: nat, k: nat, b: bytes)
    requires 1 <= k <= 4 && result < Shl(1, 7 * k) && 0 < VarintLen(b) && k + VarintLen(b) <= 10
    requires Varint32Tail(result, 7 * k, b).Ok?
    ensures var n := VarintLen(b);
            Varint32Tail(result, 7 * k, b) == Ok((result + Shl(Base128(b[..n]), 7 * k)) % U32, b[n..])
    decreases 4 - k
  {
    hide Varint32Tail, Absorb, BitOr, Base128, Shl;
    var n := VarintLen(b);
    var x := Base128(b[1..][..n - 1]);
    var y := Base128(b[..n]);
    var d := b[0] % 128;
    Base128Unfold(b);
    if k == 4 {
      var r := result + Shl(b[0] % 16, 28);
      AbsorbTop(result, b[0]);
      TailUnfold(result, 28, b, r);
      TopRemainder(result, b[0], x);
      if b[0] >= 128 {
        HighTailValue(r, 5, b[1..]);
        assert b[1..][n - 1..] == b[n..];
      }
    } else {
      var r := result + Shl(d, 7 * k);
      AbsorbLow(result, k, b[0]);
      TailUnfold(result, 7 * k, b, r);
      ShiftBound(result, d, 7 * k);
      if b[0] >= 128 {
        ShiftSplit(y, 7 * k);
        assert y / 128 == x && y % 128 == d;
        LowTailValue(r, k + 1, b[1..]);
        assert b[1..][n - 1..] == b[n..];
      } else {
        ShlGroups(1);
        SameRemainder(0, r);
      }
    }
  }

  /** On a varint of at most ten bytes that the 32-bit reader accepts, it returns the low 32 bits of what the
      64-bit reader returns, and both stop at the same place. */
  lemma ReadersAgree(b: bytes)
    requires 0 < VarintLen(b) <= 10 && DecVarint32(b).Ok?
    ensures DecVarint(b).Ok?
    ensures DecVarint32(b) == Ok(DecVarint(b).value % U32, DecVarint(b).rest)
  {
    var n := VarintLen(b);
    LowHalf(Base128(b[..n]));
    Base128Unfold(b);
    if b[0] >= 128 {
      ShlGroups(1);
      ShlGroups(Base128(b[1..][..n - 1]));
      LowTailValue(b[0] % 128, 1, b[1..]);
      assert b[1..][n - 1..] == b[n..];
    }
  }

  // ---- the 32-bit reader returns 32-bit numbers ----

  lemma AbsorbBound(result: nat, bitpos: nat, c: byte)
    requires result < U32
    ensures Absorb(result, bitpos, c).Some? ==> Absorb(result, bitpos, c).value < U32
  {
    ShlWords();
    if bitpos < 32 {
      BitOrBound(result, Shl(c % 128, bitpos) % U32, 32);
    }
  }

  lemma {:induction false} Varint32TailBound(result: nat, bitpos: nat, b: bytes)
    requires result < U32
    ensures var p := Varint32Tail(result, bitpos, b); p.Ok? ==> p.value < U32
    decreases |b|
  {
    hide Absorb;
    if b != [] && Absorb(result, bitpos, b[0]).Some? {
      AbsorbBound(result, bitpos, b[0]);
      Varint32TailBound(Absorb(result, bitpos, b[0]).value, (bitpos + 7) % 256, b[1..]);
    }
  }

  lemma Varint32Bound(b: bytes)
    ensures DecVarint32(b).Ok? ==> DecVarint32(b).value < U32
  {
    if b != [] && b[0] >= 128 {
      Varint32TailBound(b[0] % 128, 7, b[1..]);
    }
  }

  // ---- the 64-bit reader, byte by byte ----

  /** The rest of the 64-bit reader, after the bits below `bitpos` have gone into `result`. */
  function Varint64Tail(result: nat, bitpos: nat, b: bytes): Parsed<nat>
    decreases |b|
  {
    if bitpos >= 64 || b == [] then Fail
    else
      var result' := BitOr(result, Shl(b[0] % 128, bitpos) % U64);
      if b[0] >= 128 then Varint64Tail(result', bitpos + 7, b[1..]) else Ok(result', b[1..])
  }

  lemma Remainder64(q: int, y: int)
    ensures (q * U64 + y) % U64 == y % U64
  {
  }

  lemma Shl63(d: nat)
    ensures Shl(d, 63) == d * U63
  {
    ShlGroups(d);
    ShlGroup(d, 35);
    ShlGroup(d, 42);
    ShlGroup(d, 49);
    ShlGroup(d, 56);
  }

  lemma TopRemainder64(result: nat, y: nat)
    requires result < U63
    ensures (result + Shl(y, 63)) % U64 == result + Shl(y % 2, 63)
    ensures Shl(y, 63) % U64 == Shl(y % 2, 63)
  {
    hide Shl;
    TopSum(result, y);
    TopSum(0, y);
  }

  lemma TopSum(result: nat, y: nat)
    requires result < U63
    ensures (result + Shl(y, 63)) % U64 == result + Shl(y % 2, 63)
  {
    hide Shl;
    Shl63(y);
    Shl63(y % 2);
    Halves63(y);
    var z := result + y % 2 * U63;
    Remainder64(y / 2, z);
    Small64(z);
  }

  lemma Halves63(y: nat)
    ensures y * U63 == y / 2 * U64 + y % 2 * U63
  {
    var h, l := y / 2, y % 2;
    assert y == 2 * h + l;
  }

  lemma Small64(x: nat)
    requires x < U64
    ensures x % U64 == x
  {
  }

  lemma Absorb64(result: nat, n: nat, d: nat)
    requires n <= 8 && result < Shl(1, 7 * n) && d < 128
    ensures BitOr(result, Shl(d, 7 * n) % U64) == result + Shl(d, 7 * n) < U64
    ensures result + Shl(d, 7 * n) < Shl(1, 7 * (n + 1))
  {
    hide BitOr, Shl;
    BitOrDisjoint(result, d, 7 * n);
    ShiftBound(result, d, 7 * n);
    ShlPositive(1, 7 * (n + 1), 63);
    ShlWords();
  }

  /** The tenth byte has room for one bit, and must be the last. */
  lemma Varint64Last(result: nat, b: bytes)
    requires result < Shl(1, 63) && b != []
    ensures Varint64Tail(result, 63, b) ==
            if b[0] < 128 then Ok((result + Shl(b[0], 63)) % U64, b[1..]) else Fail
  {
    hide BitOr, Shl;
    var d := b[0] % 128;
    ShlWords();
    TopRemainder64(result, d);
    BitOrDisjoint(result, d % 2, 63);
    if b[0] >= 128 {
      assert Varint64Tail(BitOr(result, Shl(d, 63) % U64), 70, b[1..]) == Fail;
    }
  }

  lemma {:induction false} Varint64TailValue(result: nat, n: nat, b: bytes)
    requires n <= 9 && result < Shl(1, 7 * n)
    ensures var k := VarintLen(b);
            Varint64Tail(result, 7 * n, b) ==
            if 0 < k && n + k <= 10 then Ok((result + Shl(Base128(b[..k]), 7 * n)) % U64, b[k..]) else Fail
    decreases |b|
  {
    hide BitOr, Shl, Base128;
    if b != [] {
      var k := VarintLen(b);
      var d := b[0] % 128;
      if k > 0 {
        Base128Unfold(b);
        ShiftSplit(Base128(b[..k]), 7 * n);
      }
      if n == 9 {
        Varint64Last(result, b);
      } else {
        Absorb64(result, n, d);
        if b[0] >= 128 {
          Varint64TailValue(result + Shl(d, 7 * n), n + 1, b[1..]);
          assert k > 0 ==> b[1..][k - 1..] == b[k..];
        }
      }
    }
  }

  /** Reading byte by byte gives the value of all groups together. */
  lemma Varint64IsDecVarint(b: bytes)
    ensures Varint64Tail(0, 0, b) == DecVarint(b)
  {
    Varint64TailValue(0, 0, b);
  }

  // ---- exactly what the 32-bit reader accepts ----

  /** The groups of w, which stand at group position k of a 64-bit number, look like sign extension to the 32-bit
      reader: each group below bit 63 is all zeros or all ones, and bit 63 is set. */
  predicate SignLike(w: nat, k: nat)
    decreases 9 - k
  {
    if k < 9 then w >= 128 && (w % 128 == 0 || w % 128 == 127) && SignLike(w / 128, k + 1)
    else w == 1
  }

  /** What is left of a 64-bit number above its first k groups is below this. */
  function Headroom(k: nat): nat
    decreases 9 - k
  {
    if k >= 9 then 2 else 128 * Headroom(k + 1)
  }

  lemma {:induction false} HighTailAccepts(result: nat, k: nat, w: nat)
    requires 5 <= k <= 9 && 0 < w < Headroom(k)
    ensures Varint32Tail(result, 7 * k, EncVarint(w)).Ok? <==> result >= U31 && SignLike(w, k)
    decreases 9 - k
  {
    if w >= 128 {
      EncVarintUnfold(w);
      HighTailAccepts(result, k + 1, w / 128);
    }
  }

  lemma TopTailAccepts(result: nat, w: nat)
    requires result < Shl(1, 28) && 0 < w < 0x10_0000_0000
    ensures Varint32Tail(result, 28, EncVarint(w)).Ok? <==>
            w < 16 || (result + Shl(w % 16, 28) >= U31 && SignLike(w / 128, 5))
  {
    hide Varint32Tail, Absorb, BitOr, SignLike, Shl, Headroom, EncVarint;
    var b := EncVarint(w);
    var r := result + Shl(w % 16, 28);
    FirstGroup(w);
    AbsorbTop(result, b[0]);
    TailUnfold(result, 28, b, r);
    AtGroupFive();
    if w >= 128 {
      EncVarintUnfold(w);
      HighTailAccepts(r, 5, w / 128);
    }
  }

  lemma FirstGroup(w: nat)
    ensures EncVarint(w)[0] % 16 == w % 16
    ensures EncVarint(w)[0] == if w < 128 then w else w % 128 + 128
  {
  }

  lemma AtGroupFive()
    ensures Headroom(5) == 0x2000_0000 && !SignLike(0, 5)
  {
  }

  lemma Quotient28(q: nat, r: nat)
    requires r < 0x1000_0000
    ensures (r + 0x1000_0000 * q) / 0x1000_0000 == q && (r + 0x1000_0000 * q) % 0x1000_0000 == r
  {
  }

  /** The first four groups of a number that has more of them. */
  lemma FourGroups(v: nat)
    requires v >= 0x1000_0000
    ensures var r := v % 0x1000_0000;
            r < Shl(1, 28) && DecVarint32(EncVarint(v)) == Varint32Tail(r, 28, EncVarint(v / 0x1000_0000))
  {
    hide Varint32Tail, Absorb, BitOr, EncVarint, Shl;
    var w1 := v / 128;
    var w2 := w1 / 128;
    var w3 := w2 / 128;
    EncVarintUnfold(v);
    EncVarintUnfold(w1);
    EncVarintUnfold(w2);
    EncVarintUnfold(w3);
    ShlGroups(1);
    ShlGroups(w1 % 128);
    ShlGroups(w2 % 128);
    ShlGroups(w3 % 128);
    var r1: nat := v % 128;
    var r2: nat := r1 + 0x80 * (w1 % 128);
    var r3: nat := r2 + 0x4000 * (w2 % 128);
    var r4: nat := r3 + 0x20_0000 * (w3 % 128);
    assert v == r4 + 0x1000_0000 * (w3 / 128);
    Quotient28(w3 / 128, r4);
    OneMore(r1, 1, w1, r2);
    OneMore(r2, 2, w2, r3);
    OneMore(r3, 3, w3, r4);
  }

  lemma OneMore(r: nat, k: nat, w: nat, r': nat)
    requires w >= 128 && 1 <= k <= 3 && r < Shl(1, 7 * k) && r' == r + Shl(w % 128, 7 * k)
    ensures Varint32Tail(r, 7 * k, EncVarint(w)) == Varint32Tail(r', 7 * k + 7, EncVarint(w / 128))
  {
    hide Varint32Tail, Absorb, BitOr, EncVarint, Shl;
    EncVarintUnfold(w);
    var c := EncVarint(w)[0];
    assert c % 128 == w % 128;
    AbsorbLow(r, k, c);
    TailUnfold(r, 7 * k, EncVarint(w), r');
  }

  lemma LowWord(v: nat)
    ensures v % U32 == v % 0x1000_0000 + 0x1000_0000 * (v / 0x1000_0000 % 16)
  {
    var q, r := v / 0x1000_0000, v % 0x1000_0000;
    SameRemainder(q / 16, r + 0x1000_0000 * (q % 16));
  }

  /** Exactly which encodings of 64-bit values the 32-bit reader accepts: values below 2^32, and values with bits 31
      and 63 set in which each of the groups between is all zeros or all ones. */
  lemma Varint32Accepts(v: nat)
    requires v < U64
    ensures DecVarint32(EncVarint(v)).Ok? <==>
            v < U32 || (v % U32 >= U31 && SignLike(v / 0x8_0000_0000, 5))
  {
    hide Varint32Tail, EncVarint, SignLike, DecVarint32;
    if v < U32 {
      Varint32RoundTrip(v, []);
      assert EncVarint(v) + [] == EncVarint(v);
    } else {
      var w := v / 0x1000_0000;
      FourGroups(v);
      TopTailAccepts(v % 0x1000_0000, w);
      ShlGroups(w % 16);
      LowWord(v);
    }
  }

  lemma AcceptedValue(v: nat)
    requires v < U64 && DecVarint32(EncVarint(v)).Ok?
    ensures DecVarint32(EncVarint(v)) == Ok(v % U32, [])
  {
    hide DecVarint32, EncVarint;
    var b := EncVarint(v);
    EncVarintSpells(v);
    EncVarintFits(v);
    ReadersAgree(b);
    assert b[..|b|] == b && b[|b|..] == [];
  }

  /** A negative 32-bit number written as a 64-bit one is accepted and gives its two's complement. */
  lemma Varint32Negative(v: nat)
    requires U64 - U31 <= v < U64
    ensures DecVarint32(EncVarint(v)) == Ok(v - (U64 - U32), [])
  {
    hide DecVarint32, EncVarint;
    assert SignLike(0x1FFF_FFFF, 5) by {
      assert SignLike(1, 9);
      assert SignLike(0xFF, 8);
      assert SignLike(0x7FFF, 7);
    }
    Varint32Accepts(v);
    AcceptedValue(v);
  }

  /** The reader's overflow check is not complete: it also accepts a number that is no sign-extended 32-bit value,
      and drops its upper half. */
  lemma Varint32AcceptsTooMuch()
    ensures var v := U63 + U31; DecVarint32(EncVarint(v)) == Ok(U31, [])
  {
    hide DecVarint32, EncVarint;
    var v := U63 + U31;
    assert SignLike(0x1000_0000, 5) by {
      assert SignLike(1, 9);
      assert SignLike(0x80, 8);
      assert SignLike(0x4000, 7);
    }
    Varint32Accepts(v);
    AcceptedValue(v);
  }

  /** Any number of empty groups in front of a final zero. */
  function Padding(n: nat): (b: bytes)
    ensures |b| == n + 1
  {
    if n == 0 then [0] else [128] + Padding(n - 1)
  }

  lemma {:induction false} PaddingTail(n: nat, bitpos: nat)
    ensures Varint32Tail(0, bitpos, Padding(n)) == Ok(0, [])
    decreases n
  {
    ShlZero(bitpos);
    if n > 0 {
      assert Padding(n)[1..] == Padding(n - 1);
      PaddingTail(n - 1, (bitpos + 7) % 256);
    }
  }

  /** The 32-bit reader does not limit the length of a varint, while the 64-bit reader stops after ten bytes. */
  lemma OverlongAccepted(n: nat)
    ensures DecVarint32(Padding(n)) == Ok(0, [])
    ensures DecVarint(Padding(n)).Ok? <==> n < 10
  {
    if n > 0 {
      assert Padding(n)[1..] == Padding(n - 1);
      PaddingTail(n - 1, 7);
    }
    PaddingLength(n);
  }

  lemma {:induction false} PaddingLength(n: nat)
    ensures VarintLen(Padding(n)) == n + 1
  {
    if n > 0 {
      assert Padding(n)[1..] == Padding(n - 1);
      PaddingLength(n - 1);
    }
  }
}
