/** Numbers of fixed width: two's complement, zigzag, and little-endian words. */
module Integers {
  import opened Bits
  import opened Varint

  datatype Result<+T> = Success(value: T) | Failure

  /** The number of values of an integer of `size` bytes, for the sizes a field can have. */
  function Modulus(size: nat): (m: nat)
    ensures m > 0
  {
    if size == 1 then 0x100 else if size == 2 then 0x1_0000 else if size == 4 then U32 else U64
  }

  predicate IntegerSize(size: nat) {
    size == 1 || size == 2 || size == 4 || size == 8
  }

  predicate FitsUnsigned(size: nat, n: int) {
    0 <= n < Modulus(size)
  }

  predicate FitsSigned(size: nat, n: int) {
    -(Modulus(size) / 2) <= n < Modulus(size) / 2
  }

  /** The cast of any integer to an unsigned integer of `size` bytes. */
  function ToUnsigned(size: nat, n: int): nat {
    n % Modulus(size)
  }

  /** The cast of any integer to a two's complement integer of `size` bytes. */
  function ToSigned(size: nat, n: int): int {
    var m := n % Modulus(size);
    if m < Modulus(size) / 2 then m else m - Modulus(size)
  }

  lemma Remainder(m: int, n: int)
    requires m > 0
    ensures 0 <= n < m ==> n % m == n
    ensures -m <= n < 0 ==> n % m == n + m
  {
    if -m <= n < 0 {
      assert n == (-1) * m + (n + m);
    }
  }

  /** Casting to an unsigned width leaves exactly the numbers of that width alone. */
  lemma UnsignedCast(size: nat, n: int)
    ensures FitsUnsigned(size, ToUnsigned(size, n))
    ensures FitsUnsigned(size, n) <==> ToUnsigned(size, n) == n
  {
    Remainder(Modulus(size), n);
  }

  /** Casting to a signed width leaves exactly the numbers of that width alone, also when they come through the
      unsigned width. */
  lemma SignedCast(size: nat, n: int)
    ensures FitsSigned(size, ToSigned(size, n))
    ensures FitsSigned(size, n) <==> ToSigned(size, n) == n
    ensures FitsSigned(size, n) ==> ToSigned(size, ToUnsigned(size, n)) == n
  {
    var m := Modulus(size);
    assert m % 2 == 0;
    Remainder(m, n);
    Remainder(m, n % m);
    assert 0 <= n % m < m;
  }

  // ---- zigzag ----

  /** The complement of a 64-bit word. */
  function Not64(v: nat): nat
    requires v < U64
  {
    U64 - 1 - v
  }

  /** A signed number as an unsigned one: doubled, and complemented when negative. */
  function ZigZag(n: int): nat {
    var doubled := ToUnsigned(8, n) * 2 % U64;
    if n < 0 then Not64(doubled) else doubled
  }

  function UnZigZag(v: nat): int
    requires v < U64
  {
    if v % 2 == 1 then ToSigned(8, Not64(v / 2)) else ToSigned(8, v / 2)
  }

  /** Zigzag lists the numbers as 0, -1, 1, -2, 2, ... */
  lemma ZigZagOrder(n: int)
    requires FitsSigned(8, n)
    ensures ZigZag(n) == if n < 0 then -2 * n - 1 else 2 * n
  {
    if n < 0 {
      assert n % U64 == n + U64;
      var d := (n + U64) * 2;
      assert d == U64 + (U64 + 2 * n);
      assert d % U64 == U64 + 2 * n;
    }
  }

  /** Zigzag is a bijection between the signed and the unsigned 64-bit numbers. */
  lemma ZigZagBijection(n: int, v: nat)
    ensures FitsSigned(8, n) ==> ZigZag(n) < U64 && UnZigZag(ZigZag(n)) == n
    ensures v < U64 ==> FitsSigned(8, UnZigZag(v)) && ZigZag(UnZigZag(v)) == v
  {
    if FitsSigned(8, n) {
      ZigZagOrder(n);
      UnZigZagValue(ZigZag(n));
    }
    if v < U64 {
      UnZigZagValue(v);
      ZigZagOrder(UnZigZag(v));
    }
  }

  lemma UnZigZagValue(v: nat)
    requires v < U64
    ensures UnZigZag(v) == if v % 2 == 1 then -(v / 2) - 1 else v / 2
  {
  }

  // ---- little-endian words ----

  function EncFixed(n: nat, v: nat): (b: bytes)
    ensures |b| == n
  {
    if n == 0 then [] else [v % 256] + EncFixed(n - 1, v / 256)
  }

  function Base256(b: bytes): nat {
    if b == [] then 0 else b[0] + 256 * Base256(b[1..])
  }

  function DecFixed(n: nat, b: bytes): Parsed<nat> {
    if n <= |b| then Ok(Base256(b[..n]), b[n..]) else Fail
  }

  lemma {:induction false} EncFixedSpells(n: nat, v: nat)
    requires v < Shl(1, 8 * n)
    ensures Base256(EncFixed(n, v)) == v
  {
    if n > 0 {
      ShlShl(1, 8 * (n - 1), 8);
      Shl8(Shl(1, 8 * (n - 1)));
      assert EncFixed(n, v)[1..] == EncFixed(n - 1, v / 256);
      EncFixedSpells(n - 1, v / 256);
    }
  }

  lemma FixedRoundTrip(n: nat, v: nat, tail: bytes)
    requires v < Shl(1, 8 * n)
    ensures DecFixed(n, EncFixed(n, v) + tail) == Ok(v, tail)
  {
    EncFixedSpells(n, v);
    assert (EncFixed(n, v) + tail)[..n] == EncFixed(n, v);
    assert (EncFixed(n, v) + tail)[n..] == tail;
  }

  lemma DecFixedFrame(n: nat, b: bytes, tail: bytes)
    requires DecFixed(n, b).Ok?
    ensures DecFixed(n, b + tail) == Ok(DecFixed(n, b).value, DecFixed(n, b).rest + tail)
  {
    assert (b + tail)[..n] == b[..n];
    assert (b + tail)[n..] == b[n..] + tail;
  }
}
