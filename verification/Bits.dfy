/** Bytes, shifts, and bitwise OR on natural numbers. */
module Bits {
  type byte = b: int | 0 <= b < 256
  type bytes = seq<byte>

  const U31: nat := 0x8000_0000
  const U32: nat := 0x1_0000_0000
  const U63: nat := 0x8000_0000_0000_0000
  const U64: nat := 0x1_0000_0000_0000_0000

  /** v << n on unbounded numbers; a machine word of w bits keeps the remainder modulo Shl(1, w). */
  function Shl(v: nat, n: nat): nat {
    if n == 0 then v else 2 * Shl(v, n - 1)
  }

  /** Bitwise OR, bit by bit from the least significant end. */
  function BitOr(a: nat, b: nat): nat {
    if a == 0 then b
    else if b == 0 then a
    else (if a % 2 == 1 || b % 2 == 1 then 1 else 0) + 2 * BitOr(a / 2, b / 2)
  }

  lemma {:induction false} ShlSum(v: nat, w: nat, n: nat)
    ensures Shl(v + w, n) == Shl(v, n) + Shl(w, n)
  {
    if n > 0 {
      ShlSum(v, w, n - 1);
    }
  }

  lemma ShlMonotone(v: nat, w: nat, n: nat)
    requires v <= w
    ensures Shl(v, n) <= Shl(w, n)
  {
    ShlSum(v, w - v, n);
  }

  lemma {:induction false} ShlShl(v: nat, m: nat, n: nat)
    ensures Shl(Shl(v, m), n) == Shl(v, m + n)
  {
    if n > 0 {
      ShlShl(v, m, n - 1);
    }
  }

  lemma {:induction false} ShlPositive(v: nat, m: nat, n: nat)
    requires v > 0 && m <= n
    ensures 0 < Shl(v, m) <= Shl(v, n)
  {
    if m < n {
      ShlPositive(v, m, n - 1);
    } else if n > 0 {
      ShlPositive(v, n - 1, n - 1);
    }
  }

  lemma {:induction false} ShlZero(n: nat)
    ensures Shl(0, n) == 0
  {
    if n > 0 {
      ShlZero(n - 1);
    }
  }

  /** Shifting by one more group of seven bits. */
  lemma ShlGroup(v: nat, n: nat)
    ensures Shl(v, n + 7) == 128 * Shl(v, n)
  {
    ShlShl(v, n, 7);
    Shl7(Shl(v, n));
  }

  lemma Shl7(v: nat)
    ensures Shl(v, 7) == 128 * v
  {
    assert Shl(v, 1) == 2 * v;
    assert Shl(v, 3) == 8 * v;
    assert Shl(v, 5) == 32 * v;
  }

  lemma Shl8(v: nat)
    ensures Shl(v, 8) == 256 * v
  {
    Shl7(v);
  }

  /** The shifts by whole groups of seven bits inside a 32-bit word. */
  lemma ShlGroups(v: nat)
    ensures Shl(v, 7) == 0x80 * v && Shl(v, 14) == 0x4000 * v && Shl(v, 21) == 0x20_0000 * v
    ensures Shl(v, 28) == 0x1000_0000 * v && Shl(v, 35) == 0x8_0000_0000 * v
  {
    Shl7(v);
    ShlGroup(v, 7);
    ShlGroup(v, 14);
    ShlGroup(v, 21);
    ShlGroup(v, 28);
  }

  /** The machine-word sizes. */
  lemma ShlWords()
    ensures Shl(1, 8) == 0x100 && Shl(1, 16) == 0x1_0000 && Shl(1, 31) == U31 && Shl(1, 32) == U32
    ensures Shl(1, 63) == U63 && Shl(1, 64) == U64
  {
    ShlGroups(1);
    ShlGroup(1, 35);
    ShlGroup(1, 42);
    ShlGroup(1, 49);
    ShlGroup(1, 56);
  }

  lemma {:induction false} BitOrBound(a: nat, b: nat, k: nat)
    requires a < Shl(1, k) && b < Shl(1, k)
    ensures BitOr(a, b) < Shl(1, k)
  {
    if a != 0 && b != 0 {
      BitOrBound(a / 2, b / 2, k - 1);
    }
  }

  /** OR of numbers whose set bits do not overlap is their sum. */
  lemma {:induction false} BitOrDisjoint(a: nat, c: nat, k: nat)
    requires a < Shl(1, k)
    ensures BitOr(a, Shl(c, k)) == a + Shl(c, k)
  {
    if a != 0 {
      BitOrDisjoint(a / 2, c, k - 1);
    }
  }
}
