/** The bitmap in which the decoder notes the required fields it has met: two words of 32 bits. */
module RequiredBitmap {
  import opened Bits
  import opened Descriptor
  import opened Message
  import opened DecodeSpec

  // ---- bits of a word ----

  predicate Bit(w: nat, k: nat) {
    if k == 0 then w % 2 == 1 else Bit(w / 2, k - 1)
  }

  function Shr(w: nat, n: nat): nat {
    if n == 0 then w else Shr(w / 2, n - 1)
  }

  lemma {:induction false} ZeroBits(k: nat)
    ensures !Bit(0, k)
  {
    if k > 0 {
      ZeroBits(k - 1);
    }
  }

  lemma {:induction false} OrBits(a: nat, b: nat, k: nat)
    ensures Bit(BitOr(a, b), k) <==> Bit(a, k) || Bit(b, k)
  {
    if a == 0 || b == 0 {
      ZeroBits(k);
    } else if k > 0 {
      OrBits(a / 2, b / 2, k - 1);
    }
  }

  lemma {:induction false} OneBit(j: nat, k: nat)
    ensures Bit(Shl(1, j), k) <==> j == k
  {
    if k == 0 {
    } else if j == 0 {
      ZeroBits(k - 1);
    } else {
      OneBit(j - 1, k - 1);
    }
  }

  /** Among the lowest m bits exactly those below n are set. */
  predicate LowOnes(w: nat, n: nat, m: nat) {
    m == 0 || ((w % 2 == 1 <==> n > 0) && LowOnes(w / 2, if n == 0 then 0 else n - 1, m - 1))
  }

  /** Bit k of w is set exactly when k is below n. */
  predicate BitAsked(w: nat, n: nat, k: nat) {
    Bit(w, k) <==> k < n
  }

  lemma {:induction false} LowOnesGive(w: nat, n: nat, m: nat, k: nat)
    requires LowOnes(w, n, m) && k < m
    ensures BitAsked(w, n, k)
  {
    if k > 0 {
      LowOnesGive(w / 2, if n == 0 then 0 else n - 1, m - 1, k - 1);
    }
  }

  lemma {:induction false} LowOnesFrom(w: nat, n: nat, m: nat)
    requires forall k :: 0 <= k < m ==> BitAsked(w, n, k)
    ensures LowOnes(w, n, m)
  {
    if m > 0 {
      var n' := if n == 0 then 0 else n - 1;
      assert BitAsked(w, n, 0);
      forall k | 0 <= k < m - 1
        ensures BitAsked(w / 2, n', k)
      {
        assert BitAsked(w, n, k + 1);
      }
      LowOnesFrom(w / 2, n', m - 1);
    }
  }

  lemma {:induction false} LowOnesValue(w: nat, n: nat, m: nat)
    requires w < Shl(1, m) && n <= m
    ensures w == Shl(1, n) - 1 <==> LowOnes(w, n, m)
  {
    if m > 0 {
      LowOnesValue(w / 2, if n == 0 then 0 else n - 1, m - 1);
    }
  }

  /** A word is the number with n ones exactly when its bits below n are set and the others are not. */
  lemma Ones(w: nat, n: nat, m: nat)
    requires w < Shl(1, m) && n <= m
    ensures w == Shl(1, n) - 1 <==> forall k :: 0 <= k < m ==> BitAsked(w, n, k)
  {
    hide BitAsked, LowOnes;
    LowOnesValue(w, n, m);
    if LowOnes(w, n, m) {
      forall k | 0 <= k < m
        ensures BitAsked(w, n, k)
      {
        LowOnesGive(w, n, m, k);
      }
    } else if forall k :: 0 <= k < m ==> BitAsked(w, n, k) {
      LowOnesFrom(w, n, m);
    }
  }

  /** The mask of the remaining bits: all ones shifted down. */
  lemma {:induction false} OnesMask(m: nat, n: nat)
    requires n <= m
    ensures Shl(1, m) > 0 && Shr(Shl(1, m) - 1, m - n) == Shl(1, n) - 1
    decreases m - n
  {
    ShlPositive(1, 0, m);
    if n < m {
      assert (Shl(1, m) - 1) / 2 == Shl(1, m - 1) - 1;
      OnesMask(m - 1, n);
    }
  }

  // ---- the two words ----

  predicate WordsOk(words: seq<nat>) {
    |words| == 2 && words[0] < U32 && words[1] < U32
  }

  predicate Seen(words: seq<nat>, k: nat)
    requires |words| == 2
  {
    k < MAX_REQUIRED && Bit(words[k / 32], k % 32)
  }

  /** Notes the required field with the given index. */
  method Mark(words: array<nat>, index: nat)
    requires WordsOk(words[..]) && index < MAX_REQUIRED
    modifies words
    ensures WordsOk(words[..])
    ensures forall k :: 0 <= k < MAX_REQUIRED ==> (Seen(words[..], k) <==> Seen(old(words[..]), k) || k == index)
  {
    hide Bit, Shl, BitOr;
    ghost var was := words[..];
    var bit := Shl(1, index % 32);
    words[index / 32] := BitOr(words[index / 32], bit);
    assert words[..] == was[index / 32 := BitOr(was[index / 32], bit)];
    ShlWords();
    ShlPositive(1, index % 32, 31);
    BitOrBound(was[index / 32], bit, 32);
    forall k | 0 <= k < MAX_REQUIRED
      ensures Seen(words[..], k) <==> Seen(was, k) || k == index
    {
      OrBits(was[index / 32], bit, k % 32);
      OneBit(index % 32, k % 32);
    }
  }

  /** Compares whole words first and then the remaining bits with a mask. */
  method Check(words: array<nat>, required: nat) returns (ok: bool)
    requires WordsOk(words[..])
    requires forall k :: required <= k < MAX_REQUIRED ==> !Seen(words[..], k)
    ensures ok <==> forall k :: 0 <= k < required && k < MAX_REQUIRED ==> Seen(words[..], k)
  {
    hide Bit, Shl, Shr;
    var count := if required > MAX_REQUIRED then MAX_REQUIRED else required;
    ghost var w := words[..];
    CheckMeaning(w, count);
    if count > 0 {
      var i := 0;
      while i < count / 32
        invariant 0 <= i <= count / 32
        invariant forall j :: 0 <= j < i ==> words[j] == U32 - 1
      {
        if words[i] != U32 - 1 {
          return false;
        }
        i := i + 1;
      }
      if count % 32 != 0 {
        if words[count / 32] != Shr(U32 - 1, 32 - count % 32) {
          return false;
        }
      }
    }
    return true;
  }

  /** The comparison of words and mask says that every counted bit is set. */
  lemma CheckMeaning(words: seq<nat>, count: nat)
    requires WordsOk(words) && count <= MAX_REQUIRED
    requires forall k :: count <= k < MAX_REQUIRED ==> !Seen(words, k)
    ensures (forall k :: 0 <= k < count ==> Seen(words, k)) <==>
            (forall j :: 0 <= j < count / 32 ==> words[j] == U32 - 1) &&
            (count % 32 != 0 ==> words[count / 32] == Shr(U32 - 1, 32 - count % 32))
  {
    hide Bit, Shl, Shr;
    ShlWords();
    OnesMask(32, count % 32);
    OnesMask(32, 32);
    WordMeaning(words, count, 0);
    WordMeaning(words, count, 1);
    assert (forall k :: 0 <= k < count ==> Seen(words, k)) <==> WordHolds(words, count, 0) && WordHolds(words, count, 1);
  }

  /** The counted bits of word j are set. */
  ghost predicate WordHolds(words: seq<nat>, count: nat, j: nat)
    requires |words| == 2
  {
    forall k :: 32 * j <= k < 32 * j + 32 && k < count ==> Seen(words, k)
  }

  lemma WordMeaning(words: seq<nat>, count: nat, j: nat)
    requires WordsOk(words) && j < 2 && count <= MAX_REQUIRED
    requires forall k :: count <= k < MAX_REQUIRED ==> !Seen(words, k)
    ensures j < count / 32 ==> (WordHolds(words, count, j) <==> words[j] == Shl(1, 32) - 1)
    ensures j == count / 32 ==> (WordHolds(words, count, j) <==> words[j] == Shl(1, count % 32) - 1)
    ensures j > count / 32 ==> WordHolds(words, count, j)
  {
    hide Shl, Bit;
    ShlWords();
    var n := if j < count / 32 then 32 else if j == count / 32 then count % 32 else 0;
    Ones(words[j], n, 32);
    if WordHolds(words, count, j) {
      forall b | 0 <= b < 32
        ensures BitAsked(words[j], n, b)
      {
        BitOfWord(words, j, b);
      }
    } else {
      var k :| 32 * j <= k < 32 * j + 32 && k < count && !Seen(words, k);
      BitOfWord(words, j, k - 32 * j);
      assert !BitAsked(words[j], n, k - 32 * j);
    }
  }

  lemma BitOfWord(words: seq<nat>, j: nat, b: nat)
    requires |words| == 2 && j < 2 && b < 32
    ensures Bit(words[j], b) <==> Seen(words, 32 * j + b)
  {
    assert (32 * j + b) / 32 == j && (32 * j + b) % 32 == b;
  }
}
