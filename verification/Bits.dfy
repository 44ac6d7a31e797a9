/**
 Bitwise operations on unsigned machine words, as functions on naturals, with the facts
 the models use: masking is a remainder, the power-of-two test, packing of nibbles.
 */
module Bits {

  function Pow2(k: nat): (r: nat)
    ensures r > 0
  {
    if k == 0 then 1 else 2 * Pow2(k - 1)
  }

  const WORD := 0x1_0000_0000_0000_0000
  const HALF := 0x8000_0000_0000_0000

  /** Bitwise and. */
  function And(a: nat, b: nat): nat {
    if a == 0 || b == 0 then 0
    else 2 * And(a / 2, b / 2) + (if a % 2 == 1 && b % 2 == 1 then 1 else 0)
  }

  /** Bitwise or. */
  function Or(a: nat, b: nat): nat
    decreases a + b
  {
    if a == 0 then b else if b == 0 then a
    else 2 * Or(a / 2, b / 2) + (if a % 2 == 1 || b % 2 == 1 then 1 else 0)
  }

  /** A 64-bit unsigned value read as a two's-complement signed one. */
  function Signed(x: nat): int
    requires x < WORD
  {
    if x < HALF then x else x - WORD
  }

  /** Difference of two 64-bit values as signed words, wrapping. */
  function SignedDifference(a: nat, b: nat): int
    requires a < WORD && b < WORD
  {
    Signed((a - b) % WORD)
  }

  lemma {:induction false} AndMask(a: nat, k: nat)
    ensures And(a, Pow2(k) - 1) == a % Pow2(k)
    decreases k
  {
    if k == 0 {
    } else if a == 0 {
    } else {
      AndMask(a / 2, k - 1);
      var m := Pow2(k - 1);
      assert (2 * m - 1) / 2 == m - 1 && (2 * m - 1) % 2 == 1;
      HalfRemainder(a, m);
    }
  }

  /** Halving commutes with taking the remainder. */
  lemma HalfRemainder(a: nat, m: nat)
    requires m > 0
    ensures a % (2 * m) == 2 * ((a / 2) % m) + a % 2
  {
    var h := a / 2;
    var q, r := h / m, h % m;
    assert h == m * q + r;
    assert a == (2 * m) * q + (2 * r + a % 2) by { assert 2 * (m * q) == (2 * m) * q; }
    RemainderIs(a, 2 * m, q, 2 * r + a % 2);
  }

  lemma RemainderIs(a: nat, n: nat, q: nat, r: nat)
    requires r < n && a == n * q + r
    ensures a % n == r && a / n == q
  {
    var q', r' := a / n, a % n;
    assert a == n * q' + r';
    if q < q' { MulGap(n, q, q'); } else if q' < q { MulGap(n, q', q); }
  }

  lemma MulGap(n: nat, x: nat, y: nat)
    requires x < y
    ensures n * x + n <= n * y
  {
    var k: nat := y - x - 1;
    assert n * y == n * x + n + n * k;
  }

  ghost predicate PowerOfTwo(n: nat) { exists k: nat :: n == Pow2(k) }

  /** The usual test: clearing the lowest set bit leaves nothing exactly for powers of two. */
  lemma {:induction false} PowerOfTwoTest(n: nat)
    requires n > 0
    ensures And(n, n - 1) == 0 <==> PowerOfTwo(n)
  {
    if n == 1 {
      assert n == Pow2(0);
    } else if n % 2 == 1 {
      assert And(n, n - 1) > 0 by { AndSelf(n / 2); }
      forall k: nat ensures n != Pow2(k) { if k > 0 { assert Pow2(k) == 2 * Pow2(k - 1); } }
    } else {
      var h := n / 2;
      PowerOfTwoTest(h);
      assert (n - 1) / 2 == h - 1;
      if PowerOfTwo(h) {
        var k: nat :| h == Pow2(k);
        assert n == Pow2(k + 1);
      }
      if PowerOfTwo(n) {
        var k: nat :| n == Pow2(k);
        assert k > 0 && h == Pow2(k - 1);
      }
    }
  }

  lemma {:induction false} AndSelf(n: nat)
    ensures And(n, n) == n
  {
    if n > 0 {
      assert And(n, n) == 2 * And(n / 2, n / 2) + n % 2;
      hide And;
      AndSelf(n / 2);
    }
  }

  lemma {:induction false} Pow2Product(j: nat, k: nat)
    ensures Pow2(j) * Pow2(k) == Pow2(j + k)
  {
    if j > 0 {
      Pow2Product(j - 1, k);
      assert Pow2(j) * Pow2(k) == 2 * (Pow2(j - 1) * Pow2(k));
    }
  }

  lemma {:induction false} Pow2Grows(j: nat, k: nat)
    requires j <= k
    ensures Pow2(j) <= Pow2(k)
    decreases k
  {
    if j < k { Pow2Grows(j, k - 1); }
  }

  lemma Pow2Square(k: nat, x: nat)
    requires Pow2(k) == x
    ensures Pow2(2 * k) == x * x
  {
    Pow2Product(k, k);
  }

  lemma WordIsPow2()
    ensures Pow2(32) == 0x1_0000_0000 && Pow2(64) == WORD
  {
    assert Pow2(2) == 4;
    Pow2Square(2, 4);
    Pow2Square(4, 16);
    Pow2Square(8, 0x100);
    Pow2Square(16, 0x1_0000);
    Pow2Square(32, 0x1_0000_0000);
  }

  /** A word's worth below zero is one word short. */
  lemma NegativeRemainder(x: int, n: nat)
    requires n > 0 && -(n as int) <= x < 0
    ensures x % n == x + n
  {
    var q := x / n;
    assert x == n * q + x % n && n * (q + 2) == n * q + 2 * n;
    FactorSign(n, q);
    FactorSign(n, q + 2);
    assert q == -1;
  }

  lemma FactorSign(n: nat, q: int)
    requires n > 0
    ensures (n * q > 0 <==> q > 0) && (n * q < 0 <==> q < 0)
  {
  }

  /** The absolute value in unsigned arithmetic, right for the most negative value too. */
  lemma AbsoluteInWord(value: int, word: nat)
    requires word > 0 && -(word / 2) <= value < word
    ensures value < 0 ==> (0 - value % word) % word == -value
    ensures value >= 0 ==> value % word == value
  {
    if value < 0 {
      NegativeRemainder(value, word);
      NegativeRemainder(0 - (value + word), word);
    } else {
      RemainderIs(value, word, 0, value);
    }
  }

  /** How the source takes it: converted to unsigned, and negated there. */
  method AbsoluteValue(value: int, word: nat) returns (absValue: nat)
    requires word > 0 && -(word / 2) <= value < word
    ensures absValue == if value < 0 then -value else value
  {
    AbsoluteInWord(value, word);
    absValue := value % word;
    if value < 0 { absValue := (0 - absValue) % word; }
  }

  /** Whole words do not change a remainder. */
  lemma AddWords(x: nat, n: nat, k: nat)
    requires n > 0
    ensures (x + n * k) % n == x % n
  {
    var q, r := x / n, x % n;
    assert x == n * q + r && n * (q + k) == n * q + n * k;
    RemainderIs(x + n * k, n, q + k, r);
  }
}
