/**
 Decimal digits: counting them with a bit trick, writing them two at a time from the back,
 and reading them again.
 */
module Digits {
  import opened Bits

  function Pow10(k: nat): (r: nat)
    ensures r > 0
  {
    if k == 0 then 1 else 10 * Pow10(k - 1)
  }

  function Digit(d: nat): char
    requires d < 10
  {
    '0' + d as char
  }

  predicate IsDigit(c: char) { '0' <= c <= '9' }

  predicate AllDigits(s: string) { forall i :: 0 <= i < |s| ==> IsDigit(s[i]) }

  /** The decimal numeral of n, without leading zeros. */
  function Decimal(n: nat): (s: string)
    ensures |s| == DigitCount(n) && AllDigits(s)
  {
    if n < 10 then [Digit(n)] else Decimal(n / 10) + [Digit(n % 10)]
  }

  function DigitOf(c: char): (d: nat)
    requires IsDigit(c)
    ensures d < 10 && Digit(d) == c
  {
    c as int - '0' as int
  }

  /** The number a digit string denotes. */
  function Value(s: string): nat
    requires AllDigits(s)
  {
    if s == [] then 0 else 10 * Value(s[..|s|-1]) + DigitOf(s[|s|-1])
  }

  function DigitCount(n: nat): nat {
    if n < 10 then 1 else 1 + DigitCount(n / 10)
  }

  lemma {:induction false} DecimalRoundTrip(n: nat)
    ensures Value(Decimal(n)) == n
  {
    if n >= 10 {
      DecimalRoundTrip(n / 10);
      assert Decimal(n)[..|Decimal(n)|-1] == Decimal(n / 10);
    } else {
      assert Decimal(n)[..0] == [];
    }
  }

  /** The count is the true one: n has c digits exactly when it lies between powers of ten. */
  lemma {:induction false} DigitCountIs(n: nat, c: nat)
    ensures DigitCount(n) == c <==> c >= 1 && (c == 1 || Pow10(c - 1) <= n) && n < Pow10(c)
  {
    DigitCountBounds(n);
    var d := DigitCount(n);
    if c >= 1 && c < d { Pow10Grows(c, d - 1); }
    if c > d { Pow10Grows(d, c - 1); }
  }

  lemma {:induction false} DigitCountBounds(n: nat)
    ensures var c := DigitCount(n); c >= 1 && (c == 1 || Pow10(c - 1) <= n) && n < Pow10(c)
  {
    if n >= 10 { DigitCountBounds(n / 10); }
  }

  lemma {:induction false} Pow10Grows(j: nat, k: nat)
    requires j <= k
    ensures Pow10(j) <= Pow10(k)
    decreases k
  {
    if j < k { Pow10Grows(j, k - 1); }
  }

  // ----- count_digits -----

  const POWERS_OF_10_32: seq<nat> :=
    [0, 10, 100, 1000, 10000, 100000, 1000000, 10000000, 100000000, 1000000000]

  const POWERS_OF_10_64: seq<nat> :=
    [0, 10, 100, 1000, 10000, 100000, 1000000, 10000000, 100000000, 1000000000,
     10000000000, 100000000000, 1000000000000, 10000000000000, 100000000000000,
     1000000000000000, 10000000000000000, 100000000000000000, 1000000000000000000,
     10000000000000000000]

  /** Word size minus the count of leading zeros. */
  function BitLength(n: nat): nat {
    if n == 0 then 0 else 1 + BitLength(n / 2)
  }

  /** The table index of the bit trick. */
  function Estimate(n: nat): nat { BitLength(Or(n, 1)) * 1233 / 4096 }

  function CountDigits64(n: nat): nat
    requires n < WORD
  {
    EstimateInTable(n);
    var t := Estimate(n);
    t - (if n < POWERS_OF_10_64[t] then 1 else 0) + 1
  }

  function CountDigits32(n: nat): nat
    requires n < 0x1_0000_0000
  {
    EstimateInTable(n);
    var t := Estimate(n);
    t - (if n < POWERS_OF_10_32[t] then 1 else 0) + 1
  }

  lemma {:induction false} BitLengthBounds(n: nat)
    requires n > 0
    ensures var b := BitLength(n); b >= 1 && Pow2(b - 1) <= n < Pow2(b)
  {
    if n > 1 { BitLengthBounds(n / 2); }
  }

  lemma {:induction false} BitLengthLimit(n: nat, k: nat)
    requires n < Pow2(k)
    ensures BitLength(n) <= k
  {
    if n > 0 { BitLengthLimit(n / 2, k - 1); }
  }

  /** Setting the lowest bit changes the length of zero only. */
  lemma LowestBit(n: nat)
    ensures BitLength(Or(n, 1)) == if n == 0 then 1 else BitLength(n)
  {
    if n > 0 {
      assert Or(n / 2, 0) == n / 2;
      assert Or(n, 1) == 2 * (n / 2) + 1;
    }
  }

  lemma EstimateInTable(n: nat)
    ensures n < 0x1_0000_0000 ==> Estimate(n) < 10 == |POWERS_OF_10_32|
    ensures n < WORD ==> Estimate(n) < 20 == |POWERS_OF_10_64|
  {
    LowestBit(n);
    WordIsPow2();
    if n < 0x1_0000_0000 { BitLengthLimit(n, 32); }
    if n < WORD { BitLengthLimit(n, 64); }
  }

  /** The longest bit length whose estimate is u. */
  function Top(u: nat): nat { (4096 * u + 4095) / 1233 }

  /** Two to the longest length of each estimate. */
  const TOP_POWERS: seq<nat> := [
    8, 64, 512, 8192, 65536, 524288, 8388608, 67108864, 536870912, 8589934592, 68719476736, 549755813888,
    8796093022208, 70368744177664, 562949953421312, 9007199254740992, 72057594037927936, 576460752303423488,
    9223372036854775808, 73786976294838206464]

  lemma Pow2Step(k: nat)
    ensures Pow2(k + 3) == 8 * Pow2(k) && Pow2(k + 4) == 16 * Pow2(k)
  {
    assert Pow2(k + 1) == 2 * Pow2(k) && Pow2(k + 2) == 4 * Pow2(k);
  }

  lemma {:induction false} TopPowerValues(u: nat)
    requires u < 20
    ensures Pow2(Top(u)) == TOP_POWERS[u]
  {
    if u == 0 {
      assert Pow2(3) == 8;
    } else {
      TopPowerValues(u - 1);
      Pow2Step(Top(u - 1));
      TopPowersGrow(u);
    }
  }

  lemma TopPowersGrow(u: nat)
    requires 0 < u < 20
    ensures TOP_POWERS[u] == (if Top(u) == Top(u - 1) + 3 then 8 else 16) * TOP_POWERS[u-1]
    ensures Top(u) == Top(u - 1) + 3 || Top(u) == Top(u - 1) + 4
  {
  }

  lemma {:induction false} TenPowerValues(u: nat)
    requires u < 20
    ensures POWERS_OF_10_64[u] == if u == 0 then 0 else Pow10(u)
  {
    if u > 1 { TenPowerValues(u - 1); }
    if u == 1 { assert Pow10(1) == 10 * Pow10(0); }
  }

  /** The longest words of each estimate, against the powers of ten around them. */
  lemma TopPowers(u: nat)
    requires u < 20
    ensures Pow10(u) <= Pow2(Top(u)) <= Pow10(u + 1)
  {
    TopPowerValues(u);
    TenPowerValues(u);
    assert Pow10(0) == 1;
    assert u > 0 ==> POWERS_OF_10_64[u] <= TOP_POWERS[u] <= 10 * POWERS_OF_10_64[u];
  }

  /** The estimate is the digit count or one less. */
  lemma EstimateBrackets(n: nat)
    requires n < WORD
    ensures var t := Estimate(n); t < 20 && n < Pow10(t + 1) && (t > 0 ==> Pow10(t - 1) <= n)
  {
    hide Or, BitLength, Pow2;
    EstimateInTable(n);
    LowestBit(n);
    var b, t := BitLength(Or(n, 1)), Estimate(n);
    TopPowers(t);
    if n == 0 {
      assert t == 0;
    } else {
      BitLengthBounds(n);
      assert b <= Top(t);
      Pow2Grows(b, Top(t));
      if t > 0 {
        TopPowers(t - 1);
        assert Top(t - 1) <= b - 1;
        Pow2Grows(Top(t - 1), b - 1);
      }
    }
  }

  lemma TablesAgree(t: nat)
    requires t < 10
    ensures POWERS_OF_10_32[t] == POWERS_OF_10_64[t]
  {
  }

  /** The bit trick counts decimal digits, for every 64-bit and every 32-bit word. */
  lemma CountDigitsCorrect(n: nat)
    ensures n < WORD ==> CountDigits64(n) == DigitCount(n) == |Decimal(n)|
    ensures n < 0x1_0000_0000 ==> CountDigits32(n) == DigitCount(n)
  {
    hide POWERS_OF_10_32, POWERS_OF_10_64, Estimate, Pow10;
    if n < WORD {
      EstimateBrackets(n);
      EstimateInTable(n);
      var t := Estimate(n);
      TenPowerValues(t);
      DigitCountIs(n, t);
      DigitCountIs(n, t + 1);
      if t < 10 { TablesAgree(t); }
    }
  }

  /** The fallback without leading-zero counts: four digits per division. */
  method CountDigitsByDivision(value: nat) returns (count: nat)
    ensures count == DigitCount(value)
  {
    var n := value;
    count := 1;
    while true
      invariant count - 1 + DigitCount(n) == DigitCount(value)
      decreases n
    {
      SmallCounts(n);
      if n < 10 { return; }
      if n < 100 { return count + 1; }
      if n < 1000 { return count + 2; }
      if n < 10000 { return count + 3; }
      FourDigits(n);
      n := n / 10000;
      count := count + 4;
    }
  }

  lemma SmallCounts(n: nat)
    ensures 10 <= n < 100 ==> DigitCount(n) == 2
    ensures 100 <= n < 1000 ==> DigitCount(n) == 3
    ensures 1000 <= n < 10000 ==> DigitCount(n) == 4
  {
    if 10 <= n < 10000 {
      assert DigitCount(n) == 1 + DigitCount(n / 10);
      if n >= 100 { assert DigitCount(n / 10) == 1 + DigitCount(n / 10 / 10); }
    }
  }

  lemma FourDigits(n: nat)
    requires n >= 10000
    ensures DigitCount(n) == 4 + DigitCount(n / 10000)
  {
    assert DigitCount(n) == 1 + DigitCount(n / 10);
    assert DigitCount(n / 10) == 1 + DigitCount(n / 10 / 10);
    assert DigitCount(n / 10 / 10) == 1 + DigitCount(n / 10 / 10 / 10);
    assert n / 10 / 10 / 10 / 10 == n / 10000;
  }

  // ----- writing -----

  const DIGITS_00: string := "0001020304050607080910111213141516171819"
  const DIGITS_20: string := "2021222324252627282930313233343536373839"
  const DIGITS_40: string := "4041424344454647484950515253545556575859"
  const DIGITS_60: string := "6061626364656667686970717273747576777879"
  const DIGITS_80: string := "8081828384858687888990919293949596979899"

  const DIGITS: string := DIGITS_00 + DIGITS_20 + DIGITS_40 + DIGITS_60 + DIGITS_80

  lemma PairsFrom00(j: nat)
    requires j < 10
    ensures |DIGITS_00| == 40
    ensures DIGITS_00[2*j] == Digit(0) && DIGITS_00[2*j+1] == Digit(j)
    ensures DIGITS_00[20+2*j] == Digit(1) && DIGITS_00[20+2*j+1] == Digit(j)
  {
    if j < 3 {} else if j < 7 {} else {}
  }

  lemma PairsFrom20(j: nat)
    requires j < 10
    ensures |DIGITS_20| == 40
    ensures DIGITS_20[2*j] == Digit(2) && DIGITS_20[2*j+1] == Digit(j)
    ensures DIGITS_20[20+2*j] == Digit(3) && DIGITS_20[20+2*j+1] == Digit(j)
  {
    if j < 3 {} else if j < 7 {} else {}
  }

  lemma PairsFrom40(j: nat)
    requires j < 10
    ensures |DIGITS_40| == 40
    ensures DIGITS_40[2*j] == Digit(4) && DIGITS_40[2*j+1] == Digit(j)
    ensures DIGITS_40[20+2*j] == Digit(5) && DIGITS_40[20+2*j+1] == Digit(j)
  {
    if j < 3 {} else if j < 7 {} else {}
  }

  lemma PairsFrom60(j: nat)
    requires j < 10
    ensures |DIGITS_60| == 40
    ensures DIGITS_60[2*j] == Digit(6) && DIGITS_60[2*j+1] == Digit(j)
    ensures DIGITS_60[20+2*j] == Digit(7) && DIGITS_60[20+2*j+1] == Digit(j)
  {
    if j < 3 {} else if j < 7 {} else {}
  }

  lemma PairsFrom80(j: nat)
    requires j < 10
    ensures |DIGITS_80| == 40
    ensures DIGITS_80[2*j] == Digit(8) && DIGITS_80[2*j+1] == Digit(j)
    ensures DIGITS_80[20+2*j] == Digit(9) && DIGITS_80[20+2*j+1] == Digit(j)
  {
    if j < 3 {} else if j < 7 {} else {}
  }

  lemma FiveRows(a: string, b: string, c: string, d: string, e: string)
    requires |a| == |b| == |c| == |d| == |e| == 40
    ensures var t := a + b + c + d + e;
      |t| == 200 && t[0..40] == a && t[40..80] == b && t[80..120] == c && t[120..160] == d && t[160..200] == e
  {
  }

  /** The table row by row. */
  lemma TableRows()
    ensures |DIGITS_00| == |DIGITS_20| == |DIGITS_40| == |DIGITS_60| == |DIGITS_80| == 40 && |DIGITS| == 200
    ensures DIGITS[0..40] == DIGITS_00 && DIGITS[40..80] == DIGITS_20 && DIGITS[80..120] == DIGITS_40
    ensures DIGITS[120..160] == DIGITS_60 && DIGITS[160..200] == DIGITS_80
  {
    hide DIGITS_00, DIGITS_20, DIGITS_40, DIGITS_60, DIGITS_80, Digit;
    PairsFrom00(0); PairsFrom20(0); PairsFrom40(0); PairsFrom60(0); PairsFrom80(0);
    FiveRows(DIGITS_00, DIGITS_20, DIGITS_40, DIGITS_60, DIGITS_80);
  }

  /** The pairs of one row, found in the table. */
  lemma PairsInRow(table: string, row: string, at: nat, tens: nat, j: nat)
    requires j < 10 && tens + 1 < 10 && |row| == 40 && at + 40 <= |table| && table[at..at + 40] == row
    requires row[2*j] == Digit(tens) && row[2*j+1] == Digit(j)
    requires row[20+2*j] == Digit(tens + 1) && row[20+2*j+1] == Digit(j)
    ensures table[at + 2*j] == Digit(tens) && table[at + 2*j+1] == Digit(j)
    ensures table[at + 20+2*j] == Digit(tens + 1) && table[at + 20+2*j+1] == Digit(j)
  {
    hide Digit;
    var found := table[at..at + 40];
    assert table[at + 2*j] == found[2*j] && table[at + 2*j+1] == found[2*j+1];
    assert table[at + 20+2*j] == found[20+2*j] && table[at + 20+2*j+1] == found[20+2*j+1];
  }

  lemma TablePair(row: nat, j: nat)
    requires row < 5 && j < 10
    ensures |DIGITS| == 200
    ensures DIGITS[40*row + 2*j] == Digit(2 * row) && DIGITS[40*row + 2*j+1] == Digit(j)
    ensures DIGITS[40*row + 20+2*j] == Digit(2 * row + 1) && DIGITS[40*row + 20+2*j+1] == Digit(j)
  {
    hide Digit, DIGITS, DIGITS_00, DIGITS_20, DIGITS_40, DIGITS_60, DIGITS_80;
    TableRows();
    if row == 0 {
      PairsFrom00(j);
      PairsInRow(DIGITS, DIGITS_00, 0, 0, j);
    } else if row == 1 {
      PairsFrom20(j);
      PairsInRow(DIGITS, DIGITS_20, 40, 2, j);
    } else if row == 2 {
      PairsFrom40(j);
      PairsInRow(DIGITS, DIGITS_40, 80, 4, j);
    } else if row == 3 {
      PairsFrom60(j);
      PairsInRow(DIGITS, DIGITS_60, 120, 6, j);
    } else {
      PairsFrom80(j);
      PairsInRow(DIGITS, DIGITS_80, 160, 8, j);
    }
  }

  /** Entry i of the pair table is the two-digit numeral of i. */
  lemma DigitPair(i: nat)
    requires i < 100
    ensures |DIGITS| == 200 && DIGITS[2*i] == Digit(i / 10) && DIGITS[2*i+1] == Digit(i % 10)
  {
    hide DIGITS, Digit;
    TablePair(i / 20, i % 10);
    assert i == 20 * (i / 20) + (if i / 10 % 2 == 0 then 0 else 10) + i % 10;
  }

  lemma PairArithmetic(n: nat)
    ensures n / 10 / 10 == n / 100
    ensures n % 100 / 10 == n / 10 % 10 && n % 100 % 10 == n % 10
  {
  }

  /** A numeral of three or more digits ends in the pair of its remainder by 100. */
  lemma DecimalEndsInPair(n: nat)
    requires n >= 100
    ensures |DIGITS| == 200
    ensures Decimal(n) == Decimal(n / 100) + [DIGITS[2 * (n % 100)], DIGITS[2 * (n % 100) + 1]]
  {
    hide DIGITS, Digit;
    PairArithmetic(n);
    var i := n % 100;
    DigitPair(i);
    var tens, ones := Digit(n / 10 % 10), Digit(n % 10);
    assert [DIGITS[2 * i], DIGITS[2 * i + 1]] == [tens, ones];
    assert Decimal(n / 10) == Decimal(n / 100) + [tens];
    assert Decimal(n) == Decimal(n / 10) + [ones];
  }

  lemma LastDigits(n: nat)
    requires n < 100
    ensures |DIGITS| == 200
    ensures n < 10 ==> Decimal(n) == [Digit(n)]
    ensures n >= 10 ==> Decimal(n) == [DIGITS[2 * n], DIGITS[2 * n + 1]]
  {
    hide DIGITS;
    DigitPair(n);
  }

  /** Puts the numeral of `value` at `at`, given its length; two digits at a time, last first. */
  method FormatDecimal(buffer: array<char>, at: nat, value: nat, numDigits: nat)
    requires numDigits == DigitCount(value) && at + numDigits <= buffer.Length
    modifies buffer
    ensures buffer[..] == old(buffer[..])[..at] + Decimal(value) + old(buffer[..])[at + numDigits..]
  {
    var p := WriteBackward(buffer, at + numDigits, value);
  }

  /** Two characters just before p. */
  method PutPair(buffer: array<char>, p: nat, index: nat)
    requires 2 <= p <= buffer.Length && index + 1 < |DIGITS|
    modifies buffer
    ensures buffer[..] == old(buffer[..])[..p-2] + [DIGITS[index], DIGITS[index + 1]] + old(buffer[..])[p..]
  {
    hide DIGITS;
    buffer[p-1] := DIGITS[index + 1];
    buffer[p-2] := DIGITS[index];
  }

  /** Writing just before what has been written extends it to the front. */
  lemma Splice(cur: string, pre: string, p: nat, tail: string, post: string, more: string)
    requires |more| <= p <= |pre| && cur == pre[..p] + tail + post
    ensures cur[..p-|more|] + more + cur[p..] == pre[..p-|more|] + (more + tail) + post
  {
  }

  lemma MoreTail(a: string, b: string, c: string)
    ensures a + b + c == a + (b + c)
  {
  }

  /** One pair more in front of what has been written. */
  method PairBefore(buffer: array<char>, p: nat, index: nat, ghost pre: string, ghost tail: string, ghost post: string)
    requires 2 <= p <= buffer.Length && p <= |pre| && index + 1 < |DIGITS| && buffer[..] == pre[..p] + tail + post
    modifies buffer
    ensures buffer[..] == pre[..p-2] + ([DIGITS[index], DIGITS[index + 1]] + tail) + post
  {
    hide DIGITS;
    Splice(buffer[..], pre, p, tail, post, [DIGITS[index], DIGITS[index + 1]]);
    PutPair(buffer, p, index);
  }

  /** The shared backward loop: writes the numeral so that it ends before `end`. */
  method WriteBackward(buffer: array<char>, end: nat, value: nat) returns (p: nat)
    requires DigitCount(value) <= end <= buffer.Length
    modifies buffer
    ensures p == end - DigitCount(value)
    ensures buffer[..] == old(buffer[..])[..p] + Decimal(value) + old(buffer[..])[end..]
  {
    hide DIGITS, Decimal, Digit;
    ghost var pre, post, tail := buffer[..], buffer[end..], "";
    var v := value;
    p := end;
    assert buffer[..] == pre[..p] + tail + post;
    while v >= 100
      invariant |Decimal(v)| <= p <= end && Decimal(value) == Decimal(v) + tail
      invariant buffer[..] == pre[..p] + tail + post
      decreases v
    {
      DecimalEndsInPair(v);
      var index := v % 100 * 2;
      ghost var pair := [DIGITS[index], DIGITS[index + 1]];
      PairBefore(buffer, p, index, pre, tail, post);
      MoreTail(Decimal(v / 100), pair, tail);
      tail := pair + tail;
      v := v / 100;
      p := p - 2;
    }
    LastDigits(v);
    Splice(buffer[..], pre, p, tail, post, Decimal(v));
    if v < 10 {
      p := p - 1;
      PutOne(buffer, p, v);
    } else {
      PutPair(buffer, p, v * 2);
      p := p - 2;
    }
  }

  method PutOne(buffer: array<char>, p: nat, v: nat)
    requires p < buffer.Length && v < 10
    modifies buffer
    ensures buffer[..] == old(buffer[..])[..p] + Decimal(v) + old(buffer[..])[p + 1..]
  {
    buffer[p] := '0' + v as char;
  }
}
