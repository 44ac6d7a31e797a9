/**
 Whole numbers to text and back: the FormatInt object and the parser of unsigned numbers
 in format strings.
 */
module Numerals {
  import opened Wrappers
  import opened Bits
  import opened Digits

  function SignedDecimal(x: int): string {
    if x < 0 then "-" + Decimal(-x) else Decimal(x)
  }

  /** The number a signed numeral denotes. */
  function SignedValue(s: string): int
    requires s != [] && AllDigits(s[1..])
    requires s[0] == '-' || IsDigit(s[0])
  {
    if s[0] == '-' then -(Value(s[1..]) as int) else assert s == [s[0]] + s[1..]; Value(s)
  }

  lemma SignedRoundTrip(x: int)
    ensures var s := SignedDecimal(x);
      && s != [] && (s[0] == '-' || IsDigit(s[0])) && AllDigits(s[1..])
      && SignedValue(s) == x
  {
    var s := SignedDecimal(x);
    if x < 0 {
      DecimalRoundTrip(-x);
      assert s[1..] == Decimal(-x);
    } else {
      DecimalRoundTrip(x);
    }
  }

  lemma SignedDecimalInjective(x: int, y: int)
    requires SignedDecimal(x) == SignedDecimal(y)
    ensures x == y
  {
    SignedRoundTrip(x);
    SignedRoundTrip(y);
  }

  // ----- FormatInt -----

  const BUFFER_SIZE := 22

  lemma WordHasTwentyDigits(n: nat)
    requires n < WORD
    ensures DigitCount(n) <= 20
  {
    EstimateBrackets(n);
    Pow10Grows(Estimate(n) + 1, 20);
    DigitCountBounds(n);
    if DigitCount(n) > 20 { Pow10Grows(20, DigitCount(n) - 1); }
  }

  lemma SignPut(s: string, at: nat, end: nat)
    requires at < end <= |s|
    ensures s[at := '-'][at..end] == "-" + s[at + 1..end]
  {
  }

  class FormatInt {
    const buffer: array<char>
    var str: nat

    ghost predicate Valid()
      reads this
    {
      buffer.Length == BUFFER_SIZE && str < BUFFER_SIZE
    }

    constructor Unsigned(value: nat)
      requires value < WORD
      ensures Valid() && fresh(buffer) && Text() == Decimal(value)
    {
      buffer := new char[BUFFER_SIZE];
      str := 0;
      new;
      WordHasTwentyDigits(value);
      str := WriteBackward(buffer, BUFFER_SIZE - 1, value);
    }

    /** The absolute value is taken in unsigned arithmetic, so the most negative one fits. */
    constructor Signed(value: int)
      requires -HALF <= value < HALF
      ensures Valid() && fresh(buffer) && Text() == SignedDecimal(value)
    {
      buffer := new char[BUFFER_SIZE];
      str := 0;
      new;
      var absValue := AbsoluteValue(value, WORD);
      var negative := value < 0;
      WordHasTwentyDigits(absValue);
      str := WriteBackward(buffer, BUFFER_SIZE - 1, absValue);
      assert buffer[..][str..BUFFER_SIZE - 1] == Decimal(absValue);
      if negative {
        str := str - 1;
        ghost var digits := buffer[..];
        buffer[str] := '-';
        assert buffer[..] == digits[str := '-'];
        SignPut(digits, str, BUFFER_SIZE - 1);
      }
    }

    function Size(): nat
      requires Valid()
      reads this
    {
      BUFFER_SIZE - 1 - str
    }

    function Text(): (s: string)
      requires Valid()
      reads this, buffer
      ensures |s| == Size()
    {
      buffer[str..BUFFER_SIZE - 1]
    }
  }

  // ----- parse_nonnegative_int -----

  const UINT_RANGE := 0x1_0000_0000
  const INT_MAX := 0x7FFF_FFFF

  /** The character at i; the terminating NUL beyond the end. */
  function CharAt(s: string, i: nat): char { if i < |s| then s[i] else '\0' }

  /** A read in the code: never beyond the terminating NUL. */
  function Peek(s: string, i: nat): char
    requires i <= |s|
  {
    CharAt(s, i)
  }

  /** The digits of s from `start` on. */
  function DigitRun(s: string, start: nat): (run: string)
    requires start <= |s|
    ensures start + |run| <= |s| && run == s[start..start + |run|]
    ensures AllDigits(run)
    ensures !IsDigit(CharAt(s, start + |run|))
    decreases |s| - start
  {
    if start < |s| && IsDigit(s[start]) then [s[start]] + DigitRun(s, start + 1) else []
  }

  /** The 32-bit accumulator drops when digit i of the run is added. */
  predicate Drops(run: string, i: nat)
    requires 0 < i <= |run| && AllDigits(run)
  {
    Value(run[..i]) % UINT_RANGE < Value(run[..i-1]) % UINT_RANGE
  }

  /** What the parser answers for a run of digits. */
  ghost predicate Parsed(run: string, r: Result<nat, string>)
    requires AllDigits(run)
  {
    var v := Value(run) % UINT_RANGE;
    if (exists i :: 0 < i <= |run| && Drops(run, i)) || v > INT_MAX then r.Err? else r == Ok(v)
  }

  lemma ValueStep(run: string, i: nat)
    requires i < |run| && AllDigits(run)
    ensures AllDigits(run[..i+1])
    ensures Value(run[..i+1]) == 10 * Value(run[..i]) + DigitOf(run[i])
  {
    assert run[..i+1][..i] == run[..i];
    assert run[..i+1][i] == run[i];
  }

  lemma {:induction false} ValueGrows(run: string, i: nat, j: nat)
    requires i <= j <= |run| && AllDigits(run)
    ensures Value(run[..i]) <= Value(run[..j])
    decreases j
  {
    if i < j {
      ValueGrows(run, i, j - 1);
      ValueStep(run, j - 1);
    }
  }

  /** One digit more, in wrapped arithmetic. */
  lemma WrappedStep(run: string, i: nat)
    requires i < |run| && AllDigits(run)
    ensures (Value(run[..i]) % UINT_RANGE * 10 + DigitOf(run[i])) % UINT_RANGE == Value(run[..i+1]) % UINT_RANGE
  {
    ValueStep(run, i);
    hide Value;
    var v, d := Value(run[..i]), DigitOf(run[i]);
    assert v == UINT_RANGE * (v / UINT_RANGE) + v % UINT_RANGE;
    AddWords(v % UINT_RANGE * 10 + d, UINT_RANGE, 10 * (v / UINT_RANGE));
  }

  method ParseNonnegativeInt(s: string, start: nat) returns (r: Result<nat, string>, end: nat)
    requires start < |s| && IsDigit(s[start])
    ensures Parsed(DigitRun(s, start), r)
    ensures r.Ok? ==> end == start + |DigitRun(s, start)| && r.value <= INT_MAX
    ensures start < end <= start + |DigitRun(s, start)|
  {
    hide Value, DigitOf;
    ghost var run := DigitRun(s, start);
    var value := 0;
    end := start;
    EmptyValue(run[..0]);
    while true
      invariant start <= end < start + |run|
      invariant value == Value(run[..end - start]) % UINT_RANGE
      invariant forall i :: 0 < i <= end - start ==> !Drops(run, i)
      decreases start + |run| - end
    {
      WrappedStep(run, end - start);
      assert s[end] == run[end - start];
      var newValue := (value * 10 + DigitOf(s[end])) % UINT_RANGE;
      end := end + 1;
      assert Drops(run, end - start) <==> newValue < value;
      if newValue < value {
        value := UINT_RANGE - 1;
        break;
      }
      value := newValue;
      if !IsDigit(Peek(s, end)) {
        assert run[..end - start] == run;
        break;
      }
    }
    r := if value > INT_MAX then Err("number is too big") else Ok(value);
  }

  lemma EmptyValue(run: string)
    requires run == ""
    ensures Value(run) == 0
  {
  }

  /** The right answer: the number, or an error when it does not fit an int. */
  ghost predicate Right(run: string, r: Result<nat, string>)
    requires AllDigits(run)
  {
    if Value(run) <= INT_MAX then r == Ok(Value(run)) else r.Err?
  }

  lemma SmallNumbersNeverDrop(run: string, i: nat)
    requires AllDigits(run) && Value(run) < UINT_RANGE && 0 < i <= |run|
    ensures !Drops(run, i)
  {
    hide Value;
    assert run[..|run|] == run;
    ValueGrows(run, i - 1, i);
    ValueGrows(run, i, |run|);
  }

  /** Somewhere from its first digit on, the number wraps below what it was one digit shorter. */
  predicate WrapShows(v: nat) { v != 0 && (v % UINT_RANGE < v / 10 % UINT_RANGE || WrapShows(v / 10)) }

  lemma {:induction false} ShorterNeverWraps(v: nat)
    requires v < UINT_RANGE
    ensures !WrapShows(v)
  {
    if v != 0 { ShorterNeverWraps(v / 10); }
  }

  lemma LastDigitOff(run: string)
    requires AllDigits(run) && run != ""
    ensures Value(run[..|run|-1]) == Value(run) / 10
  {
    var n := |run| - 1;
    assert run[..n + 1] == run;
    ValueStep(run, n);
    hide Value;
  }

  /** Whether the wrap test fires depends on the number only, not on how it is written. */
  lemma {:induction false} DropsAreOfTheNumber(run: string)
    requires AllDigits(run)
    ensures (exists i :: 0 < i <= |run| && Drops(run, i)) <==> WrapShows(Value(run))
  {
    if run == "" {
      EmptyValue(run);
    } else {
      var n := |run| - 1;
      var init := run[..n];
      LastDigitOff(run);
      DropsAreOfTheNumber(init);
      assert run[..n + 1] == run;
      hide Value;
      assert Drops(run, n + 1) <==> Value(run) % UINT_RANGE < Value(run) / 10 % UINT_RANGE;
      forall i | 0 < i <= n ensures Drops(init, i) <==> Drops(run, i) {
        assert init[..i] == run[..i] && init[..i - 1] == run[..i - 1];
      }
      if Value(run) == 0 { assert !WrapShows(Value(run) / 10); }
    }
  }

  /**
   The parser is right exactly when the number fits 32 bits unsigned, or some leading part of
   it wraps to less than the part one digit shorter, or it wraps to above INT_MAX.
   */
  lemma ParserRightExactly(run: string, r: Result<nat, string>)
    requires AllDigits(run) && Parsed(run, r)
    ensures var v := Value(run);
      Right(run, r) <==> v < UINT_RANGE || WrapShows(v) || v % UINT_RANGE > INT_MAX
  {
    hide Value, WrapShows;
    DropsAreOfTheNumber(run);
    if Value(run) < UINT_RANGE { ShorterNeverWraps(Value(run)); }
  }

  /** For numbers of up to ten digits: right exactly outside two intervals above 2^32. */
  lemma ParserRightUpToTenDigits(run: string, r: Result<nat, string>)
    requires AllDigits(run) && Parsed(run, r) && Value(run) < 10000000000
    ensures var v := Value(run);
      Right(run, r) <==> v < 4772185884 || 6442450943 < v < 9544371768
  {
    ParserRightExactly(run, r);
    TenDigits(Value(run));
  }

  lemma TenDigits(v: nat)
    requires v < 10000000000
    ensures v < UINT_RANGE || WrapShows(v) || v % UINT_RANGE > INT_MAX
      <==> v < 4772185884 || 6442450943 < v < 9544371768
  {
    ShorterNeverWraps(v / 10);
    assert v != 0 ==> (WrapShows(v) <==> v % UINT_RANGE < v / 10);
    hide WrapShows;
    if v < UINT_RANGE {
    } else if v < 2 * UINT_RANGE {
      assert v % UINT_RANGE == v - UINT_RANGE;
    } else {
      assert v % UINT_RANGE == v - 2 * UINT_RANGE;
    }
  }

  /** The wrap test misses this ten-digit number: it is read as 705032704. */
  lemma FiveBillionSlipsThrough(run: string, r: Result<nat, string>)
    requires run == "5000000000" && Parsed(run, r)
    ensures r == Ok(705032704) && !Right(run, r)
  {
    hide Value;
    EmptyValue(run[..0]);
    FiveThenZeros(run, 9);
    assert run[..10] == run;
    forall i | 0 < i <= |run| ensures !Drops(run, i) {
      if i > 1 { FiveThenZeros(run, i - 2); }
      FiveThenZeros(run, i - 1);
    }
  }

  lemma {:induction false} FiveThenZeros(run: string, i: nat)
    requires run == "5000000000" && i < 10
    ensures Value(run[..i+1]) == 5 * Pow10(i) && Value(run[..0]) == 0
    ensures Pow10(i) == [1, 10, 100, 1000, 10000, 100000, 1000000, 10000000, 100000000, 1000000000][i]
  {
    EmptyValue(run[..0]);
    ValueStep(run, i);
    if i > 0 { FiveThenZeros(run, i - 1); }
  }
}
