/**
 What a formatted integer looks like: its sign, the mark of its base, its digits, and where a
 width puts the padding.
 */
module IntLayout {
  import opened Bits
  import opened Digits
  import opened IntWriter

  function Magnitude(value: int): nat { if value < 0 then -value else value }

  /** What stands in front of the digits of n. */
  function Mark(n: int, plus: bool, blank: bool, hash: bool, kind: char): string {
    (if n < 0 then "-" else if plus then "+" else if blank then " " else "")
    + (if !hash then "" else match kind
       case 'x' => "0x" case 'X' => "0X" case 'b' => "0b" case 'B' => "0B" case 'o' => "0" case _ => "")
  }

  /** The digits of n in its base: they read as n, and there are no leading zeros. */
  ghost predicate DigitsFor(digits: string, n: nat, kind: char) {
    Reading(digits, Base(kind)) == n && (|digits| > 1 ==> digits[0] != '0') && OnlyDigits(digits, kind)
  }

  /** How padding is shared out in front of the mark, between mark and digits, and behind. */
  predicate Shared(front: nat, middle: nat, behind: nat, align: Alignment) {
    match align
    case Left => front == middle == 0
    case Center => middle == 0 && front <= behind <= front + 1
    case Numeric => front == behind == 0
    case _ => middle == behind == 0
  }

  /** A formatted integer: mark and digits, with the padding its width asks for where its alignment wants it. */
  ghost predicate Shows(text: string, n: int, spec: Spec) {
    exists digits: string, front: nat, middle: nat, behind: nat ::
      var mark := Mark(n, spec.sign && spec.plus, spec.sign, spec.hash, spec.kind);
      && DigitsFor(digits, Magnitude(n), spec.kind) && Shared(front, middle, behind, spec.align)
      && front + middle + behind == Padding(spec.width, |mark| + |digits|)
      && text == Spread(spec.fill, front, mark, middle, digits, behind)
  }

  function Spread(fill: char, front: nat, mark: string, middle: nat, digits: string, behind: nat): string {
    Repeat(fill, front) + mark + Repeat(fill, middle) + digits + Repeat(fill, behind)
  }

  lemma FormattedShows(n: int, spec: Spec)
    requires KnownKind(spec.kind)
    ensures Shows(Formatted(n, spec), n, spec)
  {
    var mark := Mark(n, spec.sign && spec.plus, spec.sign, spec.hash, spec.kind);
    var digits := DigitsOf(Magnitude(n), spec.kind);
    MarkIs(n, spec);
    DigitsReading(Magnitude(n), spec.kind);
    DigitsLook(Magnitude(n), spec.kind);
    hide Mark, DigitsOf, SignPrefix, BasePrefix, Reading, OnlyDigits, Layout;
    var front, middle, behind := LayoutShares(mark, digits, spec);
  }

  lemma MarkIs(n: int, spec: Spec)
    requires KnownKind(spec.kind)
    ensures Mark(n, spec.sign && spec.plus, spec.sign, spec.hash, spec.kind) == SignPrefix(n, spec) + BasePrefix(spec)
  {
  }

  lemma LayoutShares(mark: string, digits: string, spec: Spec) returns (front: nat, middle: nat, behind: nat)
    ensures Shared(front, middle, behind, spec.align)
    ensures front + middle + behind == Padding(spec.width, |mark| + |digits|)
    ensures Layout(mark, digits, spec) == Spread(spec.fill, front, mark, middle, digits, behind)
  {
    var pad := Padding(spec.width, |mark| + |digits|);
    hide Padding;
    match spec.align
    case Left => front, middle, behind := 0, 0, pad;
    case Center => front, middle, behind := pad / 2, 0, pad - pad / 2;
    case Numeric => front, middle, behind := 0, pad, 0;
    case _ => front, middle, behind := pad, 0, 0;
  }

  /** Digits of the base, with the letters of the case the kind asks for. */
  predicate OnlyDigits(s: string, kind: char) {
    forall i :: 0 <= i < |s| ==>
      IsDigitIn(s[i], Base(kind)) && (if kind == 'x' then !('A' <= s[i] <= 'F') else !('a' <= s[i] <= 'f'))
  }

  lemma DigitsLook(n: nat, kind: char)
    requires KnownKind(kind)
    ensures var s := DigitsOf(n, kind); (|s| > 1 ==> s[0] != '0') && OnlyDigits(s, kind)
  {
    hide Numeral, Decimal;
    ShiftPowers();
    NumeralLooks(n, 4, kind == 'X');
    NumeralLooks(n, 1, false);
    NumeralLooks(n, 3, false);
    DecimalLooks(n);
  }

  lemma DigitLooks(d: nat, upper: bool)
    requires d < 16
    ensures var c := HexDigit(d, upper);
      HexValue(c) == d && (if upper then !('a' <= c <= 'f') else !('A' <= c <= 'F')) && (c == '0' <==> d == 0)
  {
  }

  lemma {:induction false} NumeralLooks(n: nat, shift: nat, upper: bool)
    requires 1 <= shift <= 4
    ensures var s := Numeral(n, shift, upper);
      && (if n == 0 then |s| == 1 else s[0] != '0')
      && forall i :: 0 <= i < |s| ==>
           HexValue(s[i]) < Pow2(shift) && (if upper then !('a' <= s[i] <= 'f') else !('A' <= s[i] <= 'F'))
    decreases n
  {
    ShiftPowers();
    hide Pow2, HexDigit, HexValue;
    DigitLooks(n % Pow2(shift), upper);
    QuotientAndRemainder(n, Pow2(shift));
    if n / Pow2(shift) != 0 { NumeralLooks(n / Pow2(shift), shift, upper); }
  }

  lemma {:induction false} DecimalLooks(n: nat)
    ensures var s := Decimal(n);
      (if n == 0 then |s| == 1 else s[0] != '0') && forall i :: 0 <= i < |s| ==> '0' <= s[i] <= '9'
  {
    if n >= 10 { DecimalLooks(n / 10); }
  }
}
