/**
 Writing integers into a growing character buffer: base, sign, prefix, padding, alignment.
 */
module IntWriter {
  import opened Wrappers
  import opened Bits
  import opened Digits
  import opened Numerals

  const INLINE_BUFFER_SIZE := 500

  // ----- the buffer -----

  class Buffer {
    var data: array<char>
    var size: nat

    ghost predicate Valid()
      reads this
    {
      size <= data.Length
    }

    function Contents(): (s: string)
      requires Valid()
      reads this, data
      ensures |s| == size
    {
      data[..size]
    }

    constructor ()
      ensures Valid() && fresh(data) && Contents() == ""
    {
      data := new char[INLINE_BUFFER_SIZE];
      size := 0;
    }

    /** Half as much again, or what is asked for; everything written so far moves along. */
    method Grow(capacity: nat)
      requires Valid() && capacity > data.Length
      modifies this`data
      ensures Valid() && fresh(data) && data.Length >= capacity && Contents() == old(Contents())
    {
      var newCapacity := data.Length + data.Length / 2;
      if capacity > newCapacity { newCapacity := capacity; }
      var bigger := new char[newCapacity];
      forall i | 0 <= i < size { bigger[i] := data[i]; }
      data := bigger;
    }

    /** Makes room for n more characters and returns where they start; they are not set yet. */
    method GrowBuffer(n: nat) returns (at: nat)
      requires Valid()
      modifies this
      ensures Valid() && (data == old(data) || fresh(data))
      ensures at == old(size) && size == at + n && Contents()[..at] == old(Contents())
    {
      at := size;
      if size + n > data.Length { Grow(size + n); }
      size := size + n;
    }

    /** Copies text to [at, at + |text|). */
    method Put(at: nat, text: string)
      requires Valid() && at + |text| <= size
      modifies data
      ensures Contents() == old(Contents())[..at] + text + old(Contents())[at + |text|..]
    {
      forall i | 0 <= i < |text| { data[at + i] := text[i]; }
    }

    /** Fills [at, to) with one character. */
    method Fill(at: nat, to: nat, c: char)
      requires Valid() && at <= to <= size
      modifies data
      ensures Contents() == old(Contents())[..at] + Repeat(c, to - at) + old(Contents())[to..]
    {
      forall i | at <= i < to { data[i] := c; }
    }
  }

  function Repeat(c: char, n: nat): (s: string)
    ensures |s| == n && forall i :: 0 <= i < n ==> s[i] == c
  {
    seq(n, _ => c)
  }

  // ----- numerals in the other bases -----

  function HexDigit(d: nat, upper: bool): char
    requires d < 16
  {
    if upper then "0123456789ABCDEF"[d] else "0123456789abcdef"[d]
  }

  /** The numeral of n in base 2^shift. */
  function Numeral(n: nat, shift: nat, upper: bool): (s: string)
    requires 1 <= shift <= 4
    ensures |s| >= 1
    decreases n
  {
    ShiftPowers();
    var d := HexDigit(n % Pow2(shift), upper);
    if n / Pow2(shift) == 0 then [d] else Numeral(n / Pow2(shift), shift, upper) + [d]
  }

  lemma ShiftPowers()
    ensures Pow2(1) == 2 && Pow2(2) == 4 && Pow2(3) == 8 && Pow2(4) == 16
  {
  }

  function HexValue(c: char): nat {
    if '0' <= c <= '9' then c as nat - '0' as nat
    else if 'a' <= c <= 'f' then c as nat - 'a' as nat + 10
    else if 'A' <= c <= 'F' then c as nat - 'A' as nat + 10
    else 16
  }

  predicate IsDigitIn(c: char, base: nat) { HexValue(c) < base && HexValue(c) < 16 }

  /** The number a text denotes in some base; characters that are not digits do not matter. */
  function Reading(s: string, base: nat): nat {
    if s == "" then 0
    else
      var init, c := s[..|s|-1], s[|s|-1];
      if IsDigitIn(c, base) then base * Reading(init, base) + HexValue(c) else Reading(init, base)
  }

  lemma HexDigitValue(d: nat, upper: bool)
    requires d < 16
    ensures HexValue(HexDigit(d, upper)) == d && HexDigit(d, upper) != '-'
  {
  }

  lemma QuotientAndRemainder(n: nat, b: nat)
    requires b > 0
    ensures n == b * (n / b) + n % b
  {
  }

  lemma {:induction false} NumeralRoundTrip(n: nat, shift: nat, upper: bool)
    requires 1 <= shift <= 4
    ensures Reading(Numeral(n, shift, upper), Pow2(shift)) == n
    decreases n
  {
    ShiftPowers();
    hide Pow2, HexValue, HexDigit;
    var s := Numeral(n, shift, upper);
    HexDigitValue(n % Pow2(shift), upper);
    QuotientAndRemainder(n, Pow2(shift));
    if n / Pow2(shift) == 0 {
      assert s[..0] == "";
    } else {
      NumeralRoundTrip(n / Pow2(shift), shift, upper);
      assert s[..|s|-1] == Numeral(n / Pow2(shift), shift, upper);
    }
  }

  lemma {:induction false} DecimalReading(n: nat)
    ensures Reading(Decimal(n), 10) == n
  {
    var s := Decimal(n);
    if n < 10 {
      assert s[..0] == "";
    } else {
      DecimalReading(n / 10);
      assert s[..|s|-1] == Decimal(n / 10);
    }
  }

  // ----- format specifications -----

  datatype Alignment = Default | Left | Right | Center | Numeric

  datatype Spec = Spec(
    width: nat, fill: char, align: Alignment, sign: bool, plus: bool, hash: bool, kind: char)

  predicate IsDecimal(kind: char) { kind == '\0' || kind == 'd' }

  predicate IsHex(kind: char) { kind == 'x' || kind == 'X' }

  predicate IsBinary(kind: char) { kind == 'b' || kind == 'B' }

  predicate KnownKind(kind: char) { IsDecimal(kind) || IsHex(kind) || IsBinary(kind) || kind == 'o' }

  function SignPrefix(value: int, spec: Spec): string {
    if value < 0 then "-" else if spec.sign then (if spec.plus then "+" else " ") else ""
  }

  function BasePrefix(spec: Spec): string {
    if !spec.hash then ""
    else if IsHex(spec.kind) || IsBinary(spec.kind) then ['0', spec.kind]
    else if spec.kind == 'o' then "0" else ""
  }

  /** The digits of n in the base the kind asks for. */
  function DigitsOf(n: nat, kind: char): (s: string)
    ensures |s| >= 1
  {
    if IsHex(kind) then Numeral(n, 4, kind == 'X')
    else if IsBinary(kind) then Numeral(n, 1, false)
    else if kind == 'o' then Numeral(n, 3, false)
    else Decimal(n)
  }

  function Padding(width: nat, size: nat): nat { if width <= size then 0 else width - size }

  /** What comes before the digits, and after them. */
  function Before(prefix: string, numDigits: nat, spec: Spec): string {
    var pad := Padding(spec.width, |prefix| + numDigits);
    match spec.align
    case Left => prefix
    case Center => Repeat(spec.fill, pad / 2) + prefix
    case Numeric => prefix + Repeat(spec.fill, pad)
    case _ => Repeat(spec.fill, pad) + prefix
  }

  function Behind(prefix: string, numDigits: nat, spec: Spec): string {
    var pad := Padding(spec.width, |prefix| + numDigits);
    match spec.align
    case Left => Repeat(spec.fill, pad)
    case Center => Repeat(spec.fill, pad - pad / 2)
    case _ => ""
  }

  function Layout(prefix: string, digits: string, spec: Spec): string {
    Before(prefix, |digits|, spec) + digits + Behind(prefix, |digits|, spec)
  }

  /** The text of an integer under a specification of known kind. */
  function Formatted(value: int, spec: Spec): string {
    Layout(SignPrefix(value, spec) + BasePrefix(spec), DigitsOf(if value < 0 then -value else value, spec.kind), spec)
  }

  // ----- what the text means -----

  function Base(kind: char): nat {
    if IsHex(kind) then 16 else if IsBinary(kind) then 2 else if kind == 'o' then 8 else 10
  }

  /** Reads a text back: its digits in order, negative when there is a minus sign anywhere. */
  function Decoded(s: string, base: nat): int {
    if '-' in s then -(Reading(s, base) as int) else Reading(s, base)
  }

  /** Padding that cannot be taken for part of the number. */
  predicate NeutralFill(spec: Spec) {
    && spec.fill != '-'
    && (IsDigitIn(spec.fill, Base(spec.kind)) ==> spec.fill == '0' && !spec.align.Left? && !spec.align.Center?)
  }

  lemma {:induction false} SkipsBehind(a: string, b: string, base: nat)
    requires forall c | c in b :: !IsDigitIn(c, base)
    ensures Reading(a + b, base) == Reading(a, base)
    decreases |b|
  {
    if b == "" {
      assert a + b == a;
    } else {
      assert (a + b)[..|a + b| - 1] == a + b[..|b|-1];
      SkipsBehind(a, b[..|b|-1], base);
    }
  }

  lemma {:induction false} ZerosInFront(a: string, b: string, base: nat)
    requires Reading(a, base) == 0
    ensures Reading(a + b, base) == Reading(b, base)
    decreases |b|
  {
    if b == "" {
      assert a + b == a;
    } else {
      assert (a + b)[..|a + b| - 1] == a + b[..|b|-1];
      ZerosInFront(a, b[..|b|-1], base);
    }
  }

  lemma {:induction false} ReadsZero(a: string, base: nat)
    requires forall c | c in a :: IsDigitIn(c, base) ==> c == '0'
    ensures Reading(a, base) == 0
  {
    if a != "" {
      assert forall c | c in a[..|a|-1] :: c in a;
      ReadsZero(a[..|a|-1], base);
    }
  }

  lemma {:induction false} NumeralHasNoMinus(n: nat, shift: nat, upper: bool)
    requires 1 <= shift <= 4
    ensures '-' !in Numeral(n, shift, upper)
    decreases n
  {
    ShiftPowers();
    hide Pow2, HexDigit;
    HexDigitValue(n % Pow2(shift), upper);
    if n / Pow2(shift) != 0 { NumeralHasNoMinus(n / Pow2(shift), shift, upper); }
  }

  lemma DigitsReading(n: nat, kind: char)
    ensures Reading(DigitsOf(n, kind), Base(kind)) == n && '-' !in DigitsOf(n, kind)
  {
    hide Reading, Numeral, Decimal;
    ShiftPowers();
    NumeralRoundTrip(n, 4, kind == 'X');
    NumeralRoundTrip(n, 1, false);
    NumeralRoundTrip(n, 3, false);
    NumeralHasNoMinus(n, 4, kind == 'X');
    NumeralHasNoMinus(n, 1, false);
    NumeralHasNoMinus(n, 3, false);
    DecimalReading(n);
  }

  /** The prefix holds the sign and reads as zero. */
  lemma PrefixMeaning(value: int, spec: Spec)
    requires KnownKind(spec.kind)
    ensures var prefix := SignPrefix(value, spec) + BasePrefix(spec);
      && ('-' in prefix <==> value < 0)
      && forall c | c in prefix :: IsDigitIn(c, Base(spec.kind)) ==> c == '0'
  {
    forall c | c in BasePrefix(spec) ensures c == '0' || c == spec.kind {}
  }

  /** Widths: the text is as wide as asked, or as its content. */
  lemma LayoutLength(prefix: string, digits: string, spec: Spec)
    ensures var size := |prefix| + |digits|;
      |Layout(prefix, digits, spec)| == if spec.width <= size then size else spec.width
  {
  }

  /** Nothing of a number is lost by formatting it, whatever its base, flags, width and alignment. */
  lemma FormattedDecodes(value: int, spec: Spec)
    requires KnownKind(spec.kind) && NeutralFill(spec)
    ensures Decoded(Formatted(value, spec), Base(spec.kind)) == value
  {
    hide Reading, DigitsOf, IsDigitIn, SignPrefix, BasePrefix;
    var n: nat := if value < 0 then -value else value;
    var prefix, digits := SignPrefix(value, spec) + BasePrefix(spec), DigitsOf(n, spec.kind);
    var before, behind := Before(prefix, |digits|, spec), Behind(prefix, |digits|, spec);
    DigitsReading(n, spec.kind);
    PrefixMeaning(value, spec);
    SurroundingsMeaning(prefix, |digits|, spec);
    ReadsZero(before, Base(spec.kind));
    ZerosInFront(before, digits, Base(spec.kind));
    SkipsBehind(before + digits, behind, Base(spec.kind));
  }

  lemma SurroundingsMeaning(prefix: string, numDigits: nat, spec: Spec)
    requires NeutralFill(spec)
    requires forall c | c in prefix :: IsDigitIn(c, Base(spec.kind)) ==> c == '0'
    ensures var before, behind := Before(prefix, numDigits, spec), Behind(prefix, numDigits, spec);
      && ('-' in before <==> '-' in prefix) && '-' !in behind
      && (forall c | c in before :: IsDigitIn(c, Base(spec.kind)) ==> c == '0')
      && (forall c | c in behind :: !IsDigitIn(c, Base(spec.kind)))
  {
    hide IsDigitIn, Base;
    forall c | c in Before(prefix, numDigits, spec) ensures c in prefix || c == spec.fill {}
    forall c | c in Behind(prefix, numDigits, spec)
      ensures c == spec.fill && (spec.align.Left? || spec.align.Center?) {}
  }

  // ----- writing -----

  /** Padding on both sides of a content area, the odd character behind it. */
  method FillPadding(w: Buffer, at: nat, totalSize: nat, contentSize: nat, fill: char) returns (content: nat)
    requires w.Valid() && contentSize <= totalSize && at + totalSize == w.size
    modifies w.data
    ensures var pad := totalSize - contentSize;
      && content == at + pad / 2
      && w.Contents()[..content] == old(w.Contents())[..at] + Repeat(fill, pad / 2)
      && w.Contents()[content + contentSize..] == Repeat(fill, pad - pad / 2)
  {
    var padding := totalSize - contentSize;
    var leftPadding := padding / 2;
    w.Fill(at, at + leftPadding, fill);
    content := at + leftPadding;
    w.Fill(content + contentSize, content + contentSize + (padding - leftPadding), fill);
  }

  /** Cells [at, size) hold a digit area of numDigits cells and its surroundings. */
  ghost predicate Prepared(w: Buffer, before: string, numDigits: nat, spec: Spec, prefix: string, last: int)
    requires w.Valid()
    reads w, w.data
  {
    && numDigits <= last + 1 <= w.size
    && w.Contents()[..last + 1 - numDigits] == before + Before(prefix, numDigits, spec)
    && w.Contents()[last + 1..] == Behind(prefix, numDigits, spec)
  }

  method AlignLeft(w: Buffer, at: nat, numDigits: nat, spec: Spec, prefix: string) returns (last: int)
    requires w.Valid() && at + spec.width == w.size && |prefix| + numDigits < spec.width && spec.align == Left
    modifies w.data
    ensures Prepared(w, old(w.Contents())[..at], numDigits, spec, prefix, last)
  {
    w.Put(at, prefix);
    var p := at + |prefix| + numDigits;
    w.Fill(p, at + spec.width, spec.fill);
    last := p - 1;
  }

  method AlignCenter(w: Buffer, at: nat, numDigits: nat, spec: Spec, prefix: string) returns (last: int)
    requires w.Valid() && at + spec.width == w.size && |prefix| + numDigits < spec.width && spec.align == Center
    modifies w.data
    ensures Prepared(w, old(w.Contents())[..at], numDigits, spec, prefix, last)
  {
    var p := FillPadding(w, at, spec.width, |prefix| + numDigits, spec.fill);
    w.Put(p, prefix);
    last := p + |prefix| + numDigits - 1;
  }

  method AlignNumeric(w: Buffer, at: nat, numDigits: nat, spec: Spec, prefix: string) returns (last: int)
    requires w.Valid() && at + spec.width == w.size && |prefix| + numDigits < spec.width && spec.align == Numeric
    modifies w.data
    ensures Prepared(w, old(w.Contents())[..at], numDigits, spec, prefix, last)
  {
    var p, end, size := at, at + spec.width, |prefix| + numDigits;
    if |prefix| != 0 {
      w.Put(p, prefix);
      p := p + |prefix|;
      size := size - |prefix|;
    }
    assert w.Contents()[..p] == old(w.Contents())[..at] + prefix && size == numDigits;
    w.Fill(p, end - size, spec.fill);
    last := end - 1;
  }

  lemma PrefixAfterFill(before: string, put: string, text: string, at: nat, p: nat, prefix: string, fill: string)
    requires at <= p && p + |prefix| <= |before| && |fill| == p - at
    requires put == before[..p] + prefix + before[p + |prefix|..]
    requires text == put[..at] + fill + put[p..]
    ensures |text| == |before| && text[..p + |prefix|] == before[..at] + (fill + prefix)
  {
    assert put[..at] == before[..at] && put[p..][..|prefix|] == prefix;
  }

  method AlignRight(w: Buffer, at: nat, numDigits: nat, spec: Spec, prefix: string) returns (last: int)
    requires w.Valid() && at + spec.width == w.size && |prefix| + numDigits < spec.width
    requires spec.align.Default? || spec.align.Right?
    modifies w.data
    ensures Prepared(w, old(w.Contents())[..at], numDigits, spec, prefix, last)
  {
    hide Repeat;
    var end, size := at + spec.width, |prefix| + numDigits;
    ghost var before := w.Contents();
    w.Put(end - size, prefix);
    ghost var put := w.Contents();
    w.Fill(at, end - size, spec.fill);
    last := end - 1;
    PrefixAfterFill(before, put, w.Contents(), at, end - size, prefix, Repeat(spec.fill, end - size - at));
  }

  /**
   Lays out everything but the digits and returns the cell of the last digit. Nothing
   written earlier changes, and every cell outside the digits is set.
   */
  method PrepareIntBuffer(w: Buffer, numDigits: nat, spec: Spec, prefix: string) returns (last: int)
    requires w.Valid() && numDigits >= 1
    modifies w, w.data
    ensures w.Valid() && (w.data == old(w.data) || fresh(w.data))
    ensures Prepared(w, old(w.Contents()), numDigits, spec, prefix, last)
  {
    var size := |prefix| + numDigits;
    if spec.width <= size {
      var p := w.GrowBuffer(size);
      w.Put(p, prefix);
      return p + size - 1;
    }
    var at := w.GrowBuffer(spec.width);
    if spec.align == Left {
      last := AlignLeft(w, at, numDigits, spec, prefix);
    } else if spec.align == Center {
      last := AlignCenter(w, at, numDigits, spec, prefix);
    } else if spec.align == Numeric {
      last := AlignNumeric(w, at, numDigits, spec, prefix);
    } else {
      last := AlignRight(w, at, numDigits, spec, prefix);
    }
  }

  lemma QuotientIsNat(n: nat, b: nat)
    requires b == 2 || b == 4 || b == 8 || b == 16
    ensures n / b >= 0 && (n > 0 ==> n / b < n) && (n == 0 ==> n / b == 0)
  {
    if b == 2 {} else if b == 4 {} else if b == 8 {} else {}
  }

  function ShiftedDown(n: nat, shift: nat): nat
    requires 1 <= shift <= 4
  {
    ShiftPowers();
    QuotientIsNat(n, Pow2(shift));
    n / Pow2(shift)
  }

  /** The bits a shift drops, by masking. */
  function LowBits(n: nat, shift: nat): (r: nat)
    ensures r == n % Pow2(shift)
  {
    AndMask(n, shift);
    And(n, Pow2(shift) - 1)
  }

  /** One turn of either loop below. */
  lemma NumeralStep(n: nat, shift: nat, upper: bool)
    requires 1 <= shift <= 4
    ensures (n > 0 ==> ShiftedDown(n, shift) < n) && (n == 0 ==> ShiftedDown(n, shift) == 0) && LowBits(n, shift) < 16
    ensures Numeral(n, shift, upper) ==
      (if ShiftedDown(n, shift) == 0 then "" else Numeral(ShiftedDown(n, shift), shift, upper))
      + [HexDigit(LowBits(n, shift), upper)]
  {
    ShiftPowers();
    QuotientIsNat(n, Pow2(shift));
    assert Pow2(shift) <= 16;
    hide Pow2, And;
  }

  /** The counting loop: one digit per shift, at least one. */
  method CountShifts(value: nat, shift: nat, ghost upper: bool) returns (numDigits: nat)
    requires 1 <= shift <= 4
    ensures numDigits == |Numeral(value, shift, upper)|
  {
    hide Numeral, HexDigit, ShiftedDown, LowBits;
    var n: nat := value;
    numDigits := 0;
    while true
      invariant numDigits + |Numeral(n, shift, upper)| == |Numeral(value, shift, upper)|
      decreases n
    {
      NumeralStep(n, shift, upper);
      numDigits := numDigits + 1;
      n := ShiftedDown(n, shift);
      if n == 0 { break; }
    }
  }

  /** One digit more in front of what has been written. */
  method PutBefore(w: Buffer, p: nat, d: string, ghost pre: string, ghost tail: string, ghost post: string)
    requires w.Valid() && |d| == 1 && p < w.size && p + 1 <= |pre| && w.Contents() == pre[..p + 1] + tail + post
    modifies w.data
    ensures w.Contents() == pre[..p] + (d + tail) + post
  {
    Splice(w.Contents(), pre, p + 1, tail, post, d);
    w.Put(p, d);
  }

  /** The writing loop: fills exactly the digit area, last digit first. */
  method WriteShifts(w: Buffer, last: nat, value: nat, shift: nat, upper: bool)
    requires w.Valid() && 1 <= shift <= 4 && last < w.size && |Numeral(value, shift, upper)| <= last + 1
    modifies w.data
    ensures var text := Numeral(value, shift, upper);
      w.Contents() == old(w.Contents())[..last + 1 - |text|] + text + old(w.Contents())[last + 1..]
  {
    hide Numeral, HexDigit, ShiftedDown, LowBits;
    var n: nat := value;
    var p: int := last;
    ghost var pre, tail := w.Contents(), "";
    ghost var post := pre[last + 1..];
    while true
      invariant |Numeral(n, shift, upper)| <= p + 1 <= last + 1
      invariant Numeral(value, shift, upper) == Numeral(n, shift, upper) + tail
      invariant w.Contents() == pre[..p + 1] + tail + post
      decreases n
    {
      NumeralStep(n, shift, upper);
      var d := [HexDigit(LowBits(n, shift), upper)];
      PutBefore(w, p, d, pre, tail, post);
      p := p - 1;
      tail := d + tail;
      n := ShiftedDown(n, shift);
      if n == 0 { break; }
    }
  }

  /** Digits in the gap of a prepared buffer complete the layout. */
  lemma FillsTheGap(before: string, prefix: string, digits: string, spec: Spec, text: string, last: int)
    requires |digits| <= last + 1 <= |text|
    requires text[..last + 1 - |digits|] == before + Before(prefix, |digits|, spec)
    requires text[last + 1..] == Behind(prefix, |digits|, spec)
    ensures text[..last + 1 - |digits|] + digits + text[last + 1..] == before + Layout(prefix, digits, spec)
  {
  }

  method WriteInDecimal(w: Buffer, n: nat, word: nat, spec: Spec, prefix: string)
    requires w.Valid() && (word == UINT_RANGE || word == WORD) && n < word
    modifies w, w.data
    ensures w.Valid() && (w.data == old(w.data) || fresh(w.data))
    ensures w.Contents() == old(w.Contents()) + Layout(prefix, Decimal(n), spec)
  {
    hide Before, Behind, Layout, Decimal, CountDigits32, CountDigits64;
    CountDigitsCorrect(n);
    var numDigits := if word == UINT_RANGE then CountDigits32(n) else CountDigits64(n);
    ghost var before := w.Contents();
    var last := PrepareIntBuffer(w, numDigits, spec, prefix);
    FillsTheGap(before, prefix, Decimal(n), spec, w.Contents(), last);
    FormatDecimal(w.data, last + 1 - numDigits, n, numDigits);
  }

  method WriteInShifts(w: Buffer, n: nat, shift: nat, upper: bool, spec: Spec, prefix: string)
    requires w.Valid() && 1 <= shift <= 4
    modifies w, w.data
    ensures w.Valid() && (w.data == old(w.data) || fresh(w.data))
    ensures w.Contents() == old(w.Contents()) + Layout(prefix, Numeral(n, shift, upper), spec)
  {
    hide Before, Behind, Layout, Numeral;
    var numDigits := CountShifts(n, shift, upper);
    ghost var before := w.Contents();
    var last := PrepareIntBuffer(w, numDigits, spec, prefix);
    FillsTheGap(before, prefix, Numeral(n, shift, upper), spec, w.Contents(), last);
    WriteShifts(w, last, n, shift, upper);
  }

  /** The text, kind by kind. */
  lemma FormattedByKind(value: int, spec: Spec)
    ensures var n, sign := if value < 0 then -value else value, SignPrefix(value, spec);
      var marked := sign + (if spec.hash then ['0', spec.kind] else "");
      var zeroed := sign + (if spec.hash then "0" else "");
      && (IsDecimal(spec.kind) ==> Formatted(value, spec) == Layout(sign, Decimal(n), spec))
      && (IsHex(spec.kind) ==> Formatted(value, spec) == Layout(marked, Numeral(n, 4, spec.kind == 'X'), spec))
      && (IsBinary(spec.kind) ==> Formatted(value, spec) == Layout(marked, Numeral(n, 1, false), spec))
      && (spec.kind == 'o' ==> Formatted(value, spec) == Layout(zeroed, Numeral(n, 3, false), spec))
  {
    hide Layout, Numeral, Decimal, SignPrefix;
    assert SignPrefix(value, spec) + "" == SignPrefix(value, spec);
  }

  /** write_int for a type of the given word size; an unknown kind writes nothing. */
  method WriteInt(w: Buffer, value: int, word: nat, spec: Spec) returns (r: Result<(), string>)
    requires w.Valid() && (word == UINT_RANGE || word == WORD) && -(word / 2) <= value < word
    modifies w, w.data
    ensures w.Valid() && (w.data == old(w.data) || fresh(w.data))
    ensures r.Ok? <==> KnownKind(spec.kind)
    ensures w.Contents() == old(w.Contents()) + (if r.Ok? then Formatted(value, spec) else "")
  {
    hide Layout, Numeral, Decimal, Formatted, BasePrefix, DigitsOf;
    FormattedByKind(value, spec);
    var absValue := AbsoluteValue(value, word);
    var prefix := "";
    if value < 0 {
      prefix := "-";
    } else if spec.sign {
      prefix := if spec.plus then "+" else " ";
    }
    assert prefix == SignPrefix(value, spec);
    var kind := spec.kind;
    if kind == '\0' || kind == 'd' {
      WriteInDecimal(w, absValue, word, spec, prefix);
    } else if kind == 'x' || kind == 'X' {
      prefix := prefix + (if spec.hash then ['0', kind] else "");
      WriteInShifts(w, absValue, 4, kind == 'X', spec, prefix);
    } else if kind == 'b' || kind == 'B' {
      prefix := prefix + (if spec.hash then ['0', kind] else "");
      WriteInShifts(w, absValue, 1, false, spec, prefix);
    } else if kind == 'o' {
      prefix := prefix + (if spec.hash then "0" else "");
      WriteInShifts(w, absValue, 3, false, spec, prefix);
    } else {
      assert w.Contents() == old(w.Contents()) + "";
      return Err("unknown format code");
    }
    return Ok(());
  }

  lemma SignInFront(before: string, text: string, digits: string)
    requires |before| + 1 <= |text| && text[..|before|] == before && text[|before| + 1..] == digits
    ensures text[..|before|] + "-" + text[|before| + 1..] == before + ("-" + digits)
  {
  }

  /** write_decimal: the numeral goes behind a cell kept for the sign. */
  method WriteDecimal(w: Buffer, value: int, word: nat)
    requires w.Valid() && (word == UINT_RANGE || word == WORD) && -(word / 2) <= value < word
    modifies w, w.data
    ensures w.Valid() && (w.data == old(w.data) || fresh(w.data))
    ensures w.Contents() == old(w.Contents()) + SignedDecimal(value)
  {
    hide Decimal, UINT_RANGE;
    var absValue := AbsoluteValue(value, word);
    if value < 0 {
      var at := WriteUnsignedDecimal(w, absValue, word, 1);
      ghost var unsigned := w.Contents();
      w.Put(at, "-");
      SignInFront(old(w.Contents()), unsigned, Decimal(absValue));
    } else {
      var at := WriteUnsignedDecimal(w, absValue, word, 0);
      assert w.Contents() == w.Contents()[..at] + w.Contents()[at..];
    }
  }

  /** The numeral, with prefixSize unset cells in front of it. */
  method WriteUnsignedDecimal(w: Buffer, value: nat, word: nat, prefixSize: nat) returns (at: nat)
    requires w.Valid() && (word == UINT_RANGE || word == WORD) && value < word
    modifies w, w.data
    ensures w.Valid() && (w.data == old(w.data) || fresh(w.data))
    ensures at == old(w.size) && w.size == at + prefixSize + |Decimal(value)|
    ensures w.Contents()[..at] == old(w.Contents())
    ensures w.Contents()[at + prefixSize..] == Decimal(value)
  {
    hide Decimal, CountDigits32, CountDigits64;
    CountDigitsCorrect(value);
    var numDigits := if word == UINT_RANGE then CountDigits32(value) else CountDigits64(value);
    at := w.GrowBuffer(prefixSize + numDigits);
    FormatDecimal(w.data, at + prefixSize, value, numDigits);
  }
}
