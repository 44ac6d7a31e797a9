/**
 Parsing undoes printing: a format string written out from pieces is split into those pieces.
 */
module FormatReparse {
  import opened Wrappers
  import opened Digits
  import opened Numerals
  import opened FormatSyntax

  // ----- what can be written out -----

  predicate NameChar(c: char) { NameStart(c) || IsDigit(c) }

  predicate RefOk(ref: Ref) {
    match ref
    case Auto => true
    case Index(digits) => digits != "" && AllDigits(digits)
    case Name(name) => name != "" && NameStart(name[0]) && forall i :: 0 <= i < |name| ==> NameChar(name[i])
  }

  predicate SizeOk(size: Size) {
    match size
    case NoSize => true
    case Fixed(digits) => digits != "" && AllDigits(digits)
    case Nested(ref) => RefOk(ref)
  }

  /** A type that cannot be taken for anything that may stand before it. */
  predicate KindOk(c: char) {
    c != '\0' && c != '}' && c != '{' && c != '.' && c != '#' && !IsDigit(c) && !IsSign(c) && !IsAlign(c)
  }

  predicate AlignmentOk(align: Align) {
    match align
    case NoAlign => true
    case OnlyAlign(a) => IsAlign(a)
    case FillAlign(fill, a) => IsAlign(a) && fill != '{' && fill != '}' && fill != '\0'
  }

  /** A width in digits starts with a zero only behind the zero flag. */
  predicate SpecOk(spec: SpecSyntax) {
    && AlignmentOk(spec.align) && SizeOk(spec.width) && SizeOk(spec.precision)
    && (spec.sign.Some? ==> IsSign(spec.sign.value))
    && (spec.kind.Some? ==> KindOk(spec.kind.value))
    && (spec.width.Fixed? && spec.width.digits != "" && !spec.zero ==> spec.width.digits[0] != '0')
  }

  predicate FieldOk(field: Field) { RefOk(field.ref) && (field.spec.Some? ==> SpecOk(field.spec.value)) }

  predicate PieceOk(piece: Piece, next: char) {
    match piece
    case Literal(c) => c != '\0'
    case Hole(field, after) => FieldOk(field) && after == next
  }

  /** Every piece can be written out, and every field knows the character behind it. */
  predicate PiecesOk(pieces: seq<Piece>)
    decreases |pieces|
  {
    pieces != [] ==> PieceOk(pieces[0], CharAt(Source(pieces[1..]), 0)) && PiecesOk(pieces[1..])
  }

  // ----- runs -----

  lemma {:induction false} RunOfDigits(s: string, i: nat, digits: string)
    requires Reads(s, i, digits) && AllDigits(digits) && !IsDigit(CharAt(s, i + |digits|))
    ensures DigitRun(s, i) == digits
    decreases |digits|
  {
    if digits != "" {
      assert s[i] == s[i..i + |digits|][0];
      assert s[i + 1..i + |digits|] == s[i..i + |digits|][1..];
      RunOfDigits(s, i + 1, digits[1..]);
    }
  }

  lemma {:induction false} RunOfName(s: string, i: nat, name: string)
    requires Reads(s, i, name) && !NameChar(CharAt(s, i + |name|))
    requires forall k :: 0 <= k < |name| ==> NameChar(name[k])
    ensures NameRun(s, i) == name
    decreases |name|
  {
    if name != "" {
      assert s[i] == s[i..i + |name|][0];
      assert s[i + 1..i + |name|] == s[i..i + |name|][1..];
      RunOfName(s, i + 1, name[1..]);
    }
  }

  lemma FirstRead(s: string, i: nat, text: string)
    requires Reads(s, i, text) && text != ""
    ensures CharAt(s, i) == text[0] && i < |s|
  {
    assert s[i] == s[i..i + |text|][0];
  }

  lemma RefParses(s: string, i: nat, ref: Ref)
    requires RefOk(ref) && Reads(s, i, RefText(ref)) && !NameChar(CharAt(s, i + |RefText(ref)|))
    ensures RefAt(s, i) == ref
  {
    match ref
    case Auto =>
    case Index(digits) => RunOfDigits(s, i, digits); FirstRead(s, i, digits);
    case Name(name) => RunOfName(s, i, name); FirstRead(s, i, name);
  }

  lemma ReadsParts(s: string, i: nat, a: string, b: string)
    requires Reads(s, i, a + b)
    ensures Reads(s, i, a) && Reads(s, i + |a|, b)
  {
    var ab := a + b;
    assert s[i..i + |a|] == s[i..i + |ab|][..|a|] && s[i + |a|..i + |ab|] == s[i..i + |ab|][|a|..];
  }

  lemma SizeParses(s: string, i: nat, size: Size)
    requires SizeOk(size) && Reads(s, i, SizeText(size))
    requires size.Fixed? ==> !IsDigit(CharAt(s, i + |SizeText(size)|))
    requires size.NoSize? ==> !IsDigit(CharAt(s, i)) && CharAt(s, i) != '{'
    ensures SizeAt(s, i) == Some(size)
  {
    match size
    case NoSize =>
    case Fixed(digits) => RunOfDigits(s, i, digits); FirstRead(s, i, digits);
    case Nested(ref) => NestedParses(s, i, ref);
  }

  lemma NestedParses(s: string, i: nat, ref: Ref)
    requires RefOk(ref) && Reads(s, i, SizeText(Nested(ref)))
    ensures SizeAt(s, i) == Some(Nested(ref))
  {
    hide *;
    NestedTextIs(ref);
    ReadsParts(s, i, "{" + RefText(ref), "}");
    ReadsParts(s, i, "{", RefText(ref));
    FirstRead(s, i, "{");
    FirstRead(s, i + 1 + |RefText(ref)|, "}");
    BracePlain();
    RefParses(s, i + 1, ref);
    SizeIsNested(s, i);
  }

  lemma NestedTextIs(ref: Ref)
    ensures SizeText(Nested(ref)) == "{" + RefText(ref) + "}"
  {
  }

  lemma BracePlain()
    ensures !NameChar('}') && !NameChar(':')
  {
  }

  lemma PrecisionParses(s: string, i: nat, size: Size)
    requires SizeOk(size) && Reads(s, i, PrecisionText(size))
    requires size.Fixed? ==> !IsDigit(CharAt(s, i + |PrecisionText(size)|))
    requires size.NoSize? ==> CharAt(s, i) != '.'
    ensures PrecisionAt(s, i) == Some(size)
  {
    if !size.NoSize? {
      PointAndSize(s, i, size);
      hide Reads, SizeText, SizeAt, SizeOk;
      SizeParses(s, i + 1, size);
    }
  }

  lemma PointAndSize(s: string, i: nat, size: Size)
    requires !size.NoSize? && Reads(s, i, PrecisionText(size))
    ensures CharAt(s, i) == '.' && i < |s| && Reads(s, i + 1, SizeText(size))
    ensures |PrecisionText(size)| == 1 + |SizeText(size)|
  {
    hide Reads, SizeText;
    ReadsParts(s, i, ".", SizeText(size));
    FirstRead(s, i, ".");
  }

  // ----- specifications -----

  /** No alignment character in it. */
  predicate Unaligned(text: string) { forall i :: 0 <= i < |text| ==> !IsAlign(text[i]) }

  lemma UnalignedBoth(a: string, b: string)
    requires Unaligned(a) && Unaligned(b)
    ensures Unaligned(a + b)
  {
  }

  lemma SizesUnaligned(size: Size)
    requires SizeOk(size)
    ensures Unaligned(SizeText(size)) && Unaligned(PrecisionText(size))
  {
  }

  /** What comes behind the alignment. */
  function Tail(spec: SpecSyntax): string {
    CharText(spec.sign) + FlagText(spec.hash, '#') + FlagText(spec.zero, '0')
    + SizeText(spec.width) + PrecisionText(spec.precision) + CharText(spec.kind)
  }

  lemma TailUnaligned(spec: SpecSyntax)
    requires SpecOk(spec)
    ensures Unaligned(Tail(spec))
  {
    SizesUnaligned(spec.width);
    SizesUnaligned(spec.precision);
    assert Unaligned(CharText(spec.sign)) && Unaligned(FlagText(spec.hash, '#')) && Unaligned(FlagText(spec.zero, '0'))
      && Unaligned(CharText(spec.kind));
    hide *;
    var a := CharText(spec.sign) + FlagText(spec.hash, '#');
    UnalignedBoth(CharText(spec.sign), FlagText(spec.hash, '#'));
    UnalignedBoth(a, FlagText(spec.zero, '0'));
    UnalignedBoth(a + FlagText(spec.zero, '0'), SizeText(spec.width));
    UnalignedBoth(a + FlagText(spec.zero, '0') + SizeText(spec.width), PrecisionText(spec.precision));
    UnalignedBoth(a + FlagText(spec.zero, '0') + SizeText(spec.width) + PrecisionText(spec.precision),
                  CharText(spec.kind));
    TailIs(spec);
  }

  lemma TailIs(spec: SpecSyntax)
    ensures Tail(spec) == CharText(spec.sign) + FlagText(spec.hash, '#') + FlagText(spec.zero, '0')
      + SizeText(spec.width) + PrecisionText(spec.precision) + CharText(spec.kind)
    ensures SpecText(spec) == AlignText(spec.align) + Tail(spec)
  {
    hide AlignText, CharText, FlagText, SizeText, PrecisionText;
  }

  lemma AlignParses(s: string, i: nat, align: Align, tail: string)
    requires '\0' !in s && AlignmentOk(align) && Unaligned(tail) && Reads(s, i, AlignText(align))
    requires Reads(s, i + |AlignText(align)|, tail + "}")
    ensures AlignAt(s, i) == Some(align)
  {
    var j := i + |AlignText(align)|;
    ReadsAt(s, j, tail + "}", 0);
    if tail != "" { ReadsAt(s, j, tail + "}", 1); }
    if align.OnlyAlign? { ReadsAt(s, i, [align.a], 0); }
    if align.FillAlign? {
      ReadsAt(s, i, [align.fill, align.a], 0);
      ReadsAt(s, i, [align.fill, align.a], 1);
    }
    hide Reads;
  }

  lemma ReadsAt(s: string, i: nat, text: string, k: nat)
    requires Reads(s, i, text) && k < |text|
    ensures CharAt(s, i + k) == text[k] && i + k < |s|
  {
    assert s[i + k] == s[i..i + |text|][k];
  }

  lemma ReadsInside(s: string, i: nat, text: string)
    requires Reads(s, i, text)
    ensures i <= |s|
  {
  }

  lemma CharParses(s: string, i: nat, c: Option<char>)
    requires i <= |s| && Reads(s, i, CharText(c))
    ensures (c.Some? ==> IsSign(c.value)) && (c.None? ==> !IsSign(CharAt(s, i))) ==> SignAt(s, i) == c
    ensures (c.Some? ==> c.value != '}') && (c.None? ==> CharAt(s, i) == '}') ==> KindAt(s, i) == c
  {
    if c.Some? { ReadsAt(s, i, [c.value], 0); }
  }

  lemma FlagParses(s: string, i: nat, flag: bool, c: char)
    requires i <= |s| && c != '\0' && Reads(s, i, FlagText(flag, c)) && (!flag ==> CharAt(s, i) != c)
    ensures FlagAt(s, i, c) == flag
  {
    if flag { ReadsAt(s, i, [c], 0); }
  }

  /** What stands at the start of the last stages: a character of their text, or of what follows it. */
  lemma StartOf(s: string, i: nat, text: string)
    requires Reads(s, i, text)
    ensures CharAt(s, i) == if text != "" then text[0] else CharAt(s, i + |text|)
  {
    if text != "" { ReadsAt(s, i, text, 0); }
  }

  /** What may stand where the type does. */
  predicate EndsSpec(c: char) { c == '}' || KindOk(c) }

  lemma SizeStarts(size: Size)
    requires SizeOk(size)
    ensures size.NoSize? ==> SizeText(size) == "" && PrecisionText(size) == ""
    ensures !size.NoSize? ==> |SizeText(size)| > 0 && PrecisionText(size) == "." + SizeText(size)
    ensures size.Fixed? ==> IsDigit(SizeText(size)[0]) && SizeText(size) == size.digits
    ensures size.Nested? ==> SizeText(size)[0] == '{'
  {
  }

  /** Where the stages behind the alignment start and stop: sign, hash, zero, width, precision, type. */
  function Stage(i1: nat, spec: SpecSyntax, n: nat): nat {
    i1 + (if n > 0 then |CharText(spec.sign)| else 0) + (if n > 1 then |FlagText(spec.hash, '#')| else 0)
    + (if n > 2 then |FlagText(spec.zero, '0')| else 0) + (if n > 3 then |SizeText(spec.width)| else 0)
    + (if n > 4 then |PrecisionText(spec.precision)| else 0) + (if n > 5 then |CharText(spec.kind)| else 0)
  }

  /** Each stage's text stands where the one before it stops. */
  ghost predicate TailReads(s: string, i1: nat, spec: SpecSyntax) {
    && Reads(s, i1, CharText(spec.sign)) && Reads(s, Stage(i1, spec, 1), FlagText(spec.hash, '#'))
    && Reads(s, Stage(i1, spec, 2), FlagText(spec.zero, '0')) && Reads(s, Stage(i1, spec, 3), SizeText(spec.width))
    && Reads(s, Stage(i1, spec, 4), PrecisionText(spec.precision)) && Reads(s, Stage(i1, spec, 5), CharText(spec.kind))
    && CharAt(s, Stage(i1, spec, 6)) == '}'
  }

  lemma TailIsRead(s: string, i1: nat, spec: SpecSyntax)
    requires Reads(s, i1, Tail(spec)) && CharAt(s, i1 + |Tail(spec)|) == '}'
    ensures TailReads(s, i1, spec)
  {
    hide Reads, CharText, FlagText, SizeText, PrecisionText, CharAt;
    var sign, hash, zero := CharText(spec.sign), FlagText(spec.hash, '#'), FlagText(spec.zero, '0');
    var width, precision, kind := SizeText(spec.width), PrecisionText(spec.precision), CharText(spec.kind);
    ReadsParts(s, i1, sign + hash + zero + width + precision, kind);
    ReadsParts(s, i1, sign + hash + zero + width, precision);
    ReadsParts(s, i1, sign + hash + zero, width);
    ReadsParts(s, i1, sign + hash, zero);
    ReadsParts(s, i1, sign, hash);
  }

  /** The character a stage starts with tells whether there is anything to it. */
  ghost predicate TailStarts(s: string, i1: nat, spec: SpecSyntax) {
    var precision, width := CharAt(s, Stage(i1, spec, 4)), CharAt(s, Stage(i1, spec, 3));
    && (spec.kind.None? ==> CharAt(s, Stage(i1, spec, 5)) == '}') && !IsDigit(CharAt(s, Stage(i1, spec, 5)))
    && (spec.precision.NoSize? ==> precision != '.') && !IsDigit(precision)
    && (spec.width.NoSize? ==> !IsDigit(width) && width != '{')
    && (!spec.zero ==> CharAt(s, Stage(i1, spec, 2)) != '0')
    && (!spec.hash ==> CharAt(s, Stage(i1, spec, 1)) != '#')
    && (spec.sign.None? ==> !IsSign(CharAt(s, i1)))
  }

  lemma StagesFollow(i1: nat, spec: SpecSyntax)
    ensures Stage(i1, spec, 0) == i1 && Stage(i1, spec, 1) == i1 + |CharText(spec.sign)|
    ensures Stage(i1, spec, 2) == Stage(i1, spec, 1) + |FlagText(spec.hash, '#')|
    ensures Stage(i1, spec, 3) == Stage(i1, spec, 2) + |FlagText(spec.zero, '0')|
    ensures Stage(i1, spec, 4) == Stage(i1, spec, 3) + |SizeText(spec.width)|
    ensures Stage(i1, spec, 5) == Stage(i1, spec, 4) + |PrecisionText(spec.precision)|
    ensures Stage(i1, spec, 6) == Stage(i1, spec, 5) + |CharText(spec.kind)|
  {
    hide CharText, FlagText, SizeText, PrecisionText;
  }

  /** Where the type stands, and the precision before it. */
  lemma EndsTell(s: string, i1: nat, spec: SpecSyntax)
    requires SpecOk(spec) && TailReads(s, i1, spec)
    ensures var c, d := CharAt(s, Stage(i1, spec, 5)), CharAt(s, Stage(i1, spec, 4));
      && (spec.kind.None? ==> c == '}') && !IsDigit(c)
      && (spec.precision.NoSize? ==> d != '.') && !IsDigit(d) && d != '{' && d != '#' && !IsSign(d)
  {
    SizeStarts(spec.precision);
    StagesFollow(i1, spec);
    assert spec.kind.Some? ==> KindOk(spec.kind.value);
    assert Reads(s, Stage(i1, spec, 5), CharText(spec.kind)) && CharAt(s, Stage(i1, spec, 6)) == '}';
    assert Reads(s, Stage(i1, spec, 4), PrecisionText(spec.precision));
    hide Stage, Reads, SizeText, PrecisionText, CharAt, SpecOk, TailReads;
    StartOf(s, Stage(i1, spec, 5), CharText(spec.kind));
    StartOf(s, Stage(i1, spec, 4), PrecisionText(spec.precision));
  }

  /** Where the width stands, and the zero flag before it. */
  lemma WidthTells(s: string, i1: nat, spec: SpecSyntax)
    requires SpecOk(spec) && TailReads(s, i1, spec)
    ensures var d, c := CharAt(s, Stage(i1, spec, 3)), CharAt(s, Stage(i1, spec, 2));
      && (spec.width.NoSize? ==> !IsDigit(d) && d != '{')
      && (!spec.zero ==> c != '0') && c != '#' && !IsSign(c)
  {
    hide SpecOk, Stage, Reads, SizeText, PrecisionText, CharAt;
    EndsTell(s, i1, spec);
    WidthOk(spec);
    SizeStarts(spec.width);
    StagesFollow(i1, spec);
    hide TailReads;
    WidthReads(s, i1, spec);
    StartOf(s, Stage(i1, spec, 3), SizeText(spec.width));
    StartOf(s, Stage(i1, spec, 2), FlagText(spec.zero, '0'));
  }

  lemma WidthReads(s: string, i1: nat, spec: SpecSyntax)
    requires TailReads(s, i1, spec)
    ensures Reads(s, Stage(i1, spec, 3), SizeText(spec.width))
    ensures Reads(s, Stage(i1, spec, 2), FlagText(spec.zero, '0'))
  {
    hide Reads, Stage;
  }

  lemma WidthOk(spec: SpecSyntax)
    requires SpecOk(spec)
    ensures SizeOk(spec.width)
    ensures spec.width.Fixed? && spec.width.digits != "" && !spec.zero ==> spec.width.digits[0] != '0'
  {
    hide SizeOk, AlignmentOk;
  }

  lemma StartsTell(s: string, i1: nat, spec: SpecSyntax)
    requires SpecOk(spec) && TailReads(s, i1, spec)
    ensures TailStarts(s, i1, spec)
  {
    hide SpecOk, Stage, Reads, SizeText, PrecisionText, CharAt, IsSign;
    EndsTell(s, i1, spec);
    WidthTells(s, i1, spec);
    SignIsSign(spec);
    StagesFollow(i1, spec);
    StartOf(s, Stage(i1, spec, 1), FlagText(spec.hash, '#'));
    StartOf(s, i1, CharText(spec.sign));
  }

  lemma SignIsSign(spec: SpecSyntax)
    requires SpecOk(spec)
    ensures !IsSign('#') && !IsSign('0') && (spec.sign.Some? ==> IsSign(spec.sign.value))
  {
  }

  /** The flags are parsed as they were written. */
  lemma FlagsParse(s: string, i1: nat, spec: SpecSyntax)
    requires TailReads(s, i1, spec) && TailStarts(s, i1, spec) && (spec.sign.Some? ==> IsSign(spec.sign.value))
    ensures Stage(i1, spec, 2) <= |s|
    ensures SignAt(s, i1) == spec.sign && FlagAt(s, Stage(i1, spec, 1), '#') == spec.hash
    ensures FlagAt(s, Stage(i1, spec, 2), '0') == spec.zero
  {
    hide Stage, SizeText, PrecisionText, CharText, FlagText, SignAt, FlagAt, CharAt, IsSign, Reads;
    ReadsInside(s, i1, CharText(spec.sign));
    ReadsInside(s, Stage(i1, spec, 1), FlagText(spec.hash, '#'));
    ReadsInside(s, Stage(i1, spec, 2), FlagText(spec.zero, '0'));
    CharParses(s, i1, spec.sign);
    FlagParses(s, Stage(i1, spec, 1), spec.hash, '#');
    FlagParses(s, Stage(i1, spec, 2), spec.zero, '0');
  }

  /** So are the sizes and the type. */
  lemma SizesParse(s: string, i1: nat, spec: SpecSyntax)
    requires TailReads(s, i1, spec) && TailStarts(s, i1, spec) && SizeOk(spec.width) && SizeOk(spec.precision)
    requires spec.kind.Some? ==> spec.kind.value != '}'
    ensures Stage(i1, spec, 5) <= |s|
    ensures SizeAt(s, Stage(i1, spec, 3)) == Some(spec.width)
    ensures PrecisionAt(s, Stage(i1, spec, 4)) == Some(spec.precision) && KindAt(s, Stage(i1, spec, 5)) == spec.kind
  {
    StagesFollow(i1, spec);
    hide Stage, SizeText, PrecisionText, CharText, FlagText, SizeAt, PrecisionAt, KindAt, SizeOk, CharAt, IsSign,
      IsDigit, Reads;
    ReadsInside(s, Stage(i1, spec, 5), CharText(spec.kind));
    SizeParses(s, Stage(i1, spec, 3), spec.width);
    PrecisionParses(s, Stage(i1, spec, 4), spec.precision);
    CharParses(s, Stage(i1, spec, 5), spec.kind);
  }

  /** Every stage behind the alignment is parsed as it was written. */
  lemma TailParses(s: string, i1: nat, spec: SpecSyntax)
    requires SpecOk(spec) && TailReads(s, i1, spec)
    ensures Stage(i1, spec, 2) <= |s| && Stage(i1, spec, 5) <= |s|
    ensures SignAt(s, i1) == spec.sign && FlagAt(s, Stage(i1, spec, 1), '#') == spec.hash
    ensures FlagAt(s, Stage(i1, spec, 2), '0') == spec.zero && SizeAt(s, Stage(i1, spec, 3)) == Some(spec.width)
    ensures PrecisionAt(s, Stage(i1, spec, 4)) == Some(spec.precision) && KindAt(s, Stage(i1, spec, 5)) == spec.kind
  {
    assert spec.kind.Some? ==> spec.kind.value != '}';
    assert spec.sign.Some? ==> IsSign(spec.sign.value);
    assert SizeOk(spec.width) && SizeOk(spec.precision);
    hide *;
    StartsTell(s, i1, spec);
    FlagsParse(s, i1, spec);
    SizesParse(s, i1, spec);
  }

  // ----- whole specifications -----

  /** A specification printed in front of a closing brace is parsed as it was. */
  lemma SpecParses(s: string, i: nat, spec: SpecSyntax)
    requires '\0' !in s && SpecOk(spec) && Reads(s, i, SpecText(spec)) && CharAt(s, i + |SpecText(spec)|) == '}'
    ensures SpecAt(s, i) == Some(spec)
  {
    hide *;
    var i1 := i + |AlignText(spec.align)|;
    TailInPlace(s, i, spec);
    TailIsRead(s, i1, spec);
    TailParses(s, i1, spec);
    TailUnaligned(spec);
    BraceBehind(s, i1, Tail(spec));
    AlignParses(s, i, spec.align, Tail(spec));
    StagesMakeSpec(s, i, spec);
  }

  lemma TailInPlace(s: string, i: nat, spec: SpecSyntax)
    requires SpecOk(spec) && Reads(s, i, SpecText(spec)) && CharAt(s, i + |SpecText(spec)|) == '}'
    ensures AlignmentOk(spec.align) && Reads(s, i, AlignText(spec.align)) && i <= |s|
    ensures Reads(s, i + |AlignText(spec.align)|, Tail(spec))
    ensures CharAt(s, i + |AlignText(spec.align)| + |Tail(spec)|) == '}'
  {
    hide Reads, SpecText, Tail, AlignText, CharAt, SizeOk, KindOk, IsSign;
    ReadsInside(s, i, SpecText(spec));
    TailIs(spec);
    ReadsParts(s, i, AlignText(spec.align), Tail(spec));
  }

  lemma BraceBehind(s: string, i: nat, text: string)
    requires Reads(s, i, text) && CharAt(s, i + |text|) == '}'
    ensures Reads(s, i, text + "}")
  {
    ReadsOne(s, i + |text|, '}');
    ReadsBoth(s, i, text, "}");
  }

  lemma StagesMakeSpec(s: string, i: nat, spec: SpecSyntax)
    requires i <= |s| && '\0' !in s && AlignAt(s, i) == Some(spec.align)
    requires var i1 := i + |AlignText(spec.align)|;
      && Stage(i1, spec, 5) <= |s|
      && SignAt(s, i1) == spec.sign && FlagAt(s, Stage(i1, spec, 1), '#') == spec.hash
      && FlagAt(s, Stage(i1, spec, 2), '0') == spec.zero && SizeAt(s, Stage(i1, spec, 3)) == Some(spec.width)
      && PrecisionAt(s, Stage(i1, spec, 4)) == Some(spec.precision) && KindAt(s, Stage(i1, spec, 5)) == spec.kind
    ensures SpecAt(s, i) == Some(spec)
  {
    hide AlignText, CharText, FlagText, SizeText, PrecisionText, AlignAt, SignAt, FlagAt, SizeAt, PrecisionAt, KindAt,
      Reads;
  }

  // ----- fields and strings -----

  lemma FieldParses(s: string, i: nat, field: Field)
    requires '\0' !in s && FieldOk(field) && Reads(s, i, FieldText(field))
    ensures FieldAt(s, i) == Some(field)
  {
    hide *;
    var j := i + |RefText(field.ref)|;
    BracePlain();
    FieldOkParts(field);
    FieldInPlace(s, i, field);
    RefParses(s, i, field.ref);
    if field.spec.Some? { SpecParses(s, j + 1, field.spec.value); }
    PartsMakeField(s, i, field);
  }

  lemma FieldOkParts(field: Field)
    requires FieldOk(field)
    ensures RefOk(field.ref) && (field.spec.Some? ==> SpecOk(field.spec.value))
  {
    hide RefOk, SpecOk;
  }

  lemma PartsMakeField(s: string, i: nat, field: Field)
    requires i <= |s| && '\0' !in s && RefAt(s, i) == field.ref
    requires var j := i + |RefText(field.ref)|;
      if field.spec.None? then CharAt(s, j) == '}'
      else CharAt(s, j) == ':' && j + 1 <= |s| && SpecAt(s, j + 1) == field.spec
           && CharAt(s, j + 1 + |SpecText(field.spec.value)|) == '}'
    ensures FieldAt(s, i) == Some(field)
  {
    hide Reads, RefText, SpecText, SpecAt, RefAt;
  }

  lemma FieldInPlace(s: string, i: nat, field: Field)
    requires Reads(s, i, FieldText(field))
    ensures var j := i + |RefText(field.ref)|;
      && i <= |s| && j <= |s| && Reads(s, i, RefText(field.ref))
      && if field.spec.None? then CharAt(s, j) == '}'
         else CharAt(s, j) == ':' && Reads(s, j + 1, SpecText(field.spec.value))
              && j + 1 <= |s| && CharAt(s, j + 1 + |SpecText(field.spec.value)|) == '}'
  {
    hide *;
    var ref, j := RefText(field.ref), i + |RefText(field.ref)|;
    FieldTextIs(field);
    if field.spec.Some? {
      var text := SpecText(field.spec.value);
      ReadsParts(s, i, ref + ":" + text, "}");
      ReadsParts(s, i, ref + ":", text);
      ReadsParts(s, i, ref, ":");
      ReadsInside(s, j + 1, text);
      ReadsAt(s, i + |ref + ":" + text|, "}", 0);
      ReadsAt(s, j, ":", 0);
    } else {
      ReadsParts(s, i, ref, "}");
      ReadsAt(s, j, "}", 0);
    }
    ReadsInside(s, i, ref);
  }

  lemma FieldTextIs(field: Field)
    ensures FieldText(field) ==
      if field.spec.Some? then RefText(field.ref) + ":" + SpecText(field.spec.value) + "}"
      else RefText(field.ref) + "}"
  {
    hide RefText, SpecText;
    assert RefText(field.ref) + "" == RefText(field.ref);
  }

  lemma FieldStarts(field: Field)
    requires FieldOk(field)
    ensures FieldText(field)[0] != '{'
  {
    hide SpecText;
  }

  /** Printing pieces and splitting the text gives the pieces back. */
  lemma {:induction false} SplitParses(s: string, i: nat, pieces: seq<Piece>)
    requires i <= |s| && '\0' !in s && PiecesOk(pieces) && s[i..] == Source(pieces)
    ensures Split(s, i) == Some(pieces)
    decreases |pieces|
  {
    hide *;
    if pieces == [] {
      NothingToSplit(s, i);
    } else {
      var first, rest := PieceText(pieces[0]), pieces[1..];
      FirstOfPieces(pieces);
      PieceNotEmpty(pieces[0]);
      CutBehind(s, i, first, Source(rest));
      SplitParses(s, i + |first|, rest);
      FirstSplit(s, i, pieces[0], rest);
      assert pieces == [pieces[0]] + rest;
    }
  }

  lemma NothingToSplit(s: string, i: nat)
    requires i <= |s| && '\0' !in s && s[i..] == Source([])
    ensures Split(s, i) == Some([])
  {
  }

  lemma FirstOfPieces(pieces: seq<Piece>)
    requires pieces != [] && PiecesOk(pieces)
    ensures PieceOk(pieces[0], CharAt(Source(pieces[1..]), 0)) && PiecesOk(pieces[1..])
    ensures Source(pieces) == PieceText(pieces[0]) + Source(pieces[1..])
  {
    hide PieceOk, PieceText;
  }

  lemma PieceNotEmpty(piece: Piece)
    ensures |PieceText(piece)| > 0
  {
    hide FieldText;
  }

  lemma CutBehind(s: string, i: nat, a: string, b: string)
    requires i <= |s| && s[i..] == a + b
    ensures Reads(s, i, a) && i + |a| <= |s| && s[i + |a|..] == b && CharAt(s, i + |a|) == CharAt(b, 0)
  {
    assert s[i + |a|..] == s[i..][|a|..] && s[i..i + |a|] == s[i..][..|a|];
    assert b != "" ==> s[i + |a|] == s[i + |a|..][0];
  }

  lemma FirstSplit(s: string, i: nat, piece: Piece, rest: seq<Piece>)
    requires '\0' !in s && Reads(s, i, PieceText(piece))
    requires i + |PieceText(piece)| <= |s| && Split(s, i + |PieceText(piece)|) == Some(rest)
    requires PieceOk(piece, CharAt(s, i + |PieceText(piece)|))
    ensures Split(s, i) == Some([piece] + rest)
  {
    hide PieceText, Reads, Split, FieldOk;
    match piece
    case Literal(c) => LiteralSplit(s, i, c, rest);
    case Hole(field, after) => HoleSplit(s, i, field, after, rest);
  }

  lemma LiteralSplit(s: string, i: nat, c: char, rest: seq<Piece>)
    requires '\0' !in s && c != '\0' && Reads(s, i, PieceText(Literal(c)))
    requires i + |PieceText(Literal(c))| <= |s| && Split(s, i + |PieceText(Literal(c))|) == Some(rest)
    ensures Split(s, i) == Some([Literal(c)] + rest)
  {
    ReadsAt(s, i, PieceText(Literal(c)), 0);
    if c == '{' || c == '}' { ReadsAt(s, i, PieceText(Literal(c)), 1); }
    hide FieldAt, FieldText, Reads;
  }

  lemma HoleSplit(s: string, i: nat, field: Field, after: char, rest: seq<Piece>)
    requires '\0' !in s && FieldOk(field) && Reads(s, i, PieceText(Hole(field, after)))
    requires var end := i + |PieceText(Hole(field, after))|;
      after == CharAt(s, end) && end <= |s| && Split(s, end) == Some(rest)
    ensures Split(s, i) == Some([Hole(field, after)] + rest)
  {
    hide *;
    HoleInPlace(s, i, field, after);
    FieldParses(s, i + 1, field);
    FieldMakesHole(s, i, field, after, rest);
  }

  lemma HoleInPlace(s: string, i: nat, field: Field, after: char)
    requires FieldOk(field) && Reads(s, i, PieceText(Hole(field, after)))
    ensures Reads(s, i + 1, FieldText(field)) && |PieceText(Hole(field, after))| == 1 + |FieldText(field)|
    ensures i + 1 < |s| && s[i] == '{' && s[i + 1] != '{'
  {
    FieldTextLength(field);
    FieldStarts(field);
    assert PieceText(Hole(field, after)) == "{" + FieldText(field);
    hide FieldText, FieldOk, Reads, PieceText;
    ReadsParts(s, i, "{", FieldText(field));
    ReadsAt(s, i, "{", 0);
    ReadsAt(s, i + 1, FieldText(field), 0);
  }

  lemma FieldMakesHole(s: string, i: nat, field: Field, after: char, rest: seq<Piece>)
    requires '\0' !in s && i + 1 < |s| && s[i] == '{' && s[i + 1] != '{' && FieldAt(s, i + 1) == Some(field)
    requires var end := i + 1 + |FieldText(field)|;
      after == CharAt(s, end) && end <= |s| && Split(s, end) == Some(rest)
    ensures Split(s, i) == Some([Hole(field, after)] + rest)
  {
    hide FieldAt, FieldText, Reads;
  }

  // ----- no terminating NUL -----

  lemma PartsNulFree(spec: SpecSyntax)
    requires SpecOk(spec)
    ensures '\0' !in AlignText(spec.align) && '\0' !in CharText(spec.sign) && '\0' !in FlagText(spec.hash, '#')
    ensures '\0' !in FlagText(spec.zero, '0') && '\0' !in CharText(spec.kind)
    ensures '\0' !in SizeText(spec.width) && '\0' !in PrecisionText(spec.precision)
  {
  }

  lemma SpecNulFree(spec: SpecSyntax)
    requires SpecOk(spec)
    ensures '\0' !in SpecText(spec)
  {
    hide *;
    PartsNulFree(spec);
    TailIs(spec);
  }

  lemma PieceNulFree(piece: Piece, next: char)
    requires PieceOk(piece, next)
    ensures '\0' !in PieceText(piece)
  {
    hide SpecOk, SpecText;
    if piece.Hole? {
      FieldTextIs(piece.field);
      assert '\0' !in RefText(piece.field.ref);
      if piece.field.spec.Some? { SpecNulFree(piece.field.spec.value); }
    }
  }

  lemma {:induction false} SourceNulFree(pieces: seq<Piece>)
    requires PiecesOk(pieces)
    ensures '\0' !in Source(pieces)
    decreases |pieces|
  {
    if pieces != [] {
      hide PieceOk, PieceText;
      PieceNulFree(pieces[0], CharAt(Source(pieces[1..]), 0));
      SourceNulFree(pieces[1..]);
    }
  }
}
