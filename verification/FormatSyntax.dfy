/**
 The syntax of format strings: literal text with doubled braces, and replacement fields. A
 string is a C string, so reading at its end gives the terminating NUL.
 */
module FormatSyntax {
  import opened Wrappers
  import opened Digits
  import opened Numerals

  /** Which argument: the next one, one by number, one by name. */
  datatype Ref = Auto | Index(digits: string) | Name(name: string)

  /** A width or precision: absent, in digits, or taken from an argument. */
  datatype Size = NoSize | Fixed(digits: string) | Nested(ref: Ref)

  datatype Align = NoAlign | OnlyAlign(a: char) | FillAlign(fill: char, a: char)

  datatype SpecSyntax = SpecSyntax(
    align: Align, sign: Option<char>, hash: bool, zero: bool, width: Size, precision: Size, kind: Option<char>)

  const EMPTY_SPEC := SpecSyntax(NoAlign, None, false, false, NoSize, NoSize, None)

  datatype Field = Field(ref: Ref, spec: Option<SpecSyntax>)

  /** A literal character, or a field and the character behind it. */
  datatype Piece = Literal(c: char) | Hole(field: Field, after: char)

  // ----- from syntax to text -----

  function RefText(ref: Ref): string {
    match ref
    case Auto => ""
    case Index(digits) => digits
    case Name(name) => name
  }

  function SizeText(size: Size): string {
    match size
    case NoSize => ""
    case Fixed(digits) => digits
    case Nested(ref) => "{" + RefText(ref) + "}"
  }

  function AlignText(align: Align): string {
    match align
    case NoAlign => ""
    case OnlyAlign(a) => [a]
    case FillAlign(fill, a) => [fill, a]
  }

  function CharText(c: Option<char>): string { if c.Some? then [c.value] else "" }

  function FlagText(flag: bool, c: char): string { if flag then [c] else "" }

  function PrecisionText(size: Size): string { if size.NoSize? then "" else "." + SizeText(size) }

  function SpecText(spec: SpecSyntax): string {
    AlignText(spec.align) + CharText(spec.sign) + FlagText(spec.hash, '#') + FlagText(spec.zero, '0')
    + SizeText(spec.width) + PrecisionText(spec.precision) + CharText(spec.kind)
  }

  /** A field without its opening brace. */
  function FieldText(field: Field): string {
    RefText(field.ref) + (if field.spec.Some? then ":" + SpecText(field.spec.value) else "") + "}"
  }

  function PieceText(piece: Piece): string {
    match piece
    case Literal(c) => if c == '{' || c == '}' then [c, c] else [c]
    case Hole(field, _) => "{" + FieldText(field)
  }

  function Source(pieces: seq<Piece>): string {
    if pieces == [] then "" else PieceText(pieces[0]) + Source(pieces[1..])
  }

  // ----- from text to syntax -----

  /** The text stands at position i. */
  predicate Reads(s: string, i: nat, text: string) { i + |text| <= |s| && s[i..i + |text|] == text }

  lemma ReadsBoth(s: string, i: nat, a: string, b: string)
    requires Reads(s, i, a) && Reads(s, i + |a|, b)
    ensures Reads(s, i, a + b)
  {
  }

  lemma ReadsOne(s: string, i: nat, c: char)
    ensures Reads(s, i, [c]) <==> i < |s| && s[i] == c
  {
  }

  predicate NameStart(c: char) { 'a' <= c <= 'z' || 'A' <= c <= 'Z' || c == '_' }

  /** Letters, digits and underscores from i on. */
  function NameRun(s: string, i: nat): (name: string)
    requires i <= |s|
    ensures i + |name| <= |s| && name == s[i..i + |name|]
    ensures !NameStart(CharAt(s, i + |name|)) && !IsDigit(CharAt(s, i + |name|))
    decreases |s| - i
  {
    if i < |s| && (NameStart(s[i]) || IsDigit(s[i])) then [s[i]] + NameRun(s, i + 1) else []
  }

  function RefAt(s: string, i: nat): (ref: Ref)
    requires i <= |s|
    ensures Reads(s, i, RefText(ref))
  {
    if NameStart(CharAt(s, i)) then Name(NameRun(s, i))
    else if IsDigit(CharAt(s, i)) then Index(DigitRun(s, i))
    else Auto
  }

  predicate IsAlign(c: char) { c == '<' || c == '>' || c == '=' || c == '^' }

  predicate IsSign(c: char) { c == '+' || c == '-' || c == ' ' }

  /** Fill and alignment; an opening brace cannot be the fill. */
  function AlignAt(s: string, i: nat): (r: Option<Align>)
    requires i <= |s| && '\0' !in s
    ensures r.Some? ==> Reads(s, i, AlignText(r.value))
  {
    var c, d := CharAt(s, i), if i < |s| then CharAt(s, i + 1) else '\0';
    if IsAlign(d) && c == '}' then Some(NoAlign)
    else if IsAlign(d) && c == '{' then None
    else if IsAlign(d) then assert Reads(s, i, [c, d]); Some(FillAlign(c, d))
    else if IsAlign(c) then Some(OnlyAlign(c))
    else Some(NoAlign)
  }

  function SizeAt(s: string, i: nat): (r: Option<Size>)
    requires i <= |s|
    ensures r.Some? ==> Reads(s, i, SizeText(r.value))
  {
    if IsDigit(CharAt(s, i)) then Some(Fixed(DigitRun(s, i)))
    else if CharAt(s, i) == '{' then
      var ref := RefAt(s, i + 1);
      var j := i + 1 + |RefText(ref)|;
      if CharAt(s, j) == '}' then NestedReads(s, i, ref); Some(Nested(ref)) else None
    else Some(NoSize)
  }

  lemma SizeIsNested(s: string, i: nat)
    requires i < |s| && s[i] == '{'
    ensures var ref := RefAt(s, i + 1);
      var j := i + 1 + |RefText(ref)|;
      && SizeAt(s, i) == (if CharAt(s, j) == '}' then Some(Nested(ref)) else None)
      && |SizeText(Nested(ref))| == |RefText(ref)| + 2 && j <= |s|
  {
    hide RefText, RefAt, NameRun, DigitRun;
  }

  lemma SizeIsAbsent(s: string, i: nat)
    ensures i <= |s| ==> (SizeAt(s, i) == Some(NoSize) <==> !IsDigit(CharAt(s, i)) && CharAt(s, i) != '{')
  {
  }

  lemma NestedReads(s: string, i: nat, ref: Ref)
    requires CharAt(s, i) == '{' && Reads(s, i + 1, RefText(ref)) && CharAt(s, i + 1 + |RefText(ref)|) == '}'
    ensures Reads(s, i, SizeText(Nested(ref)))
  {
    hide Reads;
    ReadsOne(s, i, '{');
    ReadsOne(s, i + 1 + |RefText(ref)|, '}');
    ReadsBoth(s, i, "{", RefText(ref));
    ReadsBoth(s, i, "{" + RefText(ref), "}");
  }

  function PrecisionAt(s: string, i: nat): (r: Option<Size>)
    requires i <= |s|
    ensures r.Some? ==> Reads(s, i, PrecisionText(r.value))
  {
    if CharAt(s, i) != '.' then Some(NoSize)
    else
      var r := SizeAt(s, i + 1);
      if r.Some? && !r.value.NoSize? then
        ReadsOne(s, i, '.'); ReadsBoth(s, i, ".", SizeText(r.value)); r
      else None
  }

  function SignAt(s: string, i: nat): (r: Option<char>)
    requires i <= |s|
    ensures Reads(s, i, CharText(r))
  {
    if IsSign(CharAt(s, i)) then Some(CharAt(s, i)) else None
  }

  function FlagAt(s: string, i: nat, c: char): (r: bool)
    requires i <= |s| && c != '\0'
    ensures Reads(s, i, FlagText(r, c))
  {
    CharAt(s, i) == c
  }

  function KindAt(s: string, i: nat): (r: Option<char>)
    requires i <= |s|
    ensures Reads(s, i, CharText(r))
  {
    if CharAt(s, i) != '}' && i < |s| then Some(CharAt(s, i)) else None
  }

  lemma KindIs(s: string, i: nat)
    ensures i <= |s| ==> KindAt(s, i) == if CharAt(s, i) != '}' && i < |s| then Some(CharAt(s, i)) else None
  {
  }

  /** The stages of a specification, one after the other, each starting where the last ended. */
  function SpecAt(s: string, i: nat): (r: Option<SpecSyntax>)
    requires i <= |s| && '\0' !in s
  {
    var align := AlignAt(s, i);
    if align.None? then None else
    var i1 := i + |AlignText(align.value)|;
    var sign := SignAt(s, i1);
    var i2 := i1 + |CharText(sign)|;
    var hash := FlagAt(s, i2, '#');
    var i3 := i2 + |FlagText(hash, '#')|;
    var zero := FlagAt(s, i3, '0');
    var i4 := i3 + |FlagText(zero, '0')|;
    var width := SizeAt(s, i4);
    if width.None? then None else
    var i5 := i4 + |SizeText(width.value)|;
    var precision := PrecisionAt(s, i5);
    if precision.None? then None else
    var i6 := i5 + |PrecisionText(precision.value)|;
        Some(SpecSyntax(align.value, sign, hash, zero, width.value, precision.value, KindAt(s, i6)))
  }

  /** A parsed specification is the text it was parsed from. */
  lemma SpecReprints(s: string, i: nat)
    requires i <= |s| && '\0' !in s && SpecAt(s, i).Some?
    ensures Reads(s, i, SpecText(SpecAt(s, i).value))
  {
    hide *;
    var spec := SpecAt(s, i).value;
    StagesRead(s, i);
    SpecTextIs(spec);
    var b := AlignText(spec.align) + CharText(spec.sign);
    var c := b + FlagText(spec.hash, '#');
    var d := c + FlagText(spec.zero, '0');
    var e := d + SizeText(spec.width);
    ReadsBoth(s, i, AlignText(spec.align), CharText(spec.sign));
    ReadsBoth(s, i, b, FlagText(spec.hash, '#'));
    ReadsBoth(s, i, c, FlagText(spec.zero, '0'));
    ReadsBoth(s, i, d, SizeText(spec.width));
    ReadsBoth(s, i, e, PrecisionText(spec.precision));
    ReadsBoth(s, i, e + PrecisionText(spec.precision), CharText(spec.kind));
  }

  lemma SpecTextIs(spec: SpecSyntax)
    ensures SpecText(spec) ==
      AlignText(spec.align) + CharText(spec.sign) + FlagText(spec.hash, '#') + FlagText(spec.zero, '0')
      + SizeText(spec.width) + PrecisionText(spec.precision) + CharText(spec.kind)
  {
  }

  lemma SpecTextLength(spec: SpecSyntax)
    ensures |SpecText(spec)| ==
      |AlignText(spec.align)| + |CharText(spec.sign)| + |FlagText(spec.hash, '#')| + |FlagText(spec.zero, '0')|
      + |SizeText(spec.width)| + |PrecisionText(spec.precision)| + |CharText(spec.kind)|
  {
  }

  /** Each stage's text stands where the stage began. */
  lemma StagesRead(s: string, i: nat)
    requires i <= |s| && '\0' !in s && SpecAt(s, i).Some?
    ensures var spec := SpecAt(s, i).value;
      var i1 := i + |AlignText(spec.align)|;
      var i2 := i1 + |CharText(spec.sign)|;
      var i3 := i2 + |FlagText(spec.hash, '#')|;
      var i4 := i3 + |FlagText(spec.zero, '0')|;
      var i5 := i4 + |SizeText(spec.width)|;
      && Reads(s, i, AlignText(spec.align)) && Reads(s, i1, CharText(spec.sign))
      && Reads(s, i2, FlagText(spec.hash, '#')) && Reads(s, i3, FlagText(spec.zero, '0'))
      && Reads(s, i4, SizeText(spec.width)) && Reads(s, i5, PrecisionText(spec.precision))
      && Reads(s, i5 + |PrecisionText(spec.precision)|, CharText(spec.kind))
  {
    hide AlignText, CharText, FlagText, SizeText, PrecisionText, AlignAt, SignAt, FlagAt, SizeAt, PrecisionAt,
      KindAt, Reads;
  }

  /** A field, from behind its opening brace on. */
  function FieldAt(s: string, i: nat): Option<Field>
    requires i <= |s| && '\0' !in s
  {
    var ref := RefAt(s, i);
    var j := i + |RefText(ref)|;
    if CharAt(s, j) == ':' then
      var spec := SpecAt(s, j + 1);
      if spec.Some? && CharAt(s, j + 1 + |SpecText(spec.value)|) == '}' then Some(Field(ref, spec)) else None
    else if CharAt(s, j) == '}' then Some(Field(ref, None))
    else None
  }

  lemma FieldReprints(s: string, i: nat)
    requires i <= |s| && '\0' !in s && FieldAt(s, i).Some?
    ensures Reads(s, i, FieldText(FieldAt(s, i).value))
  {
    hide RefAt, RefText, SpecAt, SpecText, FieldText, Reads;
    var ref := RefAt(s, i);
    var j := i + |RefText(ref)|;
    if CharAt(s, j) == ':' {
      SpecReprints(s, j + 1);
      FieldReads(s, i, ref, SpecAt(s, j + 1));
    } else {
      FieldReads(s, i, ref, None);
    }
  }

  lemma FieldTextLength(field: Field)
    ensures |FieldText(field)| ==
      |RefText(field.ref)| + (if field.spec.Some? then 1 + |SpecText(field.spec.value)| else 0) + 1
  {
    hide SpecText;
  }

  lemma FieldReads(s: string, i: nat, ref: Ref, spec: Option<SpecSyntax>)
    requires Reads(s, i, RefText(ref))
    requires spec.Some? ==> CharAt(s, i + |RefText(ref)|) == ':'
    requires spec.Some? ==> Reads(s, i + |RefText(ref)| + 1, SpecText(spec.value))
    requires CharAt(s, i + |RefText(ref)| + (if spec.Some? then 1 + |SpecText(spec.value)| else 0)) == '}'
    ensures Reads(s, i, FieldText(Field(ref, spec)))
  {
    hide Reads, SpecText, RefText;
    var r, j := RefText(ref), i + |RefText(ref)|;
    if spec.Some? {
      var text := SpecText(spec.value);
      ReadsOne(s, j, ':');
      ReadsBoth(s, j, ":", text);
      ReadsBoth(s, i, r, ":" + text);
      ReadsOne(s, j + 1 + |text|, '}');
      ReadsBoth(s, i, r + (":" + text), "}");
    } else {
      ReadsOne(s, j, '}');
      ReadsBoth(s, i, r, "}");
      assert r + "" + "}" == r + "}";
    }
  }

  /** The pieces of a format string from i on; None when it is malformed. */
  function Split(s: string, i: nat): (r: Option<seq<Piece>>)
    requires i <= |s| && '\0' !in s
    decreases |s| - i
  {
    if i == |s| then Some([])
    else if s[i] != '{' && s[i] != '}' then Prepend(Literal(s[i]), Split(s, i + 1))
    else if CharAt(s, i + 1) == s[i] then Prepend(Literal(s[i]), Split(s, i + 2))
    else if s[i] == '}' then None
    else
      var field := FieldAt(s, i + 1);
      if field.None? then None else
      FieldReprints(s, i + 1);
      var end := i + 1 + |FieldText(field.value)|;
      Prepend(Hole(field.value, CharAt(s, end)), Split(s, end))
  }

  function Prepend(piece: Piece, rest: Option<seq<Piece>>): Option<seq<Piece>> {
    if rest.Some? then Some([piece] + rest.value) else None
  }

  /** Splitting loses nothing: the pieces spell the format string. */
  lemma {:induction false} SplitReprints(s: string, i: nat)
    requires i <= |s| && '\0' !in s && Split(s, i).Some?
    ensures Source(Split(s, i).value) == s[i..]
    decreases |s| - i
  {
    hide FieldAt, FieldText;
    if i < |s| {
      var pieces := Split(s, i).value;
      var j := i + |PieceText(pieces[0])|;
      FirstPiece(s, i);
      SplitReprints(s, j);
      assert pieces[1..] == Split(s, j).value;
      assert s[i..] == s[i..j] + s[j..];
    }
  }

  lemma FirstPiece(s: string, i: nat)
    requires i < |s| && '\0' !in s && Split(s, i).Some?
    ensures Reads(s, i, PieceText(Split(s, i).value[0]))
  {
    hide FieldAt, FieldText;
    if s[i] != '{' && s[i] != '}' {
    } else if CharAt(s, i + 1) == s[i] {
      assert s[i..i + 2] == [s[i], s[i]];
    } else {
      FieldReprints(s, i + 1);
      ReadsOne(s, i, '{');
      ReadsBoth(s, i, "{", FieldText(FieldAt(s, i + 1).value));
    }
  }

  // ----- doubling braces -----

  function Doubled(text: string): string {
    if text == "" then ""
    else (if text[0] == '{' || text[0] == '}' then [text[0], text[0]] else [text[0]]) + Doubled(text[1..])
  }

  function Literals(text: string): seq<Piece> {
    seq(|text|, i requires 0 <= i < |text| => Literal(text[i]))
  }

  /** Text with doubled braces is only literals, and they are the text. */
  lemma {:induction false} DoubledIsLiteral(s: string, i: nat, text: string)
    requires i <= |s| && '\0' !in s && s[i..] == Doubled(text)
    ensures Split(s, i) == Some(Literals(text))
    decreases |text|
  {
    if text == "" {
      assert Literals(text) == [];
    } else {
      var k := if text[0] == '{' || text[0] == '}' then 2 else 1;
      assert s[i] == s[i..][0] && (k == 2 ==> s[i + 1] == s[i..][1]);
      assert s[i + k..] == s[i..][k..] == Doubled(text[1..]);
      DoubledIsLiteral(s, i + k, text[1..]);
      assert Literals(text) == [Literal(text[0])] + Literals(text[1..]);
    }
  }
}
