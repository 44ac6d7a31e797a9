/**
 What fields with a specification show, from the format string to the text.
 */
module FormatFields {
  import opened Wrappers
  import opened Digits
  import opened Numerals
  import opened ArgLists
  import opened FormatSyntax
  import opened FormatMeaning
  import opened FormatReparse
  import opened FormatAcceptance
  import opened IntWriter
  import opened IntLayout
  import opened ArgFormatter
  import opened FormatArguments

  // ----- one field -----

  /** The format string that is one field. */
  function FieldString(field: Field): string { "{" + FieldText(field) }

  lemma OneField(args: seq<Arg>, render: Renderer, field: Field)
    requires AllProper(args) && FieldOk(field)
    ensures '\0' !in FieldString(field)
    ensures FormatFrom(args, 0, render, FieldString(field), 0) ==
      match HoleMeaning(args, 0, render, field, '\0') case None => None case Some(hole) => Some(hole.0)
  {
    var pieces := [Hole(field, '\0')];
    assert pieces[1..] == [];
    assert Source(pieces) == FieldString(field) + "" == FieldString(field);
    hide FieldText, FieldOk, HoleMeaning, AllProper;
    assert PiecesOk(pieces);
    Reparsed(args, render, pieces);
    HoleFirst(args, 0, render, pieces[0], []);
    assert pieces == [pieces[0]] + [];
    var hole := HoleMeaning(args, 0, render, field, '\0');
    if hole.Some? { assert hole.value.0 + "" == hole.value.0; }
  }

  // ----- sizes -----

  /** A size taken from an argument is the same size written out in digits. */
  lemma NestedIsAsWritten(args: seq<Arg>, next: int, ref: Ref, absent: int)
    requires AllProper(args) && Fetch(args, next, ref).Some?
    ensures var (arg, next1) := Fetch(args, next, ref).value;
      && (SizeMeaning(args, next, Nested(ref), absent).Some? <==>
            IsInteger(arg.kind) && arg.value.Number? && 0 <= arg.value.n <= INT_MAX)
      && (IsInteger(arg.kind) && arg.value.Number? && 0 <= arg.value.n <= INT_MAX ==>
            && SizeMeaning(args, next, Nested(ref), absent) == Some((arg.value.n as int, next1))
            && SizeMeaning(args, next, Fixed(Decimal(arg.value.n)), absent) == Some((arg.value.n as int, next)))
  {
    FetchedIsPlain(args, next, ref);
    var arg := Fetch(args, next, ref).value.0;
    hide Fetch, NumberOf, Decimal;
    if IsInteger(arg.kind) && 0 <= arg.value.n <= INT_MAX { DecimalRead(arg.value.n); }
  }

  // ----- a specification as it is written -----

  /** Fill, alignment, flags and a width in digits, with or without a precision and a type. */
  function Written(fill: char, a: char, sign: Option<char>, hash: bool, zero: bool, w: nat, p: Option<nat>,
                   kind: Option<char>): SpecSyntax
  {
    SpecSyntax(FillAlign(fill, a), sign, hash, zero, Fixed(Decimal(w)),
               if p.Some? then Fixed(Decimal(p.value)) else NoSize, kind)
  }

  predicate Writable(fill: char, a: char, sign: Option<char>, w: nat, p: Option<nat>, kind: Option<char>) {
    && fill != '{' && fill != '}' && fill != '\0' && IsAlign(a) && (sign.Some? ==> IsSign(sign.value))
    && 1 <= w <= INT_MAX && (p.Some? ==> p.value <= INT_MAX) && (kind.Some? ==> KindOk(kind.value))
  }

  /** The alignment a character stands for. */
  predicate Means(a: char, align: Alignment) {
    align == match a case '<' => Left case '>' => Right case '^' => Center case '=' => Numeric case _ => Default
  }

  lemma WrittenOk(fill: char, a: char, sign: Option<char>, hash: bool, zero: bool, w: nat, p: Option<nat>,
                  kind: Option<char>)
    requires Writable(fill, a, sign, w, p, kind)
    ensures FieldOk(Field(Auto, Some(Written(fill, a, sign, hash, zero, w, p, kind))))
  {
    hide Decimal, KindOk;
    DecimalLooks(w);
  }

  /** The record the parser makes of it, for an argument of a type it fits. */
  lemma WrittenMeans(args: seq<Arg>, next: int, fill: char, a: char, sign: Option<char>, hash: bool, zero: bool,
                     w: nat, p: Option<nat>, kind: Option<char>, after: char, kindOf: nat)
    requires AllProper(args) && Writable(fill, a, sign, w, p, kind)
    ensures var spec := Written(fill, a, sign, hash, zero, w, p, kind);
      if !Fits(spec, kindOf) then SpecMeaning(args, next, spec, after, kindOf) == None
      else SpecMeaning(args, next, spec, after, kindOf) == Some((FormatSpec(
             if zero then Numeric else AlignOf(a), if zero then '0' else fill, sign == Some('+') || sign == Some(' '),
             sign == Some('+'), sign == Some('-'), hash, w,
             if p.Some? then p.value else -1, if kind.Some? then kind.value else '\0'), next))
    ensures Means(a, AlignOf(a))
  {
    DecimalRead(w);
    if p.Some? { DecimalRead(p.value); }
    hide AllProper, Decimal, NumberOf, Fetch;
  }

  // ----- integers -----

  /** The specification of an integer so written; the zero flag overrules fill and alignment. */
  function IntegerSpec(fill: char, align: Alignment, sign: Option<char>, hash: bool, zero: bool, w: nat,
                       kind: Option<char>): Spec
  {
    Spec(w, if zero then '0' else fill, if zero then Numeric else align, sign == Some('+') || sign == Some(' '),
         sign == Some('+'), hash, if kind.Some? then kind.value else '\0')
  }

  /**
   An integer in a field with fill, alignment, flags and width shows its mark and digits with the
   padding where the alignment character says; a sign flag is refused for an unsigned one, and so
   is a type that is none of the integer types.
   */
  lemma IntegerField(args: seq<Arg>, render: Renderer, fill: char, a: char, sign: Option<char>, hash: bool, zero: bool,
                     w: nat, kind: Option<char>, align: Alignment)
    requires AllProper(args) && RendersArguments(render) && args != [] && IsInteger(Resolved(args[0]).kind)
    requires Writable(fill, a, sign, w, None, kind) && Means(a, align)
    ensures var s := FieldString(Field(Auto, Some(Written(fill, a, sign, hash, zero, w, None, kind))));
      var arg, spec := Resolved(args[0]), IntegerSpec(fill, align, sign, hash, zero, w, kind);
      '\0' !in s && arg.value.Number? &&
      var text := FormatFrom(args, 0, render, s, 0);
      && (text.Some? <==> (sign.Some? ==> !IsUnsigned(arg.kind)) && KnownKind(spec.kind))
      && (text.Some? ==> Shows(text.value, arg.value.n, spec))
  {
    hide *;
    var field := Field(Auto, Some(Written(fill, a, sign, hash, zero, w, None, kind)));
    WrittenOk(fill, a, sign, hash, zero, w, None, kind);
    OneField(args, render, field);
    IntegerHole(args, render, fill, a, sign, hash, zero, w, kind, align);
  }

  lemma IntegerHole(args: seq<Arg>, render: Renderer, fill: char, a: char, sign: Option<char>, hash: bool, zero: bool,
                    w: nat, kind: Option<char>, align: Alignment)
    requires AllProper(args) && RendersArguments(render) && args != [] && IsInteger(Resolved(args[0]).kind)
    requires Writable(fill, a, sign, w, None, kind) && Means(a, align)
    ensures var arg, spec := Resolved(args[0]), IntegerSpec(fill, align, sign, hash, zero, w, kind);
      var hole := HoleMeaning(args, 0, render,
                              Field(Auto, Some(Written(fill, a, sign, hash, zero, w, None, kind))), '\0');
      && arg.value.Number?
      && (hole.Some? <==> (sign.Some? ==> !IsUnsigned(arg.kind)) && KnownKind(spec.kind))
      && (hole.Some? ==> Shows(hole.value.0, arg.value.n, spec))
  {
    var arg, spec := Resolved(args[0]), IntegerSpec(fill, align, sign, hash, zero, w, kind);
    FetchedIsPlain(args, 0, Auto);
    WrittenFits(fill, a, sign, hash, zero, w, kind, arg.kind);
    hide HoleMeaning, SpecMeaning, AllProper, Fits, Written, Shows, Formatted, KnownKind, Decimal, SignOk, Resolved;
    WrittenMeans(args, 1, fill, a, sign, hash, zero, w, None, kind, '\0', arg.kind);
    HoleBySpec(args, render, Written(fill, a, sign, hash, zero, w, None, kind));
    if KnownKind(spec.kind) { FormattedShows(arg.value.n, spec); }
  }

  lemma WrittenFits(fill: char, a: char, sign: Option<char>, hash: bool, zero: bool, w: nat, kind: Option<char>,
                    kindOf: nat)
    requires IsInteger(kindOf)
    ensures Fits(Written(fill, a, sign, hash, zero, w, None, kind), kindOf) <==> (sign.Some? ==> !IsUnsigned(kindOf))
  {
    hide Decimal;
  }

  /** A field that takes the first argument, with a specification. */
  lemma HoleBySpec(args: seq<Arg>, render: Renderer, spec: SpecSyntax)
    requires AllProper(args) && args != []
    ensures var arg := Resolved(args[0]);
      HoleMeaning(args, 0, render, Field(Auto, Some(spec)), '\0') ==
      match SpecMeaning(args, 1, spec, '\0', arg.kind)
      case None => None
      case Some(m) => (match render(m.0, arg) case None => None case Some(text) => Some((text, m.1)))
  {
    hide SpecMeaning, AllProper, Resolved;
  }

  // ----- text -----

  /** What an argument shows at most: a string cut at the precision, a character, or a word. */
  function Content(arg: Arg, p: Option<nat>): string {
    if arg.kind == BOOL then (if arg.value != Number(0) then "true" else "false")
    else match arg.value
      case Text(s) => if p.Some? && p.value < |s| then s[..p.value] else s
      case Number(n) => if 0 <= n < 128 then [n as char] else [(n % 256) as char]
      case _ => ""
  }

  /** `text` with fill around it, up to the width: behind it, in front of it, or on both sides. */
  ghost predicate Surrounded(shown: string, text: string, fill: char, a: char, w: nat) {
    exists front: nat, behind: nat ::
      && front + behind == Padding(w, |text|) && shown == Repeat(fill, front) + text + Repeat(fill, behind)
      && match a
         case '>' => behind == 0
         case '^' => front <= behind <= front + 1
         case _ => front == 0
  }

  lemma PaddedSurrounds(text: string, spec: FormatSpec, a: char)
    requires spec.align == AlignOf(a)
    ensures Surrounded(Padded(text, spec), text, spec.fill, a, spec.width)
  {
    var pad := Padding(spec.width, |text|);
    hide Padding;
    var front: nat := if a == '>' then pad else if a == '^' then pad / 2 else 0;
    var behind: nat := pad - front;
    assert Padded(text, spec) == Repeat(spec.fill, front) + text + Repeat(spec.fill, behind);
  }

  /**
   A string, a character or a boolean in a field with fill, alignment and width, and a precision
   for a string: what it shows is cut, then padded where the alignment character says. Numeric alignment
   is refused for a string and a character, a null pointer always.
   */
  lemma TextField(args: seq<Arg>, render: Renderer, fill: char, a: char, w: nat, p: Option<nat>)
    requires AllProper(args) && RendersArguments(render) && args != []
    requires Resolved(args[0]).kind in {STRING, CSTRING, CHAR, BOOL}
    requires Writable(fill, a, None, w, p, None) && (Resolved(args[0]).kind in {CHAR, BOOL} ==> p.None?)
    ensures var s := FieldString(Field(Auto, Some(Written(fill, a, None, false, false, w, p, None))));
      var arg := Resolved(args[0]);
      '\0' !in s &&
      var text := FormatFrom(args, 0, render, s, 0);
      && (text.Some? <==> !arg.value.Null? && (a == '=' ==> arg.kind == BOOL))
      && (text.Some? ==> Surrounded(text.value, Content(arg, p), fill, a, w))
  {
    hide *;
    var field := Field(Auto, Some(Written(fill, a, None, false, false, w, p, None)));
    var arg := Resolved(args[0]);
    WrittenOk(fill, a, None, false, false, w, p, None);
    OneField(args, render, field);
    TextHole(args, render, fill, a, w, p);
  }

  lemma TextHole(args: seq<Arg>, render: Renderer, fill: char, a: char, w: nat, p: Option<nat>)
    requires AllProper(args) && RendersArguments(render) && args != []
    requires Resolved(args[0]).kind in {STRING, CSTRING, CHAR, BOOL}
    requires Writable(fill, a, None, w, p, None) && (Resolved(args[0]).kind in {CHAR, BOOL} ==> p.None?)
    ensures var arg, hole := Resolved(args[0]),
        HoleMeaning(args, 0, render, Field(Auto, Some(Written(fill, a, None, false, false, w, p, None))), '\0');
      && (hole.Some? <==> !arg.value.Null? && (a == '=' ==> arg.kind == BOOL))
      && (hole.Some? ==> Surrounded(hole.value.0, Content(arg, p), fill, a, w))
  {
    var arg := Resolved(args[0]);
    FetchedIsPlain(args, 0, Auto);
    WrittenMeans(args, 1, fill, a, None, false, false, w, p, None, '\0', arg.kind);
    assert Fits(Written(fill, a, None, false, false, w, p, None), arg.kind)
      <==> (a == '=' ==> arg.kind in {CHAR, BOOL});
    var spec := FormatSpec(AlignOf(a), fill, false, false, false, false, w, if p.Some? then p.value else -1, '\0');
    assert spec.align.Numeric? <==> a == '=';
    hide HoleMeaning, SpecMeaning, AllProper, Fits, Written, Content, Surrounded, Rendered, Decimal, HasType, AlignOf,
      Resolved;
    HoleBySpec(args, render, Written(fill, a, None, false, false, w, p, None));
    RenderedContent(spec, arg, p);
    PaddedSurrounds(Content(arg, p), spec, a);
  }

  lemma RenderedContent(spec: FormatSpec, arg: Arg, p: Option<nat>)
    requires Plain(arg) && arg.kind in {STRING, CSTRING, CHAR, BOOL} && (arg.kind in {CHAR, BOOL} ==> p.None?)
    requires spec == DEFAULT_SPEC.(align := spec.align, fill := spec.fill, width := spec.width,
                                   precision := if p.Some? then p.value else -1)
    ensures Rendered(spec, arg) ==
      if arg.value.Null? || (arg.kind == CHAR && spec.align.Numeric?) then None
      else Some(Padded(Content(arg, p), spec))
  {
    hide Padded;
  }

  // ----- no specification -----

  /** What each kind of argument shows in a field without a specification. */
  lemma WithoutSpecification(arg: Arg)
    requires Plain(arg) && Modelled(DEFAULT_SPEC, arg.kind)
    ensures Rendered(DEFAULT_SPEC, arg) ==
      if IsInteger(arg.kind) then Some(SignedDecimal(arg.value.n))
      else if arg.kind == ADDRESS then Some("0x" + Numeral(arg.value.n, 4, false))
      else if arg.value.Null? then None
      else Some(Content(arg, None))
  {
    hide Content, Formatted, SignedDecimal, Numeral;
    if IsInteger(arg.kind) {
      IntegerAlone(arg.value.n);
    } else if arg.kind == ADDRESS {
      AddressAlone(arg.value.n);
    } else {
      RenderedContent(DEFAULT_SPEC, arg, None);
      if !arg.value.Null? { PaddedWithoutWidth(Content(arg, None), DEFAULT_SPEC); }
    }
  }

  lemma IntegerAlone(n: int)
    ensures Formatted(n, IntSpec(DEFAULT_SPEC)) == SignedDecimal(n)
  {
    hide Decimal, Layout;
    var sign: string := if n < 0 then "-" else "";
    assert sign + "" == sign && "" + Decimal(Magnitude(n)) == Decimal(Magnitude(n));
    LayoutWithoutWidth(sign, Decimal(Magnitude(n)), IntSpec(DEFAULT_SPEC));
  }

  lemma AddressAlone(n: nat)
    ensures Formatted(n, IntSpec(DEFAULT_SPEC.(hash := true, kind := 'x'))) == "0x" + Numeral(n, 4, false)
  {
    hide Numeral, Layout;
    assert "" + "0x" == "0x";
    LayoutWithoutWidth("0x", Numeral(n, 4, false), IntSpec(DEFAULT_SPEC.(hash := true, kind := 'x')));
  }

  // ----- refusals -----

  /**
   Refused whatever the renderer: a sign for anything but a signed number, a hash or zero flag or
   numeric alignment for anything but a number, and a precision for an integer, a boolean, a
   character or an address.
   */
  lemma RefusedFields(args: seq<Arg>, render: Renderer, spec: SpecSyntax)
    requires AllProper(args) && args != [] && SpecOk(spec)
    ensures var kind, s := Resolved(args[0]).kind, FieldString(Field(Auto, Some(spec)));
      var numeric := kind <= LAST_NUMERIC_TYPE;
      '\0' !in s &&
      ((spec.sign.Some? && (!numeric || kind == UINT || kind == ULONG_LONG))
       || ((spec.hash || spec.zero) && !numeric)
       || ((spec.align == OnlyAlign('=') || (spec.align.FillAlign? && spec.align.a == '=')) && !numeric)
       || (!spec.precision.NoSize? && (IsInteger(kind) || kind == BOOL || kind == CHAR || kind == ADDRESS))
       ==> FormatFrom(args, 0, render, s, 0) == None)
  {
    SpecInField(spec);
    hide FieldString, FormatFrom, AllProper, SpecOk, Resolved, HoleMeaning;
    OneField(args, render, Field(Auto, Some(spec)));
    HoleBySpec(args, render, spec);
    hide SizeMeaning;
  }

  lemma SpecInField(spec: SpecSyntax)
    requires SpecOk(spec)
    ensures FieldOk(Field(Auto, Some(spec)))
  {
    hide SpecOk;
  }

  // ----- type characters -----

  /** The number a boolean or a character stands for. */
  function AsNumber(arg: Arg): int {
    if arg.kind == BOOL then (if arg.value == Number(0) then 0 else 1)
    else match arg.value case Number(n) => n case _ => 0
  }

  /**
   What the type character does: with an integer type a boolean or a character shows its number; the type of
   an argument's own kind changes nothing; any other type is refused.
   */
  lemma TypeCharacters(spec: FormatSpec, arg: Arg)
    requires Plain(arg) && spec.kind != '\0' && arg.kind in {BOOL, CHAR, STRING, CSTRING, ADDRESS}
    requires arg.kind == CSTRING ==> spec.kind != 'p'
    ensures var own := if arg.kind == CHAR then 'c' else if arg.kind == ADDRESS then 'p' else 's';
      if spec.kind == own && arg.kind != BOOL then Rendered(spec, arg) == Rendered(spec.(kind := '\0'), arg)
      else if arg.kind in {BOOL, CHAR} && KnownKind(spec.kind) then
        Rendered(spec, arg).Some? && Shows(Rendered(spec, arg).value, AsNumber(arg), IntSpec(spec))
      else Rendered(spec, arg) == None
  {
    hide Formatted, Shows;
    if arg.kind in {BOOL, CHAR} && KnownKind(spec.kind) { FormattedShows(AsNumber(arg), IntSpec(spec)); }
    SamePadding(spec);
    hide Padded;
  }

  lemma SamePadding(spec: FormatSpec)
    ensures forall text :: Padded(text, spec.(kind := '\0')) == Padded(text, spec)
  {
  }
}
