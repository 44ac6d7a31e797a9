/**
 What a format string means: which arguments its fields take, under which specification each
 is rendered, and when it is refused.
 */
module FormatMeaning {
  import opened Wrappers
  import opened Digits
  import opened Numerals
  import opened ArgLists
  import opened FormatSyntax
  import IntWriter

  // ----- arguments -----

  /** A named argument stands for the one behind it. */
  function Resolved(arg: Arg): Arg { if arg.value.Inner? then arg.value.arg else arg }

  /** The number the parser makes of a run of digits. */
  ghost function NumberOf(digits: string): (r: Option<nat>)
    ensures AllDigits(digits) && r.Some? ==> Parsed(digits, Ok(r.value))
  {
    if !AllDigits(digits) then None
    else
      var v := Value(digits) % UINT_RANGE;
      if (exists i :: 0 < i <= |digits| && Drops(digits, i)) || v > INT_MAX then None else Some(v)
  }

  lemma ParsedIsNumber(digits: string, r: Result<nat, string>)
    requires AllDigits(digits) && Parsed(digits, r)
    ensures NumberOf(digits) == if r.Ok? then Some(r.value) else None
  {
  }

  /**
   Taking an argument. `next` counts automatic fields, and is -1 once a field has named its
   argument; neither kind can follow the other.
   */
  ghost function Fetch(args: seq<Arg>, next: int, ref: Ref): (r: Option<(Arg, int)>)
    ensures r.Some? ==> r.value.1 >= -1
  {
    match ref
    case Auto => if 0 <= next < |args| then Some((Resolved(args[next]), next + 1)) else None
    case Index(digits) =>
      var n := NumberOf(digits);
      if next <= 0 && n.Some? && n.value < |args| then Some((Resolved(args[n.value]), -1)) else None
    case Name(name) =>
      var found := FirstNamed(Named(args), name);
      if next <= 0 && found.Some? then Some((found.value, -1)) else None
  }

  predicate NoCustom(args: seq<Arg>) { forall i :: 0 <= i < |args| ==> Resolved(args[i]).kind != CUSTOM }

  /** What is taken is never itself a named argument, and integers carry their number. */
  lemma FetchedIsPlain(args: seq<Arg>, next: int, ref: Ref)
    requires AllProper(args) && Fetch(args, next, ref).Some?
    ensures Plain(Fetch(args, next, ref).value.0)
    ensures NoCustom(args) ==> Fetch(args, next, ref).value.0.kind != CUSTOM
  {
    hide NumberOf;
    if ref.Name? {
      FirstNamedIs(Named(args), ref.name);
      var i :| 0 <= i < |Named(args)| && Named(args)[i].1 == Fetch(args, next, ref).value.0;
      NamedFromArgs(args, i);
      var k :| 0 <= k < |args| && args[k].value == Inner(Named(args)[i].0, Named(args)[i].1);
    }
  }

  /** Taking several, in order. */
  ghost function Consume(args: seq<Arg>, next: int, refs: seq<Ref>): Option<(seq<Arg>, int)>
    decreases |refs|
  {
    if refs == [] then Some(([], next))
    else
      var first := Fetch(args, next, refs[0]);
      if first.None? then None else
      var rest := Consume(args, first.value.1, refs[1..]);
      if rest.None? then None else Some(([first.value.0] + rest.value.0, rest.value.1))
  }

  // ----- specifications -----

  datatype FormatSpec = FormatSpec(
    align: IntWriter.Alignment, fill: char, sign: bool, plus: bool, minus: bool, hash: bool,
    width: nat, precision: int, kind: char)

  const DEFAULT_SPEC := FormatSpec(IntWriter.Default, ' ', false, false, false, false, 0, -1, '\0')

  function AlignOf(c: char): IntWriter.Alignment {
    if c == '<' then IntWriter.Left else if c == '>' then IntWriter.Right
    else if c == '=' then IntWriter.Numeric else if c == '^' then IntWriter.Center else IntWriter.Default
  }

  predicate NumericKind(kind: nat) { kind <= LAST_NUMERIC_TYPE }

  predicate SignOk(sign: Option<char>, kind: nat) { sign.Some? ==> NumericKind(kind) && !IsUnsigned(kind) }

  predicate AlignOk(align: FormatSyntax.Align, kind: nat) {
    (align.OnlyAlign? || align.FillAlign?) && align.a == '=' ==> NumericKind(kind)
  }

  /** Which specifications an argument of a type takes. */
  predicate Fits(spec: SpecSyntax, kind: nat) {
    && AlignOk(spec.align, kind)
    && SignOk(spec.sign, kind)
    && (spec.hash || spec.zero ==> NumericKind(kind))
    && (!spec.precision.NoSize? ==> TakesPrecision(kind))
  }

  /** A width or precision out of an argument. */
  function SizeValue(arg: Arg): Option<nat>
    requires Plain(arg)
  {
    if IsInteger(arg.kind) && 0 <= arg.value.n <= INT_MAX then Some(arg.value.n) else None
  }

  ghost function SizeMeaning(args: seq<Arg>, next: int, size: Size, absent: int): (r: Option<(int, int)>)
    requires AllProper(args)
    ensures r.Some? && absent >= 0 ==> r.value.0 >= 0
  {
    match size
    case NoSize => Some((absent, next))
    case Fixed(digits) =>
      var n := NumberOf(digits);
      if n.None? then None else Some((n.value, next))
    case Nested(ref) =>
      var fetched := Fetch(args, next, ref);
      if fetched.None? then None else
      FetchedIsPlain(args, next, ref);
      var n := SizeValue(fetched.value.0);
      if n.None? then None else Some((n.value, fetched.value.1))
  }

  /** The alignment of a specification without zero flag; `leak` stands where it has none. */
  function Aligned(align: FormatSyntax.Align, leak: IntWriter.Alignment): IntWriter.Alignment {
    if align.NoAlign? then leak else AlignOf(align.a)
  }

  function FillOf(align: FormatSyntax.Align, fill: char): char { if align.FillAlign? then align.fill else fill }

  /** The alignment character behind a closing brace at i. */
  function LeakAt(s: string, i: nat): IntWriter.Alignment {
    if CharAt(s, i) == '}' then AlignOf(CharAt(s, i + 1)) else IntWriter.Default
  }

  /** At a closing brace the specification is empty. */
  lemma EmptyAtBrace(s: string, i: nat)
    requires i < |s| && '\0' !in s && s[i] == '}'
    ensures SpecAt(s, i) == Some(EMPTY_SPEC)
  {
    hide Reads, RefAt, DigitRun, SizeAt;
    SizeIsAbsent(s, i);
    assert AlignAt(s, i) == Some(NoAlign);
    assert PrecisionAt(s, i) == Some(NoSize);
    assert SignAt(s, i) == None && !FlagAt(s, i, '#') && !FlagAt(s, i, '0') && KindAt(s, i) == None;
    hide AlignAt, PrecisionAt, SignAt, FlagAt, KindAt;
  }

  /** An empty specification stops where it starts: at a closing brace or at the end. */
  lemma EmptyStops(s: string, i: nat)
    requires i <= |s| && '\0' !in s && SpecAt(s, i) == Some(EMPTY_SPEC)
    ensures SpecText(EMPTY_SPEC) == "" && (CharAt(s, i) == '}' || i == |s|)
  {
    hide Reads, AlignAt, SizeAt, PrecisionAt, SignAt, FlagAt;
  }

  lemma LeakIs(s: string, i: nat)
    requires i <= |s| && '\0' !in s && SpecAt(s, i).Some?
    ensures var spec := SpecAt(s, i).value;
      LeakAt(s, i) == if spec == EMPTY_SPEC then AlignOf(CharAt(s, i + |SpecText(spec)| + 1)) else IntWriter.Default
  {
    hide SpecAt, SpecText;
    if CharAt(s, i) == '}' { EmptyAtBrace(s, i); }
    if SpecAt(s, i) == Some(EMPTY_SPEC) { EmptyStops(s, i); }
  }

  function WithFlags(spec: FormatSpec, sign: Option<char>, hash: bool, zero: bool): FormatSpec {
    var signed := spec.(sign := sign == Some('+') || sign == Some(' '), plus := sign == Some('+'),
                        minus := sign == Some('-'), hash := hash);
    if zero then signed.(align := IntWriter.Numeric, fill := '0') else signed
  }

  predicate TakesPrecision(kind: nat) { kind > LAST_INTEGER_TYPE && kind != ADDRESS }

  /**
   The alignment the parser settles on. When a specification is empty it looks one character
   too far, at the one behind the closing brace.
   */
  function Alignment(spec: SpecSyntax, after: char): IntWriter.Alignment {
    if spec.zero then IntWriter.Numeric
    else Aligned(spec.align, if spec == EMPTY_SPEC then AlignOf(after) else IntWriter.Default)
  }

  function Fill(spec: SpecSyntax): char {
    if spec.zero then '0' else FillOf(spec.align, ' ')
  }

  /** A specification for an argument of a type, and the state of indexing after it. */
  ghost function SpecMeaning(args: seq<Arg>, next: int, spec: SpecSyntax, after: char, kind: nat)
    : Option<(FormatSpec, int)>
    requires AllProper(args)
  {
    if !Fits(spec, kind) then None else
    var width := SizeMeaning(args, next, spec.width, 0);
    if width.None? then None else
    var precision := SizeMeaning(args, width.value.1, spec.precision, -1);
    if precision.None? then None else
    Some((FormatSpec(
            Alignment(spec, after), Fill(spec),
            spec.sign == Some('+') || spec.sign == Some(' '), spec.sign == Some('+'), spec.sign == Some('-'),
            spec.hash, width.value.0, precision.value.0, if spec.kind.Some? then spec.kind.value else '\0'),
          precision.value.1))
  }

  // ----- specifications, stage by stage -----

  /** What has to come of parsing the specification at position `at` for an argument of some type. */
  ghost function SpecOutcome(args: seq<Arg>, next: int, s: string, at: nat, kind: nat): Option<(FormatSpec, int)>
    requires AllProper(args) && at <= |s| && '\0' !in s
  {
    var spec := SpecAt(s, at);
    if spec.None? then None
    else SpecMeaning(args, next, spec.value, CharAt(s, at + |SpecText(spec.value)| + 1), kind)
  }

  /** The last three stages; the end of the specification comes out too. */
  ghost function SizesOutcome(args: seq<Arg>, next: int, s: string, at: nat, kind: nat, spec: FormatSpec)
    : Option<(FormatSpec, int, nat)>
    requires AllProper(args) && at <= |s|
  {
    var size := SizeAt(s, at);
    if size.None? then None else
    var width := SizeMeaning(args, next, size.value, 0);
    if width.None? then None else
    var i := at + |SizeText(size.value)|;
    var point := PrecisionAt(s, i);
    if point.None? || (!point.value.NoSize? && !TakesPrecision(kind)) then None else
    var precision := SizeMeaning(args, width.value.1, point.value, -1);
    if precision.None? then None else
    var j := i + |PrecisionText(point.value)|;
    var c := KindAt(s, j);
    Some((spec.(width := width.value.0, precision := precision.value.0, kind := if c.Some? then c.value else spec.kind),
          precision.value.1, j + |CharText(c)|))
  }

  function AlignOutcome(s: string, at: nat, kind: nat, initial: FormatSpec): (r: Option<(FormatSpec, nat)>)
    requires at <= |s| && '\0' !in s
    ensures r.Some? ==> r.value.1 <= |s|
  {
    var align := AlignAt(s, at);
    if align.None? || !AlignOk(align.value, kind) then None
    else Some((initial.(align := Aligned(align.value, LeakAt(s, at)), fill := FillOf(align.value, initial.fill)),
               at + |AlignText(align.value)|))
  }

  function FlagsOutcome(s: string, at: nat, kind: nat, initial: FormatSpec): (r: Option<(FormatSpec, nat)>)
    requires at <= |s|
    ensures r.Some? ==> r.value.1 <= |s|
  {
    var sign := SignAt(s, at);
    var i := at + |CharText(sign)|;
    var hash := FlagAt(s, i, '#');
    var j := i + |FlagText(hash, '#')|;
    var zero := FlagAt(s, j, '0');
    if !SignOk(sign, kind) || ((hash || zero) && !NumericKind(kind)) then None
    else Some((WithFlags(initial, sign, hash, zero), j + |FlagText(zero, '0')|))
  }

  /** Working through the stages gives what the parsed specification means. */
  lemma OutcomeByStages(args: seq<Arg>, next: int, s: string, at: nat, kind: nat)
    requires AllProper(args) && at <= |s| && '\0' !in s
    ensures match AlignOutcome(s, at, kind, DEFAULT_SPEC)
      case None => SpecOutcome(args, next, s, at, kind).None?
      case Some(aligned) =>
        match FlagsOutcome(s, aligned.1, kind, aligned.0)
        case None => SpecOutcome(args, next, s, at, kind).None?
        case Some(flagged) =>
          match SizesOutcome(args, next, s, flagged.1, kind, flagged.0)
          case None => SpecOutcome(args, next, s, at, kind).None?
          case Some(outcome) =>
            && SpecOutcome(args, next, s, at, kind) == Some((outcome.0, outcome.1))
            && outcome.2 == at + |SpecText(SpecAt(s, at).value)|
  {
    hide SizeMeaning, SizeAt, PrecisionAt, AlignAt, SignAt, FlagAt, KindAt, LeakAt, NumericKind, TakesPrecision, Reads,
      AlignText, CharText, FlagText, SizeText, PrecisionText, SpecText, AlignOk, SignOk;
    if SpecAt(s, at).Some? {
      LeakIs(s, at);
      SpecTextLength(SpecAt(s, at).value);
    }
  }

  // ----- format strings -----

  /** Renders one argument under a specification, or refuses it. */
  type Renderer = (FormatSpec, Arg) -> Option<string>

  /** The specification of a field, given its argument's type. */
  ghost function FieldSpec(args: seq<Arg>, next: int, field: Field, after: char, kind: nat): Option<(FormatSpec, int)>
    requires AllProper(args)
  {
    if field.spec.None? then Some((DEFAULT_SPEC, next)) else SpecMeaning(args, next, field.spec.value, after, kind)
  }

  ghost function HoleMeaning(args: seq<Arg>, next: int, render: Renderer, field: Field, after: char)
    : Option<(string, int)>
    requires AllProper(args)
  {
    var fetched := Fetch(args, next, field.ref);
    if fetched.None? then None else
    var (arg, next1) := fetched.value;
    var spec := FieldSpec(args, next1, field, after, arg.kind);
    if spec.None? then None else
    var text := render(spec.value.0, arg);
    if text.None? then None else Some((text.value, spec.value.1))
  }

  /** The text the pieces produce. */
  ghost function Meaning(args: seq<Arg>, next: int, render: Renderer, pieces: seq<Piece>): Option<string>
    requires AllProper(args)
    decreases |pieces|
  {
    if pieces == [] then Some("")
    else match pieces[0]
      case Literal(c) => Prefixed([c], Meaning(args, next, render, pieces[1..]))
      case Hole(field, after) =>
        var hole := HoleMeaning(args, next, render, field, after);
        if hole.None? then None else Prefixed(hole.value.0, Meaning(args, hole.value.1, render, pieces[1..]))
  }

  function Prefixed(text: string, rest: Option<string>): Option<string> {
    if rest.Some? then Some(text + rest.value) else None
  }

  /** What formatting from position i on gives. */
  ghost function FormatFrom(args: seq<Arg>, next: int, render: Renderer, s: string, i: nat): Option<string>
    requires AllProper(args) && i <= |s| && '\0' !in s
  {
    var pieces := Split(s, i);
    if pieces.None? then None else Meaning(args, next, render, pieces.value)
  }

  // ----- format strings, step by step -----

  /** The rest of a field, from behind its reference on: its text, the state after it, its end. */
  ghost function FieldOutcome(args: seq<Arg>, next: int, render: Renderer, s: string, at: nat, arg: Arg)
    : (r: Option<(string, int, nat)>)
    requires AllProper(args) && at <= |s| && '\0' !in s
    ensures r.Some? ==> at < r.value.2 <= |s|
  {
    if CharAt(s, at) == ':' then
      var outcome := SpecOutcome(args, next, s, at + 1, arg.kind);
      if outcome.None? then None else
      var end := at + 1 + |SpecText(SpecAt(s, at + 1).value)|;
      if CharAt(s, end) != '}' then None else
      var text := render(outcome.value.0, arg);
      if text.None? then None else Some((text.value, outcome.value.1, end + 1))
    else if CharAt(s, at) == '}' then
      var text := render(DEFAULT_SPEC, arg);
      if text.None? then None else Some((text.value, next, at + 1))
    else None
  }

  /** A field is its reference, then the rest. */
  lemma FieldByParts(args: seq<Arg>, next: int, render: Renderer, s: string, i: nat)
    requires AllProper(args) && '\0' !in s && i < |s| && s[i] == '{' && CharAt(s, i + 1) != '{'
    ensures var fetched := Fetch(args, next, RefAt(s, i + 1));
      if fetched.None? then FormatFrom(args, next, render, s, i).None? else
      var at := i + 1 + |RefText(RefAt(s, i + 1))|;
      match FieldOutcome(args, fetched.value.1, render, s, at, fetched.value.0)
      case None => FormatFrom(args, next, render, s, i).None?
      case Some(outcome) =>
        FormatFrom(args, next, render, s, i) == Prefixed(outcome.0, FormatFrom(args, outcome.1, render, s, outcome.2))
  {
    hide Fetch, RefAt, RefText, SpecAt, SpecText, SpecMeaning;
    var field := FieldAt(s, i + 1);
    if field.Some? {
      FieldReprints(s, i + 1);
      FieldTextLength(field.value);
      var end := i + 1 + |FieldText(field.value)|;
      if Split(s, end).Some? { HoleFirst(args, next, render, Hole(field.value, CharAt(s, end)), Split(s, end).value); }
    }
  }

  lemma HoleFirst(args: seq<Arg>, next: int, render: Renderer, hole: Piece, rest: seq<Piece>)
    requires AllProper(args) && hole.Hole?
    ensures Meaning(args, next, render, [hole] + rest) ==
      match HoleMeaning(args, next, render, hole.field, hole.after)
      case None => None
      case Some(m) => Prefixed(m.0, Meaning(args, m.1, render, rest))
  {
    assert ([hole] + rest)[1..] == rest;
  }

  /** A lone closing brace is refused. */
  lemma LoneBrace(args: seq<Arg>, next: int, render: Renderer, s: string, i: nat)
    requires AllProper(args) && '\0' !in s && i < |s| && s[i] == '}' && CharAt(s, i + 1) != '}'
    ensures FormatFrom(args, next, render, s, i).None?
  {
  }

  /** Text before text. */
  lemma PrefixedTwice(before: string, text: string, rest: Option<string>, both: string)
    requires both == before + text
    ensures Prefixed(before, Prefixed(text, rest)) == Prefixed(both, rest)
  {
    if rest.Some? { assert before + (text + rest.value) == before + text + rest.value; }
  }

  lemma AtTheEnd(args: seq<Arg>, next: int, render: Renderer, s: string)
    requires AllProper(args) && '\0' !in s
    ensures FormatFrom(args, next, render, s, |s|) == Some("")
  {
  }

  lemma LiteralStep(args: seq<Arg>, next: int, render: Renderer, s: string, i: nat)
    requires AllProper(args) && '\0' !in s && i < |s|
    requires s[i] == '{' || s[i] == '}' ==> CharAt(s, i + 1) == s[i]
    ensures var k := if s[i] == '{' || s[i] == '}' then 2 else 1;
      i + k <= |s| && FormatFrom(args, next, render, s, i) == Prefixed([s[i]], FormatFrom(args, next, render, s, i + k))
  {
    var k := if s[i] == '{' || s[i] == '}' then 2 else 1;
    if Split(s, i + k).Some? {
      assert ([Literal(s[i])] + Split(s, i + k).value)[1..] == Split(s, i + k).value;
    }
  }

  // ----- doubled braces -----

  lemma {:induction false} LiteralsMeanText(args: seq<Arg>, next: int, render: Renderer, text: string)
    requires AllProper(args)
    ensures Meaning(args, next, render, Literals(text)) == Some(text)
  {
    if text != "" {
      LiteralsMeanText(args, next, render, text[1..]);
      assert Literals(text)[1..] == Literals(text[1..]);
      assert text == [text[0]] + text[1..];
    }
  }

  lemma {:induction false} DoublingKeepsNulFree(text: string)
    requires '\0' !in text
    ensures '\0' !in Doubled(text)
  {
    if text != "" { DoublingKeepsNulFree(text[1..]); }
  }

  /** Doubling the braces of any text and formatting it gives the text back. */
  lemma DoublingRoundTrip(args: seq<Arg>, render: Renderer, text: string)
    requires AllProper(args) && '\0' !in text
    ensures '\0' !in Doubled(text) && FormatFrom(args, 0, render, Doubled(text), 0) == Some(text)
  {
    DoublingKeepsNulFree(text);
    assert Doubled(text)[0..] == Doubled(text);
    DoubledIsLiteral(Doubled(text), 0, text);
    LiteralsMeanText(args, 0, render, text);
  }

  // ----- automatic and manual indexing -----

  function SizeRefs(size: Size): seq<Ref> { if size.Nested? then [size.ref] else [] }

  /** The arguments a format string asks for, in order: each field's, then its width's, then its precision's. */
  function Refs(pieces: seq<Piece>): seq<Ref> {
    if pieces == [] then []
    else match pieces[0]
      case Literal(_) => Refs(pieces[1..])
      case Hole(field, _) =>
        [field.ref] +
        (if field.spec.Some? then SizeRefs(field.spec.value.width) + SizeRefs(field.spec.value.precision) else []) +
        Refs(pieces[1..])
  }

  lemma {:induction false} ConsumeBoth(args: seq<Arg>, next: int, a: seq<Ref>, b: seq<Ref>)
    requires Consume(args, next, a).Some?
    requires Consume(args, Consume(args, next, a).value.1, b).Some?
    ensures var first := Consume(args, next, a).value;
      var second := Consume(args, first.1, b).value;
      Consume(args, next, a + b) == Some((first.0 + second.0, second.1))
    decreases |a|
  {
    if a == [] {
      assert a + b == b;
      var second := Consume(args, next, b).value;
      assert [] + second.0 == second.0;
    } else {
      hide Fetch;
      assert (a + b)[1..] == a[1..] + b;
      var f := Fetch(args, next, a[0]).value;
      var rest := Consume(args, f.1, a[1..]).value;
      ConsumeBoth(args, f.1, a[1..], b);
      var last := Consume(args, rest.1, b).value.0;
      assert [f.0] + rest.0 + last == [f.0] + (rest.0 + last);
    }
  }

  lemma SizeConsumes(args: seq<Arg>, next: int, size: Size, absent: int)
    requires AllProper(args) && SizeMeaning(args, next, size, absent).Some?
    ensures var c := Consume(args, next, SizeRefs(size));
      c.Some? && c.value.1 == SizeMeaning(args, next, size, absent).value.1
  {
    hide Fetch, NumberOf;
    if size.Nested? { OneConsumed(args, next, size.ref); }
  }

  lemma OneConsumed(args: seq<Arg>, next: int, ref: Ref)
    requires Fetch(args, next, ref).Some?
    ensures var f := Fetch(args, next, ref).value; Consume(args, next, [ref]) == Some(([f.0], f.1))
  {
    hide Fetch;
    assert [ref][1..] == [];
    var f := Fetch(args, next, ref).value;
    assert Consume(args, f.1, []) == Some(([], f.1));
    assert [f.0] + [] == [f.0];
  }

  function FieldRefs(field: Field): seq<Ref> {
    [field.ref] +
    (if field.spec.Some? then SizeRefs(field.spec.value.width) + SizeRefs(field.spec.value.precision) else [])
  }

  lemma HoleConsumes(args: seq<Arg>, next: int, render: Renderer, field: Field, after: char)
    requires AllProper(args) && HoleMeaning(args, next, render, field, after).Some?
    ensures var c := Consume(args, next, FieldRefs(field));
      c.Some? && c.value.1 == HoleMeaning(args, next, render, field, after).value.1
  {
    hide Fetch, Consume, Fits, SizeMeaning;
    var next1 := Fetch(args, next, field.ref).value.1;
    OneConsumed(args, next, field.ref);
    if field.spec.Some? {
      var spec := field.spec.value;
      SizeConsumes(args, next1, spec.width, 0);
      var next2 := SizeMeaning(args, next1, spec.width, 0).value.1;
      SizeConsumes(args, next2, spec.precision, -1);
      ConsumeBoth(args, next1, SizeRefs(spec.width), SizeRefs(spec.precision));
      ConsumeBoth(args, next, [field.ref], SizeRefs(spec.width) + SizeRefs(spec.precision));
    } else {
      assert FieldRefs(field) == [field.ref];
    }
  }

  /** A format string that is accepted finds every argument it asks for. */
  lemma {:induction false} MeaningConsumes(args: seq<Arg>, next: int, render: Renderer, pieces: seq<Piece>)
    requires AllProper(args) && Meaning(args, next, render, pieces).Some?
    ensures Consume(args, next, Refs(pieces)).Some?
    decreases |pieces|
  {
    hide Fetch, HoleMeaning;
    if pieces != [] {
      match pieces[0]
      case Literal(_) => MeaningConsumes(args, next, render, pieces[1..]);
      case Hole(field, after) =>
        HoleConsumes(args, next, render, field, after);
        var next1 := HoleMeaning(args, next, render, field, after).value.1;
        MeaningConsumes(args, next1, render, pieces[1..]);
        hide Consume;
        ConsumeBoth(args, next, FieldRefs(field), Refs(pieces[1..]));
        assert Refs(pieces) == FieldRefs(field) + Refs(pieces[1..]);
    }
  }

  predicate AllAuto(refs: seq<Ref>) { forall i :: 0 <= i < |refs| ==> refs[i].Auto? }

  predicate NoAuto(refs: seq<Ref>) { forall i :: 0 <= i < |refs| ==> !refs[i].Auto? }

  /** Once manual, always manual. */
  lemma {:induction false} StaysManual(args: seq<Arg>, refs: seq<Ref>)
    requires Consume(args, -1, refs).Some?
    ensures NoAuto(refs)
  {
    if refs != [] { StaysManual(args, refs[1..]); }
  }

  /** All demands are automatic and the k-th got argument from + k. */
  ghost predicate InOrder(args: seq<Arg>, from: nat, refs: seq<Ref>, taken: seq<Arg>) {
    && AllAuto(refs) && |taken| == |refs| && (refs == [] || from + |refs| <= |args|)
    && forall k :: 0 <= k < |refs| ==> taken[k] == Resolved(args[from + k])
  }

  /** Once automatic, always automatic, one argument after the other. */
  lemma {:induction false} StaysAutomatic(args: seq<Arg>, next: nat, refs: seq<Ref>)
    requires next > 0 && Consume(args, next, refs).Some?
    ensures InOrder(args, next, refs, Consume(args, next, refs).value.0)
    decreases |refs|
  {
    hide Resolved;
    if refs != [] {
      StaysAutomatic(args, next + 1, refs[1..]);
      InOrderFront(args, next, refs, Consume(args, next, refs).value.0);
    }
  }

  lemma InOrderFront(args: seq<Arg>, from: nat, refs: seq<Ref>, taken: seq<Arg>)
    requires refs != [] && taken != [] && from < |args| && refs[0].Auto? && taken[0] == Resolved(args[from])
    requires InOrder(args, from + 1, refs[1..], taken[1..])
    ensures InOrder(args, from, refs, taken)
  {
    hide Resolved;
    forall k | 0 <= k < |refs| ensures taken[k] == Resolved(args[from + k]) && refs[k].Auto? {
      if k > 0 { assert taken[k] == taken[1..][k - 1] && refs[k] == refs[1..][k - 1]; }
    }
  }

  /** A demand met as written: by the argument of that number, or by the first one of that name. */
  ghost predicate MetBy(args: seq<Arg>, ref: Ref, taken: Arg) {
    match ref
    case Auto => false
    case Index(digits) =>
      AllDigits(digits) && var n := Value(digits) % UINT_RANGE; n < |args| && taken == Resolved(args[n])
    case Name(name) => FirstCalled(args, name, Some(taken))
  }

  /** No demand is automatic, and each is met as written. */
  ghost predicate AsWritten(args: seq<Arg>, refs: seq<Ref>, taken: seq<Arg>) {
    |taken| == |refs| && forall k :: 0 <= k < |refs| ==> MetBy(args, refs[k], taken[k])
  }

  lemma FetchedAsWritten(args: seq<Arg>, next: int, ref: Ref)
    requires Fetch(args, next, ref).Some? && !ref.Auto?
    ensures MetBy(args, ref, Fetch(args, next, ref).value.0) && Fetch(args, next, ref).value.1 == -1
  {
    if ref.Name? { LookedUpIsFirst(args, ref.name); }
  }

  lemma {:induction false} ManualAsWritten(args: seq<Arg>, next: int, refs: seq<Ref>)
    requires Consume(args, next, refs).Some? && NoAuto(refs)
    ensures AsWritten(args, refs, Consume(args, next, refs).value.0)
    decreases |refs|
  {
    if refs != [] {
      hide MetBy, Fetch;
      assert NoAuto(refs[1..]);
      FetchedAsWritten(args, next, refs[0]);
      ManualAsWritten(args, -1, refs[1..]);
      var taken := Consume(args, next, refs).value.0;
      forall k | 0 <= k < |refs| ensures MetBy(args, refs[k], taken[k]) {
        if k > 0 { assert taken[k] == taken[1..][k - 1] && refs[k] == refs[1..][k - 1]; }
      }
    }
  }

  /**
   An accepted format string is automatic throughout, its k-th demand met by argument k; or every
   demand names its argument, by number or by name, and is met by that one.
   */
  lemma IndexingDiscipline(args: seq<Arg>, render: Renderer, s: string)
    requires AllProper(args) && '\0' !in s && FormatFrom(args, 0, render, s, 0).Some?
    ensures var refs := Refs(Split(s, 0).value);
      && Consume(args, 0, refs).Some?
      && var taken := Consume(args, 0, refs).value.0;
         (AsWritten(args, refs, taken) || InOrder(args, 0, refs, taken))
  {
    hide AsWritten, InOrder;
    var refs := Refs(Split(s, 0).value);
    MeaningConsumes(args, 0, render, Split(s, 0).value);
    FromTheStart(args, refs);
  }

  lemma FromTheStart(args: seq<Arg>, refs: seq<Ref>)
    requires Consume(args, 0, refs).Some?
    ensures var taken := Consume(args, 0, refs).value.0;
      AsWritten(args, refs, taken) || InOrder(args, 0, refs, taken)
  {
    hide Resolved;
    if refs != [] {
      if refs[0].Auto? {
        StaysAutomatic(args, 1, refs[1..]);
        InOrderFront(args, 0, refs, Consume(args, 0, refs).value.0);
      } else {
        StaysManual(args, refs[1..]);
        forall k | 0 <= k < |refs| ensures !refs[k].Auto? { if k > 0 { assert refs[k] == refs[1..][k - 1]; } }
        ManualAsWritten(args, 0, refs);
      }
    }
  }

  // ----- the character behind a field -----

  /** Only an empty specification depends on the character behind its field. */
  lemma BehindOthers(args: seq<Arg>, next: int, spec: SpecSyntax, after: char, kind: nat)
    requires AllProper(args) && spec != EMPTY_SPEC
    ensures SpecMeaning(args, next, spec, after, kind) == SpecMeaning(args, next, spec, '\0', kind)
  {
    hide SizeMeaning;
  }

  lemma BehindEmpty(args: seq<Arg>, next: int, after: char, kind: nat)
    requires AllProper(args)
    ensures SpecMeaning(args, next, EMPTY_SPEC, after, kind) == Some((DEFAULT_SPEC.(align := AlignOf(after)), next))
  {
    hide AllProper, Proper, Fetch, NumberOf;
  }

  lemma EmptyFieldAt(s: string, i: nat)
    requires i + 1 < |s| && '\0' !in s && s[i] == ':' && s[i + 1] == '}'
    ensures FieldAt(s, i) == Some(Field(Auto, Some(EMPTY_SPEC))) && |FieldText(Field(Auto, Some(EMPTY_SPEC)))| == 2
  {
    hide SpecAt, Reads;
    EmptyAtBrace(s, i + 1);
    assert RefAt(s, i) == Auto && RefText(Auto) == "";
    assert SpecText(EMPTY_SPEC) == "";
  }

  /** Where "{:}" stands, an empty field stands. */
  lemma EmptyFieldFirst(s: string, i: nat)
    requires i + 3 <= |s| && '\0' !in s && s[i] == '{' && s[i + 1] == ':' && s[i + 2] == '}'
    ensures Split(s, i) == Prepend(Hole(Field(Auto, Some(EMPTY_SPEC)), CharAt(s, i + 3)), Split(s, i + 3))
  {
    hide FieldAt, Reads, FieldText, SpecAt, RefAt, SpecText;
    EmptyFieldAt(s, i + 1);
  }
}
