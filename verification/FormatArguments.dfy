/**
 Arguments in format strings: the engine and the argument formatter together.
 */
module FormatArguments {
  import opened Wrappers
  import opened Numerals
  import opened ArgLists
  import opened FormatSyntax
  import opened FormatMeaning
  import opened IntWriter
  import opened ArgFormatter

  /** The renderer handed to the engine is the argument formatter, wherever that is modelled. */
  ghost predicate RendersArguments(render: Renderer) {
    forall spec: FormatSpec, arg: Arg :: Plain(arg) && Modelled(spec, arg.kind) ==>
      render(spec, arg) == Rendered(spec, arg)
  }

  // ----- integers -----

  function AtLeast(width: nat, length: nat): nat { if width <= length then length else width }

  /** Sign, prefix and digits of an integer. */
  function ContentLength(n: int, spec: Spec): nat {
    |SignPrefix(n, spec)| + |BasePrefix(spec)| + |DigitsOf(if n < 0 then -n else n, spec.kind)|
  }

  /** Integers never get a precision, so the integer writer's other path is not taken. */
  lemma IntegersHaveNoPrecision(args: seq<Arg>, next: int, field: Field, after: char, kind: nat)
    requires AllProper(args) && IsInteger(kind) && FieldSpec(args, next, field, after, kind).Some?
    ensures FieldSpec(args, next, field, after, kind).value.0.precision == -1
  {
    hide AllProper, Fetch, NumberOf;
  }

  /** The text of an integer: how wide it is, and what it reads as. */
  lemma IntegerTextFacts(n: int, spec: Spec)
    requires KnownKind(spec.kind)
    ensures |Formatted(n, spec)| == AtLeast(spec.width, ContentLength(n, spec))
    ensures NeutralFill(spec) ==> Decoded(Formatted(n, spec), Base(spec.kind)) == n
  {
    hide NeutralFill, Layout, Decoded, Base, DigitsOf, SignPrefix, BasePrefix;
    LayoutLength(SignPrefix(n, spec) + BasePrefix(spec), DigitsOf(if n < 0 then -n else n, spec.kind), spec);
    if NeutralFill(spec) { FormattedDecodes(n, spec); }
  }

  /**
   A field that an integer fills, wherever it stands in a format string: its text is exactly as
   wide as asked or as its sign, prefix and digits, whichever is more, and read back in the base
   of its type it is the integer, when the padding cannot be taken for digits or a sign.
   */
  lemma IntegerFieldDecodes(args: seq<Arg>, next: int, render: Renderer, field: Field, after: char)
    requires AllProper(args) && RendersArguments(render) && HoleMeaning(args, next, render, field, after).Some?
    requires IsInteger(Fetch(args, next, field.ref).value.0.kind)
    ensures var (arg, next1) := Fetch(args, next, field.ref).value;
      var text := HoleMeaning(args, next, render, field, after).value.0;
      var spec := FieldSpec(args, next1, field, after, arg.kind);
      && spec.Some? && arg.value.Number? && KnownKind(spec.value.0.kind)
      && |text| == AtLeast(spec.value.0.width, ContentLength(arg.value.n, IntSpec(spec.value.0)))
      && (NeutralFill(IntSpec(spec.value.0)) ==> Decoded(text, Base(spec.value.0.kind)) == arg.value.n)
  {
    FetchedIsPlain(args, next, field.ref);
    var (arg, next1) := Fetch(args, next, field.ref).value;
    assert arg.value.Number?;
    hide AllProper, Fetch, SpecMeaning, KnownKind, NeutralFill, Formatted, Decoded, Base, ContentLength, HasType;
    IntegerTextFacts(arg.value.n, IntSpec(FieldSpec(args, next1, field, after, arg.kind).value.0));
  }

  /** Zero padding by the zero flag is always neutral. */
  lemma ZeroFlagIsNeutral(args: seq<Arg>, next: int, spec: SpecSyntax, after: char, kind: nat)
    requires AllProper(args) && spec.zero && SpecMeaning(args, next, spec, after, kind).Some?
    ensures NeutralFill(IntSpec(SpecMeaning(args, next, spec, after, kind).value.0))
  {
    hide AllProper, SizeMeaning;
  }

  // ----- the character behind a field -----

  lemma LayoutWithoutWidth(prefix: string, digits: string, spec: Spec)
    requires spec.width == 0
    ensures Layout(prefix, digits, spec) == prefix + digits
  {
  }

  lemma IntegerIgnoresAlign(n: int, spec: FormatSpec, align: Alignment)
    requires spec.width == 0
    ensures IntegerText(n, spec.(align := align)) == IntegerText(n, spec)
  {
    hide Layout, DigitsOf;
    var s, t := IntSpec(spec), IntSpec(spec.(align := align));
    var digits := DigitsOf(if n < 0 then -n else n, spec.kind);
    LayoutWithoutWidth(SignPrefix(n, s) + BasePrefix(s), digits, s);
    LayoutWithoutWidth(SignPrefix(n, t) + BasePrefix(t), digits, t);
  }

  lemma PaddingIgnoresAlign(text: string, spec: FormatSpec, align: Alignment)
    requires spec.width == 0
    ensures Padded(text, spec.(align := align)) == Padded(text, spec)
  {
    PaddedWithoutWidth(text, spec);
    PaddedWithoutWidth(text, spec.(align := align));
  }

  lemma StringIgnoresAlign(value: Payload, spec: FormatSpec, align: Alignment)
    requires spec.width == 0
    ensures StringText(value, spec.(align := align)) == StringText(value, spec)
  {
    hide Padded;
    if value.Text? {
      PaddingIgnoresAlign(value.s, spec, align);
      if 0 <= spec.precision < |value.s| { PaddingIgnoresAlign(value.s[..spec.precision], spec, align); }
    }
  }

  /** Without a width, alignment shows only where it is refused: numeric alignment of a character. */
  lemma AlignmentAlone(align: Alignment, arg: Arg)
    requires Plain(arg) && Modelled(DEFAULT_SPEC, arg.kind)
    ensures Rendered(DEFAULT_SPEC.(align := align), arg) == Rendered(DEFAULT_SPEC, arg)
      <==> !(align.Numeric? && arg.kind == CHAR)
  {
    hide Padded, IntegerText, StringText;
    var spec := DEFAULT_SPEC;
    if IsInteger(arg.kind) {
      IntegerIgnoresAlign(arg.value.n, spec, align);
    } else if arg.kind == BOOL {
      StringIgnoresAlign(Text(if arg.value.n != 0 then "true" else "false"), spec, align);
    } else if arg.kind == CHAR {
      PaddingIgnoresAlign([CharOf(arg.value.n)], spec, align);
    } else if arg.kind == ADDRESS {
      var hexadecimal := spec.(sign := false, plus := false, minus := false, hash := true, kind := 'x');
      IntegerIgnoresAlign(arg.value.n, hexadecimal, align);
    } else {
      StringIgnoresAlign(arg.value, spec, align);
    }
  }

  /**
   What a field writes, or whether it is refused, ought not to depend on the text behind it. It
   does exactly for a character under an empty specification with an equals sign behind.
   */
  lemma LooksBehindTheFieldExactly(args: seq<Arg>, next: int, render: Renderer, field: Field, after: char)
    requires AllProper(args) && RendersArguments(render) && Fetch(args, next, field.ref).Some?
    requires Modelled(DEFAULT_SPEC, Fetch(args, next, field.ref).value.0.kind)
    ensures HoleMeaning(args, next, render, field, after) == HoleMeaning(args, next, render, field, '\0')
      <==> !(field.spec == Some(EMPTY_SPEC) && after == '=' && Fetch(args, next, field.ref).value.0.kind == CHAR)
  {
    FetchedIsPlain(args, next, field.ref);
    var (arg, next1) := Fetch(args, next, field.ref).value;
    hide AllProper, Fetch, SpecMeaning, Plain, HasType, Rendered;
    if field.spec == Some(EMPTY_SPEC) {
      BehindEmpty(args, next1, after, arg.kind);
      BehindEmpty(args, next1, '\0', arg.kind);
      AlignmentAlone(AlignOf(after), arg);
      assert DEFAULT_SPEC.(align := AlignOf('\0')) == DEFAULT_SPEC;
      assert arg.kind == CHAR ==> Rendered(DEFAULT_SPEC, arg).Some? by { CharacterAlone(arg); }
    } else if field.spec.Some? {
      BehindOthers(args, next1, field.spec.value, after, arg.kind);
    }
  }

  /** A character on its own, and what numeric alignment does to it. */
  lemma CharacterAlone(arg: Arg)
    requires Plain(arg)
    ensures arg.kind == CHAR ==>
      && Rendered(DEFAULT_SPEC, arg) == Some([CharOf(arg.value.n)])
      && Rendered(DEFAULT_SPEC.(align := Numeric), arg) == None
  {
    if arg.kind == CHAR { PaddedWithoutWidth([CharOf(arg.value.n)], DEFAULT_SPEC); }
  }

  /** So "{:}" shows a character, and "{:}=" is refused. */
  lemma EqualsSignRefusesCharacter(args: seq<Arg>, render: Renderer)
    requires AllProper(args) && RendersArguments(render) && args != [] && Resolved(args[0]).kind == CHAR
    ensures Plain(Resolved(args[0]))
    ensures FormatFrom(args, 0, render, "{:}", 0) == Some([CharOf(Resolved(args[0]).value.n)])
    ensures FormatFrom(args, 0, render, "{:}=", 0) == None
  {
    hide FormatFrom, Split, Meaning, Plain, AllProper, Resolved;
    var s, t := "{:}", "{:}=";
    assert |s| == 3 && |t| == 4 && t[3] == '=';
    CharacterInEmptyField(args, render, s, 0);
    CharacterInEmptyField(args, render, t, 0);
  }

  lemma CharacterInEmptyField(args: seq<Arg>, render: Renderer, s: string, i: nat)
    requires AllProper(args) && RendersArguments(render) && args != [] && Resolved(args[0]).kind == CHAR
    requires i + 3 <= |s| && '\0' !in s && s[i] == '{' && s[i + 1] == ':' && s[i + 2] == '}'
    ensures Plain(Resolved(args[0]))
    ensures i + 3 == |s| ==> FormatFrom(args, 0, render, s, i) == Some([CharOf(Resolved(args[0]).value.n)])
    ensures i + 3 < |s| && s[i + 3] == '=' ==> FormatFrom(args, 0, render, s, i) == None
  {
    var arg := Resolved(args[0]);
    FetchedIsPlain(args, 0, Auto);
    CharacterAlone(arg);
    hide FormatFrom, Rendered, Plain, AllProper, Resolved;
    EmptyFieldAlone(args, render, s, i);
    AtTheEnd(args, 1, render, s);
    var text := [CharOf(arg.value.n)];
    assert text + "" == text;
    assert DEFAULT_SPEC.(align := AlignOf('\0')) == DEFAULT_SPEC;
  }

  /** An empty field shows its argument before the rest. */
  lemma EmptyFieldAlone(args: seq<Arg>, render: Renderer, s: string, i: nat)
    requires AllProper(args) && args != []
    requires i + 3 <= |s| && '\0' !in s && s[i] == '{' && s[i + 1] == ':' && s[i + 2] == '}'
    ensures FormatFrom(args, 0, render, s, i) ==
      match render(DEFAULT_SPEC.(align := AlignOf(CharAt(s, i + 3))), Resolved(args[0]))
      case None => None
      case Some(text) => Prefixed(text, FormatFrom(args, 1, render, s, i + 3))
  {
    EmptyFieldFirst(s, i);
    BehindEmpty(args, 1, CharAt(s, i + 3), Resolved(args[0]).kind);
    var hole := Hole(Field(Auto, Some(EMPTY_SPEC)), CharAt(s, i + 3));
    hide Split, SpecMeaning, Resolved, AllProper;
    if Split(s, i + 3).Some? { HoleFirst(args, 0, render, hole, Split(s, i + 3).value); }
  }
}
