/**
 The format-string engine: one pass over the string, with the indexing state kept between
 fields.
 */
module FormatEngine {
  import opened Wrappers
  import opened Digits
  import opened Numerals
  import opened ArgLists
  import opened FormatSyntax
  import opened FormatMeaning
  import IntWriter

  class Formatter {
    const args: ArgList
    ghost const given: seq<Arg>
    const render: Renderer
    var nextArgIndex: int
    var writer: string

    ghost predicate Valid()
      reads this
    {
      AllProper(given) && args == Make(given) && nextArgIndex >= -1
    }

    constructor (passed: seq<Arg>, render: Renderer)
      requires AllProper(passed)
      ensures Valid() && given == passed && this.render == render && nextArgIndex == 0 && writer == ""
    {
      args := Make(passed);
      given := passed;
      this.render := render;
      nextArgIndex := 0;
      writer := "";
    }

    /** The argument at an index with a named one followed to what it stands for. */
    method DoGetArg(index: nat) returns (r: Result<Arg, string>)
      requires Valid()
      ensures if index < |given| then r == Ok(Resolved(given[index])) else r.Err?
    {
      hide Make;
      var arg := Lookup(args, index, given);
      if arg.kind == NONE { return Err("argument index out of range"); }
      if arg.kind == NAMED_ARG { return Ok(arg.value.arg); }
      return Ok(arg);
    }

    method NextArg() returns (r: Result<Arg, string>)
      requires Valid()
      modifies this`nextArgIndex
      ensures Valid() && Took(old(nextArgIndex), Auto, r)
    {
      hide Make;
      if nextArgIndex >= 0 {
        r := DoGetArg(nextArgIndex);
        nextArgIndex := nextArgIndex + 1;
        return;
      }
      return Err("cannot switch from manual to automatic argument indexing");
    }

    method CheckNoAutoIndex() returns (ok: bool)
      requires Valid()
      modifies this`nextArgIndex
      ensures Valid() && (ok <==> old(nextArgIndex) <= 0)
      ensures nextArgIndex == if ok then -1 else old(nextArgIndex)
    {
      if nextArgIndex > 0 { return false; }
      nextArgIndex := -1;
      return true;
    }

    /** An argument was taken, or refused, as a reference from indexing state `before` demands. */
    ghost predicate Took(before: int, ref: Ref, r: Result<Arg, string>)
      reads this
    {
      match Fetch(given, before, ref)
      case None => r.Err?
      case Some(taken) => r == Ok(taken.0) && nextArgIndex == taken.1
    }

    method ParseArgIndex(s: string, at: nat) returns (r: Result<Arg, string>, end: nat)
      requires Valid() && at <= |s| && !NameStart(CharAt(s, at))
      modifies this`nextArgIndex
      ensures Valid() && Took(old(nextArgIndex), RefAt(s, at), r)
      ensures r.Ok? ==> end == at + |RefText(RefAt(s, at))|
    {
      hide Make, NumberOf, DigitRun;
      end := at;
      if !IsDigit(Peek(s, at)) {
        r := NextArg();
      } else {
        var index: Result<nat, string>;
        index, end := ParseNonnegativeInt(s, at);
        ParsedIsNumber(DigitRun(s, at), index);
        if index.Err? { return Err(index.error), end; }
        var ok := CheckNoAutoIndex();
        if !ok { return Err("cannot switch from automatic to manual argument indexing"), end; }
        r := DoGetArg(index.value);
      }
    }

    /** A name: its first character, then letters, digits and underscores. */
    static method ScanName(s: string, at: nat) returns (end: nat)
      requires at <= |s| && NameStart(CharAt(s, at))
      ensures end == at + |NameRun(s, at)|
    {
      end := at;
      while true
        invariant at <= end < |s| && end + |NameRun(s, end)| == at + |NameRun(s, at)|
        invariant NameStart(s[end]) || IsDigit(s[end])
        decreases |s| - end
      {
        assert NameRun(s, end) == [s[end]] + NameRun(s, end + 1);
        end := end + 1;
        if !NameStart(Peek(s, end)) && !IsDigit(Peek(s, end)) { break; }
      }
    }

    method GetArgByName(name: string) returns (r: Result<Arg, string>)
      requires Valid()
      modifies this`nextArgIndex
      ensures Valid() && Took(old(nextArgIndex), Name(name), r)
    {
      hide Make, Named, FirstNamed;
      var ok := CheckNoAutoIndex();
      if !ok { return Err("cannot switch from automatic to manual argument indexing"); }
      var names := InitMap(args, given);
      var found := Find(names, name);
      r := if found.Some? then Ok(found.value) else Err("argument not found");
    }

    method ParseArgName(s: string, at: nat) returns (r: Result<Arg, string>, end: nat)
      requires Valid() && at <= |s| && NameStart(CharAt(s, at))
      modifies this`nextArgIndex
      ensures Valid() && Took(old(nextArgIndex), RefAt(s, at), r)
      ensures r.Ok? ==> end == at + |RefText(RefAt(s, at))|
    {
      hide Make, NameRun;
      end := ScanName(s, at);
      assert s[at..end] == NameRun(s, at);
      r := GetArgByName(s[at..end]);
    }

    method ParseRef(s: string, at: nat) returns (r: Result<Arg, string>, end: nat)
      requires Valid() && at <= |s|
      modifies this`nextArgIndex
      ensures Valid() && Took(old(nextArgIndex), RefAt(s, at), r)
      ensures r.Ok? ==> end == at + |RefText(RefAt(s, at))|
    {
      if NameStart(Peek(s, at)) { r, end := ParseArgName(s, at); } else { r, end := ParseArgIndex(s, at); }
    }

    // ----- the parts of a specification -----

    /** A size was read as the text at `at` and the indexing state demand. */
    ghost predicate SizeTook(before: int, size: Option<Size>, absent: int, r: Result<int, string>)
      requires AllProper(given)
      reads this
    {
      if size.None? then r.Err?
      else match SizeMeaning(given, before, size.value, absent)
        case None => r.Err?
        case Some(meaning) => r == Ok(meaning.0) && nextArgIndex == meaning.1
    }

    /** The number an integer argument holds, unless it is negative or too big for an int. */
    static method CheckedSize(a: Arg) returns (r: Result<int, string>)
      requires Plain(a)
      ensures match SizeValue(a) case None => r.Err? case Some(n) => r == Ok(n)
    {
      if !IsInteger(a.kind) { return Err("size is not integer"); }
      if !IsUnsigned(a.kind) && a.value.n < 0 { return Err("negative size"); }
      if a.value.n > INT_MAX { return Err("number is too big"); }
      return Ok(a.value.n);
    }

    /** A width or precision taken from an argument; `at` is behind the opening brace. */
    method ParseNested(s: string, at: nat, ghost absent: int) returns (r: Result<int, string>, end: nat)
      requires Valid() && 1 <= at <= |s| && CharAt(s, at - 1) == '{'
      modifies this`nextArgIndex
      ensures Valid() && SizeTook(old(nextArgIndex), SizeAt(s, at - 1), absent, r)
      ensures r.Ok? ==> end == at - 1 + |SizeText(SizeAt(s, at - 1).value)| <= |s|
    {
      hide Make, Fetch, RefText, RefAt, Plain, SizeValue, AllProper, SizeAt, SizeText;
      SizeIsNested(s, at - 1);
      if Fetch(given, nextArgIndex, RefAt(s, at)).Some? { FetchedIsPlain(given, nextArgIndex, RefAt(s, at)); }
      var arg;
      arg, end := ParseRef(s, at);
      if arg.Err? { return Err(arg.error), end; }
      if Peek(s, end) != '}' { return Err("invalid format string"), end; }
      end := end + 1;
      r := CheckedSize(arg.value);
    }

    method ParseSize(s: string, at: nat, absent: int) returns (r: Result<int, string>, end: nat)
      requires Valid() && at <= |s|
      modifies this`nextArgIndex
      ensures Valid() && SizeTook(old(nextArgIndex), SizeAt(s, at), absent, r)
      ensures r.Ok? ==> end == at + |SizeText(SizeAt(s, at).value)| <= |s|
    {
      hide Make, NumberOf, DigitRun, Fetch;
      end := at;
      if IsDigit(Peek(s, at)) {
        var n: Result<nat, string>;
        n, end := ParseNonnegativeInt(s, at);
        ParsedIsNumber(DigitRun(s, at), n);
        r := if n.Ok? then Ok(n.value) else Err(n.error);
      } else if Peek(s, at) == '{' {
        r, end := ParseNested(s, at + 1, absent);
      } else {
        r := Ok(absent);
      }
    }

    /** Fill and alignment: looks at the second character first, then at the first. */
    static method ParseAlign(s: string, at: nat, kind: nat, initial: FormatSpec)
      returns (r: Result<FormatSpec, string>, end: nat)
      requires at <= |s| && '\0' !in s && initial.align.Default?
      ensures match AlignOutcome(s, at, kind, initial)
        case None => r.Err?
        case Some(outcome) => r == Ok(outcome.0) && end == outcome.1
    {
      var spec, c := initial, Peek(s, at);
      end := at;
      if c == '\0' { return Ok(spec), end; }
      var p: int := at + 1;
      while p >= at
        invariant at - 1 <= p <= at + 1 && end == at && spec == initial
        invariant p < at + 1 ==> !IsAlign(CharAt(s, at + 1))
        invariant p < at ==> !IsAlign(c)
      {
        spec := spec.(align := AlignOf(Peek(s, p)));
        if !spec.align.Default? {
          if p != at {
            if c == '}' { break; }
            if c == '{' { return Err("invalid fill character '{'"), end; }
            end := end + 2;
            spec := spec.(fill := c);
          } else {
            end := end + 1;
          }
          if spec.align.Numeric? && !NumericKind(kind) { return Err("requires numeric argument"), end; }
          break;
        }
        p := p - 1;
      }
      return Ok(spec), end;
    }

    /** Sign, hash and zero flags. */
    static method ParseFlags(s: string, at: nat, kind: nat, initial: FormatSpec)
      returns (r: Result<FormatSpec, string>, end: nat)
      requires at <= |s| && !initial.sign && !initial.plus && !initial.minus && !initial.hash
      ensures match FlagsOutcome(s, at, kind, initial)
        case None => r.Err?
        case Some(outcome) => r == Ok(outcome.0) && end == outcome.1
    {
      hide Reads, NumericKind, IsUnsigned;
      var spec, c := initial, Peek(s, at);
      end := at;
      if IsSign(c) {
        if !NumericKind(kind) { return Err("requires numeric argument"), end; }
        if IsUnsigned(kind) { return Err("requires signed argument"), end; }
        end := end + 1;
        if c == '+' { spec := spec.(sign := true, plus := true); }
        if c == '-' { spec := spec.(minus := true); }
        if c == ' ' { spec := spec.(sign := true); }
      }
      if Peek(s, end) == '#' {
        if !NumericKind(kind) { return Err("requires numeric argument"), end; }
        spec := spec.(hash := true);
        end := end + 1;
      }
      if Peek(s, end) == '0' {
        if !NumericKind(kind) { return Err("requires numeric argument"), end; }
        spec := spec.(align := IntWriter.Numeric, fill := '0');
        end := end + 1;
      }
      return Ok(spec), end;
    }

    /** The precision behind its point; integers and pointers take none. */
    method ParsePrecision(s: string, at: nat, kind: nat) returns (r: Result<int, string>, end: nat)
      requires Valid() && at <= |s|
      modifies this`nextArgIndex
      ensures Valid()
      ensures match PrecisionAt(s, at)
        case None => r.Err?
        case Some(size) =>
          && (!size.NoSize? && !TakesPrecision(kind) ==> r.Err?)
          && (size.NoSize? || TakesPrecision(kind) ==> SizeTook(old(nextArgIndex), Some(size), -1, r))
          && (r.Ok? ==> end == at + |PrecisionText(size)| <= |s|)
    {
      hide Make, Fetch, SizeAt, SizeText;
      SizeIsAbsent(s, at + 1);
      end := at;
      if Peek(s, at) != '.' { return Ok(-1), end; }
      if !IsDigit(Peek(s, at + 1)) && Peek(s, at + 1) != '{' { return Err("missing precision specifier"), end; }
      r, end := ParseSize(s, at + 1, -1);
      if r.Ok? && !TakesPrecision(kind) { r := Err("precision not allowed"); }
    }

    /** Width, precision and type. */
    method ParseSizes(s: string, at: nat, kind: nat, initial: FormatSpec)
      returns (r: Result<FormatSpec, string>, end: nat)
      requires Valid() && at <= |s|
      modifies this`nextArgIndex
      ensures Valid()
      ensures match SizesOutcome(given, old(nextArgIndex), s, at, kind, initial)
        case None => r.Err?
        case Some(outcome) => r == Ok(outcome.0) && nextArgIndex == outcome.1 && end == outcome.2 <= |s|
    {
      hide Make, SizeMeaning, SizeAt, PrecisionAt, TakesPrecision, Reads, SizeText, PrecisionText, KindAt;
      var width, precision;
      width, end := ParseSize(s, at, 0);
      if width.Err? { return Err(width.error), end; }
      precision, end := ParsePrecision(s, end, kind);
      if precision.Err? { return Err(precision.error), end; }
      var spec := initial.(width := width.value, precision := precision.value);
      KindIs(s, end);
      if Peek(s, end) != '}' && end < |s| {
        spec := spec.(kind := s[end]);
        end := end + 1;
      }
      return Ok(spec), end;
    }

    /** A whole specification; `at` is behind its colon. */
    method ParseSpec(s: string, at: nat, kind: nat) returns (r: Result<FormatSpec, string>, end: nat)
      requires Valid() && at <= |s| && '\0' !in s
      modifies this`nextArgIndex
      ensures Valid()
      ensures match SpecOutcome(given, old(nextArgIndex), s, at, kind)
        case None => r.Err?
        case Some(outcome) => r == Ok(outcome.0) && nextArgIndex == outcome.1
      ensures r.Ok? ==> end == at + |SpecText(SpecAt(s, at).value)| <= |s|
    {
      OutcomeByStages(given, nextArgIndex, s, at, kind);
      hide Make, AlignOutcome, FlagsOutcome, SizesOutcome, SpecOutcome, SpecAt, SpecText;
      r, end := ParseAlign(s, at, kind, DEFAULT_SPEC);
      if r.Err? { return; }
      r, end := ParseFlags(s, end, kind, r.value);
      if r.Err? { return; }
      r, end := ParseSizes(s, end, kind, r.value);
    }

    // ----- fields and strings -----

    /** One field from behind its reference on; writes the rendered argument. */
    method FormatField(s: string, at: nat, arg: Arg) returns (r: Result<(), string>, end: nat)
      requires Valid() && at <= |s| && '\0' !in s && arg.kind != CUSTOM
      modifies this`nextArgIndex, this`writer
      ensures Valid()
      ensures match FieldOutcome(given, old(nextArgIndex), render, s, at, arg)
        case None => r.Err?
        case Some(outcome) =>
          r.Ok? && writer == old(writer) + outcome.0 && nextArgIndex == outcome.1 && end == outcome.2
    {
      hide Make, SpecOutcome, SpecAt, SpecText;
      end := at;
      var spec := DEFAULT_SPEC;
      if Peek(s, end) == ':' {
        var parsed;
        parsed, end := ParseSpec(s, end + 1, arg.kind);
        if parsed.Err? { return Err(parsed.error), end; }
        spec := parsed.value;
      }
      if Peek(s, end) != '}' { return Err("missing '}' in format string"), end; }
      end := end + 1;
      var text := render(spec, arg);
      if text.None? { return Err("argument refused"), end; }
      writer := writer + text.value;
      return Ok(()), end;
    }

    /** Formats the whole string: accepted exactly when it means something, and then that is written. */
    method Format(s: string) returns (r: Result<(), string>)
      requires Valid() && NoCustom(given) && '\0' !in s
      modifies this`nextArgIndex, this`writer
      ensures Valid()
      ensures match FormatFrom(given, old(nextArgIndex), render, s, 0)
        case None => r.Err?
        case Some(text) => r.Ok? && writer == old(writer) + text
    {
      hide Make, FormatFrom, FieldOutcome, Fetch, RefAt, RefText, Prefixed;
      ghost var whole := Prefixed(writer, FormatFrom(given, nextArgIndex, render, s, 0));
      PrefixedIs(writer, FormatFrom(given, nextArgIndex, render, s, 0));
      var i: nat, start: nat := 0, 0;
      assert writer + s[start..i] == writer;
      while i < |s|
        invariant start <= i <= |s| && Valid()
        invariant whole == Prefixed(writer + s[start..i], FormatFrom(given, nextArgIndex, render, s, i))
        decreases |s| - i
      {
        var c := s[i];
        ghost var written := writer + s[start..i];
        i := i + 1;
        if c != '{' && c != '}' {
          LiteralStep(given, nextArgIndex, render, s, i - 1);
          PrefixedTwice(written, [c], FormatFrom(given, nextArgIndex, render, s, i), writer + s[start..i]);
          continue;
        }
        if Peek(s, i) == c {
          LiteralStep(given, nextArgIndex, render, s, i - 1);
          writer := writer + s[start..i];
          i := i + 1;
          start := i;
          PrefixedTwice(written, [c], FormatFrom(given, nextArgIndex, render, s, i), writer + s[start..i]);
          continue;
        }
        PrefixedIs(written, FormatFrom(given, nextArgIndex, render, s, i - 1));
        if c == '}' {
          LoneBrace(given, nextArgIndex, render, s, i - 1);
          return Err("unmatched '}' in format string");
        }
        FieldByParts(given, nextArgIndex, render, s, i - 1);
        if Fetch(given, nextArgIndex, RefAt(s, i)).Some? { FetchedIsPlain(given, nextArgIndex, RefAt(s, i)); }
        writer := writer + s[start..i - 1];
        var arg, at := ParseRef(s, i);
        if arg.Err? { return Err(arg.error); }
        ghost var before := nextArgIndex;
        var outcome, end := FormatField(s, at, arg.value);
        if outcome.Err? { return outcome; }
        i := end;
        start := end;
        ghost var text := FieldOutcome(given, before, render, s, at, arg.value).value.0;
        PrefixedTwice(written, text, FormatFrom(given, nextArgIndex, render, s, i), writer + s[start..i]);
      }
      AtTheEnd(given, nextArgIndex, render, s);
      writer := writer + s[start..i];
      PrefixedIs(writer, Some(""));
      return Ok(());
    }
  }

  lemma PrefixedIs(text: string, rest: Option<string>)
    ensures Prefixed(text, rest) == if rest.Some? then Some(text + rest.value) else None
    ensures Prefixed(text, Some("")) == Some(text)
  {
    assert text + "" == text;
  }
}
