/**
 The log pattern compiler: a pattern becomes a list of formatters once, and every message
 runs through the list.
 */
module Pattern {

  /** One entry of the compiled list. */
  datatype Formatter = Aggregate(text: string) | Ch(c: char) | Flag(flag: char)

  /** Flags with a formatter of their own; the second spelling of a pair stands for the first. */
  const FLAGS := {'n', 'l', 'L', 't', 'v', 'a', 'A', 'b', 'B', 'c', 'C', 'Y', 'D', 'm', 'd', 'H', 'I', 'M', 'S', 'e',
                  'f', 'F', 'p', 'r', 'R', 'T', 'z', '+'}

  function Spelling(flag: char): char {
    if flag == 'h' then 'b' else if flag == 'x' then 'D' else if flag == 'X' then 'T' else flag
  }

  predicate Known(flag: char) { Spelling(flag) in FLAGS }

  /** What each flag shows for one message. */
  type Rendering = char -> string

  // ----- the pattern read directly -----

  /** A flag's rendering; an unknown one keeps its percent sign. */
  function FlagText(flag: char, r: Rendering): string { if Known(flag) then r(Spelling(flag)) else ['%', flag] }

  /** The text a pattern stands for, from i on. */
  function Interpret(pattern: string, i: nat, r: Rendering): string
    requires i <= |pattern|
    decreases |pattern| - i
  {
    if i == |pattern| then ""
    else if pattern[i] != '%' then [pattern[i]] + Interpret(pattern, i + 1, r)
    else if i + 1 == |pattern| then ""
    else FlagText(pattern[i + 1], r) + Interpret(pattern, i + 2, r)
  }

  // ----- the compiled list -----

  function Shown(f: Formatter, r: Rendering): string {
    match f
    case Aggregate(text) => text
    case Ch(c) => [c]
    case Flag(flag) => r(flag)
  }

  function Output(formatters: seq<Formatter>, r: Rendering): string {
    if formatters == [] then ""
    else Output(formatters[..|formatters|-1], r) + Shown(formatters[|formatters|-1], r)
  }

  lemma OutputStep(formatters: seq<Formatter>, f: Formatter, r: Rendering)
    ensures Output(formatters + [f], r) == Output(formatters, r) + Shown(f, r)
  {
    assert (formatters + [f])[..|formatters|] == formatters;
  }

  /** Compiled up to position i, with characters pending: for any message the list shows the rest's beginning. */
  ghost predicate Compiled(formatters: seq<Formatter>, pending: string, pattern: string, i: nat)
    requires i <= |pattern|
  {
    forall r: Rendering :: Output(formatters, r) + pending + Interpret(pattern, i, r) == Interpret(pattern, 0, r)
  }

  lemma Flushed(fs: seq<Formatter>, pending: string, pattern: string, i: nat)
    requires i <= |pattern| && Compiled(fs, pending, pattern, i)
    ensures Compiled(fs + [Aggregate(pending)], "", pattern, i)
  {
    hide Interpret;
    forall r: Rendering
      ensures Output(fs + [Aggregate(pending)], r) + "" + Interpret(pattern, i, r) == Interpret(pattern, 0, r)
    {
      OutputStep(fs, Aggregate(pending), r);
      hide Output;
      NothingBetween(Output(fs, r) + pending, Interpret(pattern, i, r));
    }
  }

  lemma NothingBetween(a: string, b: string)
    ensures a + "" + b == a + b
  {
  }

  lemma Moved(a: string, b: string, c: string)
    ensures a + b + "" + c == a + "" + (b + c)
  {
  }

  lemma CharTaken(fs: seq<Formatter>, pending: string, pattern: string, i: nat)
    requires i < |pattern| && pattern[i] != '%' && Compiled(fs, pending, pattern, i)
    ensures Compiled(fs, pending + [pattern[i]], pattern, i + 1)
  {
    forall r: Rendering
      ensures Output(fs, r) + (pending + [pattern[i]]) + Interpret(pattern, i + 1, r) == Interpret(pattern, 0, r)
    {
      Regroup(Output(fs, r), pending, [pattern[i]], Interpret(pattern, i + 1, r));
    }
  }

  lemma Regroup(a: string, b: string, c: string, d: string)
    ensures a + (b + c) + d == a + b + (c + d)
  {
  }

  lemma FlagStep(pattern: string, i: nat, r: Rendering)
    requires i + 1 < |pattern| && pattern[i] == '%'
    ensures Interpret(pattern, i, r) == FlagText(pattern[i + 1], r) + Interpret(pattern, i + 2, r)
  {
  }

  lemma CharStep(pattern: string, i: nat, r: Rendering)
    requires i < |pattern| && pattern[i] != '%'
    ensures Interpret(pattern, i, r) == [pattern[i]] + Interpret(pattern, i + 1, r)
  {
  }

  lemma NothingLeft(pattern: string, i: nat, r: Rendering)
    requires i == |pattern| || (i + 1 == |pattern| && pattern[i] == '%')
    ensures Interpret(pattern, i, r) == ""
  {
  }

  /** A list that shows a flag more has that flag compiled. */
  lemma FlagTaken(fs: seq<Formatter>, fs': seq<Formatter>, pattern: string, i: nat)
    requires i + 1 < |pattern| && pattern[i] == '%' && Compiled(fs, "", pattern, i)
    requires forall r: Rendering :: Output(fs', r) == Output(fs, r) + FlagText(pattern[i + 1], r)
    ensures Compiled(fs', "", pattern, i + 2)
  {
    hide Output, Interpret, FlagText;
    var flag := pattern[i + 1];
    forall r: Rendering
      ensures Output(fs', r) + "" + Interpret(pattern, i + 2, r) == Interpret(pattern, 0, r)
    {
      FlagStep(pattern, i, r);
      Moved(Output(fs, r), FlagText(flag, r), Interpret(pattern, i + 2, r));
    }
  }

  /** Two characters after a list show both. */
  lemma TwoCharsShown(fs: seq<Formatter>, c: char, d: char, r: Rendering)
    ensures Output(fs + [Ch(c)] + [Ch(d)], r) == Output(fs, r) + [c, d]
  {
    OutputStep(fs, Ch(c), r);
    OutputStep(fs + [Ch(c)], Ch(d), r);
    assert Output(fs, r) + [c] + [d] == Output(fs, r) + [c, d];
  }

  /** At the end, or at a percent sign that no flag follows. */
  lemma AllCompiled(fs: seq<Formatter>, pattern: string, i: nat)
    requires i <= |pattern| && Compiled(fs, "", pattern, i)
    requires i == |pattern| || (i + 1 == |pattern| && pattern[i] == '%')
    ensures forall r: Rendering :: Output(fs, r) == Interpret(pattern, 0, r)
  {
    forall r: Rendering ensures Output(fs, r) == Interpret(pattern, 0, r) {
      assert Output(fs, r) + "" + "" == Output(fs, r);
    }
  }

  /** A record on its way to the sinks; formatters append to `formatted`. */
  class LogMessage {
    var formatted: string

    constructor ()
      ensures formatted == ""
    {
      formatted := "";
    }
  }

  class PatternFormatter {
    var formatters: seq<Formatter>
    const eol: string

    /** The list shows, for every message, what the pattern stands for. */
    constructor (pattern: string, eol: string)
      ensures this.eol == eol && forall r: Rendering :: Output(formatters, r) == Interpret(pattern, 0, r)
    {
      this.eol := eol;
      formatters := [];
      new;
      CompilePattern(pattern);
    }

    method CompilePattern(pattern: string)
      requires formatters == []
      modifies this`formatters
      ensures forall r: Rendering :: Output(formatters, r) == Interpret(pattern, 0, r)
    {
      NothingCompiled(pattern);
      hide Compiled, Interpret, Output, FlagText;
      var userChars := "";
      var i := 0;
      while i < |pattern|
        invariant i <= |pattern| && Compiled(formatters, userChars, pattern, i)
        decreases |pattern| - i
      {
        if pattern[i] == '%' {
          if userChars != "" {
            Flushed(formatters, userChars, pattern, i);
            formatters := formatters + [Aggregate(userChars)];
            userChars := "";
          }
          i := i + 1;
          if i == |pattern| {
            AllCompiled(formatters, pattern, i - 1);
            return;
          }
          ghost var before := formatters;
          HandleFlag(pattern[i]);
          FlagTaken(before, formatters, pattern, i - 1);
        } else {
          CharTaken(formatters, userChars, pattern, i);
          userChars := userChars + [pattern[i]];
        }
        i := i + 1;
      }
      if userChars != "" {
        Flushed(formatters, userChars, pattern, i);
        formatters := formatters + [Aggregate(userChars)];
      }
      AllCompiled(formatters, pattern, i);
    }

    /** The list then shows, for every message, the flag's text after what it showed before. */
    method HandleFlag(flag: char)
      modifies this`formatters
      ensures forall r: Rendering :: Output(formatters, r) == Output(old(formatters), r) + FlagText(flag, r)
    {
      hide Known;
      ghost var before := formatters;
      if Known(flag) {
        formatters := formatters + [Flag(Spelling(flag))];
        forall r: Rendering ensures Output(formatters, r) == Output(before, r) + FlagText(flag, r) {
          OutputStep(before, Flag(Spelling(flag)), r);
        }
      } else {
        formatters := formatters + [Ch('%')];
        formatters := formatters + [Ch(flag)];
        forall r: Rendering ensures Output(formatters, r) == Output(before, r) + FlagText(flag, r) {
          TwoCharsShown(before, '%', flag, r);
        }
      }
    }

    /** Appends everything the list shows, then one end of line. */
    method Format(msg: LogMessage, r: Rendering)
      modifies msg
      ensures msg.formatted == old(msg.formatted) + Output(formatters, r) + eol
    {
      var k := 0;
      while k < |formatters|
        invariant k <= |formatters|
        invariant msg.formatted == old(msg.formatted) + Output(formatters[..k], r)
      {
        assert formatters[..k + 1] == formatters[..k] + [formatters[k]];
        OutputStep(formatters[..k], formatters[k], r);
        msg.formatted := msg.formatted + Shown(formatters[k], r);
        k := k + 1;
      }
      assert formatters[..k] == formatters;
      msg.formatted := msg.formatted + eol;
    }
  }

  lemma NothingCompiled(pattern: string)
    ensures Compiled([], "", pattern, 0)
  {
    forall r: Rendering ensures Output([], r) + "" + Interpret(pattern, 0, r) == Interpret(pattern, 0, r) {
      assert "" + "" + Interpret(pattern, 0, r) == Interpret(pattern, 0, r);
    }
  }

  /** A compiled pattern formats a message as the pattern reads, and ends the line. */
  method CompileAndFormat(pattern: string, eol: string, r: Rendering) returns (text: string)
    ensures text == Interpret(pattern, 0, r) + eol
  {
    var formatter := new PatternFormatter(pattern, eol);
    var msg := new LogMessage();
    formatter.Format(msg, r);
    text := msg.formatted;
  }

  // ----- what patterns mean -----

  /** The pattern ends in a percent sign that no flag follows. */
  predicate Dangling(pattern: string, i: nat)
    requires i <= |pattern|
    decreases |pattern| - i
  {
    if i == |pattern| then false
    else if pattern[i] != '%' then Dangling(pattern, i + 1)
    else i + 1 == |pattern| || Dangling(pattern, i + 2)
  }

  /** Patterns can be put together, unless the first leaves a percent sign open. */
  lemma {:induction false} PatternsCompose(a: string, b: string, i: nat, r: Rendering)
    requires i <= |a| && !Dangling(a, i)
    ensures Interpret(a + b, i, r) == Interpret(a, i, r) + Interpret(b, 0, r)
    decreases |a| - i
  {
    hide Interpret, FlagText;
    var ab := a + b;
    if i == |a| {
      NothingLeft(a, i, r);
      Shifted(a, b, 0, r);
      assert "" + Interpret(b, 0, r) == Interpret(b, 0, r);
    } else if a[i] != '%' {
      assert ab[i] == a[i];
      CharStep(a, i, r);
      CharStep(ab, i, r);
      PatternsCompose(a, b, i + 1, r);
      var rest := Interpret(a, i + 1, r);
      assert [a[i]] + rest + Interpret(b, 0, r) == [a[i]] + (rest + Interpret(b, 0, r));
    } else {
      assert ab[i] == a[i] && ab[i + 1] == a[i + 1];
      FlagStep(a, i, r);
      FlagStep(ab, i, r);
      PatternsCompose(a, b, i + 2, r);
      var shown, rest := FlagText(a[i + 1], r), Interpret(a, i + 2, r);
      assert shown + rest + Interpret(b, 0, r) == shown + (rest + Interpret(b, 0, r));
    }
  }

  lemma {:induction false} Shifted(a: string, b: string, i: nat, r: Rendering)
    requires i <= |b|
    ensures Interpret(a + b, |a| + i, r) == Interpret(b, i, r)
    decreases |b| - i
  {
    hide Interpret, FlagText;
    var ab := a + b;
    if i == |b| || (i + 1 == |b| && b[i] == '%') {
      NothingLeft(b, i, r);
      NothingLeft(ab, |a| + i, r);
    } else {
      assert ab[|a| + i] == b[i] && (i + 1 < |b| ==> ab[|a| + i + 1] == b[i + 1]);
      if b[i] != '%' {
        CharStep(b, i, r);
        CharStep(ab, |a| + i, r);
        Shifted(a, b, i + 1, r);
      } else if i + 1 < |b| {
        FlagStep(b, i, r);
        FlagStep(ab, |a| + i, r);
        Shifted(a, b, i + 2, r);
      }
    }
  }

  /** An open percent sign is dropped when nothing follows. */
  lemma {:induction false} DanglingIsDropped(a: string, i: nat, r: Rendering)
    requires i <= |a| && !Dangling(a, i)
    ensures Interpret(a + "%", i, r) == Interpret(a, i, r)
  {
    PatternsCompose(a, "%", i, r);
    assert Interpret("%", 0, r) == "";
  }

  /** No percent sign of the pattern introduces a known flag, and none is left open. */
  predicate NoFlags(pattern: string, i: nat)
    requires i <= |pattern|
    decreases |pattern| - i
  {
    if i == |pattern| then true
    else if pattern[i] != '%' then NoFlags(pattern, i + 1)
    else i + 1 < |pattern| && !Known(pattern[i + 1]) && NoFlags(pattern, i + 2)
  }

  /** Such a pattern shows itself; doubling a percent sign shows both. */
  lemma {:induction false} UnknownFlagsStay(pattern: string, i: nat, r: Rendering)
    requires i <= |pattern| && NoFlags(pattern, i)
    ensures Interpret(pattern, i, r) == pattern[i..]
    decreases |pattern| - i
  {
    hide Interpret, Known;
    if i == |pattern| {
      NothingLeft(pattern, i, r);
    } else if pattern[i] != '%' {
      CharStep(pattern, i, r);
      UnknownFlagsStay(pattern, i + 1, r);
      assert pattern[i..] == [pattern[i]] + pattern[i + 1..];
    } else {
      FlagStep(pattern, i, r);
      UnknownFlagsStay(pattern, i + 2, r);
      assert pattern[i..] == ['%', pattern[i + 1]] + pattern[i + 2..];
    }
  }

  /** The flags with a rendering, by their first spelling and their second. */
  const RENDERED := "nlLtvaAbBcCYDmdHIMSefFprRTz+"
  const SECOND := "hxX"

  /** A percent sign with one of these characters shows that flag's rendering; with any other, both characters. */
  lemma OneFlag(c: char, r: Rendering)
    ensures c in RENDERED ==> Interpret(['%', c], 0, r) == r(c)
    ensures Interpret("%h", 0, r) == r('b') && Interpret("%x", 0, r) == r('D') && Interpret("%X", 0, r) == r('T')
    ensures c !in RENDERED && c !in SECOND ==> Interpret(['%', c], 0, r) == ['%', c]
  {
    AloneInPattern(c, r);
    AloneInPattern('h', r);
    AloneInPattern('x', r);
    AloneInPattern('X', r);
    assert c in FLAGS <==> c in RENDERED;
  }

  lemma AloneInPattern(c: char, r: Rendering)
    ensures Interpret(['%', c], 0, r) == FlagText(c, r)
  {
    FlagStep(['%', c], 0, r);
    NothingLeft(['%', c], 2, r);
    hide FlagText;
    assert FlagText(c, r) + "" == FlagText(c, r);
  }

  /** So the unknown flags are those that show themselves whatever the renderings are. */
  lemma UnknownExactly(c: char)
    ensures (forall r: Rendering :: Interpret(['%', c], 0, r) == ['%', c]) <==> c !in RENDERED && c !in SECOND
  {
    var blank: Rendering := _ => "";
    OneFlag(c, blank);
    forall r: Rendering | c !in RENDERED && c !in SECOND ensures Interpret(['%', c], 0, r) == ['%', c] {
      OneFlag(c, r);
    }
  }
}
