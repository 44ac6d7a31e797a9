/**
 Which format strings are accepted, and what they then give, for strings written out from their
 pieces.
 */
module FormatAcceptance {
  import opened Wrappers
  import opened Digits
  import opened Numerals
  import opened ArgLists
  import opened FormatSyntax
  import opened FormatMeaning
  import opened FormatReparse

  // ----- demands -----

  /** There is such an argument: its number is read without an error and small enough, or some argument has its name. */
  ghost predicate Available(args: seq<Arg>, ref: Ref) {
    match ref
    case Auto => false
    case Index(digits) =>
      && AllDigits(digits) && !WrapShows(Value(digits))
      && Value(digits) % UINT_RANGE <= INT_MAX && Value(digits) % UINT_RANGE < |args|
    case Name(name) => exists i :: 0 <= i < |args| && IsCalled(args[i], name)
  }

  ghost predicate AllAvailable(args: seq<Arg>, refs: seq<Ref>) {
    forall k :: 0 <= k < |refs| ==> Available(args, refs[k])
  }

  lemma NumberRead(digits: string)
    requires AllDigits(digits)
    ensures NumberOf(digits) == if WrapShows(Value(digits)) || Value(digits) % UINT_RANGE > INT_MAX then None
                                else Some(Value(digits) % UINT_RANGE)
  {
    DropsAreOfTheNumber(digits);
  }

  /** A number that fits an int is read as it is. */
  lemma DecimalRead(n: nat)
    requires n <= INT_MAX
    ensures NumberOf(Decimal(n)) == Some(n)
  {
    hide NumberOf, Decimal, Value, WrapShows;
    DecimalRoundTrip(n);
    NumberRead(Decimal(n));
    ShorterNeverWraps(n);
    SmallRemainder(n);
  }

  lemma SmallRemainder(n: nat)
    requires n <= INT_MAX
    ensures n % UINT_RANGE == n
  {
  }

  lemma FetchedIfAvailable(args: seq<Arg>, next: int, ref: Ref)
    requires !ref.Auto? && next <= 0
    ensures Fetch(args, next, ref).Some? <==> Available(args, ref)
  {
    match ref
    case Index(digits) =>
      if AllDigits(digits) { NumberRead(digits); }
    case Name(name) => LookedUpIsFirst(args, name);
  }

  lemma {:induction false} AllFetched(args: seq<Arg>, next: int, refs: seq<Ref>)
    requires NoAuto(refs) && next <= 0
    ensures Consume(args, next, refs).Some? <==> AllAvailable(args, refs)
    decreases |refs|
  {
    if refs != [] {
      hide Fetch, Available;
      FetchedIfAvailable(args, next, refs[0]);
      if Available(args, refs[0]) {
        FetchedAsWritten(args, next, refs[0]);
        assert NoAuto(refs[1..]);
        AllFetched(args, -1, refs[1..]);
        assert refs == [refs[0]] + refs[1..];
      }
    }
  }

  lemma {:induction false} AllInOrder(args: seq<Arg>, next: nat, refs: seq<Ref>)
    requires AllAuto(refs)
    ensures Consume(args, next, refs).Some? <==> refs == [] || next + |refs| <= |args|
    decreases |refs|
  {
    if refs != [] {
      assert AllAuto(refs[1..]);
      AllInOrder(args, next + 1, refs[1..]);
    }
  }

  /**
   Demands can be met if and only if all are automatic and there are arguments enough, or none is
   automatic and each has its argument.
   */
  lemma ConsumedExactly(args: seq<Arg>, refs: seq<Ref>)
    ensures Consume(args, 0, refs).Some? <==>
      (AllAuto(refs) && |refs| <= |args|) || (NoAuto(refs) && AllAvailable(args, refs))
  {
    if AllAuto(refs) { AllInOrder(args, 0, refs); }
    if NoAuto(refs) { AllFetched(args, 0, refs); }
    if Consume(args, 0, refs).Some? { FromTheStart(args, refs); }
    hide Consume, MetBy, Available, Resolved;
    if refs != [] { assert !(AllAuto(refs) && NoAuto(refs)); }
  }

  // ----- strings without specifications -----

  /** No field has a specification. */
  ghost predicate Plainly(pieces: seq<Piece>) {
    forall i :: 0 <= i < |pieces| && pieces[i].Hole? ==> pieces[i].field.spec.None?
  }

  ghost predicate AllShown(render: Renderer, taken: seq<Arg>) {
    forall k :: 0 <= k < |taken| ==> render(DEFAULT_SPEC, taken[k]).Some?
  }

  function Shown(render: Renderer, arg: Arg): string {
    match render(DEFAULT_SPEC, arg)
    case None => ""
    case Some(text) => text
  }

  /** The literal characters, with the arguments shown in between, one for each field. */
  function Assembled(pieces: seq<Piece>, render: Renderer, taken: seq<Arg>): string
    decreases |pieces|
  {
    if pieces == [] then ""
    else if pieces[0].Literal? then [pieces[0].c] + Assembled(pieces[1..], render, taken)
    else if taken == [] then ""
    else Shown(render, taken[0]) + Assembled(pieces[1..], render, taken[1..])
  }

  /** What a plain string gives: refused if a demand is not met or an argument is refused, assembled otherwise. */
  ghost function PlainText(args: seq<Arg>, next: int, render: Renderer, pieces: seq<Piece>): Option<string> {
    var c := Consume(args, next, Refs(pieces));
    if c.Some? && AllShown(render, c.value.0) then Some(Assembled(pieces, render, c.value.0)) else None
  }

  lemma {:induction false} PlainMeaning(args: seq<Arg>, next: int, render: Renderer, pieces: seq<Piece>)
    requires AllProper(args) && Plainly(pieces)
    ensures Meaning(args, next, render, pieces) == PlainText(args, next, render, pieces)
    decreases |pieces|
  {
    if pieces == [] {
      assert Consume(args, next, Refs(pieces)) == Some(([], next));
    } else {
      assert Plainly(pieces[1..]);
      match pieces[0]
      case Literal(c) => PlainMeaning(args, next, render, pieces[1..]);
      case Hole(field, _) =>
        var first := Fetch(args, next, field.ref);
        if first.Some? { PlainMeaning(args, first.value.1, render, pieces[1..]); }
        hide *;
        PlainHole(args, next, render, pieces);
    }
  }

  lemma PlainHole(args: seq<Arg>, next: int, render: Renderer, pieces: seq<Piece>)
    requires AllProper(args) && Plainly(pieces) && pieces != [] && pieces[0].Hole?
    requires Fetch(args, next, pieces[0].field.ref).Some? ==>
      Meaning(args, Fetch(args, next, pieces[0].field.ref).value.1, render, pieces[1..])
      == PlainText(args, Fetch(args, next, pieces[0].field.ref).value.1, render, pieces[1..])
    ensures Meaning(args, next, render, pieces) == PlainText(args, next, render, pieces)
  {
    var field := pieces[0].field;
    var first := Fetch(args, next, field.ref);
    assert Refs(pieces) == [field.ref] + Refs(pieces[1..]);
    assert Refs(pieces)[1..] == Refs(pieces[1..]);
    hide Fetch, Refs, AllProper, AllShown, Shown, SpecMeaning;
    if first.Some? {
      var rest := Consume(args, first.value.1, Refs(pieces[1..]));
      if rest.Some? {
        var taken := [first.value.0] + rest.value.0;
        assert Consume(args, next, Refs(pieces)) == Some((taken, rest.value.1));
        assert taken[1..] == rest.value.0;
        ShownFirst(render, taken);
        ShownText(render, first.value.0);
      }
    }
  }

  lemma ShownText(render: Renderer, arg: Arg)
    ensures render(DEFAULT_SPEC, arg).Some? ==> Shown(render, arg) == render(DEFAULT_SPEC, arg).value
  {
  }

  lemma ShownFirst(render: Renderer, taken: seq<Arg>)
    requires taken != []
    ensures AllShown(render, taken) <==> render(DEFAULT_SPEC, taken[0]).Some? && AllShown(render, taken[1..])
  {
    assert taken == [taken[0]] + taken[1..];
  }

  /**
   A string of text and plain fields is accepted if and only if its fields are all automatic with
   arguments enough, or all name arguments that are there, and no argument is refused; it gives the text
   with each field's own argument shown in its place.
   */
  lemma PlainStrings(args: seq<Arg>, render: Renderer, pieces: seq<Piece>)
    requires AllProper(args) && PiecesOk(pieces) && Plainly(pieces)
    ensures '\0' !in Source(pieces)
    ensures var refs, text := Refs(pieces), FormatFrom(args, 0, render, Source(pieces), 0);
      var taken := if Consume(args, 0, refs).Some? then Consume(args, 0, refs).value.0 else [];
      && (text.Some? <==> ((AllAuto(refs) && |refs| <= |args|) || (NoAuto(refs) && AllAvailable(args, refs)))
                          && AllShown(render, taken))
      && (text.Some? ==> (InOrder(args, 0, refs, taken) || AsWritten(args, refs, taken))
                         && text.value == Assembled(pieces, render, taken))
  {
    var refs := Refs(pieces);
    SourceNulFree(pieces);
    Reparsed(args, render, pieces);
    PlainMeaning(args, 0, render, pieces);
    ConsumedExactly(args, refs);
    hide *;
    if Consume(args, 0, refs).Some? { FromTheStart(args, refs); }
  }

  /** A string written out from its pieces means what the pieces mean. */
  lemma Reparsed(args: seq<Arg>, render: Renderer, pieces: seq<Piece>)
    requires AllProper(args) && PiecesOk(pieces)
    ensures '\0' !in Source(pieces)
    ensures FormatFrom(args, 0, render, Source(pieces), 0) == Meaning(args, 0, render, pieces)
  {
    hide Source, PiecesOk, Split, Meaning, AllProper;
    SourceNulFree(pieces);
    assert Source(pieces)[0..] == Source(pieces);
    SplitParses(Source(pieces), 0, pieces);
  }
}
