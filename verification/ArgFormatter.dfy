/**
 Rendering one argument under a specification: booleans, characters, strings, pointers and
 integers, written into the buffer.
 */
module ArgFormatter {
  import opened Wrappers
  import opened Bits
  import opened Numerals
  import opened ArgLists
  import opened FormatMeaning
  import opened IntWriter

  // ----- the text -----

  /** The specification as the integer writer reads it. */
  function IntSpec(spec: FormatSpec): Spec {
    Spec(spec.width, spec.fill, spec.align, spec.sign, spec.plus, spec.hash, spec.kind)
  }

  function IntegerText(n: int, spec: FormatSpec): Option<string> {
    if KnownKind(spec.kind) then Some(Formatted(n, IntSpec(spec))) else None
  }

  /** Text in a field of the asked width: to the left unless asked otherwise. */
  function Padded(text: string, spec: FormatSpec): string {
    var pad := Padding(spec.width, |text|);
    match spec.align
    case Right => Repeat(spec.fill, pad) + text
    case Center => Repeat(spec.fill, pad / 2) + text + Repeat(spec.fill, pad - pad / 2)
    case _ => text + Repeat(spec.fill, pad)
  }

  function StringText(value: Payload, spec: FormatSpec): Option<string> {
    if (spec.kind != '\0' && spec.kind != 's') || !value.Text? then None
    else Some(Padded(if 0 <= spec.precision < |value.s| then value.s[..spec.precision] else value.s, spec))
  }

  function BoolText(b: bool, spec: FormatSpec): Option<string> {
    if spec.kind != '\0' then IntegerText(if b then 1 else 0, spec)
    else StringText(Text(if b then "true" else "false"), spec)
  }

  /** The character of a code that may be negative. */
  function CharOf(n: int): char { (n % 256) as char }

  /** A character takes neither numeric alignment nor any flag, unless it is shown as a number. */
  function CharacterText(n: int, spec: FormatSpec): Option<string> {
    if spec.kind != '\0' && spec.kind != 'c' then IntegerText(n, spec)
    else if spec.align.Numeric? || spec.sign || spec.plus || spec.minus || spec.hash then None
    else Some(Padded([CharOf(n)], spec))
  }

  /** An address, always in hexadecimal with its prefix. */
  function AddressText(n: int, spec: FormatSpec): Option<string> {
    if spec.kind != '\0' && spec.kind != 'p' then None
    else IntegerText(n, spec.(sign := false, plus := false, minus := false, hash := true, kind := 'x'))
  }

  /** The arguments this module renders: all but floating point, wide strings, custom ones, and addresses of strings. */
  predicate Modelled(spec: FormatSpec, kind: nat) {
    || IsInteger(kind) || kind == BOOL || kind == CHAR || kind == STRING || kind == ADDRESS
    || (kind == CSTRING && spec.kind != 'p')
  }

  function Rendered(spec: FormatSpec, arg: Arg): Option<string>
    requires Plain(arg) && Modelled(spec, arg.kind)
  {
    if IsInteger(arg.kind) then IntegerText(arg.value.n, spec)
    else if arg.kind == BOOL then BoolText(arg.value.n != 0, spec)
    else if arg.kind == CHAR then CharacterText(arg.value.n, spec)
    else if arg.kind == ADDRESS then AddressText(arg.value.n, spec)
    else StringText(arg.value, spec)
  }

  // ----- writing it -----

  lemma Behind(before: string, room: string, text: string, fill: string)
    requires |room| == |before| + |text| + |fill| && room[..|before|] == before
    ensures var filled := room[..|before| + |text|] + fill + room[|room|..];
      filled[..|before|] + text + filled[|before| + |text|..] == before + (text + fill)
  {
  }

  lemma InFront(before: string, room: string, text: string, fill: string)
    requires |room| == |before| + |text| + |fill| && room[..|before|] == before
    ensures var filled := room[..|before|] + fill + room[|before| + |fill|..];
      filled[..|before| + |fill|] + text + filled[|room|..] == before + (fill + text)
  {
  }

  lemma Between(before: string, room: string, text: string, left: string, right: string)
    requires |room| == |before| + |left| + |text| + |right|
    requires room[..|before| + |left|] == before + left && room[|before| + |left| + |text|..] == right
    ensures room[..|before| + |left|] + text + room[|before| + |left| + |text|..] == before + (left + text + right)
  {
  }

  /** Text with its padding; what was written before stays. */
  method WriteStr(w: Buffer, text: string, spec: FormatSpec)
    requires w.Valid()
    modifies w, w.data
    ensures w.Valid() && (w.data == old(w.data) || fresh(w.data))
    ensures w.Contents() == old(w.Contents()) + Padded(text, spec)
  {
    hide Repeat;
    if spec.width > |text| {
      WritePadded(w, text, spec);
    } else {
      var out := w.GrowBuffer(|text|);
      w.Put(out, text);
      PaddedWithoutWidth(text, spec);
    }
  }

  method WritePadded(w: Buffer, text: string, spec: FormatSpec)
    requires w.Valid() && spec.width > |text|
    modifies w, w.data
    ensures w.Valid() && (w.data == old(w.data) || fresh(w.data))
    ensures w.Contents() == old(w.Contents()) + Padded(text, spec)
  {
    hide Repeat, Padded;
    PaddedIs(text, spec);
    var at := w.GrowBuffer(spec.width);
    if spec.align == Right {
      PadInFront(w, at, text, spec);
    } else if spec.align == Center {
      PadAround(w, at, text, spec);
    } else {
      PadBehind(w, at, text, spec);
    }
  }

  method PadInFront(w: Buffer, at: nat, text: string, spec: FormatSpec)
    requires w.Valid() && spec.width > |text| && at + spec.width == w.size
    modifies w.data
    ensures w.Contents() == old(w.Contents())[..at] + (Repeat(spec.fill, spec.width - |text|) + text)
  {
    hide Repeat;
    ghost var room := w.Contents();
    var pad := spec.width - |text|;
    w.Fill(at, at + pad, spec.fill);
    InFront(room[..at], room, text, Repeat(spec.fill, pad));
    w.Put(at + pad, text);
  }

  method PadAround(w: Buffer, at: nat, text: string, spec: FormatSpec)
    requires w.Valid() && spec.width > |text| && at + spec.width == w.size
    modifies w.data
    ensures var pad := spec.width - |text|;
      w.Contents() == old(w.Contents())[..at] + (Repeat(spec.fill, pad / 2) + text + Repeat(spec.fill, pad - pad / 2))
  {
    hide Repeat;
    ghost var before := w.Contents()[..at];
    var pad := spec.width - |text|;
    var out := FillPadding(w, at, spec.width, |text|, spec.fill);
    Between(before, w.Contents(), text, Repeat(spec.fill, pad / 2), Repeat(spec.fill, pad - pad / 2));
    w.Put(out, text);
  }

  method PadBehind(w: Buffer, at: nat, text: string, spec: FormatSpec)
    requires w.Valid() && spec.width > |text| && at + spec.width == w.size
    modifies w.data
    ensures w.Contents() == old(w.Contents())[..at] + (text + Repeat(spec.fill, spec.width - |text|))
  {
    hide Repeat;
    ghost var room := w.Contents();
    w.Fill(at + |text|, at + spec.width, spec.fill);
    Behind(room[..at], room, text, Repeat(spec.fill, spec.width - |text|));
    w.Put(at, text);
  }

  lemma PaddedIs(text: string, spec: FormatSpec)
    requires spec.width > |text|
    ensures var pad := spec.width - |text|;
      && (spec.align.Right? ==> Padded(text, spec) == Repeat(spec.fill, pad) + text)
      && (spec.align.Center? ==>
          Padded(text, spec) == Repeat(spec.fill, pad / 2) + text + Repeat(spec.fill, pad - pad / 2))
      && (!spec.align.Right? && !spec.align.Center? ==> Padded(text, spec) == text + Repeat(spec.fill, pad))
  {
  }

  lemma PaddedWithoutWidth(text: string, spec: FormatSpec)
    requires spec.width <= |text|
    ensures Padded(text, spec) == text
  {
  }

  /** What a visit leaves: the text appended, or nothing. */
  ghost predicate Appended(now: string, before: string, text: Option<string>, r: Result<(), string>) {
    r.Ok? == text.Some? && now == before + (if text.Some? then text.value else "")
  }

  method WriteString(w: Buffer, value: Payload, spec: FormatSpec) returns (r: Result<(), string>)
    requires w.Valid() && (value.Text? || value.Null?)
    modifies w, w.data
    ensures w.Valid() && (w.data == old(w.data) || fresh(w.data))
    ensures Appended(w.Contents(), old(w.Contents()), StringText(value, spec), r)
  {
    hide Padded;
    assert w.Contents() == old(w.Contents()) + "";
    if spec.kind != '\0' && spec.kind != 's' { return Err("unknown format code"); }
    if value.Null? { return Err("string pointer is null"); }
    var text := value.s;
    if spec.precision >= 0 && spec.precision < |text| { text := text[..spec.precision]; }
    WriteStr(w, text, spec);
    return Ok(());
  }

  method VisitInteger(w: Buffer, n: int, word: nat, spec: FormatSpec) returns (r: Result<(), string>)
    requires w.Valid() && (word == UINT_RANGE || word == WORD) && -(word / 2) <= n < word
    modifies w, w.data
    ensures w.Valid() && (w.data == old(w.data) || fresh(w.data))
    ensures Appended(w.Contents(), old(w.Contents()), IntegerText(n, spec), r)
  {
    hide Formatted;
    r := WriteInt(w, n, word, IntSpec(spec));
  }

  method VisitBool(w: Buffer, b: bool, spec: FormatSpec) returns (r: Result<(), string>)
    requires w.Valid()
    modifies w, w.data
    ensures w.Valid() && (w.data == old(w.data) || fresh(w.data))
    ensures Appended(w.Contents(), old(w.Contents()), BoolText(b, spec), r)
  {
    hide StringText, IntegerText, Appended;
    if spec.kind != '\0' {
      r := VisitInteger(w, if b then 1 else 0, UINT_RANGE, spec);
    } else {
      r := WriteString(w, Text(if b then "true" else "false"), spec);
    }
  }

  /** A character: refused with numeric alignment or any flag, written with its padding otherwise. */
  method VisitChar(w: Buffer, n: int, spec: FormatSpec) returns (r: Result<(), string>)
    requires w.Valid() && -128 <= n < 128
    modifies w, w.data
    ensures w.Valid() && (w.data == old(w.data) || fresh(w.data))
    ensures Appended(w.Contents(), old(w.Contents()), CharacterText(n, spec), r)
  {
    hide IntegerText, Padded;
    if spec.kind != '\0' && spec.kind != 'c' {
      r := VisitInteger(w, n, UINT_RANGE, spec);
      return;
    }
    assert w.Contents() == old(w.Contents()) + "";
    if spec.align.Numeric? || spec.sign || spec.plus || spec.minus || spec.hash {
      return Err("invalid format specifier for char");
    }
    WriteStr(w, [CharOf(n)], spec);
    return Ok(());
  }

  method VisitAddress(w: Buffer, n: int, spec: FormatSpec) returns (r: Result<(), string>)
    requires w.Valid() && 0 <= n < WORD
    modifies w, w.data
    ensures w.Valid() && (w.data == old(w.data) || fresh(w.data))
    ensures Appended(w.Contents(), old(w.Contents()), AddressText(n, spec), r)
  {
    hide IntegerText;
    assert w.Contents() == old(w.Contents()) + "";
    if spec.kind != '\0' && spec.kind != 'p' { return Err("unknown format code"); }
    var hexadecimal := spec.(sign := false, plus := false, minus := false, hash := true, kind := 'x');
    r := VisitInteger(w, n, WORD, hexadecimal);
  }

  /** Every modelled argument is written exactly as its text says, or refused and nothing written. */
  method Visit(w: Buffer, spec: FormatSpec, arg: Arg) returns (r: Result<(), string>)
    requires w.Valid() && Plain(arg) && Modelled(spec, arg.kind)
    modifies w, w.data
    ensures w.Valid() && (w.data == old(w.data) || fresh(w.data))
    ensures Appended(w.Contents(), old(w.Contents()), Rendered(spec, arg), r)
  {
    hide Appended, IntegerText, BoolText, CharacterText, AddressText, StringText;
    if IsInteger(arg.kind) {
      r := VisitInteger(w, arg.value.n, WordOf(arg.kind), spec);
    } else if arg.kind == BOOL {
      r := VisitBool(w, arg.value.n != 0, spec);
    } else if arg.kind == CHAR {
      r := VisitChar(w, arg.value.n, spec);
    } else if arg.kind == ADDRESS {
      r := VisitAddress(w, arg.value.n, spec);
    } else {
      r := WriteString(w, arg.value, spec);
    }
  }
}
