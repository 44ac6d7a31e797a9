/**
 Argument lists of the formatter: the types of the first sixteen arguments packed four bits
 each into one word, the values beside them, and lookup by index and by name.
 */
module ArgLists {
  import opened Wrappers
  import opened Bits

  // ----- arguments -----

  const NONE := 0
  const NAMED_ARG := 1
  const INT := 2
  const UINT := 3
  const LONG_LONG := 4
  const ULONG_LONG := 5
  const BOOL := 6
  const CHAR := 7
  const LAST_INTEGER_TYPE := 7
  const LAST_NUMERIC_TYPE := 9
  const CSTRING := 10
  const STRING := 11
  const ADDRESS := 13
  const CUSTOM := 14

  /** The value of an argument, without its type; a named argument points to another one. */
  datatype Payload = Number(n: int) | Text(s: string) | Null | Inner(name: string, arg: Arg)

  datatype Arg = Arg(kind: nat, value: Payload)

  predicate IsInteger(kind: nat) { INT <= kind <= ULONG_LONG }

  predicate IsUnsigned(kind: nat) { kind == UINT || kind == ULONG_LONG }

  /** The unsigned word an integer type fits in, 32 or 64 bits. */
  function WordOf(kind: nat): nat { if kind == LONG_LONG || kind == ULONG_LONG then WORD else 0x1_0000_0000 }

  predicate InRange(kind: nat, n: int) {
    if IsUnsigned(kind) then 0 <= n < WordOf(kind) else -(WordOf(kind) / 2) <= n < WordOf(kind) / 2
  }

  /** The values of the C++ type behind each type code, as far as they matter here. */
  predicate HasType(kind: nat, value: Payload) {
    && (IsInteger(kind) ==> value.Number? && InRange(kind, value.n))
    && (kind == BOOL ==> value.Number?)
    && (kind == CHAR ==> value.Number? && -128 <= value.n < 128)
    && (kind == CSTRING || kind == STRING ==> value.Text? || value.Null?)
    && (kind == ADDRESS ==> value.Number? && 0 <= value.n < WORD)
  }

  predicate Plain(a: Arg) { NAMED_ARG < a.kind <= CUSTOM && !a.value.Inner? && HasType(a.kind, a.value) }

  /** What a caller can pass. */
  predicate Proper(a: Arg) {
    if a.kind == NAMED_ARG then a.value.Inner? && Plain(a.value.arg) else Plain(a)
  }

  predicate AllProper(args: seq<Arg>) { forall i :: 0 <= i < |args| ==> Proper(args[i]) }

  // ----- packing -----

  const MAX_PACKED_ARGS := 16

  /** Types folded into a word from the right, four bits each; the sixteenth is the last that fits. */
  function MakeType(kinds: seq<nat>): nat {
    if kinds == [] then 0
    else if |kinds| == 1 then kinds[0]
    else Or(kinds[0], MakeType(kinds[1..]) * 16 % WORD)
  }

  function ShiftLeft(a: nat, s: nat): nat { if s == 0 then a else 2 * ShiftLeft(a, s - 1) }

  function ShiftRight(a: nat, s: nat): nat { if s == 0 then a else ShiftRight(a / 2, s - 1) }

  /** Type number `index` of a word: masked, then shifted down. */
  function TypeAt(types: nat, index: nat): nat
    requires index < MAX_PACKED_ARGS
  {
    ShiftRight(And(types, ShiftLeft(15, 4 * index) % WORD), 4 * index)
  }

  /** Base-16 digit i of a number. */
  function Nibble(t: nat, i: nat): nat { if i == 0 then t % 16 else Nibble(t / 16, i - 1) }

  function Pow16(k: nat): (r: nat)
    ensures r > 0
  {
    if k == 0 then 1 else 16 * Pow16(k - 1)
  }

  lemma {:induction false} Pow16IsPow2(k: nat)
    ensures Pow16(k) == Pow2(4 * k)
  {
    if k > 0 {
      Pow16IsPow2(k - 1);
      Pow2Product(4, 4 * (k - 1));
      assert Pow2(4) == 16 by { assert Pow2(2) == 4; }
    }
  }

  /** Masking above a shift is masking what has been shifted down. */
  lemma {:induction false} AndShift(a: nat, b: nat, s: nat)
    ensures And(a, ShiftLeft(b, s)) == ShiftLeft(And(ShiftRight(a, s), b), s)
    decreases s
  {
    if s > 0 {
      AndShift(a / 2, b, s - 1);
      AndDouble(a, ShiftLeft(b, s - 1));
    }
  }

  lemma AndDouble(a: nat, m: nat)
    ensures And(a, 2 * m) == 2 * And(a / 2, m)
  {
    if a > 0 && m > 0 {
      AndStep(a, 2 * m);
      assert 2 * m / 2 == m && 2 * m % 2 == 0;
    }
  }

  lemma AndStep(a: nat, b: nat)
    requires a > 0 && b > 0
    ensures And(a, b) == 2 * And(a / 2, b / 2) + (if a % 2 == 1 && b % 2 == 1 then 1 else 0)
  {
  }

  lemma {:induction false} ShiftBack(a: nat, s: nat)
    ensures ShiftRight(ShiftLeft(a, s), s) == a
    decreases s
  {
    if s > 0 { ShiftBack(a, s - 1); }
  }

  lemma {:induction false} NibbleByShift(t: nat, i: nat)
    ensures Nibble(t, i) == ShiftRight(t, 4 * i) % 16
  {
    if i > 0 {
      NibbleByShift(t / 16, i - 1);
      ShiftByFour(t, 4 * i);
    }
  }

  lemma ShiftByFour(t: nat, s: nat)
    requires s >= 4
    ensures ShiftRight(t, s) == ShiftRight(t / 16, s - 4)
  {
    assert ShiftRight(t, s) == ShiftRight(t / 2, s - 1);
    assert ShiftRight(t / 2, s - 1) == ShiftRight(t / 2 / 2, s - 2);
    assert ShiftRight(t / 2 / 2, s - 2) == ShiftRight(t / 2 / 2 / 2, s - 3);
    assert t / 2 / 2 / 2 / 2 == t / 16;
  }

  lemma TypeAtIsNibble(types: nat, index: nat)
    requires index < MAX_PACKED_ARGS
    ensures TypeAt(types, index) == Nibble(types, index)
  {
    hide And, ShiftLeft, ShiftRight, Nibble, Pow2;
    var shift := 4 * index;
    NibbleByShift(types, index);
    MaskFits(shift);
    AndShift(types, 15, shift);
    ShiftBack(And(ShiftRight(types, shift), 15), shift);
    AndMask(ShiftRight(types, shift), 4);
    FourBits();
  }

  lemma FourBits()
    ensures Pow2(4) == 16
  {
    assert Pow2(2) == 4;
  }

  lemma {:induction false} MaskBound(s: nat)
    ensures ShiftLeft(15, s) < Pow2(s + 4)
  {
    if s == 0 { FourBits(); } else { MaskBound(s - 1); }
  }

  lemma MaskFits(s: nat)
    requires s <= 60
    ensures ShiftLeft(15, s) % WORD == ShiftLeft(15, s)
  {
    hide Pow2, ShiftLeft;
    MaskBound(s);
    WordIsPow2();
    Pow2Grows(s + 4, 64);
  }

  /** Bits below a multiple of sixteen are added by a bitwise or. */
  lemma OrIsSum(low: nat, m: nat)
    requires low < 16
    ensures Or(low, 16 * m) == low + 16 * m
  {
    hide Or;
    OrStep(low, 8 * m); OrStep(low / 2, 4 * m); OrStep(low / 4, 2 * m); OrStep(low / 8, m);
    OrZero(m);
    assert low / 2 / 2 == low / 4 && low / 4 / 2 == low / 8 && low / 8 / 2 == 0;
    assert low == 8 * (low / 8) + 4 * (low / 4 % 2) + 2 * (low / 2 % 2) + low % 2;
  }

  lemma OrZero(m: nat)
    ensures Or(0, m) == m && Or(m, 0) == m
  {
  }

  lemma OrStep(low: nat, m: nat)
    ensures Or(low, 2 * m) == 2 * Or(low / 2, m) + low % 2
  {
    OrZero(low / 2);
    OrZero(m);
    OrZero(low);
    OrZero(2 * m);
    Halves(m);
    if low > 0 && m > 0 {
      assert Or(low, 2 * m) == 2 * Or(low / 2, 2 * m / 2) + (if low % 2 == 1 || 2 * m % 2 == 1 then 1 else 0);
    }
    hide Or;
    assert low == 2 * (low / 2) + low % 2;
  }

  lemma Halves(m: nat)
    ensures 2 * m / 2 == m && 2 * m % 2 == 0
  {
  }

  /** Dropping high digits leaves the lower ones. */
  lemma {:induction false} NibbleOfRemainder(t: nat, k: nat, i: nat)
    requires i < k
    ensures Nibble(t % Pow16(k), i) == Nibble(t, i)
    decreases i
  {
    var p := Pow16(k - 1);
    RemainderDigits(t, p);
    NibbleOfSum(t % 16, t / 16 % p, i);
    NibbleOfSum(t % 16, t / 16, i);
    hide Nibble;
    assert t == t % 16 + 16 * (t / 16);
    if i > 0 { NibbleOfRemainder(t / 16, k - 1, i - 1); }
  }

  lemma RemainderDigits(t: nat, p: nat)
    requires p > 0
    ensures t % (16 * p) == 16 * (t / 16 % p) + t % 16
  {
    var q, r := t / 16 / p, t / 16 % p;
    assert t / 16 == p * q + r;
    assert t == (16 * p) * q + (16 * r + t % 16);
    RemainderIs(t, 16 * p, q, 16 * r + t % 16);
  }

  lemma WordIsPow16()
    ensures Pow16(16) == WORD
  {
    hide Pow16;
    Pow16IsPow2(16);
    WordIsPow2();
  }

  lemma ShiftedWord(m: nat)
    ensures m * 16 % WORD == 16 * (m % Pow16(15)) && Pow16(15) * 16 == WORD
  {
    WordIsPow16();
    RemainderDigits(m * 16, Pow16(15));
  }

  /** Reading a packed type back: the argument's own, or NONE past the end. */
  lemma {:induction false} PackedTypes(kinds: seq<nat>, i: nat)
    requires i < MAX_PACKED_ARGS && forall k :: 0 <= k < |kinds| ==> kinds[k] < 16
    ensures Nibble(MakeType(kinds), i) == if i < |kinds| then kinds[i] else NONE
    decreases |kinds|
  {
    hide Or, Pow16, Nibble;
    if |kinds| <= 1 {
      SmallNibbles(MakeType(kinds), i);
    } else {
      var m := MakeType(kinds[1..]);
      ShiftedWord(m);
      OrIsSum(kinds[0], m % Pow16(15));
      NibbleOfSum(kinds[0], m % Pow16(15), i);
      if i > 0 {
        NibbleOfRemainder(m, 15, i - 1);
        PackedTypes(kinds[1..], i - 1);
      }
    }
  }

  lemma NibbleOfSum(low: nat, m: nat, i: nat)
    requires low < 16
    ensures Nibble(low + 16 * m, i) == if i == 0 then low else Nibble(m, i - 1)
  {
    assert (low + 16 * m) / 16 == m && (low + 16 * m) % 16 == low;
  }

  lemma {:induction false} SmallNibbles(t: nat, i: nat)
    requires t < 16
    ensures Nibble(t, i) == if i == 0 then t else 0
  {
    if i > 0 { SmallNibbles(t / 16, i - 1); }
  }

  // ----- the list -----

  /** An untagged union in the source: which member is meant has to be found out from the types. */
  datatype Storage = Values(values: seq<Payload>) | Args(args: seq<Arg>)

  datatype ArgList = ArgList(types: nat, storage: Storage)

  function Kinds(args: seq<Arg>): (kinds: seq<nat>)
    ensures |kinds| == |args| && forall i :: 0 <= i < |args| ==> kinds[i] == args[i].kind
  {
    seq(|args|, i requires 0 <= i < |args| => args[i].kind)
  }

  const NOTHING := Arg(NONE, Number(0))

  /** What the variadic wrappers build: an array of values, or of arguments with an end mark. */
  function Make(args: seq<Arg>): ArgList {
    ArgList(MakeType(Kinds(args)),
            if |args| < MAX_PACKED_ARGS
            then Values(seq(|args|, i requires 0 <= i < |args| => args[i].value))
            else Args(args + [NOTHING]))
  }

  lemma TypesOfList(args: seq<Arg>, i: nat)
    requires AllProper(args) && i < MAX_PACKED_ARGS
    ensures TypeAt(Make(args).types, i) == if i < |args| then args[i].kind else NONE
  {
    hide MakeType, TypeAt, Nibble;
    TypeAtIsNibble(MakeType(Kinds(args)), i);
    PackedTypes(Kinds(args), i);
  }

  /** Slot fifteen tells which member of the union is meant. */
  lemma RepresentationDetected(args: seq<Arg>)
    requires AllProper(args)
    ensures TypeAt(Make(args).types, MAX_PACKED_ARGS - 1) == NONE <==> Make(args).storage.Values?
  {
    hide TypeAt, MakeType;
    TypesOfList(args, MAX_PACKED_ARGS - 1);
  }

  /** The argument at an index, as the list was given it; type NONE past the end. */
  method Lookup(list: ArgList, index: nat, ghost given: seq<Arg>) returns (arg: Arg)
    requires AllProper(given) && list == Make(given)
    ensures if index < |given| then arg == given[index] else arg.kind == NONE
  {
    hide MakeType, TypeAt, Kinds;
    TypesOfList(given, MAX_PACKED_ARGS - 1);
    var useValues := TypeAt(list.types, MAX_PACKED_ARGS - 1) == NONE;
    if index < MAX_PACKED_ARGS {
      TypesOfList(given, index);
      var kind := TypeAt(list.types, index);
      var value: Payload := *;
      if kind != NONE {
        value := if useValues then list.storage.values[index] else list.storage.args[index].value;
      }
      return Arg(kind, value);
    }
    if useValues { return NOTHING; }
    var i := MAX_PACKED_ARGS;
    while i <= index
      invariant MAX_PACKED_ARGS <= i <= index + 1 && i <= |given|
    {
      if list.storage.args[i].kind == NONE { return list.storage.args[i]; }
      i := i + 1;
    }
    return list.storage.args[index];
  }

  // ----- named arguments -----

  /** The named arguments in order, each with the argument it stands for. */
  function Named(args: seq<Arg>): seq<(string, Arg)> {
    if args == [] then []
    else
      var last := args[|args|-1];
      Named(args[..|args|-1]) + (if last.value.Inner? then [(last.value.name, last.value.arg)] else [])
  }

  lemma NamedStep(args: seq<Arg>, i: nat)
    requires i < |args|
    ensures Named(args[..i+1]) ==
      Named(args[..i]) + (if args[i].value.Inner? then [(args[i].value.name, args[i].value.arg)] else [])
  {
    assert args[..i+1][..i] == args[..i];
  }

  /** The map of names; in both representations it stops at the first type NONE. */
  method InitMap(list: ArgList, ghost given: seq<Arg>) returns (m: seq<(string, Arg)>)
    requires AllProper(given) && list == Make(given)
    ensures m == Named(given)
  {
    assert Named(given[..0]) == [] && given[..|given|] == given;
    hide MakeType, TypeAt, Kinds, Named;
    m := [];
    TypesOfList(given, MAX_PACKED_ARGS - 1);
    if TypeAt(list.types, MAX_PACKED_ARGS - 1) == NONE {
      var i := 0;
      while true
        invariant i <= |given| < MAX_PACKED_ARGS && m == Named(given[..i])
        decreases |given| - i
      {
        TypesOfList(given, i);
        var kind := TypeAt(list.types, i);
        if kind == NONE { return; }
        NamedStep(given, i);
        if kind == NAMED_ARG { m := m + [(list.storage.values[i].name, list.storage.values[i].arg)]; }
        i := i + 1;
      }
    }
    var i := 0;
    while i != MAX_PACKED_ARGS
      invariant i <= MAX_PACKED_ARGS <= |given| && m == Named(given[..i])
    {
      TypesOfList(given, i);
      NamedStep(given, i);
      if TypeAt(list.types, i) == NAMED_ARG {
        m := m + [(list.storage.args[i].value.name, list.storage.args[i].value.arg)];
      }
      i := i + 1;
    }
    while true
      invariant MAX_PACKED_ARGS <= i <= |given| && m == Named(given[..i])
      decreases |given| - i
    {
      var arg := list.storage.args[i];
      if arg.kind == NONE { return; }
      NamedStep(given, i);
      if arg.kind == NAMED_ARG { m := m + [(arg.value.name, arg.value.arg)]; }
      i := i + 1;
    }
  }

  function FirstNamed(m: seq<(string, Arg)>, name: string): Option<Arg> {
    if m == [] then None else if m[0].0 == name then Some(m[0].1) else FirstNamed(m[1..], name)
  }

  /** It is the argument of the first entry with that name, and there is one unless no entry has it. */
  lemma {:induction false} FirstNamedIs(m: seq<(string, Arg)>, name: string)
    ensures match FirstNamed(m, name)
      case None => forall i :: 0 <= i < |m| ==> m[i].0 != name
      case Some(arg) => exists i :: 0 <= i < |m| && m[i] == (name, arg) && forall j :: 0 <= j < i ==> m[j].0 != name
  {
    if m != [] {
      if m[0].0 == name {
        assert m[0] == (name, m[0].1);
      } else {
        FirstNamedIs(m[1..], name);
        if FirstNamed(m[1..], name).Some? {
          var arg := FirstNamed(m[1..], name).value;
          var i :| 0 <= i < |m[1..]| && m[1..][i] == (name, arg) && forall j :: 0 <= j < i ==> m[1..][j].0 != name;
          assert m[i + 1] == (name, arg);
          forall j | 0 <= j < i + 1 ensures m[j].0 != name { if j > 0 { assert m[j] == m[1..][j - 1]; } }
        }
      }
    }
  }

  method Find(m: seq<(string, Arg)>, name: string) returns (r: Option<Arg>)
    ensures r == FirstNamed(m, name)
  {
    var i := 0;
    while i != |m|
      invariant i <= |m| && FirstNamed(m, name) == FirstNamed(m[i..], name)
    {
      if m[i].0 == name { return Some(m[i].1); }
      i := i + 1;
    }
    return None;
  }

  /** Every entry comes from a named argument. */
  lemma {:induction false} NamedFromArgs(args: seq<Arg>, i: nat)
    requires i < |Named(args)|
    ensures exists k :: 0 <= k < |args| && args[k].value == Inner(Named(args)[i].0, Named(args)[i].1)
  {
    var init := args[..|args|-1];
    if i < |Named(init)| {
      NamedFromArgs(init, i);
      var k :| 0 <= k < |init| && init[k].value == Inner(Named(init)[i].0, Named(init)[i].1);
      assert args[k] == init[k];
    }
  }

  /** This argument is a named one, of this name. */
  predicate IsCalled(arg: Arg, name: string) { arg.value.Inner? && arg.value.name == name }

  /** What the first argument of that name stands for, if there is one. */
  ghost predicate FirstCalled(args: seq<Arg>, name: string, found: Option<Arg>) {
    match found
    case None => forall i :: 0 <= i < |args| ==> !IsCalled(args[i], name)
    case Some(arg) =>
      exists i :: 0 <= i < |args| && args[i].value == Inner(name, arg)
                  && forall j :: 0 <= j < i ==> !IsCalled(args[j], name)
  }

  lemma {:induction false} FirstNamedAppend(m: seq<(string, Arg)>, x: (string, Arg), name: string)
    ensures FirstNamed(m + [x], name) ==
      if FirstNamed(m, name).Some? then FirstNamed(m, name) else if x.0 == name then Some(x.1) else None
  {
    if m != [] {
      assert (m + [x])[1..] == m[1..] + [x];
      FirstNamedAppend(m[1..], x, name);
    }
  }

  /** Looking a name up finds the first of the arguments passed that has it. */
  lemma {:induction false} LookedUpIsFirst(args: seq<Arg>, name: string)
    ensures FirstCalled(args, name, FirstNamed(Named(args), name))
  {
    if args != [] {
      var init, last := args[..|args|-1], args[|args|-1];
      LookedUpIsFirst(init, name);
      if last.value.Inner? {
        FirstNamedAppend(Named(init), (last.value.name, last.value.arg), name);
      } else {
        assert Named(init) + [] == Named(init);
      }
      CalledFurther(init, last, name, FirstNamed(Named(init), name));
      assert args == init + [last];
    }
  }

  lemma CalledFurther(init: seq<Arg>, last: Arg, name: string, found: Option<Arg>)
    requires FirstCalled(init, name, found)
    ensures found.Some? ==> FirstCalled(init + [last], name, found)
    ensures found.None? ==>
      FirstCalled(init + [last], name, if IsCalled(last, name) then Some(last.value.arg) else None)
  {
    var args := init + [last];
    if found.Some? {
      var i :| 0 <= i < |init| && init[i].value == Inner(name, found.value)
               && forall j :: 0 <= j < i ==> !IsCalled(init[j], name);
      assert args[i] == init[i] && forall j :: 0 <= j < i ==> args[j] == init[j];
    } else {
      assert args[|init|] == last && forall j :: 0 <= j < |init| ==> args[j] == init[j];
    }
  }
}
