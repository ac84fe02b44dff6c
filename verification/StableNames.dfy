/** Stable type names (`pagable/src/typetag.rs`, `pagable_derive/src/derive_pagable.rs`): composed
    names tell types apart. */
module StableNames {
  import opened Options

  // ----- Types -----

  /** `Derived` carries `module_path!()::Ident` and its generic arguments; a type without generic
      parameters has none. */
  datatype Ty =
    | Prim(name: string)
    | Wrap(name: string, inner: Ty)
    | Derived(path: string, args: seq<Arg>)

  datatype Arg = TyArg(ty: Ty) | IntArg(n: int) | BoolArg(b: bool)

  const PRIM_NAMES: seq<string> :=
    ["bool", "char", "f32", "f64", "i8", "i16", "i32", "i64", "i128", "isize",
     "u8", "u16", "u32", "u64", "u128", "usize", "String"]

  const WRAP_NAMES: seq<string> := ["Arc", "Box", "Option", "Vec"]

  /** Characters of identifiers and paths: all but those the composed form adds. */
  predicate Plain(c: char) {
    c != '<' && c != '>' && c != ',' && c != ' '
  }

  predicate AllPlain(s: string) {
    forall i :: 0 <= i < |s| ==> Plain(s[i])
  }

  predicate NumberChar(c: char) {
    '0' <= c <= '9' || c == '-'
  }

  /** A name with a letter in it and without the `::` of a path. */
  predicate Word(s: string) {
    s != [] && AllPlain(s) && ':' !in s && !NumberChar(s[0])
  }

  predicate PathOk(s: string) {
    AllPlain(s) && ':' in s
  }

  predicate TyOk(t: Ty) {
    match t
    case Prim(name) => name in PRIM_NAMES
    case Wrap(name, inner) => name in WRAP_NAMES && TyOk(inner)
    case Derived(path, args) => PathOk(path) && forall i :: 0 <= i < |args| ==> ArgOk(args[i])
  }

  predicate ArgOk(a: Arg) {
    a.TyArg? ==> TyOk(a.ty)
  }

  // ----- Names -----

  function Digit(n: nat): char
    requires n < 10
  {
    '0' + n as char
  }

  function Decimal(n: nat): string {
    if n < 10 then [Digit(n)] else Decimal(n / 10) + [Digit(n % 10)]
  }

  /** `Display` of an integer. */
  function Number(n: int): string {
    if n < 0 then "-" + Decimal(-n) else Decimal(n)
  }

  function Name(t: Ty): string
    decreases t
  {
    match t
    case Prim(name) => name
    case Wrap(name, inner) => name + "<" + Name(inner) + ">"
    case Derived(path, args) => if args == [] then path else path + "<" + Join(args) + ">"
  }

  function ArgName(a: Arg): string
    decreases a
  {
    match a
    case TyArg(t) => Name(t)
    case IntArg(n) => Number(n)
    case BoolArg(b) => if b then "true" else "false"
  }

  /** The arguments' names with `", "` between them. */
  function Join(args: seq<Arg>): string
    requires args != []
    decreases args
  {
    if |args| == 1 then ArgName(args[0]) else ArgName(args[0]) + ", " + Join(args[1..])
  }

  // ----- Integers -----

  /** The value of a decimal numeral. */
  function ReadDecimal(s: string): int {
    if s == [] then 0 else 10 * ReadDecimal(s[..|s| - 1]) + (s[|s| - 1] as int - '0' as int)
  }

  function ReadNumber(s: string): int {
    if s != [] && s[0] == '-' then -ReadDecimal(s[1..]) else ReadDecimal(s)
  }

  lemma {:induction false} DecimalReadsBack(n: nat)
    ensures ReadDecimal(Decimal(n)) == n && Decimal(n) != []
    ensures (Decimal(n)[0] == '0' ==> n == 0) && Decimal(n)[0] != '-'
  {
    var s := Decimal(n);
    if n < 10 {
      assert s[..0] == [];
    } else {
      DecimalReadsBack(n / 10);
      assert s[..|s| - 1] == Decimal(n / 10);
    }
  }

  lemma {:induction false} DecimalNonEmpty(n: nat)
    ensures Decimal(n) != [] && forall i :: 0 <= i < |Decimal(n)| ==> '0' <= Decimal(n)[i] <= '9'
  {
    if n >= 10 {
      DecimalNonEmpty(n / 10);
    }
  }

  /** The display of an integer is its decimal numeral: reading it gives the integer back, and there
      are no leading zeros. */
  lemma NumberReadsBack(n: int)
    ensures ReadNumber(Number(n)) == n
    ensures var digits := if n < 0 then Number(n)[1..] else Number(n); digits != [] && (digits[0] == '0' ==> digits == "0")
  {
    DecimalReadsBack(if n < 0 then -n else n);
    assert n < 0 ==> Number(n)[1..] == Decimal(-n);
  }

  lemma NumberInjective(m: int, n: int)
    requires Number(m) == Number(n)
    ensures m == n
  {
    NumberReadsBack(m);
    NumberReadsBack(n);
  }

  lemma NumberChars(n: int)
    ensures Number(n) != [] && forall i :: 0 <= i < |Number(n)| ==> NumberChar(Number(n)[i])
  {
    DecimalNonEmpty(if n < 0 then -n else n);
  }

  // ----- Heads -----

  /** The part of a name before any arguments. */
  function Head(a: Arg): string {
    match a
    case TyArg(Prim(name)) => name
    case TyArg(Wrap(name, _)) => name
    case TyArg(Derived(path, _)) => path
    case IntArg(n) => Number(n)
    case BoolArg(b) => if b then "true" else "false"
  }

  function Tail(a: Arg): string {
    match a
    case TyArg(Wrap(_, inner)) => "<" + Name(inner) + ">"
    case TyArg(Derived(_, args)) => if args == [] then "" else "<" + Join(args) + ">"
    case _ => ""
  }

  lemma HeadThenTail(a: Arg)
    ensures ArgName(a) == Head(a) + Tail(a)
  {
    match a
    case TyArg(Wrap(name, inner)) => assert name + "<" + Name(inner) + ">" == name + ("<" + Name(inner) + ">");
    case TyArg(Derived(path, args)) =>
      if args != [] {
        assert path + "<" + Join(args) + ">" == path + ("<" + Join(args) + ">");
      }
    case _ =>
  }

  /** Nothing follows, or something that no head contains. */
  predicate Stops(s: string) {
    s == [] || !Plain(s[0])
  }

  lemma {:induction false} HeadsEqual(g: string, h: string, x: string, y: string)
    requires AllPlain(g) && AllPlain(h) && Stops(x) && Stops(y) && g + x == h + y
    ensures g == h && x == y
  {
    assert g != [] ==> (g + x)[0] == g[0];
    assert h != [] ==> (h + y)[0] == h[0];
    if g != [] && h != [] {
      assert (g + x)[1..] == g[1..] + x && (h + y)[1..] == h[1..] + y;
      HeadsEqual(g[1..], h[1..], x, y);
    } else {
      assert g == [] ==> g + x == x;
      assert h == [] ==> h + y == y;
    }
  }

  lemma PrimsAreWords()
    ensures forall i :: 0 <= i < |PRIM_NAMES| ==> Word(PRIM_NAMES[i]) && PRIM_NAMES[i] !in WRAP_NAMES
    ensures forall i :: 0 <= i < |PRIM_NAMES| ==> PRIM_NAMES[i] != "true" && PRIM_NAMES[i] != "false"
    ensures forall i :: 0 <= i < |WRAP_NAMES| ==> Word(WRAP_NAMES[i]) && WRAP_NAMES[i] != "true" && WRAP_NAMES[i] != "false"
  {
  }

  lemma HeadPlain(a: Arg)
    requires ArgOk(a)
    ensures AllPlain(Head(a))
  {
    PrimsAreWords();
    hide PRIM_NAMES, WRAP_NAMES;
    if a.IntArg? {
      NumberChars(a.n);
    }
  }

  /** Which of the kinds of argument a head can come from. */
  datatype Kind = APrim | AWrap | ADerived | AnInt | ABool

  function KindOf(a: Arg): Kind {
    match a
    case TyArg(Prim(_)) => APrim
    case TyArg(Wrap(_, _)) => AWrap
    case TyArg(Derived(_, _)) => ADerived
    case IntArg(_) => AnInt
    case BoolArg(_) => ABool
  }

  function KindOfHead(h: string): Kind {
    if ':' in h then ADerived
    else if h == "true" || h == "false" then ABool
    else if h in PRIM_NAMES then APrim
    else if h in WRAP_NAMES then AWrap
    else AnInt
  }

  /** A head tells what kind of argument it belongs to. */
  lemma HeadTellsKind(a: Arg)
    requires ArgOk(a)
    ensures KindOf(a) == KindOfHead(Head(a))
  {
    PrimsAreWords();
    hide PRIM_NAMES, WRAP_NAMES;
    if a.IntArg? {
      NumberChars(a.n);
      assert NumberChar(Head(a)[0]);
      assert forall i :: 0 <= i < |Head(a)| ==> Head(a)[i] != ':';
    }
  }

  lemma SameHeadSameKind(a: Arg, b: Arg)
    requires ArgOk(a) && ArgOk(b) && Head(a) == Head(b)
    ensures KindOf(a) == KindOf(b)
  {
    hide Head, KindOf, KindOfHead;
    HeadTellsKind(a);
    HeadTellsKind(b);
  }

  // ----- Unique reading -----

  /** What can follow an argument inside a composed name, or nothing. */
  predicate Closes(s: string) {
    s == [] || s[0] == ',' || s[0] == '>'
  }

  lemma TailStops(a: Arg, x: string)
    requires Closes(x)
    ensures Stops(Tail(a) + x)
  {
  }

  function TySize(t: Ty): nat
    decreases t
  {
    match t
    case Prim(_) => 1
    case Wrap(_, inner) => 1 + TySize(inner)
    case Derived(_, args) => 1 + ArgsSize(args)
  }

  function ArgSize(a: Arg): nat
    decreases a
  {
    if a.TyArg? then TySize(a.ty) else 1
  }

  function ArgsSize(args: seq<Arg>): nat
    decreases args
  {
    if args == [] then 0 else ArgSize(args[0]) + 1 + ArgsSize(args[1..])
  }

  /** Two names that begin the same text and are followed by the end of an argument are the same
      name. */
  lemma {:induction false} ReadsOneWay(a: Arg, b: Arg, x: string, y: string)
    requires ArgOk(a) && ArgOk(b) && Closes(x) && Closes(y) && ArgName(a) + x == ArgName(b) + y
    ensures a == b && x == y
    decreases ArgSize(a), 2
  {
    hide TyOk, AllPlain, ArgName, Head, Tail, KindOf;
    HeadThenTail(a);
    HeadThenTail(b);
    HeadPlain(a);
    HeadPlain(b);
    TailStops(a, x);
    TailStops(b, y);
    assert Head(a) + (Tail(a) + x) == (Head(a) + Tail(a)) + x;
    assert Head(b) + (Tail(b) + y) == (Head(b) + Tail(b)) + y;
    HeadsEqual(Head(a), Head(b), Tail(a) + x, Tail(b) + y);
    SameHeadSameKind(a, b);
    TailsOneWay(a, b, x, y);
  }

  lemma {:induction false} TailsOneWay(a: Arg, b: Arg, x: string, y: string)
    requires ArgOk(a) && ArgOk(b) && Closes(x) && Closes(y)
    requires Head(a) == Head(b) && KindOf(a) == KindOf(b) && Tail(a) + x == Tail(b) + y
    ensures a == b && x == y
    decreases ArgSize(a), 1
  {
    hide PRIM_NAMES, WRAP_NAMES, Number, Name, Join, AllPlain, PathOk;
    match a
    case TyArg(Prim(_)) => assert "" + x == x && "" + y == y;
    case IntArg(n) =>
      assert "" + x == x && "" + y == y;
      NumberInjective(n, b.n);
    case BoolArg(_) =>
      assert "" + x == x && "" + y == y;
    case TyArg(Wrap(name, inner)) =>
      var other := b.ty.inner;
      Unbracket(Name(inner), x, Name(other), y);
      assert ArgSize(a) == TySize(Wrap(name, inner)) == 1 + TySize(inner);
      ReadsOneWay(TyArg(inner), TyArg(other), ">" + x, ">" + y);
      assert (">" + x)[1..] == x && (">" + y)[1..] == y;
    case TyArg(Derived(path, args)) =>
      DerivedOneWay(path, args, b.ty.args, x, y);
  }

  lemma {:induction false} DerivedOneWay(path: string, args: seq<Arg>, other: seq<Arg>, x: string, y: string)
    requires TyOk(Derived(path, args)) && TyOk(Derived(path, other)) && Closes(x) && Closes(y)
    requires Tail(TyArg(Derived(path, args))) + x == Tail(TyArg(Derived(path, other))) + y
    ensures args == other && x == y
    decreases ArgSize(TyArg(Derived(path, args))), 0
  {
    hide AllPlain, PathOk, Join;
    var p, q := Tail(TyArg(Derived(path, args))), Tail(TyArg(Derived(path, other)));
    assert args == [] ==> p + x == x;
    assert other == [] ==> q + y == y;
    assert args != [] ==> (p + x)[0] == '<';
    assert other != [] ==> (q + y)[0] == '<';
    if args != [] && other != [] {
      Unbracket(Join(args), x, Join(other), y);
      assert ArgSize(TyArg(Derived(path, args))) == TySize(Derived(path, args)) == 1 + ArgsSize(args);
      ArgsOneWay(args, other, ">" + x, ">" + y);
      assert (">" + x)[1..] == x && (">" + y)[1..] == y;
    }
  }

  lemma Unbracket(m: string, x: string, n: string, y: string)
    requires ("<" + m + ">") + x == ("<" + n + ">") + y
    ensures m + (">" + x) == n + (">" + y)
  {
    assert (("<" + m + ">") + x)[1..] == m + (">" + x);
    assert (("<" + n + ">") + y)[1..] == n + (">" + y);
  }

  /** What follows the first argument. */
  function Rest(args: seq<Arg>, x: string): string
    requires args != []
  {
    if |args| == 1 then x else ", " + (Join(args[1..]) + x)
  }

  lemma JoinSplits(args: seq<Arg>, x: string)
    requires args != []
    ensures Join(args) + x == ArgName(args[0]) + Rest(args, x)
  {
    hide ArgName;
    if |args| > 1 {
      var first, others := ArgName(args[0]), Join(args[1..]);
      assert Join(args) == first + ", " + others;
      assert Rest(args, x) == ", " + (others + x);
      hide Join, Rest;
      Reassociate(first, others, x);
    }
  }

  lemma Reassociate(a: string, b: string, x: string)
    ensures a + ", " + b + x == a + (", " + (b + x))
  {
  }

  lemma RestOneWay(args: seq<Arg>, other: seq<Arg>, x: string, y: string)
    requires args != [] && other != [] && x != [] && y != [] && x[0] == '>' && y[0] == '>'
    requires Rest(args, x) == Rest(other, y)
    ensures |args| == 1 <==> |other| == 1
    ensures |args| == 1 ==> x == y
    ensures |args| > 1 ==> Join(args[1..]) + x == Join(other[1..]) + y
  {
    hide Join;
    assert |args| > 1 ==> Rest(args, x)[0] == ',' && Rest(args, x)[2..] == Join(args[1..]) + x;
    assert |other| > 1 ==> Rest(other, y)[0] == ',' && Rest(other, y)[2..] == Join(other[1..]) + y;
  }

  lemma RestCloses(args: seq<Arg>, x: string)
    requires args != [] && x != [] && x[0] == '>'
    ensures Closes(Rest(args, x))
  {
  }

  lemma {:induction false} ArgsOneWay(args: seq<Arg>, other: seq<Arg>, x: string, y: string)
    requires args != [] && other != []
    requires (forall i :: 0 <= i < |args| ==> ArgOk(args[i])) && (forall i :: 0 <= i < |other| ==> ArgOk(other[i]))
    requires x != [] && y != [] && x[0] == '>' && y[0] == '>' && Join(args) + x == Join(other) + y
    ensures args == other && x == y
    decreases ArgsSize(args), 3
  {
    hide ArgOk, ArgName, Rest, Closes, Join;
    JoinSplits(args, x);
    JoinSplits(other, y);
    RestCloses(args, x);
    RestCloses(other, y);
    ReadsOneWay(args[0], other[0], Rest(args, x), Rest(other, y));
    RestOneWay(args, other, x, y);
    if |args| > 1 {
      ArgsOneWay(args[1..], other[1..], x, y);
    }
    assert args == [args[0]] + args[1..] && other == [other[0]] + other[1..];
  }

  /** Different types have different names. */
  lemma NamesInjective(s: Ty, t: Ty)
    requires TyOk(s) && TyOk(t) && Name(s) == Name(t)
    ensures s == t
  {
    assert ArgName(TyArg(s)) + [] == Name(s) && ArgName(TyArg(t)) + [] == Name(t);
    ReadsOneWay(TyArg(s), TyArg(t), [], []);
  }

  /** The names that stored data carries. */
  lemma PinnedNames()
    ensures Name(Wrap("Vec", Wrap("Vec", Prim("i32")))) == "Vec<Vec<i32>>"
    ensures Name(Derived("a::Generic", [TyArg(Derived("b::Cargo", []))])) == "a::Generic<b::Cargo>"
    ensures Name(Derived("a::Constant", [IntArg(7)])) == "a::Constant<7>"
    ensures Name(Derived("a::Pair", [BoolArg(true), IntArg(-12)])) == "a::Pair<true, -12>"
  {
    var pair := [BoolArg(true), IntArg(-12)];
    assert pair[1..] == [IntArg(-12)];
    assert Decimal(12) == Decimal(1) + [Digit(2)] == "12";
    assert Number(-12) == "-12";
    assert Join(pair) == "true" + ", " + "-12";
    assert Number(7) == "7";
  }

  // ----- The cache and the registry -----

  /** `memoized_stable_name`: one name per type, built while the lock is free because building
      comes back here for the arguments. */
  class NameCache {
    var names: map<Ty, string>

    ghost predicate Valid()
      reads this
    {
      forall t :: t in names ==> names[t] == Name(t)
    }

    constructor ()
      ensures Valid() && names == map[]
    {
      names := map[];
    }

    method StableName(t: Ty) returns (name: string)
      requires Valid()
      modifies this
      ensures Valid() && name == Name(t)
      ensures forall u :: u in old(names) ==> u in names
      decreases TySize(t), 1
    {
      match t
      case Prim(n) => name := n;
      case Wrap(n, inner) =>
        if t in names {
          return names[t];
        }
        var arg := StableName(inner);
        name := Remember(t, n + "<" + arg + ">");
      case Derived(path, args) =>
        if args == [] {
          return path;
        }
        if t in names {
          return names[t];
        }
        var joined := ArgNames(args);
        name := Remember(t, path + "<" + joined + ">");
    }

    /** `entry().or_insert`: an entry another caller made meanwhile stays. */
    method Remember(t: Ty, built: string) returns (name: string)
      requires Valid() && built == Name(t)
      modifies this
      ensures Valid() && name == built && names.Keys == old(names).Keys + {t}
    {
      if t !in names {
        names := names[t := built];
      }
      name := names[t];
    }

    method ArgNames(args: seq<Arg>) returns (joined: string)
      requires Valid() && args != []
      modifies this
      ensures Valid() && joined == Join(args)
      ensures forall u :: u in old(names) ==> u in names
      decreases ArgsSize(args), 2
    {
      assert ArgsSize(args) == ArgSize(args[0]) + 1 + ArgsSize(args[1..]);
      match args[0] {
        case TyArg(t) => joined := StableName(t);
        case IntArg(n) => joined := Number(n);
        case BoolArg(b) => joined := if b then "true" else "false";
      }
      assert joined == ArgName(args[0]);
      if |args| > 1 {
        var others := ArgNames(args[1..]);
        joined := joined + ", " + others;
      }
    }
  }

  ghost predicate Distinct(ts: seq<Ty>) {
    forall i, j :: 0 <= i < j < |ts| ==> ts[i] != ts[j]
  }

  /** The tags of the first `i` types, each mapped to its type. */
  ghost predicate Tagged(ts: seq<Ty>, i: nat, tags: map<string, Ty>)
    requires i <= |ts|
  {
    && Distinct(ts[..i])
    && (forall n :: n in tags ==> tags[n] in ts[..i] && Name(tags[n]) == n)
    && (forall j :: 0 <= j < i ==> Name(ts[j]) in tags && tags[Name(ts[j])] == ts[j])
  }

  ghost predicate AllOk(ts: seq<Ty>) {
    forall i :: 0 <= i < |ts| ==> TyOk(ts[i])
  }

  lemma NothingTagged(ts: seq<Ty>)
    ensures Tagged(ts, 0, map[])
  {
  }

  lemma TagAdded(ts: seq<Ty>, i: nat, tags: map<string, Ty>)
    requires i < |ts| && Tagged(ts, i, tags) && Name(ts[i]) !in tags
    ensures Tagged(ts, i + 1, tags[Name(ts[i]) := ts[i]])
  {
    hide Name;
    assert ts[..i + 1] == ts[..i] + [ts[i]];
    forall j | 0 <= j < i ensures ts[j] != ts[i] {
      assert Name(ts[j]) in tags;
    }
  }

  /** A tag already taken is the tag of the same type. */
  lemma TagTaken(ts: seq<Ty>, i: nat, tags: map<string, Ty>)
    requires i < |ts| && AllOk(ts) && Tagged(ts, i, tags) && Name(ts[i]) in tags
    ensures !Distinct(ts)
  {
    hide Name, TyOk;
    var t := tags[Name(ts[i])];
    var j :| 0 <= j < i && ts[j] == t;
    NamesInjective(t, ts[i]);
  }

  /** Registering types by tag: `None` where the duplicate check fails, which it does only for a
      type registered twice. */
  method Register(ts: seq<Ty>) returns (o: Option<map<string, Ty>>)
    requires AllOk(ts)
    ensures o.Some? <==> Distinct(ts)
    ensures o.Some? ==> Tagged(ts, |ts|, o.value)
  {
    hide Name, Tagged, AllOk, Distinct, TyOk;
    var tags: map<string, Ty> := map[];
    NothingTagged(ts);
    for i := 0 to |ts|
      invariant Tagged(ts, i, tags)
    {
      var tag := Name(ts[i]);
      if tag in tags {
        TagTaken(ts, i, tags);
        return None;
      }
      TagAdded(ts, i, tags);
      tags := tags[tag := ts[i]];
    }
    AllTagged(ts, tags);
    o := Some(tags);
  }

  lemma AllTagged(ts: seq<Ty>, tags: map<string, Ty>)
    requires Tagged(ts, |ts|, tags)
    ensures Distinct(ts)
  {
    assert ts[..|ts|] == ts;
  }
}
