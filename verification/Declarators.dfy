/** Declarators: the parser starts the type of a nested declarator with a hole and
    plugs the type around it into the hole afterwards. Against it, the recursive
    definition of section 6.5.4 of ISO/IEC 9899:1990. Parameter lists and array
    lengths are single tokens here. */
module Declarators {
  import opened Options

  /** A type, outermost derivation first; a hole is a type still to come. */
  datatype Type =
    | Hole
    | Void
    | Named(name: nat)
    | Pointer(isconst: bool, isvolatile: bool, to: Type)
    | Array(len: Option<nat>, of: Type)
    | Function(params: Option<nat>, ret: Type)

  datatype Tok =
    | Star | Const | Volatile | LParen | RParen | LBracket | RBracket
    | Length(n: nat) | Params(p: nat) | Id(id: nat) | Other(k: nat)

  // ----- declarators as trees, and what they mean -----

  datatype Declarator = Declarator(pointers: seq<seq<Tok>>, direct: Direct)

  datatype Direct = Direct(core: Core, suffix: Suffix)

  datatype Core = Name(id: nat) | Paren(d: Declarator)

  datatype Suffix = NoSuffix | Arrays(lens: seq<Option<nat>>) | Call(params: Option<nat>, isconst: bool)

  predicate IsQualifier(k: Tok) {
    k.Const? || k.Volatile?
  }

  predicate Qualifiers(q: seq<Tok>) {
    forall i :: 0 <= i < |q| ==> IsQualifier(q[i])
  }

  predicate WellFormed(d: Declarator) {
    && (forall i :: 0 <= i < |d.pointers| ==> Qualifiers(d.pointers[i]))
    && (d.direct.suffix.Arrays? ==> d.direct.suffix.lens != [])
    && (d.direct.core.Paren? ==> WellFormed(d.direct.core.d))
  }

  function DeclaredName(d: Declarator): nat {
    match d.direct.core
    case Name(id) => id
    case Paren(d') => DeclaredName(d')
  }

  function PointerTo(q: seq<Tok>, t: Type): Type {
    Pointer(Const in q, Volatile in q, t)
  }

  function Pointers(t: Type, ps: seq<seq<Tok>>): Type
    decreases |ps|
  {
    if ps == [] then t else Pointers(PointerTo(ps[0], t), ps[1..])
  }

  function ArraysOf(lens: seq<Option<nat>>, t: Type): Type {
    if lens == [] then t else Array(lens[0], ArraysOf(lens[1..], t))
  }

  function Suffixed(t: Type, s: Suffix): Type {
    match s
    case NoSuffix => t
    case Arrays(lens) => ArraysOf(lens, t)
    case Call(p, _) => Function(p, t)
  }

  /** In a declaration `T D` of section 6.5.4: what `D` makes of `T`. */
  function Meaning(t: Type, d: Declarator): Type
    decreases d
  {
    var t' := Suffixed(Pointers(t, d.pointers), d.direct.suffix);
    match d.direct.core
    case Name(_) => t'
    case Paren(d') => Meaning(t', d')
  }

  // ----- printing -----

  function PrintPointers(ps: seq<seq<Tok>>): seq<Tok> {
    if ps == [] then [] else [Star] + (ps[0] + PrintPointers(ps[1..]))
  }

  function PrintLength(n: Option<nat>): seq<Tok> {
    if n.Some? then [LBracket, Length(n.value), RBracket] else [LBracket, RBracket]
  }

  function PrintArrays(lens: seq<Option<nat>>): seq<Tok> {
    if lens == [] then [] else PrintLength(lens[0]) + PrintArrays(lens[1..])
  }

  function PrintSuffix(s: Suffix): seq<Tok> {
    match s
    case NoSuffix => []
    case Arrays(lens) => PrintArrays(lens)
    case Call(p, c) => [LParen] + ((if p.Some? then [Params(p.value)] else []) + ([RParen] + if c then [Const] else []))
  }

  function Print(d: Declarator): seq<Tok> {
    PrintPointers(d.pointers) + (PrintCore(d.direct.core) + PrintSuffix(d.direct.suffix))
  }

  function PrintCore(c: Core): seq<Tok> {
    match c
    case Name(id) => [Id(id)]
    case Paren(d) => [LParen] + (Print(d) + [RParen])
  }

  // ----- the parser -----

  datatype Qualified = Qualified(q: seq<Tok>, rest: seq<Tok>)

  function TakeQualifiers(s: seq<Tok>): (r: Qualified)
    ensures s == r.q + r.rest && Qualifiers(r.q) && (r.rest != [] ==> !IsQualifier(r.rest[0]))
  {
    if s != [] && IsQualifier(s[0]) then
      var r := TakeQualifiers(s[1..]);
      Qualified([s[0]] + r.q, r.rest)
    else Qualified([], s)
  }

  datatype Typed = Fail | Typed(t: Type, rest: seq<Tok>)

  function TakePointers(t: Type, s: seq<Tok>): (r: Typed)
    ensures r.Typed? && |r.rest| <= |s| && (r.rest != [] ==> r.rest[0] != Star)
    decreases |s|
  {
    if s != [] && s[0].Star? then
      var r := TakeQualifiers(s[1..]);
      TakePointers(PointerTo(r.q, t), r.rest)
    else Typed(t, s)
  }

  function TakeArrays(t: Type, s: seq<Tok>): (r: Typed)
    requires s != [] && s[0].LBracket?
    ensures r.Typed? ==> |r.rest| < |s|
    decreases |s|
  {
    var n := if |s| > 1 && s[1].Length? then Some(s[1].n) else None;
    var end := if n.Some? then 2 else 1;
    if |s| <= end || s[end] != RBracket then Fail
    else
      var rest := s[end + 1..];
      var r := if rest != [] && rest[0].LBracket? then TakeArrays(t, rest) else Typed(t, rest);
      if r.Fail? then Fail else Typed(Array(n, r.t), r.rest)
  }

  /** After the open parenthesis of a function's parameters. */
  function TakeCall(t: Type, s: seq<Tok>): (r: Typed)
    ensures r.Typed? ==> |r.rest| < |s|
  {
    var p := if s != [] && s[0].Params? then Some(s[0].p) else None;
    var end := if p.Some? then 1 else 0;
    if |s| <= end || s[end] != RParen then Fail
    else Typed(Function(p, t), s[if |s| > end + 1 && s[end + 1].Const? then end + 2 else end + 1..])
  }

  function TakeSuffix(t: Type, s: seq<Tok>): (r: Typed)
    ensures r.Typed? ==> |r.rest| <= |s|
  {
    if s != [] && s[0].LBracket? then TakeArrays(t, s)
    else if s != [] && s[0].LParen? then TakeCall(t, s[1..])
    else Typed(t, s)
  }

  predicate HasHole(t: Type) {
    match t
    case Hole => true
    case Void => false
    case Named(_) => false
    case Pointer(_, _, u) => HasHole(u)
    case Array(_, u) => HasHole(u)
    case Function(_, u) => HasHole(u)
  }

  function Fill(point: Type, to: Type): Type {
    match point
    case Hole => to
    case Void => Void
    case Named(n) => Named(n)
    case Pointer(c, v, u) => Pointer(c, v, Fill(u, to))
    case Array(n, u) => Array(n, Fill(u, to))
    case Function(p, u) => Function(p, Fill(u, to))
  }

  /** The hole is an element type. */
  predicate ArrayOfHole(t: Type) {
    match t
    case Pointer(_, _, u) => ArrayOfHole(u)
    case Array(_, u) => u.Hole? || ArrayOfHole(u)
    case Function(_, u) => ArrayOfHole(u)
    case _ => false
  }

  /** `do_point_to`: a void type is not put in an array's hole, which is an error. */
  predicate Refused(point: Type, to: Type) {
    to.Void? && ArrayOfHole(point)
  }

  function PointTo(point: Type, to: Type): Type {
    if Refused(point, to) then point else Fill(point, to)
  }

  datatype Declared = Bad | Declared(t: Type, id: nat, rest: seq<Tok>, ok: bool)

  function Declare(t: Type, s: seq<Tok>): (r: Declared)
    ensures r.Declared? ==> |r.rest| < |s|
    decreases |s|, 1
  {
    var p := TakePointers(t, s);
    DeclareDirect(p.t, p.rest)
  }

  function DeclareDirect(t: Type, s: seq<Tok>): (r: Declared)
    ensures r.Declared? ==> |r.rest| < |s|
    decreases |s|, 0
  {
    if s != [] && s[0].Id? then
      var r := TakeSuffix(t, s[1..]);
      if r.Fail? then Bad else Declared(PointTo(Hole, r.t), s[0].id, r.rest, true)
    else if s != [] && s[0].LParen? then
      match Declare(Hole, s[1..])
      case Bad => Bad
      case Declared(point, id, rest, ok) =>
        if rest == [] || rest[0] != RParen then Bad
        else
          var r := TakeSuffix(t, rest[1..]);
          if r.Fail? then Bad else Declared(PointTo(point, r.t), id, r.rest, ok && !Refused(point, r.t))
    else Bad
  }

  // ----- plugging is the definition -----

  lemma {:induction false} FillPointers(t: Type, ps: seq<seq<Tok>>, u: Type)
    ensures Fill(Pointers(t, ps), u) == Pointers(Fill(t, u), ps)
    ensures ArrayOfHole(Pointers(t, ps)) == ArrayOfHole(t)
    ensures ps != [] ==> Pointers(t, ps).Pointer?
    decreases |ps|
  {
    if ps != [] {
      FillPointers(PointerTo(ps[0], t), ps[1..], u);
    }
  }

  lemma {:induction false} FillArrays(t: Type, lens: seq<Option<nat>>, u: Type)
    ensures Fill(ArraysOf(lens, t), u) == ArraysOf(lens, Fill(t, u))
    ensures ArrayOfHole(ArraysOf(lens, t)) == (ArrayOfHole(t) || (t.Hole? && lens != []))
  {
    if lens != [] {
      FillArrays(t, lens[1..], u);
    }
  }

  /** The derivation next to the base type is an array. */
  predicate ArrayFirst(d: Declarator) {
    d.pointers == [] &&
    match d.direct.suffix
    case NoSuffix => d.direct.core.Paren? && ArrayFirst(d.direct.core.d)
    case Arrays(_) => true
    case Call(_, _) => false
  }

  /** Filling the hole afterwards is starting with what is put in it. */
  lemma {:induction false} FillMeaning(t: Type, d: Declarator, u: Type)
    requires WellFormed(d)
    ensures Fill(Meaning(t, d), u) == Meaning(Fill(t, u), d)
    ensures ArrayOfHole(Meaning(t, d)) == (ArrayOfHole(t) || (t.Hole? && ArrayFirst(d)))
    decreases d
  {
    hide Fill, ArrayOfHole;
    var t1 := Pointers(t, d.pointers);
    var t2 := Suffixed(t1, d.direct.suffix);
    FillPointers(t, d.pointers, u);
    FillSuffix(t1, d.direct.suffix, u);
    if d.direct.core.Paren? {
      FillMeaning(t2, d.direct.core.d, u);
    }
  }

  lemma FillSuffix(t: Type, s: Suffix, u: Type)
    requires s.Arrays? ==> s.lens != []
    ensures Fill(Suffixed(t, s), u) == Suffixed(Fill(t, u), s)
    ensures ArrayOfHole(Suffixed(t, s)) == (ArrayOfHole(t) || (t.Hole? && s.Arrays?))
    ensures !s.NoSuffix? ==> !Suffixed(t, s).Hole? && !Suffixed(t, s).Void?
  {
    if s.Arrays? { FillArrays(t, s.lens, u); }
  }

  // ----- parsing what was printed -----

  /** Nothing that could go on with a declarator. */
  predicate Ends(s: seq<Tok>) {
    s == [] || (!s[0].LBracket? && !s[0].LParen? && !s[0].Const?)
  }

  lemma {:induction false} TakeQualified(q: seq<Tok>, s: seq<Tok>)
    requires Qualifiers(q) && (s != [] ==> !IsQualifier(s[0]))
    ensures TakeQualifiers(q + s) == Qualified(q, s)
  {
    if q == [] {
      assert q + s == s;
    } else {
      assert (q + s)[1..] == q[1..] + s;
      TakeQualified(q[1..], s);
    }
  }

  lemma {:induction false} TakesPointers(t: Type, ps: seq<seq<Tok>>, s: seq<Tok>)
    requires (forall i :: 0 <= i < |ps| ==> Qualifiers(ps[i])) && s != [] && (s[0].Id? || s[0].LParen?)
    ensures TakePointers(t, PrintPointers(ps) + s) == Typed(Pointers(t, ps), s)
    decreases |ps|
  {
    if ps == [] {
      assert PrintPointers(ps) + s == s;
    } else {
      var more := PrintPointers(ps[1..]) + s;
      assert PrintPointers(ps) + s == [Star] + (ps[0] + more);
      assert ([Star] + (ps[0] + more))[1..] == ps[0] + more;
      assert Qualifiers(ps[0]);
      TakeQualified(ps[0], more);
      TakesPointers(PointerTo(ps[0], t), ps[1..], s);
    }
  }

  lemma ArrayStep(t: Type, n: Option<nat>, rest: seq<Tok>)
    ensures PrintLength(n) != [] && PrintLength(n)[0] == LBracket
    ensures TakeArrays(t, PrintLength(n) + rest) ==
      var r := if rest != [] && rest[0].LBracket? then TakeArrays(t, rest) else Typed(t, rest);
      if r.Fail? then Fail else Typed(Array(n, r.t), r.rest)
  {
    var all := PrintLength(n) + rest;
    if n.Some? {
      assert all[1] == Length(n.value) && all[2] == RBracket && all[3..] == rest;
    } else {
      assert all[1] == RBracket && all[2..] == rest;
    }
  }

  lemma {:induction false} TakesArrays(t: Type, lens: seq<Option<nat>>, s: seq<Tok>)
    requires lens != [] && Ends(s)
    ensures PrintArrays(lens) != [] && PrintArrays(lens)[0] == LBracket
    ensures TakeArrays(t, PrintArrays(lens) + s) == Typed(ArraysOf(lens, t), s)
    decreases |lens|
  {
    hide PrintLength, TakeArrays;
    var rest := PrintArrays(lens[1..]) + s;
    ArrayStep(t, lens[0], rest);
    assert PrintArrays(lens) + s == PrintLength(lens[0]) + rest;
    if lens[1..] == [] {
      assert rest == s;
      assert ArraysOf(lens[1..], t) == t;
    } else {
      TakesArrays(t, lens[1..], s);
    }
  }

  lemma CallStep(t: Type, p: Option<nat>, c: bool, s: seq<Tok>)
    requires Ends(s)
    ensures TakeCall(t, PrintSuffix(Call(p, c))[1..] + s) == Typed(Function(p, t), s)
  {
    var inner := PrintSuffix(Call(p, c))[1..] + s;
    if p.Some? {
      assert inner[0] == Params(p.value) && inner[1] == RParen;
      assert if c then inner[2] == Const && inner[3..] == s else inner[2..] == s;
    } else {
      assert inner[0] == RParen;
      assert if c then inner[1] == Const && inner[2..] == s else inner[1..] == s;
    }
  }

  lemma TakesSuffix(t: Type, x: Suffix, s: seq<Tok>)
    requires (x.Arrays? ==> x.lens != []) && Ends(s)
    ensures TakeSuffix(t, PrintSuffix(x) + s) == Typed(Suffixed(t, x), s)
  {
    hide TakeArrays, PrintArrays, TakeCall, PrintSuffix;
    PrintSimple(x);
    if x.NoSuffix? {
      assert [] + s == s;
    } else if x.Arrays? {
      TakesArrays(t, x.lens, s);
    } else {
      CallStep(t, x.params, x.isconst, s);
      assert (PrintSuffix(x) + s)[1..] == PrintSuffix(x)[1..] + s;
    }
  }

  lemma DirectStep(t: Type, d: Direct, point: Type, id: nat, s: seq<Tok>)
    requires (d.suffix.Arrays? ==> d.suffix.lens != []) && Ends(s)
    requires match d.core
      case Name(n) => point == Hole && id == n
      case Paren(d') =>
        Declare(Hole, Print(d') + ([RParen] + (PrintSuffix(d.suffix) + s)))
          == Declared(point, id, [RParen] + (PrintSuffix(d.suffix) + s), true)
    ensures var u := Suffixed(t, d.suffix);
      DeclareDirect(t, PrintCore(d.core) + (PrintSuffix(d.suffix) + s))
        == Declared(PointTo(point, u), id, s, !Refused(point, u))
  {
    hide PrintSuffix, TakeSuffix, Declare, Print;
    var more := PrintSuffix(d.suffix) + s;
    TakesSuffix(t, d.suffix, s);
    match d.core
    case Name(n) =>
      assert ([Id(n)] + more)[1..] == more;
    case Paren(d') =>
      var inner := Print(d') + ([RParen] + more);
      assert PrintCore(d.core) + more == [LParen] + inner;
      assert ([LParen] + inner)[1..] == inner;
      assert ([RParen] + more)[1..] == more;
  }

  /** Any printed declarator is read to its end, and the type is the one the
      standard defines, unless an array of void stands in parentheses of its own:
      only there is it noticed. */
  lemma {:induction false} ReadsDeclarator(t: Type, d: Declarator, s: seq<Tok>)
    requires WellFormed(d) && Ends(s)
    ensures var r := Declare(t, Print(d) + s);
      && r.Declared? && r.id == DeclaredName(d) && r.rest == s
      && (r.ok <==> !(t.Void? && ParenthesizedArray(d)))
      && r.t == Meaning(if r.ok then t else Hole, d)
    decreases d
  {
    hide TakePointers, PrintCore, PrintSuffix, DeclareDirect, Pointers, Fill, ArrayOfHole, Ends;
    var x := d.direct.suffix;
    var body := PrintCore(d.direct.core) + (PrintSuffix(x) + s);
    assert Print(d) + s == PrintPointers(d.pointers) + body by { Regroup(d, s); }
    CoreStarts(d.direct.core, PrintSuffix(x) + s);
    TakesPointers(t, d.pointers, body);
    var t1 := Pointers(t, d.pointers);
    var u := Suffixed(t1, x);
    var point := Hole;
    if d.direct.core.Paren? {
      var d' := d.direct.core.d;
      EndsAtParen(PrintSuffix(x) + s);
      ReadsDeclarator(Hole, d', [RParen] + (PrintSuffix(x) + s));
      point := Meaning(Hole, d');
    }
    DirectStep(t1, d.direct, point, DeclaredName(d), s);
    Plugged(t, d, point);
  }

  lemma EndsAtParen(s: seq<Tok>)
    ensures Ends([RParen] + s)
  {
  }

  lemma Regroup(d: Declarator, s: seq<Tok>)
    ensures Print(d) + s == PrintPointers(d.pointers) + (PrintCore(d.direct.core) + (PrintSuffix(d.direct.suffix) + s))
  {
    hide PrintPointers, PrintCore, PrintSuffix;
  }

  lemma CoreStarts(c: Core, s: seq<Tok>)
    ensures PrintCore(c) + s != [] && ((PrintCore(c) + s)[0].Id? || (PrintCore(c) + s)[0].LParen?)
  {
    hide Print;
  }

  predicate ParenthesizedArray(d: Declarator) {
    d.pointers == [] && d.direct.suffix.NoSuffix? && d.direct.core.Paren? && ArrayFirst(d.direct.core.d)
  }

  /** Plugging what is around a declarator into what it made of the hole. */
  lemma Plugged(t: Type, d: Declarator, point: Type)
    requires WellFormed(d)
    requires point == if d.direct.core.Paren? then Meaning(Hole, d.direct.core.d) else Hole
    ensures var u := Suffixed(Pointers(t, d.pointers), d.direct.suffix);
      && (Refused(point, u) <==> t.Void? && ParenthesizedArray(d))
      && PointTo(point, u) == Meaning(if Refused(point, u) then Hole else t, d)
  {
    var t1 := Pointers(t, d.pointers);
    var u := Suffixed(t1, d.direct.suffix);
    FillPointers(t, d.pointers, Hole);
    FillSuffix(t1, d.direct.suffix, Hole);
    assert d.pointers == [] ==> t1 == t;
    if d.direct.core.Paren? {
      FillMeaning(Hole, d.direct.core.d, u);
    }
  }

  // ----- nothing else is read -----

  lemma PrintMore(q: seq<Tok>, more: seq<seq<Tok>>, s: seq<Tok>)
    ensures PrintPointers([q] + more) + s == [Star] + (q + (PrintPointers(more) + s))
  {
    assert ([q] + more)[1..] == more;
    assert ([Star] + (q + PrintPointers(more))) + s == [Star] + (q + (PrintPointers(more) + s));
  }

  lemma {:induction false} TookPointers(t: Type, s: seq<Tok>) returns (ps: seq<seq<Tok>>)
    ensures forall i :: 0 <= i < |ps| ==> Qualifiers(ps[i])
    ensures s == PrintPointers(ps) + TakePointers(t, s).rest && TakePointers(t, s).t == Pointers(t, ps)
    decreases |s|
  {
    ps := [];
    if s != [] && s[0].Star? {
      hide PrintPointers, Qualifiers, PointerTo;
      var q := TakeQualifiers(s[1..]);
      var more := TookPointers(PointerTo(q.q, t), q.rest);
      ps := [q.q] + more;
      PrintMore(q.q, more, TakePointers(t, s).rest);
      assert ps[1..] == more;
      assert s == [Star] + s[1..];
    }
  }

  lemma ArrayRead(t: Type, s: seq<Tok>) returns (n: Option<nat>, rest: seq<Tok>)
    requires s != [] && s[0].LBracket? && TakeArrays(t, s).Typed?
    ensures s == PrintLength(n) + rest && |rest| < |s|
  {
    n := if |s| > 1 && s[1].Length? then Some(s[1].n) else None;
    if n.Some? {
      rest := s[3..];
      assert s == [s[0], s[1], s[2]] + rest;
    } else {
      rest := s[2..];
      assert s == [s[0], s[1]] + rest;
    }
  }

  lemma {:induction false} TookArrays(t: Type, s: seq<Tok>) returns (lens: seq<Option<nat>>)
    requires s != [] && s[0].LBracket? && TakeArrays(t, s).Typed?
    ensures lens != [] && s == PrintArrays(lens) + TakeArrays(t, s).rest && TakeArrays(t, s).t == ArraysOf(lens, t)
    decreases |s|
  {
    var n, rest := ArrayRead(t, s);
    ArrayStep(t, n, rest);
    hide TakeArrays, PrintLength, PrintArrays, ArraysOf;
    var more := [];
    if rest != [] && rest[0].LBracket? {
      more := TookArrays(t, rest);
    } else {
      NoArrays(t);
      assert [] + rest == rest;
    }
    lens := [n] + more;
    ArraysCons(t, n, more, TakeArrays(t, s).rest);
  }

  lemma NoArrays(t: Type)
    ensures PrintArrays([]) == [] && ArraysOf([], t) == t
  {
  }

  lemma ArraysCons(t: Type, n: Option<nat>, more: seq<Option<nat>>, s: seq<Tok>)
    ensures ArraysOf([n] + more, t) == Array(n, ArraysOf(more, t))
    ensures PrintArrays([n] + more) + s == PrintLength(n) + (PrintArrays(more) + s)
  {
    hide PrintLength;
    assert ([n] + more)[1..] == more;
  }

  lemma CallRead(t: Type, s: seq<Tok>) returns (p: Option<nat>, c: bool)
    requires TakeCall(t, s).Typed?
    ensures [LParen] + s == PrintSuffix(Call(p, c)) + TakeCall(t, s).rest && TakeCall(t, s).t == Function(p, t)
  {
    p := if s[0].Params? then Some(s[0].p) else None;
    var end := if p.Some? then 1 else 0;
    c := |s| > end + 1 && s[end + 1].Const?;
    var rest := s[if c then end + 2 else end + 1..];
    assert s == (if p.Some? then [Params(p.value)] else []) + ([RParen] + ((if c then [Const] else []) + rest));
  }

  lemma TookSuffix(t: Type, s: seq<Tok>) returns (x: Suffix)
    requires TakeSuffix(t, s).Typed?
    ensures x.Arrays? ==> x.lens != []
    ensures s == PrintSuffix(x) + TakeSuffix(t, s).rest && TakeSuffix(t, s).t == Suffixed(t, x)
  {
    hide TakeArrays, TakeCall, PrintSuffix;
    x := NoSuffix;
    if s != [] && s[0].LBracket? {
      var lens := TookArrays(t, s);
      x := Arrays(lens);
    } else if s != [] && s[0].LParen? {
      var p, c := CallRead(t, s[1..]);
      x := Call(p, c);
      assert [LParen] + s[1..] == s;
    }
    PrintSimple(x);
  }

  lemma PrintSimple(x: Suffix)
    ensures x.NoSuffix? ==> PrintSuffix(x) == []
    ensures x.Arrays? ==> PrintSuffix(x) == PrintArrays(x.lens)
    ensures x.Call? ==> PrintSuffix(x) != [] && PrintSuffix(x)[0] == LParen
  {
    hide PrintArrays;
  }

  /** Whatever is read is a declarator, and its type is the standard's. */
  lemma {:induction false} ReadsOnlyDeclarators(t: Type, s: seq<Tok>) returns (d: Declarator)
    requires Declare(t, s).Declared?
    ensures var r := Declare(t, s);
      && WellFormed(d) && s == Print(d) + r.rest && r.id == DeclaredName(d)
      && (r.ok <==> !(t.Void? && ParenthesizedArray(d)))
      && r.t == Meaning(if r.ok then t else Hole, d)
    decreases |s|
  {
    hide TakePointers, TakeSuffix, PrintPointers, PrintSuffix, Pointers, Fill, ArrayOfHole;
    var r := Declare(t, s);
    var ps := TookPointers(t, s);
    var p := TakePointers(t, s);
    var core, more := Name(0), [];
    var point := Hole;
    if p.rest[0].Id? {
      core, more := Name(p.rest[0].id), p.rest[1..];
    } else {
      var d' := ReadsOnlyDeclarators(Hole, p.rest[1..]);
      var inner := Declare(Hole, p.rest[1..]);
      core, more, point := Paren(d'), inner.rest[1..], inner.t;
      assert inner.rest == [RParen] + more;
      assert p.rest == [LParen] + (Print(d') + ([RParen] + more));
    }
    assert p.rest == PrintCore(core) + more;
    var x := TookSuffix(p.t, more);
    d := Declarator(ps, Direct(core, x));
    Regroup(d, r.rest);
    Plugged(t, d, point);
  }

  // ----- writing a type as a declarator -----

  /** The base type and the declarator that declare a name with this type. */
  function Write(t: Type, d: Declarator): (Type, Declarator)
    decreases t
  {
    match t
    case Pointer(c, v, u) =>
      Write(u, d.(pointers := [(if c then [Const] else []) + (if v then [Volatile] else [])] + d.pointers))
    case Array(n, u) =>
      if d.pointers == [] && !d.direct.suffix.Call? then
        var lens := if d.direct.suffix.Arrays? then d.direct.suffix.lens else [];
        Write(u, Declarator([], Direct(d.direct.core, Arrays(lens + [n]))))
      else Write(u, Declarator([], Direct(Paren(d), Arrays([n]))))
    case Function(p, u) =>
      if d.pointers == [] && d.direct.suffix.NoSuffix? then
        Write(u, Declarator([], Direct(d.direct.core, Call(p, false))))
      else Write(u, Declarator([], Direct(Paren(d), Call(p, false))))
    case _ => (t, d)
  }

  function NameOnly(id: nat): Declarator {
    Declarator([], Direct(Name(id), NoSuffix))
  }

  lemma {:induction false} ArraysAppend(t: Type, lens: seq<Option<nat>>, n: Option<nat>)
    ensures ArraysOf(lens + [n], t) == ArraysOf(lens, Array(n, t))
  {
    if lens == [] {
      assert [n][1..] == [];
      assert [] + [n] == [n];
    } else {
      assert (lens + [n])[1..] == lens[1..] + [n];
      ArraysAppend(t, lens[1..], n);
    }
  }

  /** No parentheses with no suffix of their own are written. */
  predicate Written(d: Declarator) {
    WellFormed(d) && !(d.direct.core.Paren? && d.direct.suffix.NoSuffix?)
  }

  lemma {:induction false} WriteMeans(t: Type, d: Declarator)
    requires Written(d)
    ensures var (b, d') := Write(t, d);
      Written(d') && Meaning(b, d') == Meaning(t, d) && DeclaredName(d') == DeclaredName(d)
      && !b.Pointer? && !b.Array? && !b.Function?
    decreases t
  {
    match t
    case Pointer(c, v, u) =>
      var q := (if c then [Const] else []) + (if v then [Volatile] else []);
      var d1 := d.(pointers := [q] + d.pointers);
      assert Qualifiers(q) && PointerTo(q, u) == t;
      assert d1.pointers[1..] == d.pointers;
      WriteMeans(u, d1);
    case Array(n, u) =>
      if d.pointers == [] && !d.direct.suffix.Call? {
        var lens := if d.direct.suffix.Arrays? then d.direct.suffix.lens else [];
        ArraysAppend(u, lens, n);
        WriteMeans(u, Declarator([], Direct(d.direct.core, Arrays(lens + [n]))));
      } else {
        assert ArraysOf([n], u) == Array(n, ArraysOf([], u));
        WriteMeans(u, Declarator([], Direct(Paren(d), Arrays([n]))));
      }
    case Function(p, u) =>
      if d.pointers == [] && d.direct.suffix.NoSuffix? {
        WriteMeans(u, Declarator([], Direct(d.direct.core, Call(p, false))));
      } else {
        WriteMeans(u, Declarator([], Direct(Paren(d), Call(p, false))));
      }
    case _ =>
  }

  /** Every type can be written as a declaration, and reading it gives the type
      back, arrays of void included. */
  lemma WriteThenRead(t: Type, id: nat, s: seq<Tok>)
    requires Ends(s)
    ensures var (base, d) := Write(t, NameOnly(id));
      Declare(base, Print(d) + s) == Declared(t, id, s, true)
  {
    hide Write, Declare, Print;
    WriteMeans(t, NameOnly(id));
    var (base, d) := Write(t, NameOnly(id));
    assert Meaning(t, NameOnly(id)) == t;
    ReadsDeclarator(base, d, s);
  }
}
