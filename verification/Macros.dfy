/** Macro expansion inside the preprocessor: `expand_all_macros` over a buffer of
    tokens, `expand_macro` for one name in it, and `expand_macro_body`. A macro is
    switched off while its replacement is rescanned and its leftover names are
    painted when that is done. */
module Macros {
  import opened Options

  type Name = nat

  /** Painted names were IDENTIFIER and are now EXPANDED_IDENT. */
  datatype Tok =
    | Ident(name: Name) | Painted(name: Name)
    | LParen | RParen | Comma | Space | Newline | Hash | HashHash
    | Arg(k: nat)      // a parameter, in a macro body only
    | Other(id: nat)

  datatype Macro = Object(body: seq<Tok>) | Func(params: nat, body: seq<Tok>) | Magic(value: nat)

  type Table = map<Name, Macro>

  /** `##` and `#` make new text and scan it, which is not modelled: any tokens
      can come of a paste and any one token of a parameter. */
  datatype Lexer = Lexer(paste: (Operand, Operand) -> seq<Tok>, stringify: seq<Tok> -> nat)

  datatype Operand = Token(t: Tok) | Param(toks: seq<Tok>)

  /** Bodies name only the parameters that there are. */
  predicate WellFormed(t: Table) {
    forall n :: n in t ==>
      match t[n]
      case Object(body) => forall i :: 0 <= i < |body| ==> !body[i].Arg?
      case Func(params, body) => forall i :: 0 <= i < |body| ==> body[i].Arg? ==> body[i].k < params
      case Magic(_) => true
  }

  predicate ArgsBelow(body: seq<Tok>, n: nat) {
    forall i :: 0 <= i < |body| ==> body[i].Arg? ==> body[i].k < n
  }

  function Body(m: Macro): seq<Tok> {
    match m
    case Object(body) => body
    case Func(_, body) => body
    case Magic(v) => [Other(v)]
  }

  /** The first place from `i` on that is not white space. */
  function Solid(body: seq<Tok>, i: nat): (nx: nat)
    requires i <= |body|
    ensures i <= nx <= |body|
    decreases |body| - i
  {
    if i < |body| && body[i].Space? then Solid(body, i + 1) else i
  }

  function SkipBlank(s: seq<Tok>): (r: seq<Tok>)
    ensures |r| <= |s|
  {
    if s != [] && (s[0].Space? || s[0].Newline?) then SkipBlank(s[1..]) else s
  }

  /** One argument of a call: its tokens, what stopped it and what follows. */
  datatype Taken = Unclosed | Taken(arg: seq<Tok>, close: bool, rest: seq<Tok>)

  function TakeArg(s: seq<Tok>, parens: nat): (r: Taken)
    requires parens > 0
    ensures r.Taken? ==> |r.arg| + |r.rest| < |s|
  {
    if s == [] then Unclosed
    else if s[0].RParen? && parens == 1 then Taken([], true, s[1..])
    else if s[0].Comma? && parens == 1 then Taken([], false, s[1..])
    else
      var p := if s[0].LParen? then parens + 1 else if s[0].RParen? then parens - 1 else parens;
      match TakeArg(s[1..], p)
      case Unclosed => Unclosed
      case Taken(arg, close, rest) => Taken([if s[0].Newline? then Space else s[0]] + arg, close, rest)
  }

  datatype Args = NoClose | Args(params: seq<seq<Tok>>, rest: seq<Tok>)

  /** The arguments after the open parenthesis; an empty last one is not counted. */
  function TakeArgs(s: seq<Tok>): (r: Args)
    ensures r.Args? ==> |r.rest| < |s| && forall i :: 0 <= i < |r.params| ==> |r.params[i]| < |s|
    decreases |s|
  {
    if s == [] then NoClose
    else if s[0].RParen? then Args([], s[1..])
    else
      match TakeArg(s, 1)
      case Unclosed => NoClose
      case Taken(arg, true, rest) => Args([arg], rest)
      case Taken(arg, false, rest) =>
        match TakeArgs(rest)
        case NoClose => NoClose
        case Args(params, rest') => Args([arg] + params, rest')
  }

  /** What `expand_macro` does for a name and the tokens after it: leave the name
      and go on, leave it and lose everything after the next token, replace the
      call, or run off the end of the buffer, which is an error. */
  datatype Outcome = Left(rest: seq<Tok>) | Cut(back: seq<Tok>) | Replaced(toks: seq<Tok>, rest: seq<Tok>) | Broken

  function Append(a: Option<seq<Tok>>, b: Option<seq<Tok>>): Option<seq<Tok>> {
    if a.Some? && b.Some? then Some(a.value + b.value) else None
  }

  function Paint(s: seq<Tok>, names: set<Name>): (r: seq<Tok>)
    ensures |r| == |s|
    ensures forall i :: 0 <= i < |s| ==>
      r[i] == if s[i].Ident? && s[i].name in names then Painted(s[i].name) else s[i]
  {
    if s == [] then []
    else [if s[0].Ident? && s[0].name in names then Painted(s[0].name) else s[0]] + Paint(s[1..], names)
  }

  function Enabled(t: Table, off: set<Name>): set<Name> {
    t.Keys - off
  }

  lemma Fewer(t: Table, off: set<Name>, n: Name)
    requires n in t && n !in off
    ensures |Enabled(t, off + {n})| < |Enabled(t, off)|
  {
    assert Enabled(t, off) == Enabled(t, off + {n}) + {n};
  }

  /** All macros in a buffer, those in `off` being switched off; nothing when an
      argument list runs off the end. For every table this ends: a rescan has one
      macro fewer, everything else fewer tokens. */
  function ExpandAll(x: Lexer, t: Table, off: set<Name>, s: seq<Tok>): Option<seq<Tok>>
    requires WellFormed(t)
    decreases |Enabled(t, off)|, |s|
  {
    if s == [] then Some([])
    else if !(s[0].Ident? && s[0].name in t) then Append(Some([s[0]]), ExpandAll(x, t, off, s[1..]))
    else
      match Expand(x, t, off, s[0].name, s[1..])
      case Left(rest) => Append(Some([s[0]]), ExpandAll(x, t, off, rest))
      case Cut(back) => Append(Some([s[0]]), ExpandAll(x, t, off, back))
      case Replaced(toks, rest) => Append(Some(toks), ExpandAll(x, t, off, rest))
      case Broken => None
  }

  function Expand(x: Lexer, t: Table, off: set<Name>, n: Name, s: seq<Tok>): (r: Outcome)
    requires WellFormed(t) && n in t
    ensures r.Left? || r.Replaced? ==> |r.rest| <= |s|
    ensures r.Cut? ==> |r.back| <= 1 && |r.back| <= |s|
    decreases |Enabled(t, off)|, |s| + 1, 1, 0
  {
    if n in off then Left(s)
    else if !t[n].Func? then Into(Call(x, t, off, n, [], |s| + 1), s)
    else
      var next := SkipBlank(s);
      if next == [] then Cut([])
      else if next[0] != LParen then Cut([next[0]])
      else
        match TakeArgs(next[1..])
        case NoClose => Broken
        case Args(params, rest) =>
          if |params| != t[n].params then Left(rest) else Into(Call(x, t, off, n, params, |s| + 1), rest)
  }

  function Into(toks: Option<seq<Tok>>, rest: seq<Tok>): Outcome {
    if toks.Some? then Replaced(toks.value, rest) else Broken
  }

  /** Arguments go in expanded, while the macro is still on; then it is off for
      the rescan, and the names it leaves are painted. */
  function Call(x: Lexer, t: Table, off: set<Name>, n: Name, params: seq<seq<Tok>>, bound: nat): Option<seq<Tok>>
    requires WellFormed(t) && n in t && n !in off
    requires if t[n].Func? then |params| == t[n].params else params == []
    requires forall i :: 0 <= i < |params| ==> |params[i]| < bound
    decreases |Enabled(t, off)|, bound, 0, |Body(t[n])| + 1
  {
    match Subst(x, t, off, params, Body(t[n]), 0, bound)
    case None => None
    case Some(text) =>
      Fewer(t, off, n);
      match ExpandAll(x, t, off + {n}, text)
      case None => None
      case Some(toks) => Some(Paint(toks, {n}))
  }

  function AsOperand(t: Tok, params: seq<seq<Tok>>): Operand
    requires t.Arg? ==> t.k < |params|
  {
    if t.Arg? then Param(params[t.k]) else Token(t)
  }

  /** What is put in place of the body token at `i`, and where to go on. */
  function Piece(x: Lexer, t: Table, off: set<Name>, params: seq<seq<Tok>>, body: seq<Tok>, i: nat, bound: nat)
    : (r: (Option<seq<Tok>>, nat))
    requires WellFormed(t) && ArgsBelow(body, |params|) && i < |body|
    requires forall k :: 0 <= k < |params| ==> |params[k]| < bound
    ensures i < r.1 <= |body|
    decreases |Enabled(t, off)|, bound, 0, |body| - i, 0
  {
    var nx := Solid(body, i + 1);
    if nx < |body| && body[nx].HashHash? then
      var e := Solid(body, nx + 1);
      if e >= |body| then (Some([]), |body|)
      else (Some(x.paste(AsOperand(body[i], params), AsOperand(body[e], params))), e + 1)
    else if body[i].Hash? && nx < |body| && body[nx].Arg? then
      (Some([Other(x.stringify(params[body[nx].k]))]), nx + 1)
    else
      var first :=
        if body[i].Arg? then ExpandAll(x, t, off, params[body[i].k])
        else if body[i].Hash? || body[i].Newline? then Some([])
        else Some([body[i]]);
      (Append(first, Some(body[i + 1..nx])), nx)
  }

  /** The body from `i` on with arguments in place of parameters. */
  function Subst(x: Lexer, t: Table, off: set<Name>, params: seq<seq<Tok>>, body: seq<Tok>, i: nat, bound: nat)
    : Option<seq<Tok>>
    requires WellFormed(t) && ArgsBelow(body, |params|) && i <= |body|
    requires forall k :: 0 <= k < |params| ==> |params[k]| < bound
    decreases |Enabled(t, off)|, bound, 0, |body| - i
  {
    if i == |body| then Some([])
    else
      var (piece, next) := Piece(x, t, off, params, body, i, bound);
      Append(piece, Subst(x, t, off, params, body, next, bound))
  }

  // ----- what is left in an expanded buffer -----

  /** No name of an object-like macro that is on. */
  predicate Done(t: Table, off: set<Name>, s: seq<Tok>) {
    forall i :: 0 <= i < |s| ==> s[i].Ident? && s[i].name in t && s[i].name !in off ==> t[s[i].name].Func?
  }

  lemma {:induction false} ExpandedIsDone(x: Lexer, t: Table, off: set<Name>, s: seq<Tok>)
    requires WellFormed(t) && ExpandAll(x, t, off, s).Some?
    ensures Done(t, off, ExpandAll(x, t, off, s).value)
    decreases |Enabled(t, off)|, |s|
  {
    hide Expand, WellFormed;
    if s != [] {
      if !(s[0].Ident? && s[0].name in t) {
        ExpandedIsDone(x, t, off, s[1..]);
      } else {
        CallIsDone(x, t, off, s[0].name, s[1..]);
        var r := Expand(x, t, off, s[0].name, s[1..]);
        ExpandedIsDone(x, t, off, if r.Cut? then r.back else r.rest);
      }
    }
  }

  lemma {:induction false} CallIsDone(x: Lexer, t: Table, off: set<Name>, n: Name, s: seq<Tok>)
    requires WellFormed(t) && n in t
    ensures var r := Expand(x, t, off, n, s);
      if r.Replaced? then Done(t, off, r.toks) else (r.Left? && n in off) || r.Broken? || t[n].Func?
    decreases |Enabled(t, off)|, |s| + 1, 0
  {
    hide WellFormed, ExpandAll, Subst;
    var r := Expand(x, t, off, n, s);
    if r.Replaced? {
      Fewer(t, off, n);
      var text, toks := Rescanned(x, t, off, n, s);
      ExpandedIsDone(x, t, off + {n}, text);
    }
  }

  /** A replaced call went through a text that was expanded with the macro off. */
  lemma Rescanned(x: Lexer, t: Table, off: set<Name>, n: Name, s: seq<Tok>) returns (text: seq<Tok>, toks: seq<Tok>)
    requires WellFormed(t) && n in t && Expand(x, t, off, n, s).Replaced?
    ensures n !in off && ExpandAll(x, t, off + {n}, text) == Some(toks)
    ensures Expand(x, t, off, n, s).toks == Paint(toks, {n})
  {
    hide ExpandAll, Subst;
    if t[n].Func? {
      var params := TakeArgs(SkipBlank(s)[1..]).params;
      text := Subst(x, t, off, params, Body(t[n]), 0, |s| + 1).value;
    } else {
      text := Subst(x, t, off, [], Body(t[n]), 0, |s| + 1).value;
    }
    toks := ExpandAll(x, t, off + {n}, text).value;
  }

  // ----- object-like macros: the nested-name rule of the standard -----

  /** Object-like macros only, without `#` and `##`. */
  predicate Plain(t: Table) {
    forall n :: n in t ==> t[n].Object? && forall i :: 0 <= i < |t[n].body| ==> PlainTok(t[n].body[i])
  }

  predicate PlainTok(k: Tok) {
    !k.Arg? && !k.Hash? && !k.HashHash? && !k.Newline?
  }

  /** Section 6.8.3.4: a name found while its own replacement is being made is
      painted where it stands and is never replaced again. */
  function Reference(t: Table, nested: set<Name>, s: seq<Tok>): seq<Tok>
    requires Plain(t)
    decreases |Enabled(t, nested)|, |s|
  {
    if s == [] then []
    else
      var first :=
        if s[0].Ident? && s[0].name in nested then [Painted(s[0].name)]
        else if s[0].Ident? && s[0].name in t then
          Fewer(t, nested, s[0].name);
          Reference(t, nested + {s[0].name}, t[s[0].name].body)
        else [s[0]];
      first + Reference(t, nested, s[1..])
  }

  lemma PlainIsWellFormed(t: Table)
    requires Plain(t)
    ensures WellFormed(t)
  {
    forall n | n in t ensures forall i :: 0 <= i < |t[n].body| ==> !t[n].body[i].Arg? {
      assert forall i :: 0 <= i < |t[n].body| ==> PlainTok(t[n].body[i]);
    }
  }

  lemma {:induction false} SubstPlain(x: Lexer, t: Table, off: set<Name>, body: seq<Tok>, i: nat, bound: nat)
    requires WellFormed(t) && ArgsBelow(body, 0) && i <= |body| && forall k :: 0 <= k < |body| ==> PlainTok(body[k])
    ensures Subst(x, t, off, [], body, i, bound) == Some(body[i..])
    decreases |body| - i
  {
    if i < |body| {
      var nx := Solid(body, i + 1);
      SubstPlain(x, t, off, body, nx, bound);
      assert body[i..] == ([body[i]] + body[i + 1..nx]) + body[nx..];
    }
  }

  lemma {:induction false} PaintConcat(a: seq<Tok>, b: seq<Tok>, names: set<Name>)
    ensures Paint(a + b, names) == Paint(a, names) + Paint(b, names)
  {
  }

  lemma PaintTwice(s: seq<Tok>, off: set<Name>, n: Name)
    ensures Paint(Paint(s, {n}), off) == Paint(s, off + {n})
  {
  }

  /** What `expand_macro` gives for an object-like macro that is on. */
  lemma ExpandPlain(x: Lexer, t: Table, off: set<Name>, n: Name, s: seq<Tok>)
    requires Plain(t) && WellFormed(t) && n in t && n !in off
    ensures Expand(x, t, off, n, s) ==
      match ExpandAll(x, t, off + {n}, t[n].body)
      case None => Broken
      case Some(toks) => Replaced(Paint(toks, {n}), s)
  {
    hide ExpandAll, Subst;
    SubstPlain(x, t, off, t[n].body, 0, |s| + 1);
    assert t[n].body[0..] == t[n].body;
  }

  /** In the middle of nested expansions the buffer is the reference's but for
      painting the names that are off, which the calls under way still do. */
  lemma {:induction false} NestedIsReference(x: Lexer, t: Table, off: set<Name>, s: seq<Tok>)
    requires Plain(t) && WellFormed(t) && off <= t.Keys
    ensures ExpandAll(x, t, off, s).Some?
    ensures Paint(ExpandAll(x, t, off, s).value, off) == Reference(t, off, s)
    decreases |Enabled(t, off)|, |s|
  {
    hide Plain, WellFormed, Expand, Paint;
    if s == [] {
      assert Paint([], off) == [];
    } else {
      NestedIsReference(x, t, off, s[1..]);
      var rest := ExpandAll(x, t, off, s[1..]).value;
      if s[0].Ident? && s[0].name in t && s[0].name !in off {
        NestedCall(x, t, off, s[0].name, s[1..]);
        PaintConcat(Expand(x, t, off, s[0].name, s[1..]).toks, rest, off);
      } else {
        if s[0].Ident? && s[0].name in t { LeftWhenOff(x, t, off, s[0].name, s[1..]); }
        PaintConcat([s[0]], rest, off);
      }
    }
  }

  lemma {:induction false} NestedCall(x: Lexer, t: Table, off: set<Name>, n: Name, s: seq<Tok>)
    requires Plain(t) && WellFormed(t) && off <= t.Keys && n in t && n !in off
    ensures t[n].Object? && Expand(x, t, off, n, s).Replaced? && Expand(x, t, off, n, s).rest == s
    ensures Paint(Expand(x, t, off, n, s).toks, off) == Reference(t, off + {n}, t[n].body)
    decreases |Enabled(t, off)|, 0
  {
    hide Plain, WellFormed, Expand, Paint, ExpandAll, Reference;
    Fewer(t, off, n);
    IsObject(t, n);
    ExpandPlain(x, t, off, n, s);
    NestedIsReference(x, t, off + {n}, t[n].body);
    PaintTwice(ExpandAll(x, t, off + {n}, t[n].body).value, off, n);
  }

  lemma IsObject(t: Table, n: Name)
    requires Plain(t) && n in t
    ensures t[n].Object?
  {
  }

  lemma LeftWhenOff(x: Lexer, t: Table, off: set<Name>, n: Name, s: seq<Tok>)
    requires WellFormed(t) && n in t && n in off
    ensures Expand(x, t, off, n, s) == Left(s)
  {
  }

  /** A buffer expanded from the outside is what the standard's rule gives. */
  lemma ExpandsToReference(x: Lexer, t: Table, s: seq<Tok>)
    requires Plain(t)
    ensures WellFormed(t) && ExpandAll(x, t, {}, s) == Some(Reference(t, {}, s))
  {
    hide ExpandAll, Reference;
    PlainIsWellFormed(t);
    NestedIsReference(x, t, {}, s);
    var r := ExpandAll(x, t, {}, s).value;
    assert Paint(r, {}) == r;
  }

  /** Tokens with no macro name among them come back as they are. */
  lemma {:induction false} NoNames(x: Lexer, t: Table, off: set<Name>, s: seq<Tok>)
    requires WellFormed(t) && forall i :: 0 <= i < |s| ==> s[i].Ident? ==> s[i].name !in t
    ensures ExpandAll(x, t, off, s) == Some(s)
    decreases |s|
  {
    hide WellFormed, Expand;
    if s != [] {
      NoNames(x, t, off, s[1..]);
      assert s == [s[0]] + s[1..];
    }
  }

  /** Expanding a second time changes nothing, whatever refers to whatever. */
  lemma ExpandTwice(x: Lexer, t: Table, s: seq<Tok>)
    requires Plain(t)
    ensures WellFormed(t) && ExpandAll(x, t, {}, s).Some?
    ensures ExpandAll(x, t, {}, ExpandAll(x, t, {}, s).value) == ExpandAll(x, t, {}, s)
  {
    hide ExpandAll, Reference, Plain, WellFormed;
    ExpandsToReference(x, t, s);
    ExpandedIsDone(x, t, {}, s);
    var r := ExpandAll(x, t, {}, s).value;
    forall i | 0 <= i < |r| && r[i].Ident? ensures r[i].name !in t {
      if r[i].name in t { IsObject(t, r[i].name); }
    }
    NoNames(x, t, {}, r);
  }

  // ----- the tokens of an argument -----

  predicate Word(a: Tok) {
    a.Ident? || a.Painted? || a.Other?
  }

  function Prefixed(a: seq<Tok>, r: Taken): Taken {
    if r.Unclosed? then Unclosed else Taken(a + r.arg, r.close, r.rest)
  }

  lemma TakeStep(k: Tok, s: seq<Tok>, parens: nat)
    requires parens > 0
    ensures var p := if k.LParen? then parens + 1 else if k.RParen? then parens - 1 else parens;
      TakeArg([k] + s, parens) ==
        if p == 0 then Taken([], true, s)
        else if k.Comma? && p == 1 then Taken([], false, s)
        else Prefixed([if k.Newline? then Space else k], TakeArg(s, p))
  {
    assert ([k] + s)[1..] == s;
  }

  lemma PrefixTwice(a: seq<Tok>, b: seq<Tok>, r: Taken)
    ensures Prefixed(a, Prefixed(b, r)) == Prefixed(a + b, r)
  {
    if r.Taken? { assert a + (b + r.arg) == (a + b) + r.arg; }
  }

  lemma SubstOne(x: Lexer, t: Table, off: set<Name>, params: seq<seq<Tok>>, k: Tok, bound: nat)
    requires WellFormed(t) && (k.Arg? ==> k.k < |params|) && !k.Hash? && !k.Newline?
    requires forall i :: 0 <= i < |params| ==> |params[i]| < bound
    ensures Subst(x, t, off, params, [k], 0, bound) == if k.Arg? then ExpandAll(x, t, off, params[k.k]) else Some([k])
  {
    hide WellFormed, ExpandAll;
    var body := [k];
    assert body[1..1] == [] && Solid(body, 1) == 1;
    assert Subst(x, t, off, params, body, 1, bound) == Some([]);
    var first := if k.Arg? then ExpandAll(x, t, off, params[k.k]) else Some([k]);
    if first.Some? { assert (first.value + []) + [] == first.value; }
  }

  /** With function-like macros a name left over may meet its parenthesis later,
      and then a second expansion does more. */
  lemma LeftoverNameExpands(x: Lexer)
    ensures var t := map[0 := Object([Ident(1)]), 1 := Func(0, [Other(7)])];
      var s := [Ident(0), LParen, RParen];
      && WellFormed(t)
      && ExpandAll(x, t, {}, s) == Some([Ident(1), LParen, RParen])
      && ExpandAll(x, t, {}, [Ident(1), LParen, RParen]) == Some([Other(7)])
  {
    var t := map[0 := Object([Ident(1)]), 1 := Func(0, [Other(7)])];
    var parens := [LParen, RParen];
    assert WellFormed(t);
    assert [Ident(0), LParen, RParen] == [Ident(0)] + parens && ([Ident(0)] + parens)[1..] == parens;
    assert [Ident(1), LParen, RParen] == [Ident(1)] + parens && ([Ident(1)] + parens)[1..] == parens;
    assert Expand(x, t, {}, 0, parens) == Replaced([Ident(1)], parens) by { Leaves(x, t, parens); }
    assert Expand(x, t, {}, 1, parens) == Replaced([Other(7)], []) by { Meets(x, t, parens); }
    hide Expand;
    NoNames(x, t, {}, parens);
    NoNames(x, t, {}, []);
    assert [Other(7)] + [] == [Other(7)];
  }

  lemma Leaves(x: Lexer, t: Table, s: seq<Tok>)
    requires t == map[0 := Object([Ident(1)]), 1 := Func(0, [Other(7)])] && WellFormed(t)
    ensures Expand(x, t, {}, 0, s) == Replaced([Ident(1)], s)
  {
    SubstOne(x, t, {}, [], Ident(1), |s| + 1);
    assert Expand(x, t, {0}, 1, []) == Cut([]);
    NoNames(x, t, {0}, []);
    assert [Ident(1)][1..] == [] && [Ident(1)] + [] == [Ident(1)];
    hide Expand, Subst;
    assert ExpandAll(x, t, {0}, [Ident(1)]) == Some([Ident(1)]);
    assert {} + {0} == {0};
    assert Paint([Ident(1)], {0}) == [Ident(1)];
  }

  lemma Meets(x: Lexer, t: Table, parens: seq<Tok>)
    requires t == map[0 := Object([Ident(1)]), 1 := Func(0, [Other(7)])] && WellFormed(t) && parens == [LParen, RParen]
    ensures Expand(x, t, {}, 1, parens) == Replaced([Other(7)], [])
  {
    assert parens[1..] == [RParen] && [RParen][1..] == [];
    assert TakeArgs([RParen]) == Args([], []);
    SubstOne(x, t, {}, [], Other(7), 3);
    NoNames(x, t, {1}, [Other(7)]);
    assert {} + {1} == {1};
    hide ExpandAll, Subst;
    assert Paint([Other(7)], {1}) == [Other(7)];
  }
}
