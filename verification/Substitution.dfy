/** Calls of function-like macros, against section 6.8.3 of ISO/IEC 9899:1990: the
    arguments are split at top-level commas, each parameter is replaced by its
    argument fully expanded, and the result is rescanned with the macro off. */
module Substitution {
  import opened Options
  import opened Macros

  // ----- arguments -----

  /** Parentheses close, d of them having been opened before, and commas stand
      only inside parentheses. */
  predicate Within(a: seq<Tok>, d: nat) {
    if a == [] then d == 0
    else
      match a[0]
      case LParen => Within(a[1..], d + 1)
      case RParen => d > 0 && Within(a[1..], d - 1)
      case Comma => d > 0 && Within(a[1..], d)
      case _ => Within(a[1..], d)
  }

  /** Newlines in an argument count as white space. */
  function Spaced(a: seq<Tok>): (r: seq<Tok>)
    ensures |r| == |a|
  {
    if a == [] then [] else [if a[0].Newline? then Space else a[0]] + Spaced(a[1..])
  }

  function AllSpaced(args: seq<seq<Tok>>): (r: seq<seq<Tok>>)
    ensures |r| == |args| && forall i :: 0 <= i < |args| ==> r[i] == Spaced(args[i])
  {
    if args == [] then [] else [Spaced(args[0])] + AllSpaced(args[1..])
  }

  /** The arguments with commas between them. */
  function Joined(args: seq<seq<Tok>>): seq<Tok> {
    if args == [] then [] else if |args| == 1 then args[0] else args[0] + [Comma] + Joined(args[1..])
  }

  predicate Arguments(args: seq<seq<Tok>>) {
    && (forall i :: 0 <= i < |args| ==> Within(args[i], 0))
    && (args != [] ==> args[|args| - 1] != [])
  }

  lemma {:induction false} TakeWithin(a: seq<Tok>, d: nat, s: seq<Tok>)
    requires Within(a, d)
    ensures TakeArg(a + s, d + 1) == Prefixed(Spaced(a), TakeArg(s, 1))
    decreases |a|
  {
    hide TakeArg, Prefixed;
    if a == [] {
      assert a + s == s;
      PrefixNone(TakeArg(s, 1));
    } else {
      var k := a[0];
      var p := if k.LParen? then d + 1 else if k.RParen? then d - 1 else d;
      assert a + s == [k] + (a[1..] + s);
      TakeStep(k, a[1..] + s, d + 1);
      TakeWithin(a[1..], p, s);
      PrefixTwice([if k.Newline? then Space else k], Spaced(a[1..]), TakeArg(s, 1));
    }
  }

  lemma PrefixNone(r: Taken)
    ensures Prefixed([], r) == r
  {
    if r.Taken? { assert [] + r.arg == r.arg; }
  }

  /** Every argument is found, and the text goes on after the parenthesis. */
  lemma {:induction false} TakesArguments(args: seq<seq<Tok>>, rest: seq<Tok>)
    requires Arguments(args)
    ensures TakeArgs(Joined(args) + ([RParen] + rest)) == Args(AllSpaced(args), rest)
    decreases |args|
  {
    hide TakeArg;
    var s := Joined(args) + ([RParen] + rest);
    if args == [] {
      assert s == [RParen] + rest;
      assert s[1..] == rest;
    } else {
      var tail := if |args| == 1 then [RParen] + rest else [Comma] + (Joined(args[1..]) + ([RParen] + rest));
      assert s == args[0] + tail;
      TakeWithin(args[0], 0, tail);
      NotClosed(args[0], tail);
      if |args| == 1 {
        TakeStep(RParen, rest, 1);
        assert TakeArg(s, 1) == Taken(Spaced(args[0]) + [], true, rest);
        assert Spaced(args[0]) + [] == Spaced(args[0]);
        assert AllSpaced(args) == [Spaced(args[0])] + AllSpaced([]);
      } else {
        var more := Joined(args[1..]) + ([RParen] + rest);
        TakeStep(Comma, more, 1);
        assert TakeArg(s, 1) == Taken(Spaced(args[0]) + [], false, more);
        assert Spaced(args[0]) + [] == Spaced(args[0]);
        TakesArguments(args[1..], rest);
      }
    }
  }

  lemma NotClosed(a: seq<Tok>, tail: seq<Tok>)
    requires Within(a, 0) && tail != [] && (a == [] ==> !tail[0].RParen?)
    ensures a + tail != [] && !(a + tail)[0].RParen?
  {
  }

  // ----- bodies -----

  /** What a body is made of: tokens, parameters, `#` and a parameter, and two
      tokens or parameters with `##` between them. */
  datatype Part =
    | Text(t: Tok)
    | Parameter(k: nat)
    | Stringized(gap: nat, k: nat)
    | Pasted(l: Tok, before: nat, after: nat, r: Tok)

  function Blanks(n: nat): (s: seq<Tok>)
    ensures |s| == n && forall i :: 0 <= i < n ==> s[i] == Space
  {
    if n == 0 then [] else [Space] + Blanks(n - 1)
  }

  function PartToks(p: Part): (s: seq<Tok>)
    ensures |s| > 0
  {
    match p
    case Text(t) => [t]
    case Parameter(k) => [Arg(k)]
    case Stringized(gap, k) => [Hash] + Blanks(gap) + [Arg(k)]
    case Pasted(l, before, after, r) => [l] + Blanks(before) + [HashHash] + Blanks(after) + [r]
  }

  function Toks(parts: seq<Part>): seq<Tok> {
    if parts == [] then [] else PartToks(parts[0]) + Toks(parts[1..])
  }

  predicate Proper(p: Part, n: nat) {
    match p
    case Text(t) => !t.Arg? && !t.Hash? && !t.HashHash?
    case Parameter(k) => k < n
    case Stringized(_, k) => k < n
    case Pasted(l, _, _, r) => Side(l, n) && Side(r, n)
  }

  predicate Side(t: Tok, n: nat) {
    !t.HashHash? && !t.Space? && (t.Arg? ==> t.k < n)
  }

  predicate AllProper(parts: seq<Part>, n: nat) {
    forall i :: 0 <= i < |parts| ==> Proper(parts[i], n)
  }

  /** A parameter stands for the argument as it was written, next to `##`. */
  function AsWritten(t: Tok, params: seq<seq<Tok>>): Operand
    requires t.Arg? ==> t.k < |params|
  {
    match t
    case Arg(k) => Param(params[k])
    case _ => Token(t)
  }

  /** What a part comes to; a parameter, to its argument expanded. A newline in a
      body is dropped. */
  function Filling(x: Lexer, params: seq<seq<Tok>>, full: seq<Option<seq<Tok>>>, p: Part): Option<seq<Tok>>
    requires Proper(p, |params|) && |full| == |params|
  {
    match p
    case Text(t) => Some(if t.Newline? then [] else [t])
    case Parameter(k) => full[k]
    case Stringized(_, k) => Some([Other(x.stringify(params[k]))])
    case Pasted(l, _, _, r) => Some(x.paste(AsWritten(l, params), AsWritten(r, params)))
  }

  function Fill(x: Lexer, params: seq<seq<Tok>>, full: seq<Option<seq<Tok>>>, parts: seq<Part>): Option<seq<Tok>>
    requires AllProper(parts, |params|) && |full| == |params|
  {
    if parts == [] then Some([])
    else Append(Filling(x, params, full, parts[0]), Fill(x, params, full, parts[1..]))
  }

  /** The arguments, each expanded with the macros that are on. */
  ghost predicate Expansions(x: Lexer, t: Table, off: set<Name>, params: seq<seq<Tok>>, full: seq<Option<seq<Tok>>>)
    requires WellFormed(t)
  {
    |full| == |params| && forall k :: 0 <= k < |params| ==> full[k] == ExpandAll(x, t, off, params[k])
  }

  lemma {:induction false} ToksBelow(parts: seq<Part>, n: nat)
    requires AllProper(parts, n)
    ensures ArgsBelow(Toks(parts), n)
  {
    if parts != [] {
      ToksBelow(parts[1..], n);
      assert Proper(parts[0], n);
      var a, b := PartToks(parts[0]), Toks(parts[1..]);
      var s: seq<Tok> := a + b;
      forall i | 0 <= i < |s| ensures s[i].Arg? ==> s[i].k < n {
        if i >= |a| { assert s[i] == b[i - |a|]; }
      }
    }
  }

  lemma {:induction false} SolidAfter(body: seq<Tok>, i: nat, gap: nat)
    requires i + gap <= |body| && body[i..i + gap] == Blanks(gap)
    requires i + gap < |body| ==> !body[i + gap].Space?
    ensures Solid(body, i) == i + gap
    decreases gap
  {
    if gap > 0 {
      assert body[i] == body[i..i + gap][0];
      assert body[i + 1..i + gap] == body[i..i + gap][1..] == Blanks(gap)[1..];
      SolidAfter(body, i + 1, gap - 1);
    }
  }

  /** The next token that is not white space is no `##`. */
  lemma {:induction false} NoPasteNext(body: seq<Tok>, i: nat, parts: seq<Part>, n: nat)
    requires i <= |body| && body[i..] == Toks(parts) && AllProper(parts, n)
    ensures var nx := Solid(body, i); nx < |body| ==> !body[nx].HashHash?
    decreases |parts|
  {
    if parts != [] {
      assert Proper(parts[0], n);
      var a, b := PartToks(parts[0]), Toks(parts[1..]);
      assert body[i] == body[i..][0] == a[0];
      if body[i].Space? {
        assert parts[0] == Text(Space);
        assert body[i + 1..] == body[i..][1..] == b;
        NoPasteNext(body, i + 1, parts[1..], n);
      }
    }
  }

  /** White space that is not before a `##` is copied. */
  lemma CopiesBlanks(x: Lexer, t: Table, off: set<Name>, params: seq<seq<Tok>>, body: seq<Tok>, i: nat, bound: nat)
    requires WellFormed(t) && ArgsBelow(body, |params|) && i <= |body|
    requires forall k :: 0 <= k < |params| ==> |params[k]| < bound
    requires var nx := Solid(body, i); nx < |body| ==> !body[nx].HashHash?
    ensures var nx := Solid(body, i);
      Subst(x, t, off, params, body, i, bound) == Append(Some(body[i..nx]), Subst(x, t, off, params, body, nx, bound))
  {
    hide ExpandAll, WellFormed;
    var nx := Solid(body, i);
    var r := Subst(x, t, off, params, body, nx, bound);
    if nx == i {
      assert body[i..nx] == [];
      if r.Some? { assert [] + r.value == r.value; }
    } else {
      assert body[i..nx] == [body[i]] + body[i + 1..nx];
    }
  }

  /** A token or a parameter with no `##` after it. */
  lemma OneToken(x: Lexer, t: Table, off: set<Name>, params: seq<seq<Tok>>, body: seq<Tok>, i: nat, bound: nat)
    requires WellFormed(t) && ArgsBelow(body, |params|) && i < |body|
    requires forall k :: 0 <= k < |params| ==> |params[k]| < bound
    requires var nx := Solid(body, i + 1); nx < |body| ==> !body[nx].HashHash?
    requires !body[i].Hash?
    ensures var first :=
        if body[i].Arg? then ExpandAll(x, t, off, params[body[i].k])
        else if body[i].Newline? then Some([]) else Some([body[i]]);
      Subst(x, t, off, params, body, i, bound) == Append(first, Subst(x, t, off, params, body, i + 1, bound))
  {
    hide ExpandAll, WellFormed;
    CopiesBlanks(x, t, off, params, body, i + 1, bound);
    var nx := Solid(body, i + 1);
    var first :=
      if body[i].Arg? then ExpandAll(x, t, off, params[body[i].k])
      else if body[i].Newline? then Some([]) else Some([body[i]]);
    var r := Subst(x, t, off, params, body, nx, bound);
    assert Piece(x, t, off, params, body, i, bound) == (Append(first, Some(body[i + 1..nx])), nx);
    if first.Some? && r.Some? {
      assert (first.value + body[i + 1..nx]) + r.value == first.value + (body[i + 1..nx] + r.value);
    }
  }

  /** One part, where it stands in a body. */
  lemma PartFills(x: Lexer, t: Table, off: set<Name>, params: seq<seq<Tok>>, full: seq<Option<seq<Tok>>>,
      body: seq<Tok>, i: nat, p: Part, more: seq<Part>, bound: nat)
    requires WellFormed(t) && Expansions(x, t, off, params, full)
    requires forall k :: 0 <= k < |params| ==> |params[k]| < bound
    requires ArgsBelow(body, |params|) && Proper(p, |params|) && AllProper(more, |params|)
    requires i + |PartToks(p)| <= |body|
    requires body[i..i + |PartToks(p)|] == PartToks(p) && body[i + |PartToks(p)|..] == Toks(more)
    ensures Subst(x, t, off, params, body, i, bound)
         == Append(Filling(x, params, full, p), Subst(x, t, off, params, body, i + |PartToks(p)|, bound))
  {
    hide ExpandAll, WellFormed, Subst, Piece, Toks, ArgsBelow, AllProper, Solid, AsWritten, Expansions, Append;
    match p
    case Stringized(gap, k) =>
      Sliced([Hash], Blanks(gap), [Arg(k)], body, i);
      StringizedPart(x, t, off, params, body, i, gap, k, bound);
    case Pasted(l, before, after, r) =>
      PastedPlaces(body, i, p);
      PastedPart(x, t, off, params, body, i, p, bound);
    case _ => TokenFills(x, t, off, params, full, body, i, p, more, bound);
  }

  lemma TokenFills(x: Lexer, t: Table, off: set<Name>, params: seq<seq<Tok>>, full: seq<Option<seq<Tok>>>,
      body: seq<Tok>, i: nat, p: Part, more: seq<Part>, bound: nat)
    requires WellFormed(t) && Expansions(x, t, off, params, full)
    requires forall k :: 0 <= k < |params| ==> |params[k]| < bound
    requires ArgsBelow(body, |params|) && Proper(p, |params|) && AllProper(more, |params|)
    requires (p.Text? || p.Parameter?) && i < |body|
    requires body[i..i + 1] == PartToks(p) && body[i + 1..] == Toks(more)
    ensures Subst(x, t, off, params, body, i, bound)
         == Append(Filling(x, params, full, p), Subst(x, t, off, params, body, i + 1, bound))
  {
    hide ExpandAll, WellFormed, Subst, Piece, Toks, ArgsBelow, AllProper, Solid, Append;
    NoPasteNext(body, i + 1, more, |params|);
    assert body[i] == body[i..i + 1][0];
    OneToken(x, t, off, params, body, i, bound);
  }

  lemma Sliced(a: seq<Tok>, b: seq<Tok>, c: seq<Tok>, body: seq<Tok>, i: nat)
    requires i + |a + b + c| <= |body| && body[i..i + |a + b + c|] == a + b + c
    ensures body[i..i + |a|] == a && body[i + |a|..i + |a + b|] == b && body[i + |a + b|..i + |a + b + c|] == c
  {
    var all := a + b + c;
    assert forall j :: 0 <= j < |all| ==> body[i + j] == body[i..i + |all|][j] == all[j];
    assert forall j :: 0 <= j < |a| ==> all[j] == a[j];
    assert forall j :: 0 <= j < |b| ==> all[|a| + j] == b[j];
    assert forall j :: 0 <= j < |c| ==> all[|a| + |b| + j] == c[j];
    assert forall j :: 0 <= j < |b| ==> body[i + (|a| + j)] == b[j];
    assert forall j :: 0 <= j < |c| ==> body[i + (|a| + |b| + j)] == c[j];
  }

  lemma PastedPlaces(body: seq<Tok>, i: nat, p: Part)
    requires p.Pasted? && i + |PartToks(p)| <= |body| && body[i..i + |PartToks(p)|] == PartToks(p)
    ensures var nx, e := i + 1 + p.before, i + 2 + p.before + p.after;
      && i + |PartToks(p)| == e + 1
      && body[i] == p.l && body[i + 1..nx] == Blanks(p.before) && body[nx] == HashHash
      && body[nx + 1..e] == Blanks(p.after) && body[e] == p.r
  {
    var nx, e := i + 1 + p.before, i + 2 + p.before + p.after;
    var a, b, c := [p.l] + Blanks(p.before) + [HashHash], Blanks(p.after), [p.r];
    assert PartToks(p) == a + b + c;
    Sliced(a, b, c, body, i);
    Sliced([p.l], Blanks(p.before), [HashHash], body, i);
    assert body[i] == body[i..i + 1][0] && body[nx] == body[nx..nx + 1][0] && body[e] == body[e..e + 1][0];
  }

  /** The text put in place of a call is the body with its parts filled. */
  lemma {:induction false} SubstFills(x: Lexer, t: Table, off: set<Name>, params: seq<seq<Tok>>,
      full: seq<Option<seq<Tok>>>, body: seq<Tok>, i: nat, parts: seq<Part>, bound: nat)
    requires WellFormed(t) && Expansions(x, t, off, params, full)
    requires forall k :: 0 <= k < |params| ==> |params[k]| < bound
    requires i <= |body| && ArgsBelow(body, |params|) && body[i..] == Toks(parts) && AllProper(parts, |params|)
    ensures Subst(x, t, off, params, body, i, bound) == Fill(x, params, full, parts)
    decreases |parts|
  {
    hide ExpandAll, WellFormed, Subst, Piece, PartToks, Filling, Proper, ArgsBelow, Expansions;
    if parts == [] {
      NothingLeft(x, t, off, params, body, i, bound);
    } else {
      var a := PartToks(parts[0]);
      assert a + Toks(parts[1..]) == body[i..];
      assert body[i + |a|..] == body[i..][|a|..] == Toks(parts[1..]);
      assert body[i..i + |a|] == body[i..][..|a|] == a;
      assert Proper(parts[0], |params|);
      SubstFills(x, t, off, params, full, body, i + |a|, parts[1..], bound);
      PartFills(x, t, off, params, full, body, i, parts[0], parts[1..], bound);
    }
  }

  lemma NothingLeft(x: Lexer, t: Table, off: set<Name>, params: seq<seq<Tok>>, body: seq<Tok>, i: nat, bound: nat)
    requires WellFormed(t) && ArgsBelow(body, |params|) && i <= |body| && body[i..] == []
    requires forall k :: 0 <= k < |params| ==> |params[k]| < bound
    ensures Subst(x, t, off, params, body, i, bound) == Some([])
  {
    hide ExpandAll, WellFormed, Piece;
  }

  lemma StringizedPart(x: Lexer, t: Table, off: set<Name>, params: seq<seq<Tok>>, body: seq<Tok>, i: nat, gap: nat,
      k: nat, bound: nat)
    requires WellFormed(t) && ArgsBelow(body, |params|) && k < |params|
    requires forall j :: 0 <= j < |params| ==> |params[j]| < bound
    requires i + gap + 2 <= |body| && body[i..i + 1] == [Hash] && body[i + 1..i + 1 + gap] == Blanks(gap)
    requires body[i + 1 + gap..i + 2 + gap] == [Arg(k)]
    ensures Subst(x, t, off, params, body, i, bound)
         == Append(Some([Other(x.stringify(params[k]))]), Subst(x, t, off, params, body, i + gap + 2, bound))
  {
    hide ExpandAll, WellFormed;
    assert body[i] == body[i..i + 1][0] && body[i + gap + 1] == body[i + 1 + gap..i + 2 + gap][0];
    SolidAfter(body, i + 1, gap);
  }

  lemma PastedPart(x: Lexer, t: Table, off: set<Name>, params: seq<seq<Tok>>, body: seq<Tok>, i: nat, p: Part,
      bound: nat)
    requires WellFormed(t) && ArgsBelow(body, |params|) && p.Pasted? && Proper(p, |params|)
    requires forall j :: 0 <= j < |params| ==> |params[j]| < bound
    requires var nx, e := i + 1 + p.before, i + 2 + p.before + p.after;
      && e < |body| && body[i] == p.l && body[i + 1..nx] == Blanks(p.before) && body[nx] == HashHash
      && body[nx + 1..e] == Blanks(p.after) && body[e] == p.r
    ensures Subst(x, t, off, params, body, i, bound)
         == Append(Some(x.paste(AsWritten(p.l, params), AsWritten(p.r, params))),
                   Subst(x, t, off, params, body, i + 3 + p.before + p.after, bound))
  {
    hide ExpandAll, WellFormed;
    SolidAfter(body, i + 1, p.before);
    SolidAfter(body, i + 2 + p.before, p.after);
  }

  /** `##` does not chain: with two of them and no white space only the first
      pastes, and the second is left as a token. */
  lemma PasteChain(x: Lexer, t: Table, off: set<Name>, params: seq<seq<Tok>>, l: Tok, m: Tok, r: Tok, bound: nat)
    requires WellFormed(t) && Side(l, |params|) && Side(m, |params|) && Side(r, 0) && !r.Hash? && !r.Newline?
    requires forall k :: 0 <= k < |params| ==> |params[k]| < bound
    ensures Subst(x, t, off, params, [l, HashHash, m, HashHash, r], 0, bound)
         == Some(x.paste(AsWritten(l, params), AsWritten(m, params)) + [HashHash, r])
  {
    hide ExpandAll, WellFormed;
    var body := [l, HashHash, m, HashHash, r];
    assert body[4..5] == [r] && body[5..] == [];
    assert Subst(x, t, off, params, body, 5, bound) == Some([]);
    OneToken(x, t, off, params, body, 4, bound);
    OneToken(x, t, off, params, body, 3, bound);
    var p := Pasted(l, 0, 0, m);
    assert body[1..1] == Blanks(0) && body[2..2] == Blanks(0);
    PastedPart(x, t, off, params, body, 0, p, bound);
    assert [HashHash] + ([r] + []) == [HashHash, r];
  }

  // ----- calls -----

  predicate Gap(s: seq<Tok>) {
    forall i :: 0 <= i < |s| ==> s[i].Space? || s[i].Newline?
  }

  lemma {:induction false} SkipsGap(gap: seq<Tok>, s: seq<Tok>)
    requires Gap(gap) && s != [] && !s[0].Space? && !s[0].Newline?
    ensures SkipBlank(gap + s) == s
    decreases |gap|
  {
    if gap == [] {
      assert gap + s == s;
    } else {
      assert (gap + s)[0] == gap[0] && (gap + s)[1..] == gap[1..] + s;
      SkipsGap(gap[1..], s);
    }
  }

  /** The text filled in for a call, rescanned with the macro off and its leftover
      names painted. */
  function Rescan(x: Lexer, t: Table, off: set<Name>, n: Name, text: Option<seq<Tok>>): Option<seq<Tok>>
    requires WellFormed(t) && n in t && n !in off
  {
    match text
    case None => None
    case Some(s) =>
      match ExpandAll(x, t, off + {n}, s)
      case None => None
      case Some(toks) => Some(Paint(toks, {n}))
  }

  /** A call with the right number of arguments becomes the body, filled, then
      rescanned; with another number, the name stays and the arguments are lost. */
  lemma ExpandsCall(x: Lexer, t: Table, off: set<Name>, n: Name, gap: seq<Tok>, args: seq<seq<Tok>>, rest: seq<Tok>,
      full: seq<Option<seq<Tok>>>, parts: seq<Part>)
    requires WellFormed(t) && n in t && n !in off && t[n].Func? && t[n].body == Toks(parts)
    requires Gap(gap) && Arguments(args) && AllProper(parts, t[n].params)
    requires Expansions(x, t, off, AllSpaced(args), full)
    ensures Expand(x, t, off, n, gap + ([LParen] + (Joined(args) + ([RParen] + rest))))
         == if |args| != t[n].params then Left(rest)
            else Into(Rescan(x, t, off, n, Fill(x, AllSpaced(args), full, parts)), rest)
  {
    hide ExpandAll, WellFormed, TakeArgs, Subst, Expansions, Fill, Arguments, AllProper, ArgsBelow, Paint;
    var inner := Joined(args) + ([RParen] + rest);
    var s := gap + ([LParen] + inner);
    SkipsGap(gap, [LParen] + inner);
    assert ([LParen] + inner)[1..] == inner;
    TakesArguments(args, rest);
    var params := AllSpaced(args);
    TakenBelow(inner, |s| + 1);
    if |args| == t[n].params {
      ToksBelow(parts, |params|);
      assert t[n].body[0..] == t[n].body;
      SubstFills(x, t, off, params, full, t[n].body, 0, parts, |s| + 1);
    }
  }

  lemma TakenBelow(s: seq<Tok>, bound: nat)
    requires |s| < bound && TakeArgs(s).Args?
    ensures forall k :: 0 <= k < |TakeArgs(s).params| ==> |TakeArgs(s).params[k]| < bound
  {
  }

  /** A function-like name without its parenthesis: the name stays, and of the text
      after it one token, whatever it is, is left; all the rest is lost. */
  lemma NameAlone(x: Lexer, t: Table, off: set<Name>, n: Name, gap: seq<Tok>, k: Tok, rest: seq<Tok>)
    requires WellFormed(t) && n in t && n !in off && t[n].Func?
    requires Gap(gap) && !k.LParen? && !k.Space? && !k.Newline?
    ensures ExpandAll(x, t, off, [Ident(n)] + (gap + ([k] + rest)))
         == Append(Some([Ident(n)]), ExpandAll(x, t, off, [k]))
  {
    hide WellFormed;
    var s := gap + ([k] + rest);
    SkipsGap(gap, [k] + rest);
    assert ([Ident(n)] + s)[1..] == s;
    assert Expand(x, t, off, n, s) == Cut([k]);
  }

  // ----- arguments expanded beforehand -----

  /** No name of a macro. */
  predicate Nameless(t: Table, s: seq<Tok>) {
    forall i :: 0 <= i < |s| ==> s[i].Ident? ==> s[i].name !in t
  }

  /** Neither `#` nor `##`. */
  predicate Simple(parts: seq<Part>) {
    forall i :: 0 <= i < |parts| ==> parts[i].Text? || parts[i].Parameter?
  }

  lemma {:induction false} FillSame(x: Lexer, params: seq<seq<Tok>>, params': seq<seq<Tok>>,
      full: seq<Option<seq<Tok>>>, parts: seq<Part>)
    requires Simple(parts) && |params| == |params'| == |full| && AllProper(parts, |params|)
    ensures Fill(x, params, full, parts) == Fill(x, params', full, parts)
    decreases |parts|
  {
    if parts != [] {
      assert Proper(parts[0], |params|);
      FillSame(x, params, params', full, parts[1..]);
    }
  }

  /** In a call of a macro without `#` and `##`, arguments may be expanded
      beforehand: if what they expand to has no macro name in it, the call on that
      is the same. */
  lemma ArgumentsFirst(x: Lexer, t: Table, off: set<Name>, n: Name, args: seq<seq<Tok>>, done: seq<seq<Tok>>,
      rest: seq<Tok>, parts: seq<Part>)
    requires WellFormed(t) && n in t && n !in off && t[n].Func? && t[n].body == Toks(parts)
    requires Simple(parts) && AllProper(parts, t[n].params) && Arguments(args) && Arguments(done)
    requires |done| == |args| && AllSpaced(done) == done
    requires forall k :: 0 <= k < |args| ==> ExpandAll(x, t, off, AllSpaced(args)[k]) == Some(done[k])
    requires forall k :: 0 <= k < |done| ==> Nameless(t, done[k])
    ensures Expand(x, t, off, n, [LParen] + (Joined(args) + ([RParen] + rest)))
         == Expand(x, t, off, n, [LParen] + (Joined(done) + ([RParen] + rest)))
  {
    hide ExpandAll, WellFormed, Expand;
    var full := seq(|done|, k requires 0 <= k < |done| => Some(done[k]));
    forall k | 0 <= k < |done| ensures ExpandAll(x, t, off, done[k]) == Some(done[k]) {
      assert Nameless(t, done[k]);
      NoNames(x, t, off, done[k]);
    }
    ExpandsCall(x, t, off, n, [], args, rest, full, parts);
    ExpandsCall(x, t, off, n, [], done, rest, full, parts);
    if |args| == t[n].params { FillSame(x, AllSpaced(args), done, full, parts); }
    assert [] + ([LParen] + (Joined(args) + ([RParen] + rest))) == [LParen] + (Joined(args) + ([RParen] + rest));
    assert [] + ([LParen] + (Joined(done) + ([RParen] + rest))) == [LParen] + (Joined(done) + ([RParen] + rest));
  }

  // ----- calls in the arguments of calls -----

  /** Words, white space and calls of function-like macros, in each other's arguments. */
  datatype Use = Leaf(a: Tok) | Both(l: Use, r: Use) | Apply(n: Name, args: Uses)

  datatype Uses = NoUse | MoreUse(head: Use, tail: Uses)

  function Written(u: Use): (s: seq<Tok>)
    ensures |s| > 0
  {
    match u
    case Leaf(a) => [a]
    case Both(l, r) => Written(l) + Written(r)
    case Apply(n, args) => [Ident(n)] + ([LParen] + (Joined(AllWritten(args)) + [RParen]))
  }

  function AllWritten(us: Uses): (r: seq<seq<Tok>>)
    ensures forall i :: 0 <= i < |r| ==> r[i] != []
  {
    if us.NoUse? then [] else [Written(us.head)] + AllWritten(us.tail)
  }

  /** The body with the values of the arguments for the parameters. */
  function Replace(body: seq<Tok>, values: seq<seq<Tok>>): seq<Tok>
    requires ArgsBelow(body, |values|)
  {
    if body == [] then []
    else
      (if body[0].Arg? then values[body[0].k] else if body[0].Newline? then [] else [body[0]])
      + Replace(body[1..], values)
  }

  function Value(t: Table, u: Use): seq<Tok>
    requires Sane(t, u)
  {
    match u
    case Leaf(a) => [a]
    case Both(l, r) => Value(t, l) + Value(t, r)
    case Apply(n, args) => Replace(t[n].body, Values(t, args))
  }

  function Values(t: Table, us: Uses): (r: seq<seq<Tok>>)
    requires AllSane(t, us)
    ensures |r| == Count(us)
  {
    if us.NoUse? then [] else [Value(t, us.head)] + Values(t, us.tail)
  }

  function Count(us: Uses): nat {
    if us.NoUse? then 0 else 1 + Count(us.tail)
  }

  /** No macro but those called, each with as many arguments as it has parameters,
      and bodies without `#`, `##` and names of macros. */
  predicate Sane(t: Table, u: Use) {
    match u
    case Leaf(a) => (Macros.Word(a) || a.Space?) && Nameless(t, [a])
    case Both(l, r) => Sane(t, l) && Sane(t, r)
    case Apply(n, args) =>
      n in t && t[n].Func? && t[n].params == Count(args) && ArgsBelow(t[n].body, Count(args))
      && Flat(t[n].body) && Nameless(t, t[n].body) && AllSane(t, args)
  }

  predicate AllSane(t: Table, us: Uses) {
    us.NoUse? || (Sane(t, us.head) && AllSane(t, us.tail))
  }

  predicate Flat(body: seq<Tok>) {
    forall i :: 0 <= i < |body| ==> !body[i].Hash? && !body[i].HashHash?
  }

  function PartsOf(body: seq<Tok>): (parts: seq<Part>)
    ensures |parts| == |body|
    ensures forall i :: 0 <= i < |body| ==> parts[i] == if body[i].Arg? then Parameter(body[i].k) else Text(body[i])
  {
    seq(|body|, i requires 0 <= i < |body| => if body[i].Arg? then Parameter(body[i].k) else Text(body[i]))
  }

  lemma {:induction false} PartsBack(body: seq<Tok>)
    ensures Toks(PartsOf(body)) == body
    decreases |body|
  {
    if body != [] {
      PartsBack(body[1..]);
      assert PartsOf(body)[1..] == PartsOf(body[1..]);
      assert body == [body[0]] + body[1..];
    }
  }

  lemma {:induction false} FillReplaces(x: Lexer, params: seq<seq<Tok>>, full: seq<Option<seq<Tok>>>,
      values: seq<seq<Tok>>, body: seq<Tok>)
    requires |params| == |full| == |values| && forall k :: 0 <= k < |values| ==> full[k] == Some(values[k])
    requires Flat(body) && ArgsBelow(body, |values|)
    ensures AllProper(PartsOf(body), |params|)
    ensures Fill(x, params, full, PartsOf(body)) == Some(Replace(body, values))
    decreases |body|
  {
    var parts := PartsOf(body);
    assert AllProper(parts, |params|);
    if body != [] {
      FillReplaces(x, params, full, values, body[1..]);
      assert parts[1..] == PartsOf(body[1..]);
      assert Proper(parts[0], |params|);
    }
  }

  lemma {:induction false} WithinMore(u: Use, t: Table, s: seq<Tok>, d: nat)
    requires Sane(t, u)
    ensures Within(Written(u) + s, d) == Within(s, d)
    decreases u, 0
  {
    match u
    case Leaf(a) => assert ([a] + s)[1..] == s;
    case Both(l, r) =>
      assert Written(u) + s == Written(l) + (Written(r) + s);
      WithinMore(l, t, Written(r) + s, d);
      WithinMore(r, t, s, d);
    case Apply(n, args) =>
      var inner := Joined(AllWritten(args)) + ([RParen] + s);
      assert Written(u) + s == [Ident(n)] + ([LParen] + inner);
      assert ([Ident(n)] + ([LParen] + inner))[1..] == [LParen] + inner;
      assert ([LParen] + inner)[1..] == inner;
      JoinedWithin(args, t, [RParen] + s, d + 1);
      assert ([RParen] + s)[1..] == s;
  }

  lemma {:induction false} JoinedWithin(us: Uses, t: Table, s: seq<Tok>, d: nat)
    requires AllSane(t, us) && d > 0
    ensures Within(Joined(AllWritten(us)) + s, d) == Within(s, d)
    decreases us, 0
  {
    if us.NoUse? {
      assert Joined(AllWritten(us)) + s == s;
    } else {
      var a := Written(us.head);
      if us.tail.NoUse? {
        assert Joined(AllWritten(us)) == a;
        WithinMore(us.head, t, s, d);
      } else {
        var tail := Joined(AllWritten(us.tail)) + s;
        assert AllWritten(us)[1..] == AllWritten(us.tail);
        assert |AllWritten(us.tail)| > 0;
        assert Joined(AllWritten(us)) + s == a + ([Comma] + tail);
        WithinMore(us.head, t, [Comma] + tail, d);
        assert ([Comma] + tail)[1..] == tail;
        JoinedWithin(us.tail, t, s, d);
      }
    }
  }

  lemma {:induction false} NotSpaced(u: Use, t: Table)
    requires Sane(t, u)
    ensures forall i :: 0 <= i < |Written(u)| ==> !Written(u)[i].Newline?
    decreases u, 0
  {
    match u
    case Leaf(_) =>
    case Both(l, r) => NotSpaced(l, t); NotSpaced(r, t);
    case Apply(_, args) => JoinedNotSpaced(args, t);
  }

  lemma {:induction false} JoinedNotSpaced(us: Uses, t: Table)
    requires AllSane(t, us)
    ensures forall i :: 0 <= i < |Joined(AllWritten(us))| ==> !Joined(AllWritten(us))[i].Newline?
    decreases us, 0
  {
    if us.MoreUse? {
      NotSpaced(us.head, t);
      JoinedNotSpaced(us.tail, t);
      assert AllWritten(us)[1..] == AllWritten(us.tail);
      assert us.tail.MoreUse? ==> |AllWritten(us.tail)| > 0;
    }
  }

  lemma {:induction false} SpacedSame(s: seq<Tok>)
    requires forall i :: 0 <= i < |s| ==> !s[i].Newline?
    ensures Spaced(s) == s
  {
    if s != [] { SpacedSame(s[1..]); }
  }

  lemma {:induction false} ArgumentsWritten(us: Uses, t: Table)
    requires AllSane(t, us)
    ensures |AllWritten(us)| == Count(us) && Arguments(AllWritten(us)) && AllSpaced(AllWritten(us)) == AllWritten(us)
    decreases us
  {
    if us.MoreUse? {
      ArgumentsWritten(us.tail, t);
      var a := Written(us.head);
      WithinMore(us.head, t, [], 0);
      assert a + [] == a;
      NotSpaced(us.head, t);
      SpacedSame(a);
      assert AllWritten(us)[1..] == AllWritten(us.tail);
    }
  }

  lemma {:induction false} ReplaceNameless(t: Table, body: seq<Tok>, values: seq<seq<Tok>>)
    requires ArgsBelow(body, |values|) && Nameless(t, body)
    requires forall k :: 0 <= k < |values| ==> Nameless(t, values[k])
    ensures Nameless(t, Replace(body, values))
    decreases |body|
  {
    if body != [] {
      ReplaceNameless(t, body[1..], values);
    }
  }

  lemma {:induction false} ValueNameless(t: Table, u: Use)
    requires Sane(t, u)
    ensures Nameless(t, Value(t, u))
    decreases u, 0
  {
    match u
    case Leaf(_) =>
    case Both(l, r) => ValueNameless(t, l); ValueNameless(t, r);
    case Apply(n, args) =>
      ValuesNameless(t, args);
      ReplaceNameless(t, t[n].body, Values(t, args));
  }

  lemma {:induction false} ValuesNameless(t: Table, us: Uses)
    requires AllSane(t, us)
    ensures forall k :: 0 <= k < Count(us) ==> Nameless(t, Values(t, us)[k])
    decreases us, 0
  {
    if us.MoreUse? {
      ValueNameless(t, us.head);
      ValuesNameless(t, us.tail);
    }
  }

  lemma AppendTwice(a: seq<Tok>, b: seq<Tok>, r: Option<seq<Tok>>)
    ensures Append(Some(a), Append(Some(b), r)) == Append(Some(a + b), r)
  {
    if r.Some? { assert a + (b + r.value) == (a + b) + r.value; }
  }

  /** Calls of function-like macros, in each other's arguments to any depth, all go
      away: an inner call never meets a macro that is switched off, and the whole is
      the bodies with the values of the arguments in them. */
  lemma {:induction false} NestedCallsExpand(x: Lexer, t: Table, u: Use, rest: seq<Tok>)
    requires WellFormed(t) && Sane(t, u)
    ensures ExpandAll(x, t, {}, Written(u) + rest) == Append(Some(Value(t, u)), ExpandAll(x, t, {}, rest))
    decreases u, 0
  {
    hide WellFormed, Expand, Sane, Value, Written;
    match u
    case Leaf(a) => LeafExpands(x, t, a, rest);
    case Both(l, r) =>
      BothSane(t, l, r);
      assert (Written(l) + Written(r)) + rest == Written(l) + (Written(r) + rest);
      NestedCallsExpand(x, t, l, Written(r) + rest);
      NestedCallsExpand(x, t, r, rest);
      AppendTwice(Value(t, l), Value(t, r), ExpandAll(x, t, {}, rest));
    case Apply(n, args) =>
      ApplySane(t, n, args);
      ArgumentsExpand(x, t, args);
      CallExpands(x, t, n, args, rest);
      var s := [LParen] + (Joined(AllWritten(args)) + ([RParen] + rest));
      ApplyWritten(n, args, rest);
      assert ([Ident(n)] + s)[1..] == s;
  }

  lemma LeafExpands(x: Lexer, t: Table, a: Tok, rest: seq<Tok>)
    requires WellFormed(t) && Sane(t, Leaf(a))
    ensures ExpandAll(x, t, {}, Written(Leaf(a)) + rest) == Append(Some(Value(t, Leaf(a))), ExpandAll(x, t, {}, rest))
  {
    hide WellFormed, Expand;
    assert [a][0] == a;
    assert ([a] + rest)[1..] == rest;
  }

  lemma BothSane(t: Table, l: Use, r: Use)
    requires Sane(t, Both(l, r))
    ensures Sane(t, l) && Sane(t, r) && Value(t, Both(l, r)) == Value(t, l) + Value(t, r)
    ensures Written(Both(l, r)) == Written(l) + Written(r)
  {
  }

  lemma ApplySane(t: Table, n: Name, args: Uses)
    requires Sane(t, Apply(n, args))
    ensures n in t && t[n].Func? && AllSane(t, args) && ArgsBelow(t[n].body, Count(args))
    ensures Value(t, Apply(n, args)) == Replace(t[n].body, Values(t, args))
  {
  }

  lemma ApplyWritten(n: Name, args: Uses, rest: seq<Tok>)
    ensures Written(Apply(n, args)) + rest
         == [Ident(n)] + ([LParen] + (Joined(AllWritten(args)) + ([RParen] + rest)))
  {
  }

  lemma {:induction false} ArgumentsExpand(x: Lexer, t: Table, us: Uses)
    requires WellFormed(t) && AllSane(t, us)
    ensures |AllWritten(us)| == Count(us)
    ensures forall k :: 0 <= k < Count(us) ==> ExpandAll(x, t, {}, AllWritten(us)[k]) == Some(Values(t, us)[k])
    decreases us, 0
  {
    hide WellFormed, ExpandAll;
    if us.MoreUse? {
      var a := Written(us.head);
      NestedCallsExpand(x, t, us.head, []);
      assert a + [] == a;
      NoNames(x, t, {}, []);
      assert Value(t, us.head) + [] == Value(t, us.head);
      ArgumentsExpand(x, t, us.tail);
    }
  }

  lemma CallExpands(x: Lexer, t: Table, n: Name, us: Uses, rest: seq<Tok>)
    requires WellFormed(t) && Sane(t, Apply(n, us)) && |AllWritten(us)| == Count(us)
    requires forall k :: 0 <= k < Count(us) ==> ExpandAll(x, t, {}, AllWritten(us)[k]) == Some(Values(t, us)[k])
    ensures Expand(x, t, {}, n, [LParen] + (Joined(AllWritten(us)) + ([RParen] + rest)))
         == Replaced(Replace(t[n].body, Values(t, us)), rest)
  {
    hide WellFormed, ExpandAll, Expand, Rescan, Fill, Paint, Nameless, Arguments, Flat, Replace, Joined, AllProper, Toks,
      ArgsBelow, AllSpaced;
    var args, values, body := AllWritten(us), Values(t, us), t[n].body;
    var full := seq(|values|, k requires 0 <= k < |values| => Some(values[k]));
    ArgumentsWritten(us, t);
    PartsBack(body);
    FillReplaces(x, args, full, values, body);
    ExpandsCall(x, t, {}, n, [], args, rest, full, PartsOf(body));
    var s := [LParen] + (Joined(args) + ([RParen] + rest));
    assert [] + s == s;
    ValuesNameless(t, us);
    ReplaceNameless(t, body, values);
    NamelessRescan(x, t, n, Replace(body, values));
  }

  lemma NamelessRescan(x: Lexer, t: Table, n: Name, text: seq<Tok>)
    requires WellFormed(t) && n in t && Nameless(t, text)
    ensures Rescan(x, t, {}, n, Some(text)) == Some(text)
  {
    hide WellFormed, ExpandAll;
    assert {} + {n} == {n};
    NoNames(x, t, {n}, text);
    assert Paint(text, {n}) == text;
  }
}
