/** Macro expansion as it runs: one stack of token buffers read through a single
    `scan`, one flag on each macro, and buffers appended to in loops. Flags, stack
    and the current token are put back by every call of `ExpandAllMacros`; what
    comes out is what the functions of `Macros` say. */
module Expander {
  import opened Options
  import opened Macros
  import M = Macros

  /** A buffer being read; its END is read at `loc == |buf|`. */
  datatype Elt = Elt(buf: seq<Tok>, loc: nat)

  /** The buffers below `n` are the same and have not been read less. */
  predicate Advanced(a: seq<Elt>, b: seq<Elt>, n: nat) {
    n <= |a| && n <= |b| && forall i :: 0 <= i < n ==> a[i].buf == b[i].buf && a[i].loc <= b[i].loc
  }

  /** The buffers below `n` are as they were. */
  predicate Kept(a: seq<Elt>, b: seq<Elt>, n: nat) {
    n <= |a| && n <= |b| && forall i :: 0 <= i < n ==> a[i] == b[i]
  }

  /** Up to `n`, only the buffer at `n` has been read. */
  predicate ReadOn(a: seq<Elt>, b: seq<Elt>, n: int) {
    0 <= n < |a| && n < |b| && Kept(a, b, n) && b[n].buf == a[n].buf && a[n].loc <= b[n].loc
  }

  lemma NoneUnclosed(parens: nat)
    requires parens > 0
    ensures M.TakeArg([], parens) == Unclosed
  {
  }

  lemma PrefixStop(a: seq<Tok>, close: bool, rest: seq<Tok>)
    ensures Prefixed(a, Taken([], close, rest)) == Taken(a, close, rest) && Prefixed(a, Unclosed) == Unclosed
  {
  }

  lemma PrefixNone(r: Taken)
    ensures Prefixed([], r) == r
  {
    if r.Taken? { assert [] + r.arg == r.arg; }
  }

  function More(a: seq<seq<Tok>>, r: Args): Args {
    if r.NoClose? then NoClose else Args(a + r.params, r.rest)
  }

  lemma MoreStop(a: seq<seq<Tok>>, rest: seq<Tok>)
    ensures More(a, Args([], rest)) == Args(a, rest) && More(a, NoClose) == NoClose
  {
  }

  lemma MoreNone(r: Args)
    ensures More([], r) == r
  {
    if r.Args? { assert [] + r.params == r.params; }
  }

  lemma MoreTwice(a: seq<seq<Tok>>, b: seq<Tok>, r: Args)
    ensures More(a, More([b], r)) == More(a + [b], r)
  {
    if r.Args? { assert a + ([b] + r.params) == (a + [b]) + r.params; }
  }

  lemma ArgsStep(s: seq<Tok>)
    requires s != [] && s[0] != RParen
    ensures TakeArgs(s) ==
      match M.TakeArg(s, 1)
      case Unclosed => NoClose
      case Taken(arg, close, rest) => More([arg], if close then Args([], rest) else TakeArgs(rest))
    ensures M.TakeArg(s, 1).Taken? && M.TakeArg(s, 1).close ==> M.TakeArg(s, 1).arg != []
  {
    TakeStep(s[0], s[1..], 1);
    assert [s[0]] + s[1..] == s;
    hide M.TakeArg;
  }

  lemma ArgsEnd(s: seq<Tok>)
    ensures s == [] ==> TakeArgs(s) == NoClose
    ensures s != [] && s[0] == RParen ==> TakeArgs(s) == Args([], s[1..])
  {
  }

  /** One argument more has been taken. */
  lemma ArgsOn(params: seq<seq<Tok>>, ahead: seq<Tok>, arg: seq<Tok>, after: seq<Tok>)
    requires ahead != [] && ahead[0] != RParen
    requires match M.TakeArg(ahead, 1)
      case Unclosed => after == []
      case Taken(a, close, rest) => arg == a && after == if close then [RParen] + rest else rest
    ensures More(params, TakeArgs(ahead)) == More(params + [arg], TakeArgs(after)) && |after| < |ahead|
  {
    hide TakeArgs, M.TakeArg, More;
    ArgsStep(ahead);
    var taken := M.TakeArg(ahead, 1);
    if taken.Unclosed? {
      ArgsEnd(after);
      MoreStop(params, []);
      MoreStop(params + [arg], []);
    } else {
      MoreTwice(params, arg, TakeArgs(after));
      if taken.close {
        ArgsEnd(after);
        assert after[1..] == taken.rest;
      }
    }
  }

  /** What the current token and the tokens after it come to. */
  ghost function Fate(x: Lexer, t: Table, off: set<Name>, k: Tok, rest: seq<Tok>): (f: Outcome)
    requires WellFormed(t)
    ensures !f.Broken? ==> |Onward(f)| <= |rest|
    ensures f.Cut? ==> |f.back| <= 1
  {
    if k.Ident? && k.name in t then M.Expand(x, t, off, k.name, rest) else Left(rest)
  }

  ghost function Onward(f: Outcome): seq<Tok>
    requires !f.Broken?
  {
    if f.Cut? then f.back else f.rest
  }

  lemma ExpandStep(x: Lexer, t: Table, off: set<Name>, k: Tok, rest: seq<Tok>, s: seq<Tok>, buf: seq<Tok>, out: seq<Tok>)
    requires WellFormed(t)
    requires M.ExpandAll(x, t, off, s) == Append(Some(buf), M.ExpandAll(x, t, off, [k] + rest))
    requires var f := Fate(x, t, off, k, rest); !f.Broken? ==> out == if f.Replaced? then f.toks else [k]
    ensures var f := Fate(x, t, off, k, rest);
      if f.Broken? then M.ExpandAll(x, t, off, s).None?
      else M.ExpandAll(x, t, off, s) == Append(Some(buf + out), M.ExpandAll(x, t, off, Onward(f)))
  {
    hide M.Expand, WellFormed;
    assert ([k] + rest)[1..] == rest;
    var f := Fate(x, t, off, k, rest);
    if !f.Broken? {
      var r := M.ExpandAll(x, t, off, Onward(f));
      if r.Some? { assert buf + (out + r.value) == (buf + out) + r.value; }
    }
  }

  lemma ExpandNone(x: Lexer, t: Table, off: set<Name>)
    requires WellFormed(t)
    ensures M.ExpandAll(x, t, off, []) == Some([])
  {
  }

  lemma AppendNone(r: Option<seq<Tok>>)
    ensures Append(Some([]), r) == r
  {
    if r.Some? { assert [] + r.value == r.value; }
  }

  lemma AppendTwice(a: seq<Tok>, b: seq<Tok>, r: Option<seq<Tok>>)
    ensures Append(Some(a), Append(Some(b), r)) == Append(Some(a + b), r)
  {
    if r.Some? { assert a + (b + r.value) == (a + b) + r.value; }
  }

  lemma BodyArgs(t: Table, n: Name, params: seq<seq<Tok>>)
    requires WellFormed(t) && n in t && if t[n].Func? then |params| == t[n].params else params == []
    ensures ArgsBelow(Body(t[n]), |params|)
  {
  }

  class Cpp {
    const x: Lexer
    const t: Table
    var exp: map<Name, bool>
    var stack: seq<Elt>
    var top: int
    var node: Option<Tok>     // None is END
    var file: seq<Tok>        // what has not been read of the file

    ghost predicate Valid()
      reads this
    {
      WellFormed(t) && exp.Keys == t.Keys && -1 <= top < |stack|
      && forall i :: 0 <= i < |stack| ==> stack[i].loc <= |stack[i].buf| + 1
    }

    ghost function Off(): set<Name>
      requires exp.Keys == t.Keys
      reads this
    {
      set n | n in t && !exp[n]
    }

    /** The END of the buffer at the top is still to be read. */
    ghost predicate Open()
      reads this
    {
      0 <= top < |stack| && stack[top].loc <= |stack[top].buf|
    }

    ghost function Unread(): seq<Tok>
      requires Open()
      reads this
    {
      stack[top].buf[stack[top].loc..]
    }

    /** The current token and what follows it in the same buffer. */
    ghost function Ahead(): seq<Tok>
      reads this
    {
      if node.None? || !Open() then [] else [node.value] + Unread()
    }

    /** The next token of the topmost buffer that has any left, or of the file. */
    method Scan()
      requires Valid()
      modifies `stack, `top, `node, `file
      ensures Valid() && |stack| == |old(stack)| && top <= old(top)
      ensures Advanced(old(stack), stack, |stack|)
      ensures old(Open()) ==> top == old(top) && file == old(file)
      ensures old(Open()) ==> stack == old(stack)[top := old(stack[top].(loc := stack[top].loc + 1))]
      ensures old(Open()) ==> node == if old(Unread()) == [] then None else Some(old(Unread())[0])
      ensures old(top) >= 0 && !old(Open()) ==> top < old(top)
      ensures top >= 0 ==> stack[top].loc == old(stack)[top].loc + 1 && (node.Some? ==> Open())
    {
      while top >= 0
        invariant Valid() && stack == old(stack) && top <= old(top) && file == old(file)
        invariant old(Open()) ==> top == old(top)
        decreases top
      {
        var elt := stack[top];
        if elt.loc <= |elt.buf| {
          node := if elt.loc < |elt.buf| then Some(elt.buf[elt.loc]) else None;
          stack := stack[top := elt.(loc := elt.loc + 1)];
          return;
        }
        top := top - 1;
      }
      if file == [] {
        node := None;
      } else {
        node, file := Some(file[0]), file[1..];
      }
    }

    /** `Scan` inside one buffer. */
    method Next()
      requires Valid() && Open()
      modifies `stack, `top, `node, `file
      ensures Valid() && top == old(top) && file == old(file) && ReadOn(old(stack), stack, top)
      ensures stack[top].loc > old(stack[top].loc)
      ensures (node.Some? ==> Open()) && Ahead() == old(Unread())
    {
      Scan();
    }

    /** One argument, from the current token up to the comma or parenthesis that
        ends it. */
    method TakeOne() returns (arg: seq<Tok>)
      requires Valid() && top >= 0 && (node.Some? ==> Open())
      modifies `stack, `top, `node, `file
      ensures Valid() && top == old(top) && file == old(file) && ReadOn(old(stack), stack, top)
      ensures (node.Some? ==> Open()) && |arg| + |Ahead()| <= |old(Ahead())|
      ensures match M.TakeArg(old(Ahead()), 1)
        case Unclosed => node.None?
        case Taken(a, close, rest) => arg == a && node == Some(if close then RParen else Comma) && Unread() == rest
    {
      hide M.TakeArg, Prefixed;
      arg := [];
      var parens: nat := 1;
      ghost var all := Ahead();
      PrefixNone(M.TakeArg(all, 1));
      while node.Some?
        invariant Valid() && top == old(top) && file == old(file) && ReadOn(old(stack), stack, top) && parens > 0
        invariant (node.Some? ==> Open()) && |arg| + |Ahead()| <= |all|
        invariant M.TakeArg(all, 1) == Prefixed(arg, M.TakeArg(Ahead(), parens))
        decreases |Ahead()|
      {
        var k := node.value;
        TakeStep(k, Unread(), parens);
        if k == LParen {
          parens := parens + 1;
        } else if k == RParen {
          parens := parens - 1;
          if parens == 0 {
            PrefixStop(arg, true, Unread());
            return;
          }
        } else if k == Comma && parens == 1 {
          PrefixStop(arg, false, Unread());
          return;
        }
        var kept := if k == Newline then Space else k;
        PrefixTwice(arg, [kept], M.TakeArg(Unread(), parens));
        arg := arg + [kept];
        Next();
      }
      NoneUnclosed(parens);
      PrefixStop(arg, true, []);
    }

    /** The arguments, from the token after the open parenthesis. */
    method TakeAll() returns (params: seq<seq<Tok>>)
      requires Valid() && top >= 0 && (node.Some? ==> Open())
      modifies `stack, `top, `node, `file
      ensures Valid() && top == old(top) && file == old(file) && ReadOn(old(stack), stack, top)
      ensures forall i :: 0 <= i < |params| ==> |params[i]| <= |old(Ahead())|
      ensures match TakeArgs(old(Ahead()))
        case NoClose => node.None?
        case Args(ps, rest) => params == ps && node == Some(RParen) && Open() && Unread() == rest
    {
      hide M.TakeArg, TakeArgs, More;
      params := [];
      ghost var all := Ahead();
      ghost var args := TakeArgs(all);
      MoreNone(args);
      while node.Some? && node.value != RParen
        invariant Valid() && top == old(top) && file == old(file) && ReadOn(old(stack), stack, top)
        invariant (node.Some? ==> Open()) && |Ahead()| <= |all|
        invariant forall i :: 0 <= i < |params| ==> |params[i]| <= |all|
        invariant args == More(params, TakeArgs(Ahead()))
        decreases |Ahead()|
      {
        ghost var ahead := Ahead();
        assert ahead[0] == node.value;
        var arg := TakeOne();
        ghost var after := if node == Some(Comma) then Unread() else Ahead();
        ArgsOn(params, ahead, arg, after);
        params := params + [arg];
        if node.Some? && node.value != RParen {
          Next();
        }
      }
      ArgsEnd(Ahead());
      MoreStop(params, if node.None? then [] else Unread());
    }

    /** Past blanks and newlines after the name. */
    method SkipBlanks()
      requires Valid() && top >= 0 && (node.Some? ==> Open())
      modifies `stack, `top, `node, `file
      ensures Valid() && top == old(top) && file == old(file) && ReadOn(old(stack), stack, top)
      ensures (node.Some? ==> Open()) && Ahead() == SkipBlank(old(Ahead()))
    {
      while node == Some(Space) || node == Some(Newline)
        invariant Valid() && top == old(top) && file == old(file) && ReadOn(old(stack), stack, top)
        invariant (node.Some? ==> Open()) && SkipBlank(Ahead()) == SkipBlank(old(Ahead()))
        decreases |Ahead()|
      {
        Next();
      }
    }

    ghost function Depth(): nat
      requires exp.Keys == t.Keys
      reads this
    {
      |Enabled(t, Off())|
    }

    /** Expand one macro, whose name has just been read. */
    method ExpandMacro(n: Name) returns (e: bool, buf: seq<Tok>)
      requires Valid() && n in t && Open()
      modifies this
      ensures Valid() && exp == old(exp) && Advanced(old(stack), stack, old(top) + 1)
      ensures match M.Expand(x, t, Off(), n, old(Unread()))
        case Broken => top == old(top)
        case Left(rest) =>
          !e && top == old(top) && file == old(file) && ReadOn(old(stack), stack, top) && Open() && Unread() == rest
        case Replaced(toks, rest) =>
          e && buf == toks && top == old(top) && file == old(file) && ReadOn(old(stack), stack, top)
          && Open() && Unread() == rest
        case Cut(back) =>
          && !e && top == old(top) + 1 && file == old(file) && stack[top] == Elt(back, 0)
          && ReadOn(old(stack), stack, top - 1) && stack[top - 1].loc > old(stack[top].loc)
      decreases Depth(), |Unread()| + 1, 2
    {
      hide M.Call, TakeArgs, SkipBlank;
      e, buf := false, [];
      if !exp[n] {
        return;
      }
      ghost var bound := |Unread()| + 1;
      var params: seq<seq<Tok>> := [];
      if t[n].Func? {
        var found;
        found, params := Collect(n);
        if !found || |params| != t[n].params {
          return;
        }
      }
      buf := Call(n, params, bound);
      e := true;
    }

    /** The arguments of a function-like macro; without a parenthesis the token
        that was read instead is pushed back in a buffer of its own. */
    method Collect(n: Name) returns (found: bool, params: seq<seq<Tok>>)
      requires Valid() && Open()
      modifies `stack, `top, `node, `file
      ensures Valid() && file == old(file) && Advanced(old(stack), stack, old(top) + 1)
      ensures forall i :: 0 <= i < |params| ==> |params[i]| <= |old(Unread())|
      ensures var next := SkipBlank(old(Unread()));
        if next == [] || next[0] != LParen then
          && !found && top == old(top) + 1 && stack[top] == Elt(if next == [] then [] else [next[0]], 0)
          && ReadOn(old(stack), stack, top - 1) && stack[top - 1].loc > old(stack[top].loc)
        else
          && found && top == old(top) && ReadOn(old(stack), stack, top)
          && match TakeArgs(next[1..])
             case NoClose => node.None?
             case Args(ps, rest) => params == ps && node == Some(RParen) && Open() && Unread() == rest
    {
      hide TakeArgs, SkipBlank;
      params := [];
      Next();
      SkipBlanks();
      found := node == Some(LParen);
      if found {
        assert Ahead()[0] == LParen && Ahead()[1..] == Unread();
        Next();
        params := TakeAll();
      } else {
        stack := stack[..top + 1] + [Elt(if node.Some? then [node.value] else [], 0)];
        top := top + 1;
        node := Some(Ident(n));
      }
    }

    /** Substitute the arguments, rescan with the macro off, paint its name. */
    method Call(n: Name, params: seq<seq<Tok>>, ghost bound: nat) returns (buf: seq<Tok>)
      requires Valid() && n in t && exp[n]
      requires if t[n].Func? then |params| == t[n].params else params == []
      requires forall i :: 0 <= i < |params| ==> |params[i]| < bound
      modifies this
      ensures Valid() && exp == old(exp) && top == old(top) && Advanced(old(stack), stack, top + 1)
      ensures var r := M.Call(x, t, Off(), n, params, bound);
        r.Some? ==> r.value == buf && Kept(old(stack), stack, top + 1) && file == old(file)
      decreases Depth(), bound, 1
    {
      hide M.ExpandAll, M.Subst, WellFormed;
      buf := ExpandMacroBody(n, params, bound);
      buf := Rescan(n, buf);
      buf := M.Paint(buf, {n});
    }

    /** Expand what a macro has been replaced by with the macro off. */
    method Rescan(n: Name, s: seq<Tok>) returns (buf: seq<Tok>)
      requires Valid() && n in t && exp[n]
      modifies this
      ensures Valid() && exp == old(exp) && top == old(top) && Advanced(old(stack), stack, top + 1)
      ensures var r := M.ExpandAll(x, t, Off() + {n}, s);
        r.Some? ==> r.value == buf && Kept(old(stack), stack, top + 1) && file == old(file)
      decreases Depth(), 0, 0
    {
      hide M.ExpandAll, WellFormed;
      Fewer(t, Off(), n);
      ghost var off := Off();
      exp := exp[n := false];
      assert Off() == off + {n};
      buf := ExpandAllMacros(s);
      exp := exp[n := true];
      assert exp == old(exp);
    }

    method ExpandMacroBody(n: Name, params: seq<seq<Tok>>, ghost bound: nat) returns (buf: seq<Tok>)
      requires Valid() && n in t && exp[n]
      requires if t[n].Func? then |params| == t[n].params else params == []
      requires forall i :: 0 <= i < |params| ==> |params[i]| < bound
      modifies this
      ensures Valid() && exp == old(exp) && top == old(top) && Advanced(old(stack), stack, top + 1)
      ensures var r := M.Subst(x, t, Off(), params, Body(t[n]), 0, bound);
        r.Some? ==> r.value == buf && Kept(old(stack), stack, top + 1) && file == old(file)
      decreases Depth(), bound, 0
    {
      hide M.Piece, WellFormed;
      var body := Body(t[n]);
      BodyArgs(t, n, params);
      var i := 0;
      buf := [];
      ghost var all := M.Subst(x, t, Off(), params, body, 0, bound);
      AppendNone(all);
      while i < |body|
        invariant i <= |body| && Valid() && exp == old(exp) && top == old(top) && Advanced(old(stack), stack, top + 1)
        invariant all.None? || (Kept(old(stack), stack, top + 1) && file == old(file)
                                && all == Append(Some(buf), M.Subst(x, t, Off(), params, body, i, bound)))
        decreases |body| - i
      {
        ghost var at := i;
        ghost var piece := M.Piece(x, t, Off(), params, body, i, bound).0;
        var more;
        more, i := Piece(params, body, i, bound);
        if piece.Some? {
          AppendTwice(buf, more, M.Subst(x, t, Off(), params, body, i, bound));
        }
        buf := buf + more;
      }
    }

    /** What goes in for the body token at `i`: a paste, a string, an expanded
        argument or the token itself. */
    method Piece(params: seq<seq<Tok>>, body: seq<Tok>, i: nat, ghost bound: nat) returns (more: seq<Tok>, next: nat)
      requires Valid() && i < |body| && ArgsBelow(body, |params|)
      requires forall k :: 0 <= k < |params| ==> |params[k]| < bound
      modifies this
      ensures Valid() && exp == old(exp) && top == old(top) && Advanced(old(stack), stack, top + 1)
      ensures i < next <= |body|
      ensures var r := M.Piece(x, t, Off(), params, body, i, bound);
        next == r.1 && (r.0.Some? ==> more == r.0.value && Kept(old(stack), stack, top + 1) && file == old(file))
      decreases Depth(), bound, 0, 0
    {
      hide M.ExpandAll, WellFormed;
      var nx := SkipSpaces(body, i + 1);
      if nx < |body| && body[nx] == HashHash {
        var e := SkipSpaces(body, nx + 1);
        if e >= |body| {
          more, next := [], |body|;
        } else {
          more, next := x.paste(AsOperand(body[i], params), AsOperand(body[e], params)), e + 1;
        }
      } else if body[i] == Hash && nx < |body| && body[nx].Arg? {
        more, next := [Other(x.stringify(params[body[nx].k]))], nx + 1;
      } else {
        if body[i].Arg? {
          more := ExpandAllMacros(params[body[i].k]);
        } else {
          more := if body[i].Hash? || body[i].Newline? then [] else [body[i]];
        }
        more, next := more + body[i + 1..nx], nx;
      }
    }

    method SkipSpaces(body: seq<Tok>, i: nat) returns (nx: nat)
      requires i <= |body|
      ensures nx == Solid(body, i)
    {
      nx := i;
      while nx < |body| && body[nx] == Space
        invariant i <= nx <= |body| && Solid(body, nx) == Solid(body, i)
      {
        nx := nx + 1;
      }
    }

    /** The current token, and the call it is the name of. */
    method ExpandToken(k: Tok) returns (out: seq<Tok>)
      requires Valid() && Open()
      modifies this
      ensures Valid() && exp == old(exp) && Advanced(old(stack), stack, old(top) + 1)
      ensures var f := Fate(x, t, Off(), k, old(Unread()));
        if f.Broken? then top == old(top)
        else
          && out == (if f.Replaced? then f.toks else [k]) && file == old(file)
          && if f.Cut? then
               && top == old(top) + 1 && stack[top] == Elt(f.back, 0)
               && ReadOn(old(stack), stack, top - 1) && stack[top - 1].loc > old(stack[top].loc)
             else top == old(top) && ReadOn(old(stack), stack, top) && Open() && Unread() == f.rest
      decreases Depth(), |Unread()| + 1, 3
    {
      hide M.Expand;
      out := [k];
      if k.Ident? && k.name in t {
        var e, toks := ExpandMacro(k.name);
        if e {
          out := toks;
        }
      }
    }

    /** A buffer above `base` is being expanded; a token pushed back may be on top. */
    ghost predicate Going(base: int, s: seq<Tok>)
      reads this
    {
      && Valid() && -1 <= base && base + 1 < |stack| && stack[base + 1].buf == s && stack[base + 1].loc >= 1
      && (forall i :: base + 1 < i <= top ==> |stack[i].buf| <= 1)
      && (node.Some? && top > base ==> Open() && stack[top].loc >= 1 && top <= base + 2)
    }

    /** What is left to read of it. */
    ghost function Todo(base: int, s: seq<Tok>): int
      requires Going(base, s)
      reads this
    {
      if node.None? || top <= base then 0 else 2 + |s| - stack[base + 1].loc
    }

    /** `Scan` in the middle of a buffer: its own tokens, then what is under it. */
    method Proceed(base: int, ghost s: seq<Tok>, ghost loc: nat, ghost rest: Option<seq<Tok>>)
      requires Valid() && -1 <= base && base + 1 < |stack| && stack[base + 1].buf == s && base < top
      requires forall i :: base + 1 < i <= top ==> |stack[i].buf| <= 1
      requires 1 <= loc <= stack[base + 1].loc
      requires rest.Some? ==> Open() && Unread() == rest.value
      requires top > base + 1 ==>
        stack[base + 1].loc > loc || (Open() ==> Unread() == [])
      requires top > base + 2 ==> Open() && Unread() == []
      modifies `stack, `top, `node, `file
      ensures Going(base, s) && Advanced(old(stack), stack, base + 1)
      ensures node.Some? && top > base ==> stack[base + 1].loc > loc
      ensures rest.Some? ==>
        top == old(top) && Kept(old(stack), stack, base + 1) && file == old(file) && Ahead() == rest.value
    {
      Scan();
    }

    /** Expand the current token and go to the next. */
    method Turn(base: int, ghost s: seq<Tok>) returns (out: seq<Tok>)
      requires Going(base, s) && node.Some? && top > base
      modifies this
      ensures Going(base, s) && exp == old(exp) && Advanced(old(stack), stack, base + 1)
      ensures 0 <= Todo(base, s) < old(Todo(base, s))
      ensures var f := Fate(x, t, Off(), old(node.value), old(Unread()));
        !f.Broken? ==>
          && top > base && Kept(old(stack), stack, base + 1) && file == old(file) && Ahead() == Onward(f)
          && out == if f.Replaced? then f.toks else [old(node.value)]
      decreases Depth(), |Unread()| + 1, 4
    {
      hide Fate, M.Expand, M.ExpandAll, WellFormed;
      ghost var f := Fate(x, t, Off(), node.value, Unread());
      out := ExpandToken(node.value);
      Proceed(base, s, old(stack)[base + 1].loc, if f.Broken? then None else Some(Onward(f)));
    }

    lemma GoingOpen(base: int, s: seq<Tok>)
      requires Going(base, s)
      ensures Valid() && (node.Some? && top > base ==> Open() && (top == base + 1 ==> |Unread()| < |s|))
      ensures node.Some? && top > base + 1 ==> Unread() == []
    {
    }

    /** Push a buffer and read its first token. */
    method Push(s: seq<Tok>)
      requires Valid()
      modifies `stack, `top, `node, `file
      ensures Going(old(top), s) && Ahead() == s && top == old(top) + 1
      ensures Kept(old(stack), stack, old(top) + 1) && file == old(file)
    {
      stack := stack[..top + 1] + [Elt(s, 0)];
      top := top + 1;
      Scan();
    }

    method Pop(base: int, sav: Option<Tok>, ghost s: seq<Tok>)
      requires Going(base, s)
      modifies `top, `node
      ensures Valid() && top == base && node == sav
    {
      node := sav;
      top := base;
    }

    /** Expand a whole buffer: every flag, the top of the stack and the current
        token come back as they were found, whatever the buffer holds, and no
        token of the buffers below or of the file is used unless an argument list
        ran off the end. */
    method ExpandAllMacros(s: seq<Tok>) returns (buf: seq<Tok>)
      requires Valid()
      modifies this
      ensures Valid() && exp == old(exp) && top == old(top) && node == old(node) && Advanced(old(stack), stack, top + 1)
      ensures var r := M.ExpandAll(x, t, Off(), s);
        r.Some? ==> r.value == buf && Kept(old(stack), stack, top + 1) && file == old(file)
      decreases Depth(), |s|
    {
      hide M.ExpandAll, M.Expand, Fate, Going;
      var oldtop, sav := top, node;
      buf := [];
      Push(s);
      ghost var all := M.ExpandAll(x, t, Off(), s);
      assert all == Append(Some([]), all) by { if all.Some? { assert [] + all.value == all.value; } }
      while node.Some? && top > oldtop
        invariant (node.Some? ==> s != []) && exp == old(exp) && Going(oldtop, s) && Advanced(old(stack), stack, oldtop + 1)
        invariant all.None? || (top > oldtop && Kept(old(stack), stack, oldtop + 1) && file == old(file)
                                && all == Append(Some(buf), M.ExpandAll(x, t, Off(), Ahead())))
        decreases Todo(oldtop, s)
      {
        GoingOpen(oldtop, s);
        ghost var k, rest := node.value, Unread();
        var out := Turn(oldtop, s);
        if all.Some? {
          ExpandStep(x, t, Off(), k, rest, s, buf, out);
        }
        buf := buf + out;
      }
      ExpandNone(x, t, Off());
      Pop(oldtop, sav, s);
    }
  }
}
