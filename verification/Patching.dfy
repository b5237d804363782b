/** Which structured text the engine accepts, and when the code it makes of
    accepted text is the code the text stands for. */
module Patching {
  import opened Options
  import opened Forth
  import opened Threaded

  // ----- text in parts -----

  lemma {:induction false} CompileConcat(m: Stage, c: Compiling, ts: seq<Token>, us: seq<Token>)
    ensures CompileText(m, c, ts + us)
         == (var c' := CompileText(m, c, ts); if c'.Some? then CompileText(m, c'.value, us) else None)
    decreases |ts|
  {
    hide CompileToken;
    if |ts| == 0 {
      assert ts + us == us;
    } else {
      assert (ts + us)[1..] == ts[1..] + us;
      var c' := CompileToken(m, c, ts[0]);
      if c'.Some? {
        CompileConcat(m, c'.value, ts[1..], us);
      }
    }
  }

  /** Compile one token, then the rest. */
  lemma CompileFirst(m: Stage, c: Compiling, t: Token, us: seq<Token>)
    ensures CompileText(m, c, [t] + us)
         == (var c' := CompileToken(m, c, t); if c'.Some? then CompileText(m, c'.value, us) else None)
  {
    hide CompileToken;
    assert ([t] + us)[1..] == us;
  }

  function After(m: Stage, c: Option<Compiling>, t: Token): Option<Compiling> {
    if c.Some? then CompileToken(m, c.value, t) else None
  }


  /** A text, then one token. */
  lemma CompileLast(m: Stage, c: Compiling, ts: seq<Token>, t: Token)
    ensures CompileText(m, c, ts + [t]) == After(m, CompileText(m, c, ts), t)
  {
    hide CompileToken, CompileText;
    CompileConcat(m, c, ts, [t]);
    var c' := CompileText(m, c, ts);
    if c'.Some? {
      CompileFirst(m, c'.value, t, []);
      assert [t] + [] == [t];
      CompileNone(m, CompileToken(m, c'.value, t));
    }
  }

  lemma CompileNone(m: Stage, c: Option<Compiling>)
    ensures c.Some? ==> CompileText(m, c.value, []) == c
  {
  }

  // ----- unconditional loops -----

  /** What a token does to the depth of the control stack. */
  function Change(t: Token): int {
    match t
    case TIf => 1
    case TThen => -1
    case TBegin => 1
    case TWhile => 1
    case TRepeat => -2
    case _ => 0
  }

  function Balance(ts: seq<Token>): int {
    if |ts| == 0 then 0 else Change(ts[0]) + Balance(ts[1..])
  }

  lemma {:induction false} BalanceConcat(ts: seq<Token>, us: seq<Token>)
    ensures Balance(ts + us) == Balance(ts) + Balance(us)
  {
    if |ts| == 0 {
      assert ts + us == us;
    } else {
      assert (ts + us)[1..] == ts[1..] + us;
      BalanceConcat(ts[1..], us);
    }
  }

  /** Whatever a `then` or `repeat` takes off the control stack, it takes the
      same number of entries. */
  lemma DepthStep(c: Compiling, t: Token)
    ensures var c' := CompileToken(Tok, c, t); c'.Some? ==> |c'.value.ctl| == |c.ctl| + Change(t)
  {
    hide Patched, Closes, Size;
  }

  lemma {:induction false} Depth(c: Compiling, ts: seq<Token>)
    ensures var c' := CompileText(Tok, c, ts); c'.Some? ==> |c'.value.ctl| == |c.ctl| + Balance(ts)
    decreases |ts|
  {
    hide CompileToken;
    if |ts| > 0 {
      DepthStep(c, ts[0]);
      var c' := CompileToken(Tok, c, ts[0]);
      if c'.Some? {
        Depth(c'.value, ts[1..]);
      }
    }
  }

  function Endlesses(fr: Frag): nat {
    match fr
    case Cat(a, b) => Endlesses(a) + Endlesses(b)
    case IfThen(t) => Endlesses(t)
    case IfElse(t, e) => Endlesses(t) + Endlesses(e)
    case Loop(test, body) => Endlesses(test) + Endlesses(body)
    case Endless(body) => 1 + Endlesses(body)
    case _ => 0
  }

  lemma BalanceAround(t: Token, ts: seq<Token>, u: Token)
    ensures Balance([t] + ts + [u]) == Change(t) + Balance(ts) + Change(u)
  {
    BalanceConcat([t] + ts, [u]);
    BalanceConcat([t], ts);
    assert Balance([t]) == Change(t) && Balance([u]) == Change(u);
  }

  /** Each unconditional loop takes one entry too many. */
  lemma {:induction false} TextBalance(fr: Frag)
    ensures Balance(Flat(fr)) == 0 - Endlesses(fr)
    ensures Conditioned(fr) <==> Endlesses(fr) == 0
  {
    match fr
    case Skip =>
    case W(_) =>
    case Cat(a, b) => TextBalance(a); TextBalance(b); BalanceConcat(Flat(a), Flat(b));
    case IfThen(t) => TextBalance(t); BalanceAround(TIf, Flat(t), TThen);
    case IfElse(t, e) =>
      TextBalance(t);
      TextBalance(e);
      BalanceTwo(TIf, Flat(t), TElse, Flat(e), TThen);
    case Loop(test, body) =>
      TextBalance(test);
      TextBalance(body);
      BalanceTwo(TBegin, Flat(test), TWhile, Flat(body), TRepeat);
    case Endless(body) => TextBalance(body); BalanceAround(TBegin, Flat(body), TRepeat);
  }

  lemma BalanceTwo(t: Token, ts: seq<Token>, u: Token, us: seq<Token>, v: Token)
    ensures Balance([t] + ts + [u] + us + [v]) == Change(t) + Balance(ts) + Change(u) + Balance(us) + Change(v)
  {
    BalanceAround(t, ts, u);
    BalanceConcat([t] + ts + [u] + us, [v]);
    BalanceConcat([t] + ts + [u], us);
    assert Balance([v]) == Change(v);
  }

  // ----- what becomes of a piece of text -----

  /** A pending entry lies in the code compiled so far. */
  ghost predicate Pending(c: Compiling) {
    c.ctl != [] ==> c.ctl[0].at < |c.code|
  }

  /** Not a branch past the given position. */
  ghost predicate Short(i: Instr, limit: nat) {
    (i.IBranch? || i.IZBranch? ==> i.target <= limit)
  }

  /** Code and byte count have grown by the text. */
  ghost predicate Sized(m: Stage, fr: Frag, c: Compiling, c': Compiling) {
    |c'.code| == |c.code| + Len(fr) && c'.fbrk == c.fbrk + Bytes(m, fr)
    && (Len(fr) > 0 ==> (Closes(c'.code[|c'.code| - 1]) <==> EndsFake(fr)))
  }

  /** Nothing compiled before has changed, the control stack is as it was, and
      the code is the text's own exactly when the text is clean. */
  ghost predicate Plain(m: Stage, fr: Frag, c: Compiling, c': Compiling) {
    c'.ctl == c.ctl && |c.code| <= |c'.code| && c'.code[..|c.code|] == c.code
    && (c'.code[|c.code|..] == Gen(fr, |c.code|) <==> Clean(m, fr))
  }

  /** The branch pending at the start now ends within the text, and a branch of
      the text's own is pending instead. */
  ghost predicate Spoilt(c: Compiling, c': Compiling) {
    var n := |c.code|;
    n <= |c'.code| && c.ctl != [] && c.ctl[0].at < n
    && |c'.ctl| == |c.ctl| && c'.ctl[0].Orig? && n <= c'.ctl[0].at < |c'.code| && c'.ctl[1..] == c.ctl[1..]
    && Same(c.code, c'.code, c.ctl[0].at) && Short(c'.code[c.ctl[0].at], |c'.code|)
  }

  /** The code has changed at most at one place. */
  ghost predicate Same(code: seq<Instr>, code': seq<Instr>, but: nat) {
    |code| <= |code'| && forall i :: 0 <= i < |code| && i != but ==> code'[i] == code[i]
  }

  ghost predicate Grown(m: Stage, fr: Frag, c: Compiling, c': Compiling) {
    Sized(m, fr, c, c') && if Spoils(fr) then Spoilt(c, c') else Plain(m, fr, c, c')
  }

  ghost predicate Outcome(m: Stage, fr: Frag, c: Compiling, r: Option<Compiling>) {
    (r.Some? <==> Fits(m, fr, c.ctl != []))
    && (r.Some? ==> Grown(m, fr, c, r.value))
  }

  /** From any point and under any pending structure, text without unconditional
      loops is accepted exactly when its words are known and it fits. */
  lemma {:induction false} Compiles(m: Stage, fr: Frag, c: Compiling)
    requires Conditioned(fr) && Pending(c)
    ensures Outcome(m, fr, c, CompileText(m, c, Flat(fr)))
    decreases fr, 1
  {
    hide Outcome;
    match fr
    case Skip => SkipOutcome(m, c);
    case W(w) => WordOutcome(m, w, c);
    case Cat(a, b) => CompilesCat(m, a, b, c);
    case IfThen(t) => CompilesIfThen(m, t, c);
    case IfElse(t, e) => CompilesIfElse(m, t, e, c);
    case Loop(test, body) => CompilesLoop(m, test, body, c);
  }

  lemma SkipOutcome(m: Stage, c: Compiling)
    ensures Outcome(m, Skip, c, CompileText(m, c, []))
  {
  }

  lemma WordOutcome(m: Stage, w: Word, c: Compiling)
    ensures Outcome(m, W(w), c, CompileText(m, c, [T(w)]))
  {
    hide CompileText, CompileToken;
    TokenOpens(m, c);
    CompileLast(m, c, [], T(w));
    assert [] + [T(w)] == [T(w)];
    CompileNone(m, Some(c));
    var i := IWord(w);
    assert (c.code + [i])[|c.code|..] == [i];
  }

  lemma {:induction false} EmptyIsPlain(fr: Frag)
    requires Len(fr) == 0
    ensures !Spoils(fr) && !EndsFake(fr)
  {
    if fr.Cat? {
      EmptyIsPlain(fr.a);
      EmptyIsPlain(fr.b);
    }
  }

  // ----- one text after another -----

  lemma {:induction false} CompilesCat(m: Stage, a: Frag, b: Frag, c: Compiling)
    requires Conditioned(Cat(a, b)) && Pending(c)
    ensures Outcome(m, Cat(a, b), c, CompileText(m, c, Flat(Cat(a, b))))
    decreases Cat(a, b), 0
  {
    hide CompileText, CompileToken, Grown;
    CompileConcat(m, c, Flat(a), Flat(b));
    Compiles(m, a, c);
    var c1 := CompileText(m, c, Flat(a));
    if c1.Some? {
      StillPending(m, a, c, c1.value);
      Compiles(m, b, c1.value);
      var c2 := CompileText(m, c1.value, Flat(b));
      if c2.Some? {
        CatGrown(m, a, b, c, c1.value, c2.value);
      }
    }
  }

  lemma StillPending(m: Stage, fr: Frag, c: Compiling, c': Compiling)
    requires Pending(c) && Grown(m, fr, c, c')
    ensures Pending(c') && |c'.ctl| == |c.ctl|
  {
    hide Gen, Clean, Spoils, EndsFake, Len, Bytes;
  }

  lemma CatGrown(m: Stage, a: Frag, b: Frag, c: Compiling, c1: Compiling, c2: Compiling)
    requires Pending(c) && Grown(m, a, c, c1) && Grown(m, b, c1, c2)
    ensures Grown(m, Cat(a, b), c, c2)
  {
    hide Gen, Clean, Spoils, EndsFake, Len, Bytes, Closes, Short, Plain, Spoilt, Sized;
    CatParts(m, a, b, |c.code|);
    CatSized(m, a, b, c, c1, c2);
    if !Spoils(a) && !Spoils(b) {
      CatPlain(m, a, b, c, c1, c2);
    } else {
      CatSpoilt(m, a, b, c, c1, c2);
    }
  }

  lemma CatSized(m: Stage, a: Frag, b: Frag, c: Compiling, c1: Compiling, c2: Compiling)
    requires Sized(m, a, c, c1) && Grown(m, b, c1, c2)
    ensures Sized(m, Cat(a, b), c, c2)
  {
    hide Gen, Clean, Spoils, EndsFake, Len, Bytes, Closes, Spoilt;
    CatParts(m, a, b, |c.code|);
    if Len(b) == 0 {
      EmptyIsPlain(b);
      assert c2.code == c2.code[..|c1.code|];
    }
  }

  lemma CatPlain(m: Stage, a: Frag, b: Frag, c: Compiling, c1: Compiling, c2: Compiling)
    requires Sized(m, a, c, c1) && Plain(m, a, c, c1) && Sized(m, b, c1, c2) && Plain(m, b, c1, c2)
    ensures Plain(m, Cat(a, b), c, c2)
  {
    hide Gen, Clean, Len;
    var n, n1 := |c.code|, |c1.code|;
    CatParts(m, a, b, n);
    assert c2.code[..n] == c2.code[..n1][..n];
    assert c2.code[n..n1] == c2.code[..n1][n..];
    assert c2.code[n..] == c2.code[n..n1] + c2.code[n1..];
    BothSame(c2.code[n..n1], c2.code[n1..], Gen(a, n), Gen(b, n1));
  }

  lemma CatSpoilt(m: Stage, a: Frag, b: Frag, c: Compiling, c1: Compiling, c2: Compiling)
    requires Pending(c) && Grown(m, a, c, c1) && Grown(m, b, c1, c2) && (Spoils(a) || Spoils(b))
    ensures Spoilt(c, c2)
  {
    hide Gen, Clean, Spoils, EndsFake, Bytes, Closes;
    if !Spoils(b) {
      assert forall i :: 0 <= i < |c1.code| ==> c2.code[i] == c2.code[..|c1.code|][i] == c1.code[i];
    } else if !Spoils(a) {
      assert forall i :: 0 <= i < |c.code| ==> c1.code[i] == c1.code[..|c.code|][i] == c.code[i];
    }
  }

  lemma BothSame(x: seq<Instr>, y: seq<Instr>, x': seq<Instr>, y': seq<Instr>)
    requires |x| == |x'|
    ensures x + y == x' + y' <==> x == x' && y == y'
  {
    if x + y == x' + y' {
      assert x == (x + y)[..|x|] == x';
      assert y == (x + y)[|x|..] == y';
    }
  }

  lemma CatParts(m: Stage, a: Frag, b: Frag, n: nat)
    ensures Len(Cat(a, b)) == Len(a) + Len(b) && Bytes(m, Cat(a, b)) == Bytes(m, a) + Bytes(m, b)
    ensures Gen(Cat(a, b), n) == Gen(a, n) + Gen(b, n + Len(a))
    ensures Clean(m, Cat(a, b)) == (Clean(m, a) && Clean(m, b)) && Spoils(Cat(a, b)) == (Spoils(a) || Spoils(b))
    ensures EndsFake(Cat(a, b)) == if Len(b) == 0 then EndsFake(a) else EndsFake(b)
  {
    hide Size, LooksLikeElse;
    GenCat(a, b, n);
  }

  lemma GenCat(a: Frag, b: Frag, n: nat)
    ensures Gen(Cat(a, b), n) == Gen(a, n) + Gen(b, n + Len(a))
  {
    hide Len;
  }

  // ----- a structure opened after c and not yet closed -----

  ghost predicate Inside(c: Compiling, c': Compiling) {
    var n := |c.code|;
    n < |c'.code| && c'.ctl != [] && c'.ctl[0].Orig? && n <= c'.ctl[0].at < |c'.code|
    && c'.ctl[1..] == c.ctl && c'.code[..n] == c.code
  }

  lemma OpenInside(m: Stage, c: Compiling)
    ensures Inside(c, Open(m, c))
  {
  }

  lemma InsideGrows(m: Stage, fr: Frag, c: Compiling, c1: Compiling, c2: Compiling)
    requires Inside(c, c1) && Grown(m, fr, c1, c2)
    ensures Inside(c, c2)
  {
    hide Gen, Clean, Spoils, EndsFake, Len, Bytes, Closes, Short;
    if Spoils(fr) {
      assert forall i :: 0 <= i < |c.code| ==> c2.code[i] == c1.code[i] == c1.code[..|c.code|][i];
    } else {
      assert c2.code[..|c.code|] == c2.code[..|c1.code|][..|c.code|];
    }
  }

  /** `then` for a structure, or for the one around it. */
  function Close(m: Stage, c: Compiling, fake: bool): Compiling
    requires |c.ctl| > if fake then 1 else 0
  {
    if fake then Patch(Lay(m, c, IResolve), c.ctl[1]).(ctl := [c.ctl[0]] + c.ctl[2..])
    else Patch(Lay(m, c, IResolve), c.ctl[0]).(ctl := c.ctl[1..])
  }

  lemma LoadOne(c: Compiling, i: Instr)
    ensures Load(c, [i]) == LoadStep(c, i)
  {
    hide LoadStep;
    assert [i][1..] == [];
    LoadNone(LoadStep(c, i));
  }

  lemma LoadNone(c: Option<Compiling>)
    ensures c.Some? ==> Load(c.value, []) == c
  {
  }

  lemma LoadTwo(c: Compiling, i: Instr, j: Instr)
    ensures Load(c, [i, j])
         == (var c' := LoadStep(c, i); if c'.Some? then LoadStep(c'.value, j) else None)
  {
    hide LoadStep;
    assert [i, j][1..] == [j];
    var c' := LoadStep(c, i);
    if c'.Some? {
      LoadOne(c'.value, j);
    }
  }

  /** Tokens that only add to the control stack, or leave it alone. */
  lemma TokenOpens(m: Stage, c: Compiling)
    ensures forall w :: CompileToken(m, c, T(w)) == Some(Lay(m, c, IWord(w)))
    ensures CompileToken(m, c, TIf) == Some(Open(m, c)) && CompileToken(m, c, TWhile) == Some(Open(m, c))
    ensures CompileToken(m, c, TBegin) == Some(Begun(m, c)) && CompileToken(m, c, TSemi) == Some(Lay(m, c, IEnd))
  {
    hide Load, Lay, Open, Begun;
    LoadOne(c, IZBranch(0));
    LoadOne(c, IMark);
    LoadOne(c, IEnd);
    forall w ensures CompileToken(m, c, T(w)) == Some(Lay(m, c, IWord(w))) {
      LoadOne(c, IWord(w));
    }
  }

  lemma ThenCloses(m: Stage, c: Compiling, fake: bool)
    requires c.ctl != [] && c.code != [] && (Closes(c.code[|c.code| - 1]) <==> fake)
    ensures CompileToken(m, c, TThen) == if fake && |c.ctl| < 2 then None else Some(Close(m, c, fake))
  {
    hide Closes, Patched, Size, Load;
    LoadOne(c, IResolve);
  }

  lemma CloseSpoilt(m: Stage, c: Compiling, c': Compiling)
    requires Inside(c, c') && c.ctl != [] && Pending(c)
    ensures Spoilt(c, Close(m, c', true))
  {
    assert c'.ctl[1] == c.ctl[0] && c'.ctl[2..] == c.ctl[1..];
    assert forall i :: 0 <= i < |c.code| ==> c'.code[i] == c'.code[..|c.code|][i] == c.code[i];
  }

  lemma CloseKeeps(m: Stage, c: Compiling, c': Compiling)
    requires Inside(c, c')
    ensures var c2 := Close(m, c', false);
      c2.ctl == c.ctl && |c2.code| == |c'.code| + 1 && c2.code[..|c.code|] == c.code
      && Same(c'.code + [IResolve], c2.code, c'.ctl[0].at)
  {
    hide Patched, Size;
    var c2 := Close(m, c', false);
    assert c2.code[..|c.code|] == c'.code[..|c.code|];
  }

  /** A branch cut short is not the text's own. */
  lemma ShortDiffers(code: seq<Instr>, gen: seq<Instr>, n: nat, k: nat, limit: nat)
    requires n + k < |code| && |gen| == |code| - n && Short(code[n + k], limit)
    requires (gen[k].IBranch? || gen[k].IZBranch?) && gen[k].target > limit
    ensures code[n..] != gen
  {
    assert code[n..][k] == code[n + k];
  }

  // ----- if ... then -----

  lemma {:induction false} CompilesIfThen(m: Stage, t: Frag, c: Compiling)
    requires Conditioned(t) && Pending(c)
    ensures Outcome(m, IfThen(t), c, CompileText(m, c, Flat(IfThen(t))))
    decreases IfThen(t), 0
  {
    hide CompileText, CompileToken, Grown;
    var c1 := Open(m, c);
    OpenInside(m, c);
    Compiles(m, t, c1);
    var r := CompileText(m, c1, Flat(t));
    assert Flat(IfThen(t)) == ([TIf] + Flat(t)) + [TThen];
    CompileLast(m, c, [TIf] + Flat(t), TThen);
    CompileFirst(m, c, TIf, Flat(t));
    TokenOpens(m, c);
    if r.Some? {
      var c2 := r.value;
      InsideGrows(m, t, c, c1, c2);
      LastIs(m, t, c, c2);
      ThenCloses(m, c2, EndsFake(t));
      if EndsFake(t) {
        if c.ctl != [] {
          CloseSpoilt(m, c, c2);
          IfThenSized(m, t, c, c2, true);
          SpoiltGrown(m, IfThen(t), c, Close(m, c2, true));
        }
      } else {
        CloseKeeps(m, c, c2);
        IfThenSized(m, t, c, c2, false);
        IfThenPlain(m, t, c, c2);
        PlainGrown(m, IfThen(t), c, Close(m, c2, false));
      }
    }
  }

  /** What `then` looks at after the text since `if`. */
  lemma LastIs(m: Stage, t: Frag, c: Compiling, c2: Compiling)
    requires Grown(m, t, Open(m, c), c2)
    ensures |c2.code| == |c.code| + 1 + Len(t) && c2.fbrk == c.fbrk + Opening(m) + Bytes(m, t)
    ensures Closes(c2.code[|c2.code| - 1]) <==> EndsFake(t)
  {
    hide Gen, Clean, EndsFake, Bytes, Short, LooksLikeElse;
    if Len(t) == 0 {
      EmptyIsPlain(t);
      assert c2.code == c2.code[..|c.code| + 1];
    }
  }

  lemma SpoiltGrown(m: Stage, fr: Frag, c: Compiling, c': Compiling)
    requires Sized(m, fr, c, c') && Spoils(fr) && Spoilt(c, c')
    ensures Grown(m, fr, c, c')
  {
  }

  lemma PlainGrown(m: Stage, fr: Frag, c: Compiling, c': Compiling)
    requires Sized(m, fr, c, c') && !Spoils(fr) && Plain(m, fr, c, c')
    ensures Grown(m, fr, c, c')
  {
  }

  lemma IfThenSized(m: Stage, t: Frag, c: Compiling, c2: Compiling, fake: bool)
    requires Grown(m, t, Open(m, c), c2) && Inside(c, c2) && |c2.ctl| > if fake then 1 else 0
    requires fake ==> Pending(c)
    ensures Sized(m, IfThen(t), c, Close(m, c2, fake))
  {
    hide Gen, Clean, EndsFake, Plain, Spoilt, Spoils, Patched;
    LastIs(m, t, c, c2);
    var c3 := Close(m, c2, fake);
    assert c3.code[|c3.code| - 1] == IResolve;
    assert !EndsFake(IfThen(t)) by {
      NoFakeEnd(t, t);
    }
  }

  lemma NoFakeEnd(t: Frag, e: Frag)
    ensures !EndsFake(IfThen(t)) && !EndsFake(IfElse(t, e)) && !EndsFake(Loop(t, e))
  {
  }

  lemma IfThenPlain(m: Stage, t: Frag, c: Compiling, c2: Compiling)
    requires Grown(m, t, Open(m, c), c2) && Inside(c, c2) && !EndsFake(t)
    ensures Plain(m, IfThen(t), c, Close(m, c2, false))
  {
    hide Gen, EndsFake, Len, Bytes, Closes, Patched, Clean, Short;
    LastIs(m, t, c, c2);
    CloseKeeps(m, c, c2);
    if Spoils(t) {
      IfThenCut(m, t, c, c2);
      SpoilsIfThen(m, t);
    } else {
      IfThenWhole(m, t, c, c2);
    }
  }

  lemma IfThenCut(m: Stage, t: Frag, c: Compiling, c2: Compiling)
    requires Inside(c, c2) && c2.ctl != [] && c2.ctl[0].at > |c.code| && Short(c2.code[|c.code|], |c2.code|)
    requires |c2.code| == |c.code| + 1 + Len(t)
    ensures var n := |c.code|; Close(m, c2, false).code[n..] != Gen(IfThen(t), n)
  {
    hide Gen, Len, Close, Short, Inside;
    var n, c3 := |c.code|, Close(m, c2, false);
    CloseKeeps(m, c, c2);
    IfThenIs(m, t, n);
    assert c3.code[n] == (c2.code + [IResolve])[n] == c2.code[n];
    ShortDiffers(c3.code, Gen(IfThen(t), n), n, 0, |c2.code|);
  }

  lemma SpoilsIfThen(m: Stage, t: Frag)
    requires Spoils(t)
    ensures !Clean(m, IfThen(t))
  {
    hide Bytes, Spoils;
    if Clean(m, t) {
      CleanIs(m, t, true);
    }
  }

  lemma IfThenWhole(m: Stage, t: Frag, c: Compiling, c2: Compiling)
    requires Plain(m, t, Open(m, c), c2) && Inside(c, c2) && !EndsFake(t)
    requires |c2.code| == |c.code| + 1 + Len(t) && c2.fbrk == c.fbrk + Opening(m) + Bytes(m, t)
    ensures var n := |c.code|; Close(m, c2, false).code[n..] == Gen(IfThen(t), n) <==> Clean(m, IfThen(t))
  {
    hide Gen, Clean, EndsFake, Len, Bytes, Join, Inside;
    var n, g := |c.code|, c2.code[|c.code| + 1..];
    IfThenIs(m, t, n);
    PlainBranch(m, t, c, c2);
    var p := Patched(IZBranch(0), Orig(n, c.fbrk + Opening(m) - 2), |c2.code| + 1, c2.fbrk + 1);
    PatchedRegion(c2.code, [IResolve], n, p);
    JoinSame([p], g, [IResolve], [], [IZBranch(n + 2 + Len(t))], Gen(t, n + 1), [IResolve], []);
    assert [p][0] == p;
  }

  /** After an opened text that spoils nothing, its branch is still to be patched. */
  lemma PlainBranch(m: Stage, t: Frag, c: Compiling, c2: Compiling)
    requires Plain(m, t, Open(m, c), c2)
    ensures c2.ctl == [Orig(|c.code|, c.fbrk + Opening(m) - 2)] + c.ctl && |c2.code| > |c.code| && c2.code[|c.code|] == IZBranch(0)
    ensures c2.code[|c.code| + 1..] == Gen(t, |c.code| + 1) <==> Clean(m, t)
  {
    hide Gen, Clean;
    assert c2.code[|c.code|] == c2.code[..|c.code| + 1][|c.code|];
  }

  lemma PatchedRegion(code: seq<Instr>, more: seq<Instr>, n: nat, p: Instr)
    requires n < |code|
    ensures (code + more)[n := p][n..] == Join([p], code[n + 1..], more, [])
  {
    JoinIs([p], code[n + 1..], more, []);
    assert (code + more)[n := p][n..] == [p] + code[n + 1..] + more + [];
  }

  lemma IfThenIs(m: Stage, t: Frag, n: nat)
    ensures Gen(IfThen(t), n) == Join([IZBranch(n + 2 + Len(t))], Gen(t, n + 1), [IResolve], [])
    ensures Gen(IfThen(t), n)[0] == IZBranch(n + 2 + Len(t))
    ensures Clean(m, IfThen(t)) == (Clean(m, t) && !EndsFake(t) && 3 + Bytes(m, t) <= FORWARD)
  {
  }

  lemma JoinIs(w: seq<Instr>, x: seq<Instr>, y: seq<Instr>, z: seq<Instr>)
    ensures Join(w, x, y, z) == w + x + y + z
  {
  }

  lemma JoinSame(w: seq<Instr>, x: seq<Instr>, y: seq<Instr>, z: seq<Instr>,
                 w': seq<Instr>, x': seq<Instr>, y': seq<Instr>, z': seq<Instr>)
    requires |w| == |w'| && |x| == |x'| && |y| == |y'|
    ensures Join(w, x, y, z) == Join(w', x', y', z') <==> w == w' && x == x' && y == y' && z == z'
  {
    BothSame(w + x + y, z, w' + x' + y', z');
    BothSame(w + x, y, w' + x', y');
    BothSame(w, x, w', x');
  }

  // ----- if ... else ... then -----

  lemma ElseIs(m: Stage, c: Compiling)
    requires c.ctl != []
    ensures CompileToken(m, c, TElse) == Some(Elsed(m, c))
    ensures |Elsed(m, c).code| == |c.code| + 2 && Elsed(m, c).fbrk == c.fbrk + 4 && Pending(Elsed(m, c))
  {
    hide Patched, Load;
    if m.Mem? {
      ElseLoads(c);
    }
  }

  lemma ElseLoads(c: Compiling)
    requires c.ctl != []
    ensures Load(c, [IBranch(0), IResolve]) == Some(Elsed(Mem, c))
  {
    hide Patch, Load, Lay, Resolve;
    LoadTwo(c, IBranch(0), IResolve);
    var branch := Orig(|c.code|, c.fbrk + 1);
    var c1 := Lay(Mem, c, IBranch(0)).(ctl := [branch] + c.ctl);
    assert LoadStep(c, IBranch(0)) == Some(c1);
    ResolvesElse(c, c1, branch);
  }

  lemma ResolvesElse(c: Compiling, c1: Compiling, branch: Ctl)
    requires c.ctl != [] && branch == Orig(|c.code|, c.fbrk + 1)
    requires c1 == Lay(Mem, c, IBranch(0)).(ctl := [branch] + c.ctl)
    ensures Resolve(Mem, c1) == Some(Elsed(Mem, c))
  {
    hide Patch;
    assert c1.code[|c.code|] == IBranch(0);
    assert c1.ctl[1] == c.ctl[0] && c1.ctl[2..] == c.ctl[1..];
    assert Lay(Mem, c1, IResolve) == Lay(Mem, Lay(Mem, c, IBranch(0)), IResolve).(ctl := c1.ctl);
    PatchCtl(Lay(Mem, c1, IResolve), c.ctl, c.ctl[0], [branch] + c.ctl[1..]);
  }

  lemma ElseInside(m: Stage, c: Compiling, c': Compiling)
    requires Inside(c, c')
    ensures Inside(c, Elsed(m, c'))
  {
    hide Patched, Size;
    assert Elsed(m, c').code[..|c.code|] == c'.code[..|c.code|];
  }

  lemma {:induction false} CompilesIfElse(m: Stage, t: Frag, e: Frag, c: Compiling)
    requires Conditioned(t) && Conditioned(e) && Pending(c)
    ensures Outcome(m, IfElse(t, e), c, CompileText(m, c, Flat(IfElse(t, e))))
    decreases IfElse(t, e), 0
  {
    hide CompileText, CompileToken, Grown, Flat;
    CompilesUpToElse(m, t, c);
    var r := CompileText(m, c, [TIf] + Flat(t) + [TElse]);
    FlatIfElse(t, e);
    CompileLast(m, c, [TIf] + Flat(t) + [TElse] + Flat(e), TThen);
    CompileConcat(m, c, [TIf] + Flat(t) + [TElse], Flat(e));
    if r.Some? {
      var c2 := CompileText(m, Open(m, c), Flat(t)).value;
      var c3 := Elsed(m, c2);
      Compiles(m, e, c3);
      var r4 := CompileText(m, c3, Flat(e));
      if r4.Some? {
        var c4 := r4.value;
        InsideGrows(m, e, c, c3, c4);
        LastSinceElse(m, e, c2, c4);
        ThenCloses(m, c4, EndsFake(e));
        CloseIfElse(m, t, e, c, c2, c4);
      }
    }
  }

  lemma FlatIfElse(t: Frag, e: Frag)
    ensures Flat(IfElse(t, e)) == [TIf] + Flat(t) + [TElse] + Flat(e) + [TThen]
  {
  }

  lemma {:induction false} CompilesUpToElse(m: Stage, t: Frag, c: Compiling)
    requires Conditioned(t) && Pending(c)
    ensures var r, r2 := CompileText(m, c, [TIf] + Flat(t) + [TElse]), CompileText(m, Open(m, c), Flat(t));
      (r.Some? <==> Fits(m, t, true)) && (r.Some? ==>
        r2.Some? && Grown(m, t, Open(m, c), r2.value) && Inside(c, r2.value) && r == Some(Elsed(m, r2.value))
        && Inside(c, r.value) && Pending(r.value))
    decreases t, 2
  {
    hide CompileText, CompileToken, Grown;
    CompileLast(m, c, [TIf] + Flat(t), TElse);
    CompileFirst(m, c, TIf, Flat(t));
    TokenOpens(m, c);
    OpenInside(m, c);
    Compiles(m, t, Open(m, c));
    var r2 := CompileText(m, Open(m, c), Flat(t));
    if r2.Some? {
      InsideGrows(m, t, c, Open(m, c), r2.value);
      ElseIs(m, r2.value);
      ElseInside(m, c, r2.value);
    }
  }

  /** What `then` looks at after the text since `else`. */
  lemma LastSinceElse(m: Stage, e: Frag, c2: Compiling, c4: Compiling)
    requires c2.ctl != [] && c2.ctl[0].at < |c2.code| && Grown(m, e, Elsed(m, c2), c4)
    ensures |c4.code| == |c2.code| + 2 + Len(e) && c4.fbrk == c2.fbrk + 4 + Bytes(m, e)
    ensures Closes(c4.code[|c4.code| - 1]) <==> EndsFake(e)
  {
    hide Gen, Clean, EndsFake, Bytes, Short, LooksLikeElse, Patched;
    if Len(e) == 0 {
      EmptyIsPlain(e);
      assert c4.code == c4.code[..|c2.code| + 2];
      assert c4.code[|c4.code| - 1] == IResolve;
    }
  }

  lemma CloseIfElse(m: Stage, t: Frag, e: Frag, c: Compiling, c2: Compiling, c4: Compiling)
    requires Pending(c) && Grown(m, t, Open(m, c), c2) && Inside(c, c2) && Grown(m, e, Elsed(m, c2), c4) && Inside(c, c4)
    ensures EndsFake(e) && c.ctl != [] ==> Grown(m, IfElse(t, e), c, Close(m, c4, true))
    ensures !EndsFake(e) ==> Grown(m, IfElse(t, e), c, Close(m, c4, false))
  {
    hide Gen, Clean, EndsFake, Grown, Plain, Spoilt, Sized;
    if EndsFake(e) {
      if c.ctl != [] {
        CloseSpoilt(m, c, c4);
        IfElseSized(m, t, e, c, c2, c4, true);
        SpoiltGrown(m, IfElse(t, e), c, Close(m, c4, true));
      }
    } else {
      IfElseSized(m, t, e, c, c2, c4, false);
      IfElsePlain(m, t, e, c, c2, c4);
      PlainGrown(m, IfElse(t, e), c, Close(m, c4, false));
    }
  }

  lemma IfElseSized(m: Stage, t: Frag, e: Frag, c: Compiling, c2: Compiling, c4: Compiling, fake: bool)
    requires Grown(m, t, Open(m, c), c2) && Inside(c, c2) && Grown(m, e, Elsed(m, c2), c4) && Inside(c, c4)
    requires (fake ==> Pending(c)) && |c4.ctl| > if fake then 1 else 0
    ensures Sized(m, IfElse(t, e), c, Close(m, c4, fake))
  {
    hide Gen, Clean, EndsFake, Plain, Spoilt, Spoils, Patched, Grown, Elsed;
    LastIs(m, t, c, c2);
    LastSinceElse(m, e, c2, c4);
    var c5 := Close(m, c4, fake);
    assert c5.code[|c5.code| - 1] == IResolve;
    NoFakeEnd(t, e);
  }

  lemma IfElsePlain(m: Stage, t: Frag, e: Frag, c: Compiling, c2: Compiling, c4: Compiling)
    requires Grown(m, t, Open(m, c), c2) && Inside(c, c2) && Grown(m, e, Elsed(m, c2), c4) && Inside(c, c4) && !EndsFake(e)
    ensures Plain(m, IfElse(t, e), c, Close(m, c4, false))
  {
    hide Gen, EndsFake, Len, Bytes, Closes, Patched, Clean, Short, Elsed, Close;
    CloseKeeps(m, c, c4);
    LastIs(m, t, c, c2);
    LastSinceElse(m, e, c2, c4);
    if Spoils(t) || Spoils(e) {
      IfElseCut(m, t, e, c, c2, c4);
    } else {
      IfElseWhole(m, t, e, c, c2, c4);
    }
  }

  /** Text leaves alone what was compiled before, but for the pending branch. */
  lemma Untouched(m: Stage, fr: Frag, c: Compiling, c': Compiling, i: nat)
    requires Grown(m, fr, c, c') && i < |c.code| && (c.ctl != [] ==> i != c.ctl[0].at)
    ensures i < |c'.code| && c'.code[i] == c.code[i]
  {
    hide Gen, Clean, EndsFake, Len, Bytes, Short, Closes;
    if !Spoils(fr) {
      assert c'.code[i] == c'.code[..|c.code|][i];
    }
  }

  lemma IfElseCut(m: Stage, t: Frag, e: Frag, c: Compiling, c2: Compiling, c4: Compiling)
    requires Grown(m, t, Open(m, c), c2) && Inside(c, c2) && Grown(m, e, Elsed(m, c2), c4) && Inside(c, c4)
    requires (Spoils(t) || Spoils(e)) && |c2.code| == |c.code| + 1 + Len(t) && |c4.code| == |c2.code| + 2 + Len(e)
    ensures var n := |c.code|; Close(m, c4, false).code[n..] != Gen(IfElse(t, e), n) && !Clean(m, IfElse(t, e))
  {
    hide Gen, EndsFake, Len, Bytes, Closes, Patched, Sized, Plain, Close, Spoils, Clean, Short;
    IfElseClean(m, t, e);
    if Clean(m, t) && Clean(m, e) {
      CleanIs(m, t, true);
      CleanIs(m, e, true);
    }
    if Spoils(t) {
      IfElseCutFirst(m, t, e, c, c2, c4);
    } else {
      IfElseCutSecond(m, t, e, c, c2, c4);
    }
  }

  lemma IfElseCutFirst(m: Stage, t: Frag, e: Frag, c: Compiling, c2: Compiling, c4: Compiling)
    requires Spoilt(Open(m, c), c2) && Inside(c, c2) && Grown(m, e, Elsed(m, c2), c4) && Inside(c, c4)
    requires |c2.code| == |c.code| + 1 + Len(t) && |c4.code| == |c2.code| + 2 + Len(e)
    ensures var n := |c.code|; Close(m, c4, false).code[n..] != Gen(IfElse(t, e), n)
  {
    hide Gen, Clean, EndsFake, Len, Bytes, Closes, Patched, Sized, Plain;
    var n, c5 := |c.code|, Close(m, c4, false);
    CloseKeeps(m, c, c4);
    IfElseBranches(t, e, n);
    Untouched(m, e, Elsed(m, c2), c4, n);
    EntryMoved(m, e, Elsed(m, c2), c4);
    assert Elsed(m, c2).code[n] == c2.code[n];
    assert c5.code[n] == c4.code[n];
    ShortDiffers(c5.code, Gen(IfElse(t, e), n), n, 0, |c2.code|);
  }

  /** The entry on top is the one it was, or one of the text's own. */
  lemma EntryMoved(m: Stage, fr: Frag, c: Compiling, c': Compiling)
    requires Grown(m, fr, c, c') && c.ctl != []
    ensures c'.ctl != [] && (c'.ctl[0] == c.ctl[0] || c'.ctl[0].at >= |c.code|)
  {
    hide Gen, Clean, EndsFake, Len, Bytes, Closes, Spoils;
  }

  lemma IfElseCutSecond(m: Stage, t: Frag, e: Frag, c: Compiling, c2: Compiling, c4: Compiling)
    requires Inside(c, c4) && c4.ctl != [] && c4.ctl[0].at > |c2.code| && Short(c4.code[|c2.code|], |c4.code|)
    requires |c2.code| == |c.code| + 1 + Len(t) && |c4.code| == |c2.code| + 2 + Len(e)
    ensures var n := |c.code|; Close(m, c4, false).code[n..] != Gen(IfElse(t, e), n)
  {
    hide Gen, Len, Close, Short, Inside;
    var n, k, c5 := |c.code|, |c2.code|, Close(m, c4, false);
    CloseKeeps(m, c, c4);
    IfElseBranches(t, e, n);
    assert c5.code[k] == (c4.code + [IResolve])[k] == c4.code[k];
    ShortDiffers(c5.code, Gen(IfElse(t, e), n), n, 1 + Len(t), |c4.code|);
  }

  lemma IfElseWhole(m: Stage, t: Frag, e: Frag, c: Compiling, c2: Compiling, c4: Compiling)
    requires Plain(m, t, Open(m, c), c2) && c2.ctl != [] && Plain(m, e, Elsed(m, c2), c4) && c4.ctl != [] && !EndsFake(e)
    requires |c2.code| == |c.code| + 1 + Len(t) && c2.fbrk == c.fbrk + Opening(m) + Bytes(m, t)
    requires |c4.code| == |c2.code| + 2 + Len(e) && c4.fbrk == c2.fbrk + 4 + Bytes(m, e)
    ensures var n := |c.code|; Close(m, c4, false).code[n..] == Gen(IfElse(t, e), n) <==> Clean(m, IfElse(t, e))
  {
    hide Gen, Clean, EndsFake, Len, Bytes, Join, Plain, Patched, Elsed, Close, Open;
    var n, k := |c.code|, |c2.code|;
    GenIfElse(t, e, n);
    IfElseClean(m, t, e);
    PlainBranch(m, t, c, c2);
    var p1 := Patched(IZBranch(0), Orig(n, c.fbrk + Opening(m) - 2), k + 2, c2.fbrk + 4);
    var p2 := Patched(IBranch(0), Orig(k, c2.fbrk + 1), |c4.code| + 1, c4.fbrk + 1);
    PlainElse(m, e, c2, c4, p1);
    var g, h := c2.code[n + 1..], c4.code[k + 2..];
    ElseRegion(c2.code, c4.code, n, p1, p2);
    ClosedElse(m, c4, k, p2);
    ElseSame(g, Gen(t, n + 1), p1, IZBranch(k + 2), p2, IBranch(k + 3 + Len(e)), h, Gen(e, k + 2));
    InRange(m, n, c.fbrk, k, c2.fbrk, |c4.code|, c4.fbrk);
  }

  lemma ClosedElse(m: Stage, c: Compiling, k: nat, p: Instr)
    requires c.ctl != [] && c.ctl[0].at == k < |c.code|
    requires p == Patched(c.code[k], c.ctl[0], |c.code| + 1, c.fbrk + 1)
    ensures Close(m, c, false).code == (c.code + [IResolve])[k := p]
  {
    hide Patched;
  }

  lemma ElseSame(g: seq<Instr>, g': seq<Instr>, p1: Instr, p1': Instr, p2: Instr, p2': Instr, h: seq<Instr>, h': seq<Instr>)
    requires |g| == |g'| && |h| == |h'|
    ensures Join([p1], g, [p2, IResolve], h + [IResolve]) == Join([p1'], g', [p2', IResolve], h' + [IResolve])
       <==> g == g' && h == h' && p1 == p1' && p2 == p2'
  {
    hide Join;
    JoinSame([p1], g, [p2, IResolve], h + [IResolve], [p1'], g', [p2', IResolve], h' + [IResolve]);
    BothSame(h, [IResolve], h', [IResolve]);
    assert [p1][0] == p1 && [p2, IResolve][0] == p2;
  }

  lemma InRange(m: Stage, n: nat, start: nat, k: nat, mid: nat, end: nat, stop: nat)
    ensures Patched(IZBranch(0), Orig(n, start + Opening(m) - 2), k + 2, mid + 4) == IZBranch(k + 2)
       <==> mid + 6 - start - Opening(m) <= FORWARD
    ensures Patched(IBranch(0), Orig(k, mid + 1), end + 1, stop + 1) == IBranch(end + 1) <==> stop - mid <= FORWARD
  {
  }

  lemma PlainElse(m: Stage, e: Frag, c2: Compiling, c4: Compiling, p1: Instr)
    requires c2.ctl != [] && c2.ctl[0].at < |c2.code| && Plain(m, e, Elsed(m, c2), c4)
    requires p1 == Patched(c2.code[c2.ctl[0].at], c2.ctl[0], |c2.code| + 2, c2.fbrk + 4)
    ensures var k := |c2.code|;
      c4.ctl == [Orig(k, c2.fbrk + 1)] + c2.ctl[1..] && |c4.code| >= k + 2
      && c4.code[..k + 2] == (c2.code + [IBranch(0), IResolve])[c2.ctl[0].at := p1]
      && (c4.code[k + 2..] == Gen(e, k + 2) <==> Clean(m, e))
  {
    hide Gen, Clean, Patched;
    assert c2.code + [IBranch(0)] + [IResolve] == c2.code + [IBranch(0), IResolve];
  }

  lemma ElseRegion(code2: seq<Instr>, code4: seq<Instr>, n: nat, p1: Instr, p2: Instr)
    requires n < |code2| && |code4| >= |code2| + 2
    requires code4[..|code2| + 2] == (code2 + [IBranch(0), IResolve])[n := p1]
    ensures (code4 + [IResolve])[|code2| := p2][n..]
         == Join([p1], code2[n + 1..], [p2, IResolve], code4[|code2| + 2..] + [IResolve])
    ensures code4[|code2|] == IBranch(0)
  {
    var m := |code2|;
    assert forall i :: 0 <= i < m + 2 ==> code4[i] == code4[..m + 2][i];
    assert (code4 + [IResolve])[m := p2][n..]
        == [p1] + code2[n + 1..] + [p2, IResolve] + (code4[m + 2..] + [IResolve]);
    JoinIs([p1], code2[n + 1..], [p2, IResolve], code4[m + 2..] + [IResolve]);
  }

  lemma IfElseBranches(t: Frag, e: Frag, n: nat)
    ensures |Gen(IfElse(t, e), n)| == 4 + Len(t) + Len(e)
    ensures Gen(IfElse(t, e), n)[0] == IZBranch(n + 3 + Len(t))
    ensures Gen(IfElse(t, e), n)[1 + Len(t)] == IBranch(n + 4 + Len(t) + Len(e))
  {
    GenIfElse(t, e, n);
    hide Gen, Join;
    var m := n + 1 + Len(t);
    JoinAt([IZBranch(m + 2)], Gen(t, n + 1), [IBranch(m + 3 + Len(e)), IResolve], Gen(e, m + 2) + [IResolve]);
  }

  lemma IfElseClean(m: Stage, t: Frag, e: Frag)
    ensures Clean(m, IfElse(t, e))
         == (Clean(m, t) && Clean(m, e) && !EndsFake(e) && 6 + Bytes(m, t) <= FORWARD && 4 + Bytes(m, e) <= FORWARD)
  {
    hide Bytes, EndsFake;
  }

  lemma GenIfElse(t: Frag, e: Frag, n: nat)
    ensures var m := n + 1 + Len(t);
      Gen(IfElse(t, e), n)
      == Join([IZBranch(m + 2)], Gen(t, n + 1), [IBranch(m + 3 + Len(e)), IResolve], Gen(e, m + 2) + [IResolve])
  {
    hide Len, Join;
  }

  lemma JoinAt(w: seq<Instr>, x: seq<Instr>, y: seq<Instr>, z: seq<Instr>)
    ensures w != [] ==> Join(w, x, y, z)[0] == w[0]
    ensures y != [] ==> Join(w, x, y, z)[|w| + |x|] == y[0]
  {
  }

  // ----- begin ... while ... repeat -----

  /** From `begin` to before `repeat`. */
  lemma {:induction false} CompilesUpToRepeat(m: Stage, test: Frag, body: Frag, c: Compiling)
    requires Conditioned(test) && Conditioned(body)
    ensures var r := CompileText(m, c, [TBegin] + Flat(test) + [TWhile] + Flat(body));
      var r2 := CompileText(m, Begun(m, c), Flat(test));
      (r.Some? <==> Fits(m, test, true) && Fits(m, body, true))
      && (r.Some? ==> r2.Some? && Grown(m, test, Begun(m, c), r2.value)
                      && Grown(m, body, Open(m, r2.value), r.value) && Inside(r2.value, r.value))
    decreases Loop(test, body), 0, 0
  {
    hide CompileText, CompileToken, Grown;
    CompileConcat(m, c, [TBegin] + Flat(test) + [TWhile], Flat(body));
    CompileLast(m, c, [TBegin] + Flat(test), TWhile);
    CompileFirst(m, c, TBegin, Flat(test));
    TokenOpens(m, c);
    Compiles(m, test, Begun(m, c));
    var r2 := CompileText(m, Begun(m, c), Flat(test));
    if r2.Some? {
      var c2 := r2.value;
      TokenOpens(m, c2);
      OpenInside(m, c2);
      Compiles(m, body, Open(m, c2));
      var r4 := CompileText(m, Open(m, c2), Flat(body));
      if r4.Some? {
        InsideGrows(m, body, c2, Open(m, c2), r4.value);
      }
    }
  }

  lemma FlatLoop(test: Frag, body: Frag)
    ensures Flat(Loop(test, body)) == [TBegin] + Flat(test) + [TWhile] + Flat(body) + [TRepeat]
  {
  }

  lemma {:induction false} CompilesLoop(m: Stage, test: Frag, body: Frag, c: Compiling)
    requires Conditioned(test) && Conditioned(body)
    ensures Outcome(m, Loop(test, body), c, CompileText(m, c, Flat(Loop(test, body))))
    decreases Loop(test, body), 0, 1
  {
    hide CompileText, CompileToken, Grown, Flat, Begun;
    CompilesUpToRepeat(m, test, body, c);
    var ts := [TBegin] + Flat(test) + [TWhile] + Flat(body);
    FlatLoop(test, body);
    CompileLast(m, c, ts, TRepeat);
    var r := CompileText(m, c, ts);
    if r.Some? {
      var c2 := CompileText(m, Begun(m, c), Flat(test)).value;
      RepeatIs(m, test, body, c, c2, r.value);
      if !Spoils(test) && BackBytes(m, test, body) <= BACKWARD {
        LoopGrown(m, test, body, c, c2, r.value);
      }
    }
  }

  lemma LoopSizes(m: Stage, test: Frag, body: Frag, c: Compiling, c2: Compiling, c4: Compiling)
    requires Grown(m, test, Begun(m, c), c2) && Grown(m, body, Open(m, c2), c4)
    ensures |c2.code| == |c.code| + 1 + Len(test) && c2.fbrk == c.fbrk + Size(m, IMark) + Bytes(m, test)
    ensures |c4.code| == |c2.code| + 1 + Len(body) && c4.fbrk == c2.fbrk + Opening(m) + Bytes(m, body)
  {
    hide Gen, Clean, Spoils, EndsFake, Len, Bytes, Closes, Plain, Spoilt;
  }

  lemma RepeatIs(m: Stage, test: Frag, body: Frag, c: Compiling, c2: Compiling, c4: Compiling)
    requires Grown(m, test, Begun(m, c), c2) && Grown(m, body, Open(m, c2), c4) && Inside(c2, c4)
    ensures var fits := !Spoils(test) && BackBytes(m, test, body) <= BACKWARD;
      CompileToken(m, c4, TRepeat) == if fits && |c4.ctl| >= 2 then Some(Repeated(m, c4)) else None
    ensures |c4.ctl| >= 2
    ensures !Spoils(test) ==> c4.ctl[1..] == [Mark(|c.code|, c.fbrk + Size(m, IMark))] + c.ctl
  {
    hide Gen, Clean, EndsFake, Len, Bytes, Closes, Repeated, Short, Sized, Spoils, CompileToken;
    LoopSizes(m, test, body, c, c2, c4);
    RepeatTakes(m, c4);
    assert c4.ctl[1..] == c2.ctl;
    assert c4.ctl[1] == c2.ctl[0];
  }

  lemma RepeatTakes(m: Stage, c: Compiling)
    requires c.ctl != [] && c.ctl[0].Orig?
    ensures CompileToken(m, c, TRepeat)
         == if |c.ctl| < 2 || c.ctl[1].Orig? || c.fbrk + 1 - c.ctl[1].brk > BACKWARD then None else Some(Repeated(m, c))
  {
    hide Patch, Size, Load;
    if m.Mem? {
      RepeatLoads(c);
    }
  }

  lemma RepeatLoads(c: Compiling)
    requires c.ctl != [] && c.ctl[0].Orig?
    ensures Load(c, [IBack(0), IResolve])
         == if |c.ctl| < 2 || c.ctl[1].Orig? || c.fbrk + 1 - c.ctl[1].brk > BACKWARD then None else Some(Repeated(Mem, c))
  {
    hide Patch, Load;
    LoadTwo(c, IBack(0), IResolve);
    if !(|c.ctl| < 2 || c.ctl[1].Orig? || c.fbrk + 1 - c.ctl[1].brk > BACKWARD) {
      var c1 := Lay(Mem, c, IBack(c.ctl[1].at + 1)).(ctl := [c.ctl[0]] + c.ctl[2..]);
      assert LoadStep(c, IBack(0)) == Some(c1);
      assert c1.code[|c.code|] == IBack(c.ctl[1].at + 1);
      assert c1.ctl[1..] == c.ctl[2..];
      assert Lay(Mem, c1, IResolve).code == Lay(Mem, Lay(Mem, c, IBack(c.ctl[1].at + 1)), IResolve).code;
      PatchCtl(Lay(Mem, c1, IResolve), c.ctl, c.ctl[0], c.ctl[2..]);
    }
  }

  /** Patching does not look at the control stack. */
  lemma PatchCtl(c: Compiling, ctl: seq<Ctl>, e: Ctl, ctl': seq<Ctl>)
    ensures Patch(c, e).(ctl := ctl') == Patch(c.(ctl := ctl), e).(ctl := ctl')
  {
    hide Patched;
  }

  lemma LoopGrown(m: Stage, test: Frag, body: Frag, c: Compiling, c2: Compiling, c4: Compiling)
    requires Grown(m, test, Begun(m, c), c2) && Grown(m, body, Open(m, c2), c4) && Inside(c2, c4) && |c4.ctl| >= 2
    requires !Spoils(test) && c4.ctl[1..] == [Mark(|c.code|, c.fbrk + Size(m, IMark))] + c.ctl
    requires BackBytes(m, test, body) <= BACKWARD
    ensures Grown(m, Loop(test, body), c, Repeated(m, c4))
  {
    hide Gen, Clean, EndsFake, Grown, Plain, Spoilt, Inside, Sized;
    LoopSized(m, test, body, c, c2, c4);
    LoopPlain(m, test, body, c, c2, c4);
    PlainGrown(m, Loop(test, body), c, Repeated(m, c4));
  }

  lemma LoopSized(m: Stage, test: Frag, body: Frag, c: Compiling, c2: Compiling, c4: Compiling)
    requires Grown(m, test, Begun(m, c), c2) && Grown(m, body, Open(m, c2), c4) && Inside(c2, c4) && |c4.ctl| >= 2
    ensures Sized(m, Loop(test, body), c, Repeated(m, c4))
  {
    LoopSizes(m, test, body, c, c2, c4);
    RepeatEnd(m, c2, c4);
    hide Gen, Clean, EndsFake, Plain, Spoilt, Spoils, Patched, Grown, Begun, Repeated, Inside, Open, Size;
    NoFakeEnd(test, body);
  }

  lemma RepeatEnd(m: Stage, c2: Compiling, c4: Compiling)
    requires Inside(c2, c4) && |c4.ctl| >= 2
    ensures var c5 := Repeated(m, c4);
      |c5.code| == |c4.code| + 2 && c5.fbrk == c4.fbrk + 4 && c5.code[|c5.code| - 1] == IResolve
  {
    hide Patched;
  }

  /** The mark of `begin` and the text before `while`. */
  lemma PlainMark(m: Stage, test: Frag, c: Compiling, c2: Compiling)
    requires Plain(m, test, Begun(m, c), c2)
    ensures |c2.code| > |c.code| && c2.code[..|c.code|] == c.code && c2.code[|c.code|] == IMark
    ensures c2.code[|c.code| + 1..] == Gen(test, |c.code| + 1) <==> Clean(m, test)
  {
    hide Gen, Clean;
    var n := |c.code|;
    assert c2.code[n] == c2.code[..n + 1][n];
    assert c2.code[..n] == c2.code[..n + 1][..n];
  }

  lemma LoopPlain(m: Stage, test: Frag, body: Frag, c: Compiling, c2: Compiling, c4: Compiling)
    requires Grown(m, test, Begun(m, c), c2) && Grown(m, body, Open(m, c2), c4) && Inside(c2, c4) && |c4.ctl| >= 2
    requires !Spoils(test) && c4.ctl[1..] == [Mark(|c.code|, c.fbrk + Size(m, IMark))] + c.ctl
    requires BackBytes(m, test, body) <= BACKWARD
    ensures Plain(m, Loop(test, body), c, Repeated(m, c4))
  {
    LoopSizes(m, test, body, c, c2, c4);
    PlainMark(m, test, c, c2);
    hide Gen, Clean, EndsFake, Len, Bytes, Closes, Patched, Spoils, Begun, Short;
    var c5 := Repeated(m, c4);
    assert c5.ctl == c4.ctl[1..][1..] == c.ctl;
    RepeatKeeps(m, c, c2, c4);
    if Spoils(body) {
      LoopCut(m, test, body, c, c2, c4);
      SpoilsUnclean(m, test, body);
    } else {
      LoopWhole(m, test, body, c, c2, c4);
    }
  }

  lemma SpoilsUnclean(m: Stage, test: Frag, body: Frag)
    requires Spoils(body)
    ensures !Clean(m, Loop(test, body))
  {
    hide Bytes, Spoils;
    if Clean(m, body) {
      CleanIs(m, body, true);
    }
  }

  lemma RepeatKeeps(m: Stage, c: Compiling, c2: Compiling, c4: Compiling)
    requires Inside(c2, c4) && |c4.ctl| >= 2 && |c2.code| >= |c.code| && c2.code[..|c.code|] == c.code
    ensures var c5 := Repeated(m, c4);
      |c5.code| == |c4.code| + 2 && c5.code[..|c.code|] == c.code
      && Same(c4.code + [IBack(c4.ctl[1].at + 1), IResolve], c5.code, c4.ctl[0].at)
  {
    hide Patched, Size;
    var c5 := Repeated(m, c4);
    assert c5.code[..|c.code|] == c4.code[..|c2.code|][..|c.code|];
  }

  lemma LoopCut(m: Stage, test: Frag, body: Frag, c: Compiling, c2: Compiling, c4: Compiling)
    requires Inside(c2, c4) && |c4.ctl| >= 2 && c4.ctl[0].at > |c2.code| && Short(c4.code[|c2.code|], |c4.code|)
    requires |c2.code| == |c.code| + 1 + Len(test) && |c4.code| == |c2.code| + 1 + Len(body)
    requires c2.code[..|c.code|] == c.code
    ensures var n := |c.code|; Repeated(m, c4).code[n..] != Gen(Loop(test, body), n)
  {
    hide Gen, Len, Inside, Repeated, Short;
    var n, q, c5 := |c.code|, |c2.code|, Repeated(m, c4);
    RepeatKeeps(m, c, c2, c4);
    LoopBranch(test, body, n);
    assert c5.code[q] == c4.code[q];
    ShortDiffers(c5.code, Gen(Loop(test, body), n), n, 1 + Len(test), |c4.code|);
  }

  lemma LoopWhole(m: Stage, test: Frag, body: Frag, c: Compiling, c2: Compiling, c4: Compiling)
    requires Plain(m, body, Open(m, c2), c4) && |c4.ctl| >= 2 && c4.ctl[1].at == |c.code|
    requires |c2.code| == |c.code| + 1 + Len(test) && c2.fbrk == c.fbrk + Size(m, IMark) + Bytes(m, test)
    requires |c4.code| == |c2.code| + 1 + Len(body) && c4.fbrk == c2.fbrk + Opening(m) + Bytes(m, body)
    requires c2.code[|c.code|] == IMark && (c2.code[|c.code| + 1..] == Gen(test, |c.code| + 1) <==> Clean(m, test))
    requires BackBytes(m, test, body) <= BACKWARD
    ensures var n := |c.code|; Repeated(m, c4).code[n..] == Gen(Loop(test, body), n) <==> Clean(m, Loop(test, body))
  {
    hide Gen, Clean, Len, Bytes, Join, Plain, Patched, Repeated, Open;
    var n, q := |c.code|, |c2.code|;
    var p, back := Patched(IZBranch(0), Orig(q, c2.fbrk + Opening(m) - 2), |c4.code| + 2, c4.fbrk + 4), [IBack(n + 1), IResolve];
    LoopClean(m, test, body);
    PlainBranch(m, body, c2, c4);
    LoopCode(m, body, n, c2, c4, p);
    GenLoop(test, body, n);
    LoopSame(c2.code[n + 1..], Gen(test, n + 1), p, IZBranch(q + 3 + Len(body)), c4.code[q + 1..], Gen(body, q + 1), back);
    PatchedInRange(q, c2.fbrk + Opening(m) - 2, |c4.code| + 2, c4.fbrk + 4);
  }

  lemma LoopCode(m: Stage, body: Frag, n: nat, c2: Compiling, c4: Compiling, p: Instr)
    requires Plain(m, body, Open(m, c2), c4) && |c4.ctl| >= 2 && c4.ctl[1].at == n < |c2.code| && c2.code[n] == IMark
    requires p == Patched(IZBranch(0), Orig(|c2.code|, c2.fbrk + Opening(m) - 2), |c4.code| + 2, c4.fbrk + 4)
    ensures |c2.code| < |c4.code|
    ensures Repeated(m, c4).code[n..]
         == Join([IMark] + c2.code[n + 1..], [p], c4.code[|c2.code| + 1..], [IBack(n + 1), IResolve])
  {
    hide Gen, Clean, Len, Bytes, Join, Plain, Patched, Repeated, Open;
    PlainBranch(m, body, c2, c4);
    PlainPrefix(m, body, c2, c4);
    RepeatCode(m, c4, |c2.code|, n + 1, p);
    LoopRegion(c2.code, c4.code, n, p, [IBack(n + 1), IResolve]);
  }

  lemma LoopSame(g: seq<Instr>, g': seq<Instr>, p: Instr, p': Instr, h: seq<Instr>, h': seq<Instr>, back: seq<Instr>)
    requires |g| == |g'| && |h| == |h'|
    ensures Join([IMark] + g, [p], h, back) == Join([IMark] + g', [p'], h', back) <==> g == g' && p == p' && h == h'
  {
    hide Join;
    JoinSame([IMark] + g, [p], h, back, [IMark] + g', [p'], h', back);
    BothSame([IMark], g, [IMark], g');
    assert [p][0] == p;
  }

  lemma PatchedInRange(at: nat, brk: nat, target: nat, fbrk: nat)
    ensures Patched(IZBranch(0), Orig(at, brk), target, fbrk) == IZBranch(target) <==> fbrk - brk <= FORWARD
  {
  }

  lemma PlainPrefix(m: Stage, body: Frag, c2: Compiling, c4: Compiling)
    requires Plain(m, body, Open(m, c2), c4)
    ensures |c4.code| > |c2.code| && c4.code[..|c2.code|] == c2.code
  {
    hide Gen, Clean;
    assert c4.code[..|c2.code|] == c4.code[..|c2.code| + 1][..|c2.code|];
  }

  lemma RepeatCode(m: Stage, c: Compiling, q: nat, back: nat, p: Instr)
    requires |c.ctl| >= 2 && c.ctl[0].at == q < |c.code| && c.ctl[1].at + 1 == back
    requires p == Patched(c.code[q], c.ctl[0], |c.code| + 2, c.fbrk + 4)
    ensures Repeated(m, c).code == (c.code + [IBack(back), IResolve])[q := p]
  {
    hide Patched;
    assert c.code + [IBack(back)] + [IResolve] == c.code + [IBack(back), IResolve];
  }

  lemma LoopRegion(code2: seq<Instr>, code4: seq<Instr>, n: nat, p: Instr, back: seq<Instr>)
    requires n < |code2| < |code4| && code2[n] == IMark && code4[..|code2|] == code2
    ensures (code4 + back)[|code2| := p][n..] == Join([IMark] + code2[n + 1..], [p], code4[|code2| + 1..], back)
  {
    var q := |code2|;
    assert code4[n..q] == code4[..q][n..] == [IMark] + code2[n + 1..];
    assert (code4 + back)[q := p][n..] == code4[n..q] + [p] + code4[q + 1..] + back;
    JoinIs([IMark] + code2[n + 1..], [p], code4[q + 1..], back);
  }

  lemma LoopBranch(test: Frag, body: Frag, n: nat)
    ensures |Gen(Loop(test, body), n)| == 4 + Len(test) + Len(body)
    ensures Gen(Loop(test, body), n)[1 + Len(test)] == IZBranch(n + 4 + Len(test) + Len(body))
  {
    GenLoop(test, body, n);
    hide Gen, Join;
    var m := n + 1 + Len(test);
    JoinSecond([IMark] + Gen(test, n + 1), [IZBranch(m + 3 + Len(body))], Gen(body, m + 1), [IBack(n + 1), IResolve]);
  }

  lemma LoopClean(m: Stage, test: Frag, body: Frag)
    ensures Clean(m, Loop(test, body))
         == (Clean(m, test) && Clean(m, body) && 6 + Bytes(m, body) <= FORWARD && BackBytes(m, test, body) <= BACKWARD)
  {
    hide Bytes;
  }

  lemma GenLoop(test: Frag, body: Frag, n: nat)
    ensures var m := n + 1 + Len(test);
      Gen(Loop(test, body), n)
      == Join([IMark] + Gen(test, n + 1), [IZBranch(m + 3 + Len(body))], Gen(body, m + 1), [IBack(n + 1), IResolve])
  {
    hide Len, Join;
  }

  lemma JoinSecond(w: seq<Instr>, x: seq<Instr>, y: seq<Instr>, z: seq<Instr>)
    requires x != []
    ensures Join(w, x, y, z)[|w|] == x[0]
  {
  }
}
