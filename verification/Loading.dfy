/** The two stages together: the FCodes of a text, loaded, against the text's own
    threaded code. */
module Loading {
  import opened Options
  import opened Forth
  import opened Threaded
  import opened Patching

  // ----- what an instruction is, whatever its offset -----

  datatype Kind =
    | KWord(w: Word) | KEnd | KForward | KZForward | KBack | KZBack | KResolve | KMark | KGarbled

  function KindOf(i: Instr): Kind {
    match i
    case IWord(w) => KWord(w)
    case IEnd => KEnd
    case IBranch(_) => KForward
    case IZBranch(_) => KZForward
    case IBack(_) => KBack
    case IZBack(_) => KZBack
    case IResolve => KResolve
    case IMark => KMark
    case IBad(zero, _) => if zero then KZForward else KForward
    case IGarbled => KGarbled
  }

  /** What an FCode is loaded as: a branch whose offset has come out negative
      leads back. */
  function LoadedAs(i: Instr): Kind {
    if i.IBad? && i.negative then if i.zero then KZBack else KBack else KindOf(i)
  }

  predicate Like(k: Kind, i: Instr) {
    i.IGarbled? || KindOf(i) == k
  }

  /** Compiled code has grown by instructions of the given kinds; patching has
      changed no kind but by overwriting. */
  ghost predicate GrownBy(kinds: seq<Kind>, c: Compiling, c': Compiling) {
    |c'.code| == |c.code| + |kinds|
    && (forall i :: 0 <= i < |c.code| ==> Like(KindOf(c.code[i]), c'.code[i]))
    && (forall i :: 0 <= i < |kinds| ==> Like(kinds[i], c'.code[|c.code| + i]))
  }

  lemma GrownThen(ks: seq<Kind>, ls: seq<Kind>, c: Compiling, c1: Compiling, c2: Compiling)
    requires GrownBy(ks, c, c1) && GrownBy(ls, c1, c2)
    ensures GrownBy(ks + ls, c, c2)
  {
    var n := |c.code|;
    forall i | 0 <= i < |ks + ls| ensures Like((ks + ls)[i], c2.code[n + i]) {
      if i < |ks| {
        assert Like(KindOf(c1.code[n + i]), c2.code[n + i]);
      } else {
        assert c2.code[n + i] == c2.code[|c1.code| + (i - |ks|)];
      }
    }
  }

  lemma NotGrown(c: Compiling)
    ensures GrownBy([], c, c)
  {
  }

  function Kinds(code: seq<Instr>): (ks: seq<Kind>)
    ensures |ks| == |code| && forall i :: 0 <= i < |code| ==> ks[i] == KindOf(code[i])
  {
    seq(|code|, i requires 0 <= i < |code| => KindOf(code[i]))
  }

  function LoadedKinds(code: seq<Instr>): (ks: seq<Kind>)
    ensures |ks| == |code| && forall i :: 0 <= i < |code| ==> ks[i] == LoadedAs(code[i])
  {
    seq(|code|, i requires 0 <= i < |code| => LoadedAs(code[i]))
  }

  /** The FCodes of a text before any patching. */
  function CodesOf(ts: seq<Token>): seq<Instr> {
    if |ts| == 0 then [] else Codes(ts[0]) + CodesOf(ts[1..])
  }

  lemma KindsConcat(x: seq<Instr>, y: seq<Instr>)
    ensures Kinds(x + y) == Kinds(x) + Kinds(y)
  {
  }

  lemma LayKinds(m: Stage, c: Compiling, i: Instr, ctl: seq<Ctl>)
    ensures GrownBy([KindOf(i)], c, Lay(m, c, i).(ctl := ctl))
  {
  }

  lemma PatchKinds(c: Compiling, e: Ctl, ctl: seq<Ctl>)
    ensures GrownBy([], c, Patch(c, e).(ctl := ctl))
  {
  }

  lemma ResolveKinds(m: Stage, c: Compiling)
    ensures var c' := Resolve(m, c); c'.Some? ==> GrownBy([KResolve], c, c'.value)
  {
    hide Closes, Lay, Patch, GrownBy;
    var c1 := Lay(m, c, IResolve);
    LayKinds(m, c, IResolve, c1.ctl);
    var c' := Resolve(m, c);
    if c'.Some? {
      var e := c.ctl[if c'.value.ctl == c.ctl[1..] && !(|c.code| > 0 && Closes(c.code[|c.code| - 1])) then 0 else 1];
      PatchKinds(c1, e, c'.value.ctl);
      assert [KResolve] + [] == [KResolve];
      GrownThen([KResolve], [], c, c1, c'.value);
    }
  }

  /** An instruction, `b(>resolve)` and a patch. */
  lemma JumpKinds(m: Stage, c: Compiling, i: Instr, e: Ctl, ctl: seq<Ctl>)
    ensures GrownBy([KindOf(i), KResolve], c, Patch(Lay(m, Lay(m, c, i), IResolve), e).(ctl := ctl))
  {
    hide Lay, Patch, GrownBy;
    var c1 := Lay(m, c, i);
    var c2 := Lay(m, c1, IResolve);
    LayKinds(m, c, i, c1.ctl);
    LayKinds(m, c1, IResolve, c2.ctl);
    PatchKinds(c2, e, ctl);
    GrownThen([KindOf(i)], [KResolve], c, c1, c2);
    assert [KindOf(i)] + [KResolve] == [KindOf(i), KResolve] == [KindOf(i), KResolve] + [];
    GrownThen([KindOf(i), KResolve], [], c, c2, Patch(c2, e).(ctl := ctl));
  }

  lemma TokenKinds(c: Compiling, t: Token)
    ensures var c' := CompileToken(Tok, c, t); c'.Some? ==> GrownBy(Kinds(Codes(t)), c, c'.value)
  {
    hide Closes, Size, GrownBy, Patch, Lay, Resolve;
    var c' := CompileToken(Tok, c, t);
    assert |Codes(t)| == 1 ==> Kinds(Codes(t)) == [KindOf(Codes(t)[0])];
    assert |Codes(t)| == 2 ==> Kinds(Codes(t)) == [KindOf(Codes(t)[0]), KResolve];
    if c'.Some? {
      if t.TThen? {
        ResolveKinds(Tok, c);
      } else if t.TElse? {
        JumpKinds(Tok, c, IBranch(0), c.ctl[0], c'.value.ctl);
      } else if t.TRepeat? {
        JumpKinds(Tok, c, IBack(c.ctl[1].at + 1), c.ctl[0], c'.value.ctl);
      } else {
        LayKinds(Tok, c, Codes(t)[0], c'.value.ctl);
      }
    }
  }

  lemma {:induction false} TextKinds(c: Compiling, ts: seq<Token>)
    ensures var c' := CompileText(Tok, c, ts); c'.Some? ==> GrownBy(Kinds(CodesOf(ts)), c, c'.value)
    decreases |ts|
  {
    hide CompileToken, GrownBy, Kinds;
    if |ts| == 0 {
      NotGrown(c);
      assert Kinds([]) == [];
    } else {
      TokenKinds(c, ts[0]);
      var c' := CompileToken(Tok, c, ts[0]);
      if c'.Some? {
        TextKinds(c'.value, ts[1..]);
        KindsConcat(Codes(ts[0]), CodesOf(ts[1..]));
        var c2 := CompileText(Tok, c'.value, ts[1..]);
        if c2.Some? {
          GrownThen(Kinds(Codes(ts[0])), Kinds(CodesOf(ts[1..])), c, c'.value, c2.value);
        }
      }
    }
  }

  lemma StepKinds(c: Compiling, i: Instr)
    ensures var c' := LoadStep(c, i); c'.Some? ==> GrownBy([LoadedAs(i)], c, c'.value) && !i.IGarbled?
  {
    hide Closes, Size, GrownBy, Patch, Lay, Resolve;
    var c' := LoadStep(c, i);
    if c'.Some? {
      var ctl := c'.value.ctl;
      if i.IResolve? {
        ResolveKinds(Mem, c);
      } else if i.IWord? || i.IEnd? || i.IMark? {
        LayKinds(Mem, c, i, ctl);
      } else {
        LayKinds(Mem, c, IZBranch(0), ctl);
        LayKinds(Mem, c, IBranch(0), ctl);
        var mark := if c.ctl != [] && c.ctl[0].Mark? then c.ctl[0].at else if |c.ctl| > 1 then c.ctl[1].at else 0;
        LayKinds(Mem, c, IBack(mark + 1), ctl);
        LayKinds(Mem, c, IZBack(mark + 1), ctl);
      }
    }
  }

  /** Loading makes one instruction of each FCode. */
  lemma {:induction false} LoadKinds(c: Compiling, code: seq<Instr>)
    ensures var c' := Load(c, code); c'.Some? ==> GrownBy(LoadedKinds(code), c, c'.value)
    ensures Load(c, code).Some? ==> forall i :: 0 <= i < |code| ==> !code[i].IGarbled?
    decreases |code|
  {
    hide LoadStep, GrownBy, LoadedAs;
    if |code| == 0 {
      NotGrown(c);
      assert LoadedKinds([]) == [];
    } else {
      StepKinds(c, code[0]);
      var c' := LoadStep(c, code[0]);
      if c'.Some? {
        LoadKinds(c'.value, code[1..]);
        assert LoadedKinds(code) == [LoadedAs(code[0])] + LoadedKinds(code[1..]);
        var c2 := Load(c'.value, code[1..]);
        if c2.Some? {
          GrownThen([LoadedAs(code[0])], LoadedKinds(code[1..]), c, c'.value, c2.value);
        }
      }
    }
  }

  // ----- FCodes whose branches lead the right way -----

  predicate RightWay(i: Instr) {
    !i.IGarbled? && !i.IZBack? && !(i.IBad? && i.negative)
  }

  /** No forward branch has come out negative, nothing is overwritten. */
  ghost predicate Sound(code: seq<Instr>) {
    forall i :: 0 <= i < |code| ==> RightWay(code[i])
  }

  lemma {:induction false} LoadConcat(c: Compiling, x: seq<Instr>, y: seq<Instr>)
    ensures Load(c, x + y) == (var c' := Load(c, x); if c'.Some? then Load(c'.value, y) else None)
    decreases |x|
  {
    hide LoadStep;
    if |x| == 0 {
      assert x + y == y;
    } else {
      assert (x + y)[1..] == x[1..] + y;
      var c' := LoadStep(c, x[0]);
      if c'.Some? {
        LoadConcat(c'.value, x[1..], y);
      }
    }
  }

  /** Compiling in memory is loading unpatched FCodes. */
  lemma {:induction false} MemIsLoading(c: Compiling, ts: seq<Token>)
    ensures CompileText(Mem, c, ts) == Load(c, CodesOf(ts))
    decreases |ts|
  {
    hide Load;
    if |ts| == 0 {
      LoadNone(Some(c));
    } else {
      LoadConcat(c, Codes(ts[0]), CodesOf(ts[1..]));
      var c' := CompileToken(Mem, c, ts[0]);
      if c'.Some? {
        MemIsLoading(c'.value, ts[1..]);
      }
    }
  }

  lemma StepSame(c: Compiling, i: Instr, j: Instr)
    requires KindOf(i) == KindOf(j) && RightWay(i) && RightWay(j)
    ensures LoadStep(c, i) == LoadStep(c, j)
  {
    hide Resolve, Begun, BackTo;
  }

  /** Of a branch the loader uses the sign alone. */
  lemma {:induction false} LoadSame(c: Compiling, x: seq<Instr>, y: seq<Instr>)
    requires |x| == |y| && Sound(x) && Sound(y) && forall i :: 0 <= i < |x| ==> KindOf(x[i]) == KindOf(y[i])
    ensures Load(c, x) == Load(c, y)
    decreases |x|
  {
    hide LoadStep, KindOf, RightWay;
    if |x| > 0 {
      StepSame(c, x[0], y[0]);
      var c' := LoadStep(c, x[0]);
      if c'.Some? {
        LoadSame(c'.value, x[1..], y[1..]);
      }
    }
  }

  lemma {:induction false} CodesSound(ts: seq<Token>)
    ensures Sound(CodesOf(ts))
  {
    if |ts| > 0 {
      CodesSound(ts[1..]);
      assert forall i :: 0 <= i < |Codes(ts[0])| ==> RightWay(Codes(ts[0])[i]);
    }
  }

  /** FCodes that lead the right way are loaded as the text itself would be. */
  lemma SoundLoads(c: Compiling, ts: seq<Token>)
    requires c == START && Tokenize(ts).Some? && Sound(Tokenize(ts).value)
    ensures Load(c, Tokenize(ts).value) == CompileText(Mem, c, ts)
  {
    hide CompileText, Load, KindOf, CodesOf;
    var code := Tokenize(ts).value;
    TextKinds(c, ts);
    CodesSound(ts);
    assert forall i :: 0 <= i < |code| ==> Like(Kinds(CodesOf(ts))[i], code[i]);
    LoadSame(c, code, CodesOf(ts));
    MemIsLoading(c, ts);
  }

  // ----- FCodes with a branch the wrong way -----

  /** What an FCode does to the depth of the control stack. */
  function Weight(i: Instr): int {
    match i
    case IZBranch(_) => 1
    case IBranch(_) => 1
    case IBad(_, negative) => if negative then -1 else 1
    case IMark => 1
    case IResolve => -1
    case IBack(_) => -1
    case IZBack(_) => -1
    case _ => 0
  }

  function Sum(code: seq<Instr>): int {
    if |code| == 0 then 0 else Weight(code[0]) + Sum(code[1..])
  }

  lemma {:induction false} LoadDepth(c: Compiling, code: seq<Instr>)
    ensures var c' := Load(c, code); c'.Some? ==> |c'.value.ctl| == |c.ctl| + Sum(code)
    decreases |code|
  {
    hide LoadStep;
    if |code| > 0 {
      StepDepth(c, code[0]);
      var c' := LoadStep(c, code[0]);
      if c'.Some? {
        LoadDepth(c'.value, code[1..]);
      }
    }
  }

  lemma StepDepth(c: Compiling, i: Instr)
    ensures var c' := LoadStep(c, i); c'.Some? ==> |c'.value.ctl| == |c.ctl| + Weight(i)
  {
    hide Closes, Size, Patched;
  }

  /** Each branch the wrong way takes an entry off the control stack instead of
      putting one there. */
  lemma {:induction false} SumFalls(x: seq<Instr>, y: seq<Instr>)
    requires |x| == |y| && Sound(y) && forall i :: 0 <= i < |x| ==> KindOf(x[i]) == KindOf(y[i])
    ensures Sum(x) <= Sum(y) && (!Sound(x) ==> Sum(x) < Sum(y))
  {
    if |x| > 0 {
      SumFalls(x[1..], y[1..]);
      assert Sound(x) <==> RightWay(x[0]) && Sound(x[1..]) by {
        if RightWay(x[0]) && Sound(x[1..]) {
          assert forall i :: 0 < i < |x| ==> x[i] == x[1..][i - 1];
        }
      }
    }
  }

  lemma {:induction false} SumConcat(x: seq<Instr>, y: seq<Instr>)
    ensures Sum(x + y) == Sum(x) + Sum(y)
  {
    if |x| == 0 {
      assert x + y == y;
    } else {
      assert (x + y)[1..] == x[1..] + y;
      SumConcat(x[1..], y);
    }
  }

  lemma {:induction false} SumBalance(ts: seq<Token>)
    ensures Sum(CodesOf(ts)) == Balance(ts)
  {
    if |ts| > 0 {
      SumConcat(Codes(ts[0]), CodesOf(ts[1..]));
      SumBalance(ts[1..]);
      TokenSum(ts[0]);
    }
  }

  lemma TokenSum(t: Token)
    ensures Sum(Codes(t)) == Change(t)
  {
    if |Codes(t)| == 2 {
      SumConcat(Codes(t)[..1], Codes(t)[1..]);
      assert Codes(t) == Codes(t)[..1] + Codes(t)[1..];
    }
  }

  /** A definition whose tokens balance is not loaded if a branch has come out the
      wrong way. */
  lemma UnsoundRejected(ts: seq<Token>)
    requires Tokenize(ts).Some? && !Sound(Tokenize(ts).value) && Balance(ts) == 0
    ensures Load(START, Tokenize(ts).value) == None
  {
    hide CompileText, Load, CodesOf, Sum, Balance;
    var code := Tokenize(ts).value;
    TextKinds(START, ts);
    LoadKinds(START, code);
    if Load(START, code).Some? {
      assert forall i :: 0 <= i < |code| ==> Like(Kinds(CodesOf(ts))[i], code[i]);
      CodesSound(ts);
      SumFalls(code, CodesOf(ts));
      SumBalance(ts);
      LoadDepth(START, code);
    }
  }
}
