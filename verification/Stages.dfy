/** Which structured texts get through both stages, and for which the outcome is
    the text's own code. */
module Stages {
  import opened Options
  import opened Forth
  import opened Threaded
  import opened Patching
  import opened Loading
  import opened Signs

  /** A definition in one stage. */
  lemma DefinitionExactly(m: Stage, fr: Frag)
    requires Conditioned(fr)
    ensures var r := CompileText(m, START, Flat(fr) + [TSemi]);
      (r.Some? <==> Fits(m, fr, false)) && (r.Some? ==> (r.value.code == Gen(fr, 0) + [IEnd] <==> Clean(m, fr)))
  {
    hide CompileText, CompileToken, Gen, Clean, Fits, Spoils;
    Compiles(m, fr, START);
    CompileLast(m, START, Flat(fr), TSemi);
    var r := CompileText(m, START, Flat(fr));
    if r.Some? {
      TokenOpens(m, r.value);
      FitsSpoils(m, fr);
      assert r.value.code[0..] == r.value.code;
      BothSame(r.value.code, [IEnd], Gen(fr, 0), [IEnd]);
    }
  }

  /** The tokenizer rejects every definition with an unconditional loop. */
  lemma EndlessRejected(fr: Frag)
    requires !Conditioned(fr)
    ensures Tokenize(Flat(fr) + [TSemi]) == None
  {
    hide CompileText, CompileToken, Conditioned;
    CompileLast(Tok, START, Flat(fr), TSemi);
    TextBalance(fr);
    Depth(START, Flat(fr));
  }

  lemma SoundExactly(fr: Frag)
    requires Conditioned(fr) && Fits(Tok, fr, false)
    ensures var r := Tokenize(Flat(fr) + [TSemi]); r.Some? && (Sound(r.value) <==> Signed(fr, 0))
  {
    hide CompileText, CompileToken, Fits, Spoils, Sound, Signed, Reach;
    DefinitionExactly(Tok, fr);
    FitsSpoils(Tok, fr);
    Signs.Signs(fr, START, 0);
    CompileLast(Tok, START, Flat(fr), TSemi);
    var r := CompileText(Tok, START, Flat(fr));
    TokenOpens(Tok, r.value);
    SoundLay(r.value.code, IEnd);
    assert Sound([]) by {
      NothingSound();
    }
  }

  lemma NothingSound()
    ensures Sound([])
  {
  }

  lemma TextBalances(fr: Frag)
    requires Conditioned(fr)
    ensures Balance(Flat(fr) + [TSemi]) == 0
  {
    TextBalance(fr);
    BalanceConcat(Flat(fr), [TSemi]);
    assert Balance([TSemi]) == 0;
  }

  /** The engine gets a structured definition through both stages exactly when it
      has no unconditional loop, fits in memory, and no forward offset stored for
      it comes out negative; and the outcome is the text's own code exactly when
      the text is clean in memory. */
  lemma EngineExactly(fr: Frag)
    ensures Engine(Flat(fr) + [TSemi]).Some? <==> Conditioned(fr) && Fits(Mem, fr, false) && Signed(fr, 0)
    ensures Engine(Flat(fr) + [TSemi]) == Some(Gen(fr, 0) + [IEnd]) <==> Clean(Mem, fr)
  {
    hide CompileText, Load, Gen, Clean, Fits, Conditioned, Sound, Signed;
    var ts := Flat(fr) + [TSemi];
    MemFits(fr, false);
    if Clean(Mem, fr) {
      CleanIs(Mem, fr, false);
      CleanSigned(fr, 0);
    }
    if !Conditioned(fr) {
      EndlessRejected(fr);
    } else {
      DefinitionExactly(Tok, fr);
      DefinitionExactly(Mem, fr);
      if Fits(Tok, fr, false) {
        SoundExactly(fr);
        if Signed(fr, 0) {
          SoundLoads(START, ts);
        } else {
          TextBalances(fr);
          UnsoundRejected(ts);
        }
      }
    }
  }

  // ----- code tells the tokens it was made of -----

  lemma CodesConcat(ts: seq<Token>, us: seq<Token>)
    ensures CodesOf(ts + us) == CodesOf(ts) + CodesOf(us)
  {
    if |ts| == 0 {
      assert ts + us == us;
    } else {
      assert (ts + us)[1..] == ts[1..] + us;
      CodesConcat(ts[1..], us);
    }
  }

  lemma CodesAround(t: Token, ts: seq<Token>, u: Token)
    ensures CodesOf([t] + ts + [u]) == Codes(t) + CodesOf(ts) + Codes(u)
  {
    CodesConcat([t] + ts, [u]);
    CodesConcat([t], ts);
    assert CodesOf([t]) == Codes(t) && CodesOf([u]) == Codes(u);
  }

  lemma CodesTwo(t: Token, ts: seq<Token>, u: Token, us: seq<Token>, v: Token)
    ensures CodesOf([t] + ts + [u] + us + [v]) == Codes(t) + CodesOf(ts) + Codes(u) + CodesOf(us) + Codes(v)
  {
    CodesAround(t, ts, u);
    CodesConcat([t] + ts + [u] + us, [v]);
    CodesConcat([t] + ts + [u], us);
    assert CodesOf([v]) == Codes(v);
  }

  predicate Meant(i: Instr) {
    !i.IBad? && !i.IGarbled? && !i.IZBack?
  }

  /** Instructions as they are meant to be. */
  ghost predicate Proper(code: seq<Instr>) {
    forall i :: 0 <= i < |code| ==> Meant(code[i])
  }

  lemma JoinKinds(w: seq<Instr>, x: seq<Instr>, y: seq<Instr>, z: seq<Instr>)
    ensures Kinds(Join(w, x, y, z)) == Kinds(w) + Kinds(x) + Kinds(y) + Kinds(z)
    ensures Proper(Join(w, x, y, z)) <==> Proper(w) && Proper(x) && Proper(y) && Proper(z)
  {
    JoinIs(w, x, y, z);
    KindsConcat(w + x + y, z);
    KindsConcat(w + x, y);
    KindsConcat(w, x);
    ProperConcat(w + x + y, z);
    ProperConcat(w + x, y);
    ProperConcat(w, x);
  }

  lemma ProperConcat(x: seq<Instr>, y: seq<Instr>)
    ensures Proper(x + y) <==> Proper(x) && Proper(y)
  {
    if Proper(x + y) {
      assert forall i :: 0 <= i < |x| ==> x[i] == (x + y)[i];
      assert forall i :: 0 <= i < |y| ==> y[i] == (x + y)[|x| + i];
    }
  }

  lemma KindsOne(i: Instr)
    ensures Kinds([i]) == [KindOf(i)] && (Proper([i]) <==> Meant(i))
  {
    assert [i][0] == i;
  }

  lemma KindsTwo(i: Instr, j: Instr)
    ensures Kinds([i, j]) == [KindOf(i), KindOf(j)] && (Proper([i, j]) <==> Meant(i) && Meant(j))
  {
    assert [i, j][0] == i && [i, j][1] == j;
  }

  /** Code and tokens of a fragment agree on what stands where. */
  lemma {:induction false} GenKinds(fr: Frag, n: nat)
    ensures Kinds(Gen(fr, n)) == Kinds(CodesOf(Flat(fr))) && Proper(Gen(fr, n))
    decreases fr, 1
  {
    hide Kinds, Len, Proper, Join;
    match fr
    case Skip => NothingProper();
    case W(w) =>
      KindsOne(IWord(w));
      assert CodesOf([T(w)]) == Codes(T(w)) + CodesOf([]);
    case Cat(a, b) => CatKinds(a, b, n);
    case IfThen(t) => IfThenKinds(t, n);
    case IfElse(t, e) => IfElseKinds(t, e, n);
    case Loop(test, body) => LoopKinds(test, body, n);
    case Endless(body) => EndlessKinds(body, n);
  }

  lemma NothingProper()
    ensures Proper([])
  {
  }

  lemma {:induction false} CatKinds(a: Frag, b: Frag, n: nat)
    ensures Kinds(Gen(Cat(a, b), n)) == Kinds(CodesOf(Flat(Cat(a, b)))) && Proper(Gen(Cat(a, b), n))
    decreases Cat(a, b), 0
  {
    GenCat(a, b, n);
    FlatCat(a, b);
    hide Kinds, Len, Proper, CodesOf, Gen, Flat;
    GenKinds(a, n);
    GenKinds(b, n + Len(a));
    CodesConcat(Flat(a), Flat(b));
    KindsConcat(CodesOf(Flat(a)), CodesOf(Flat(b)));
    KindsConcat(Gen(a, n), Gen(b, n + Len(a)));
    ProperConcat(Gen(a, n), Gen(b, n + Len(a)));
  }

  lemma FlatCat(a: Frag, b: Frag)
    ensures Flat(Cat(a, b)) == Flat(a) + Flat(b)
  {
  }

  lemma {:induction false} IfThenKinds(t: Frag, n: nat)
    ensures Kinds(Gen(IfThen(t), n)) == Kinds(CodesOf(Flat(IfThen(t)))) && Proper(Gen(IfThen(t), n))
    decreases IfThen(t), 0
  {
    IfThenShape(t, n);
    hide Kinds, Len, Proper, CodesOf, Join, Gen, Flat;
    GenKinds(t, n + 1);
    var z := IZBranch(n + 2 + Len(t));
    JoinKinds([z], Gen(t, n + 1), [IResolve], []);
    CodesAround(TIf, Flat(t), TThen);
    KindsConcat([IZBranch(0)] + CodesOf(Flat(t)), [IResolve]);
    KindsConcat([IZBranch(0)], CodesOf(Flat(t)));
    KindsOne(z);
    KindsOne(IZBranch(0));
    KindsOne(IResolve);
    NothingProper();
    assert Kinds([]) == [];
  }

  lemma {:induction false} IfThenShape(t: Frag, n: nat)
    ensures Gen(IfThen(t), n) == Join([IZBranch(n + 2 + Len(t))], Gen(t, n + 1), [IResolve], [])
    ensures Flat(IfThen(t)) == [TIf] + Flat(t) + [TThen]
  {
  }

  lemma {:induction false} EndlessShape(body: Frag, n: nat)
    ensures Gen(Endless(body), n) == Join([IMark], Gen(body, n + 1), [IBack(n + 1), IResolve], [])
    ensures Flat(Endless(body)) == [TBegin] + Flat(body) + [TRepeat]
  {
  }

  lemma {:induction false} IfElseKinds(t: Frag, e: Frag, n: nat)
    ensures Kinds(Gen(IfElse(t, e), n)) == Kinds(CodesOf(Flat(IfElse(t, e)))) && Proper(Gen(IfElse(t, e), n))
    decreases IfElse(t, e), 0
  {
    hide Kinds, Len, Proper, CodesOf, Join, Flat, Gen;
    var k := n + 1 + Len(t);
    GenKinds(t, n + 1);
    GenKinds(e, k + 2);
    GenIfElse(t, e, n);
    FlatIfElse(t, e);
    IfElseJoin(IZBranch(k + 2), Gen(t, n + 1), IBranch(k + 3 + Len(e)), Gen(e, k + 2));
    CodesTwo(TIf, Flat(t), TElse, Flat(e), TThen);
    IfElseCodes(CodesOf(Flat(t)), CodesOf(Flat(e)));
  }

  lemma IfElseJoin(z: Instr, g: seq<Instr>, b: Instr, h: seq<Instr>)
    requires z.IZBranch? && b.IBranch? && Proper(g) && Proper(h)
    ensures var code := Join([z], g, [b, IResolve], h + [IResolve]);
      Kinds(code) == [KZForward] + Kinds(g) + [KForward, KResolve] + Kinds(h) + [KResolve] && Proper(code)
  {
    hide Kinds, Proper, Join;
    JoinKinds([z], g, [b, IResolve], h + [IResolve]);
    KindsConcat(h, [IResolve]);
    ProperConcat(h, [IResolve]);
    KindsOne(z);
    KindsOne(IResolve);
    KindsTwo(b, IResolve);
  }

  lemma IfElseCodes(x: seq<Instr>, y: seq<Instr>)
    ensures Kinds([IZBranch(0)] + x + [IBranch(0), IResolve] + y + [IResolve])
         == [KZForward] + Kinds(x) + [KForward, KResolve] + Kinds(y) + [KResolve]
  {
    hide Kinds;
    FiveKinds([IZBranch(0)], x, [IBranch(0), IResolve], y, [IResolve]);
    KindsOne(IZBranch(0));
    KindsOne(IResolve);
    KindsTwo(IBranch(0), IResolve);
  }

  lemma FiveKinds(u: seq<Instr>, v: seq<Instr>, x: seq<Instr>, y: seq<Instr>, z: seq<Instr>)
    ensures Kinds(u + v + x + y + z) == Kinds(u) + Kinds(v) + Kinds(x) + Kinds(y) + Kinds(z)
  {
    hide Kinds;
    KindsConcat(u + v + x + y, z);
    KindsConcat(u + v + x, y);
    KindsConcat(u + v, x);
    KindsConcat(u, v);
  }

  lemma {:induction false} LoopKinds(test: Frag, body: Frag, n: nat)
    ensures Kinds(Gen(Loop(test, body), n)) == Kinds(CodesOf(Flat(Loop(test, body)))) && Proper(Gen(Loop(test, body), n))
    decreases Loop(test, body), 0
  {
    hide Kinds, Len, Proper, CodesOf, Join, Flat, Gen;
    var k := n + 1 + Len(test);
    GenKinds(test, n + 1);
    GenKinds(body, k + 1);
    GenLoop(test, body, n);
    FlatLoop(test, body);
    LoopJoin(Gen(test, n + 1), IZBranch(k + 3 + Len(body)), Gen(body, k + 1), IBack(n + 1));
    CodesTwo(TBegin, Flat(test), TWhile, Flat(body), TRepeat);
    LoopCodes(CodesOf(Flat(test)), CodesOf(Flat(body)));
  }

  lemma LoopJoin(g: seq<Instr>, z: Instr, h: seq<Instr>, b: Instr)
    requires z.IZBranch? && b.IBack? && Proper(g) && Proper(h)
    ensures var code := Join([IMark] + g, [z], h, [b, IResolve]);
      Kinds(code) == [KMark] + Kinds(g) + [KZForward] + Kinds(h) + [KBack, KResolve] && Proper(code)
  {
    hide Kinds, Proper, Join;
    JoinKinds([IMark] + g, [z], h, [b, IResolve]);
    KindsConcat([IMark], g);
    ProperConcat([IMark], g);
    KindsOne(z);
    KindsOne(IMark);
    KindsTwo(b, IResolve);
  }

  lemma LoopCodes(x: seq<Instr>, y: seq<Instr>)
    ensures Kinds([IMark] + x + [IZBranch(0)] + y + [IBack(0), IResolve])
         == [KMark] + Kinds(x) + [KZForward] + Kinds(y) + [KBack, KResolve]
  {
    hide Kinds;
    FiveKinds([IMark], x, [IZBranch(0)], y, [IBack(0), IResolve]);
    KindsOne(IZBranch(0));
    KindsOne(IMark);
    KindsTwo(IBack(0), IResolve);
  }

  lemma {:induction false} EndlessKinds(body: Frag, n: nat)
    ensures Kinds(Gen(Endless(body), n)) == Kinds(CodesOf(Flat(Endless(body)))) && Proper(Gen(Endless(body), n))
    decreases Endless(body), 0
  {
    EndlessShape(body, n);
    hide Kinds, Len, Proper, CodesOf, Join, Gen, Flat;
    GenKinds(body, n + 1);
    JoinKinds([IMark], Gen(body, n + 1), [IBack(n + 1), IResolve], []);
    CodesAround(TBegin, Flat(body), TRepeat);
    KindsConcat([IMark] + CodesOf(Flat(body)), [IBack(0), IResolve]);
    KindsConcat([IMark], CodesOf(Flat(body)));
    KindsOne(IMark);
    KindsTwo(IBack(n + 1), IResolve);
    KindsTwo(IBack(0), IResolve);
    NothingProper();
    assert Kinds([]) == [];
  }

  /** Two texts of one code differ, instruction by instruction, at most where a
      branch forward has become one back. */
  ghost predicate SameBut(ks: seq<Kind>, ls: seq<Kind>) {
    |ks| == |ls| && forall i :: 0 <= i < |ks| ==> ks[i] == ls[i] || (ks[i] == KForward && ls[i] == KBack)
  }

  lemma EndKinds(fr: Frag)
    ensures Kinds(Gen(fr, 0) + [IEnd]) == Kinds(CodesOf(Flat(fr) + [TSemi])) && Proper(Gen(fr, 0) + [IEnd])
  {
    hide Kinds, Proper, CodesOf;
    GenKinds(fr, 0);
    KindsConcat(Gen(fr, 0), [IEnd]);
    ProperConcat(Gen(fr, 0), [IEnd]);
    CodesConcat(Flat(fr), [TSemi]);
    KindsConcat(CodesOf(Flat(fr)), CodesOf([TSemi]));
    OneCode();
    KindsOne(IEnd);
  }

  lemma OneCode()
    ensures CodesOf([TSemi]) == [IEnd]
  {
    assert [TSemi][1..] == [];
  }

  lemma OwnCodeTells(ts: seq<Token>, fr: Frag)
    requires Engine(ts) == Some(Gen(fr, 0) + [IEnd])
    ensures SameBut(Kinds(CodesOf(ts)), Kinds(CodesOf(Flat(fr) + [TSemi])))
  {
    hide CompileText, Load, CodesOf, Flat, Gen, KindOf, LoadedAs, Meant, Like;
    var out, code := Tokenize(ts).value, Gen(fr, 0) + [IEnd];
    TextKinds(START, ts);
    LoadKinds(START, out);
    EndKinds(fr);
    assert |out| == |code| == |Kinds(CodesOf(ts))|;
    forall i | 0 <= i < |code|
      ensures var k := Kinds(CodesOf(ts))[i]; k == KindOf(code[i]) || (k == KForward && KindOf(code[i]) == KBack)
    {
      assert Like(Kinds(CodesOf(ts))[i], out[|START.code| + i]);
      assert Like(LoadedKinds(out)[i], code[|START.code| + i]);
      PointTells(Kinds(CodesOf(ts))[i], out[i], code[i]);
    }
  }

  lemma PointTells(k: Kind, o: Instr, x: Instr)
    requires Like(k, o) && !o.IGarbled? && Like(LoadedAs(o), x) && Meant(x)
    ensures k == KindOf(x) || (k == KForward && KindOf(x) == KBack)
  {
  }
}
