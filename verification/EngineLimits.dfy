/** Generated text that the engine rejects, or accepts and compiles to other code
    than the text stands for, or to code that is not the C. */
module EngineLimits {
  import opened Options
  import opened Cells
  import opened Memory
  import opened CTree
  import opened Forth
  import opened Emit
  import opened CSemantics
  import opened Threaded
  import opened Reading
  import opened Printed
  import opened Acceptance
  import opened Definitions

  // ----- numbers that spell a name -----

  /** `return n;` where the digits of n, whatever their case, are a name of the
      program: the named word is compiled instead. */
  lemma NumberIsName(voc: Vocabulary, nm: Names, dict: seq<Entry>, n: Cell, w: Word)
    requires Find(dict, Hex(n)) == Some(w)
    requires ReadTrue(voc, nm, dict, T(Exit)) && ReadTrue(voc, nm, dict, TSemi)
    ensures Through(voc, nm, dict, [T(Lit(n)), T(Exit), TSemi]) == Some([IWord(w), IWord(Exit), IEnd])
  {
    hide Find, Hex;
    var ts := [T(Lit(n)), T(Exit), TSemi];
    var read := [T(w), T(Exit), TSemi];
    assert Read(voc, nm, dict, ts[0]) == Some([T(w)]);
    ReadThree(voc, nm, dict, ts, T(w));
    ThreeWords(w);
  }

  lemma ReadThree(voc: Vocabulary, nm: Names, dict: seq<Entry>, ts: seq<Token>, t: Token)
    requires |ts| == 3 && Read(voc, nm, dict, ts[0]) == Some([t])
    requires ReadTrue(voc, nm, dict, ts[1]) && ReadTrue(voc, nm, dict, ts[2])
    ensures ReadAll(voc, nm, dict, ts) == Some([t, ts[1], ts[2]])
  {
    hide Read;
    ReadAllOne(voc, nm, dict, ts[0]);
    ReadAllOne(voc, nm, dict, ts[1]);
    ReadAllOne(voc, nm, dict, ts[2]);
    ReadAllConcat(voc, nm, dict, [ts[0]], [ts[1]]);
    ReadAllConcat(voc, nm, dict, [ts[0]] + [ts[1]], [ts[2]]);
    assert ts == [ts[0]] + [ts[1]] + [ts[2]];
    assert [t] + [ts[1]] + [ts[2]] == [t, ts[1], ts[2]];
    assert Read(voc, nm, dict, ts[1]) == Some([ts[1]]) && Read(voc, nm, dict, ts[2]) == Some([ts[2]]);
  }

  lemma ThreeWords(w: Word)
    ensures Engine([T(w), T(Exit), TSemi]) == Some([IWord(w), IWord(Exit), IEnd])
  {
    hide Engine;
    var fr := Cat(W(w), W(Exit));
    var ts, code := [T(w), T(Exit), TSemi], [IWord(w), IWord(Exit), IEnd];
    assert Flat(fr) == [T(w)] + [T(Exit)];
    assert Flat(fr) + [TSemi] == ts;
    assert Gen(fr, 0) == [IWord(w)] + [IWord(Exit)];
    assert Gen(fr, 0) + [IEnd] == code;
    assert Clean(Mem, W(w)) && Clean(Mem, W(Exit));
    assert Clean(Mem, fr);
    Stages.EngineExactly(fr);
    assert Engine(Flat(fr) + [TSemi]) == Some(Gen(fr, 0) + [IEnd]);
  }

  /** int f(int x) { return x; } */
  const IDENTITY := Func(Int, [Int], 1, Return(Some(Var(Local(0, Int)))), false, [0x1000], 0)

  /** int g(void) { return 15; } */
  const FIFTEEN := Func(Int, [], 0, Return(Some(IntLit(15))), false, [], 1)

  /** With both in one file, g calls f instead of returning 15. */
  lemma FifteenIsF(voc: Vocabulary, nm: Names)
    requires Standard(voc) && nm.func(0) == "f" && nm.func(1) == "g" && nm.globals(1) == []
    requires var dict := DictAt(map[0 := IDENTITY, 1 := FIFTEEN], nm, 1); Tidy(voc, dict)
    ensures var p: Program := map[0 := IDENTITY, 1 := FIFTEEN];
      ParamsFit(p) && Load1(p, voc, nm, 1) == Some(Loaded([IWord(Do(0)), IWord(Exit), IEnd], []))
  {
    hide Standard, Tidy, Find, Lower, ParseNumber;
    var p: Program := map[0 := IDENTITY, 1 := FIFTEEN];
    var dict := DictAt(p, nm, 1);
    assert EmitFunc(Ctx(1, FIFTEEN)) == Cat(Cat(Skip, Skip), Cat(Cat(Cat(W(Lit(15)), Skip), W(Exit)), Skip));
    assert Text(p, 1) == [T(Lit(15)), T(Exit), TSemi];
    assert Hex(15) == "F";
    assert Before(p, nm, 1) == Before(p, nm, 0) + Definition(nm, 0, IDENTITY);
    assert Definition(nm, 1, FIFTEEN) == [Entry("g", Do(1))];
    assert dict[|dict| - 1] == Entry("g", Do(1)) && dict[|dict| - 2] == Entry("f", Do(0));
    hide Definition, Before, EmitFunc, Text;
    assert dict[0] == Entry("$frame", Frame);
    LettersDiffer();
    FindSecond(dict, "F");
    TidyReads(voc, nm, dict, T(Exit));
    TidyReads(voc, nm, dict, TSemi);
    NumberIsName(voc, nm, dict, 15, Do(0));
  }

  lemma LettersDiffer()
    ensures Lower("f") == Lower("F") && Lower("g") != Lower("F")
  {
    assert Lower("f")[0] == 'f' && Lower("F")[0] == 'f' && Lower("g")[0] == 'g';
  }

  lemma FindSecond(dict: seq<Entry>, s: string)
    requires |dict| >= 2 && Lower(dict[|dict| - 1].name) != Lower(s) && Lower(dict[|dict| - 2].name) == Lower(s)
    ensures Find(dict, s) == Some(dict[|dict| - 2].w)
  {
    assert dict[..|dict| - 1][|dict| - 2] == dict[|dict| - 2];
  }

  /** The number 205 is printed `CD`, and `cd` is a word of the engine without an
      FCode: a text with it is rejected, unless the program defines the name. */
  lemma TwoHundredFive(voc: Vocabulary, nm: Names, dict: seq<Entry>, before: seq<Token>, after: seq<Token>)
    requires Standard(voc) && Find(dict, "CD") == None
    ensures Through(voc, nm, dict, before + [T(Lit(205))] + after) == None
  {
    hide Find, Lower, Standard;
    CdIsForeign(voc);
    assert Hex(205) == "CD";
    SmallCd();
    ReadAllOne(voc, nm, dict, T(Lit(205)));
    ReadAllConcat(voc, nm, dict, before, [T(Lit(205))]);
    ReadAllConcat(voc, nm, dict, before + [T(Lit(205))], after);
  }

  lemma SmallCd()
    ensures Lower("CD") == "cd"
  {
  }

  /** A call of a function `add` that is not defined yet is read as the number
      0xADD. */
  lemma CallIsNumber(voc: Vocabulary, nm: Names, dict: seq<Entry>, g: FuncId)
    requires nm.func(g) == "add" && Find(dict, "add") == None && voc("add") == Unknown
    ensures Read(voc, nm, dict, T(Do(g))) == Some([T(Lit(0xADD))])
  {
    hide Find;
    assert Lower("add") == "add";
    assert "add"[1..] == "dd" && "dd"[1..] == "d" && "d"[1..] == "";
    assert Reading.Digits("d", 0xAD) == Some(0xADD);
    assert Reading.Digits("dd", 0xA) == Some(0xADD);
    assert ParseNumber("add") == Some(0xADD);
  }

  // ----- a number that ends like an else -----

  lemma CatParts(m: Stage, a: Frag, b: Frag, within: bool)
    ensures Fits(m, Cat(a, b), within) == (Fits(m, a, within) && Fits(m, b, within))
    ensures Clean(m, Cat(a, b)) == (Clean(m, a) && Clean(m, b)) && Spoils(Cat(a, b)) == (Spoils(a) || Spoils(b))
    ensures Conditioned(Cat(a, b)) == (Conditioned(a) && Conditioned(b))
    ensures forall w :: EndsFake(Cat(a, W(w))) == LooksLikeElse(w)
  {
    forall w ensures EndsFake(Cat(a, W(w))) == LooksLikeElse(w) {
      assert Len(W(w)) == 1 && EndsFake(W(w)) == LooksLikeElse(w);
    }
  }

  /** c ? 1 : 0x130000 */
  function Chosen(c: Expr): Expr {
    Cond(c, IntLit(1), IntLit(0x13_0000))
  }

  lemma ChosenText(m: Stage, cx: Ctx, c: Expr)
    ensures var fr := EmitR(cx, Chosen(c)); !Clean(m, fr) && !Fits(m, fr, false) && Spoils(fr)
    ensures Fits(m, EmitR(cx, Chosen(c)), true) <==> Fits(m, EmitR(cx, c), true)
  {
    hide EmitL;
    var e := W(Lit(0x13_0000));
    assert EmitR(cx, IntLit(1)) == W(Lit(1)) && EmitR(cx, IntLit(0x13_0000)) == e;
    assert EmitR(cx, Chosen(c)) == Cat(EmitR(cx, c), IfElse(W(Lit(1)), e));
    assert EndsFake(e);
    var i := IfElse(W(Lit(1)), e);
    assert !Clean(m, i) && !Fits(m, i, false) && Fits(m, i, true) && Spoils(i);
    CatParts(m, EmitR(cx, c), i, false);
    CatParts(m, EmitR(cx, c), i, true);
  }

  /** `then` takes the last operand for an `else`: outside any other structure the
      expression is rejected, whatever its condition. */
  lemma ElseLookalike(cx: Ctx, c: Expr)
    ensures Engine(Flat(EmitR(cx, Chosen(c))) + [TSemi]) == None
  {
    hide Engine, Flat;
    ChosenText(Mem, cx, c);
    Stages.EngineExactly(EmitR(cx, Chosen(c)));
  }

  /** Within an `if` the same expression gets through when the parts do, and its
      `then` closes the `if` in place of its own `else`. */
  lemma ElseLookalikeWithin(cx: Ctx, test: Expr, c: Expr)
    ensures var fr := EmitS(cx, If(test, ExprS(Chosen(c)), Null));
      var code := Engine(Flat(fr) + [TSemi]);
      code != Some(Gen(fr, 0) + [IEnd])
      && (code.Some? <==> Fits(Mem, EmitR(cx, test), false) && Fits(Mem, EmitR(cx, c), true) && Signs.Signed(fr, 0))
  {
    hide Engine, Flat, EmitR, Gen, Signs.Signed;
    var s := ExprS(Chosen(c));
    var fr := EmitS(cx, If(test, s, Null));
    ChosenText(Mem, cx, c);
    ConditionedR(cx, test);
    ConditionedR(cx, Chosen(c));
    assert TypeOf(Chosen(c)) == Int;
    assert EmitS(cx, s) == Cat(EmitR(cx, Chosen(c)), W(Op(PDrop)));
    assert fr == Cat(EmitR(cx, test), IfThen(EmitS(cx, s)));
    CatParts(Mem, EmitR(cx, Chosen(c)), W(Op(PDrop)), true);
    IfThenParts(EmitS(cx, s));
    CatParts(Mem, EmitR(cx, test), IfThen(EmitS(cx, s)), false);
    Stages.EngineExactly(fr);
  }

  lemma IfThenParts(t: Frag)
    ensures forall within :: Fits(Mem, IfThen(t), within) == (Fits(Mem, t, true) && (EndsFake(t) ==> within))
    ensures (Clean(Mem, IfThen(t)) ==> Clean(Mem, t)) && Conditioned(IfThen(t)) == Conditioned(t)
  {
  }

  // ----- branches that are too long -----

  /** An arm whose FCodes take between 32765 and 65532 bytes is tokenized, its
      offset stored negative, and rejected when it is loaded. */
  lemma {:induction false} LongArm(t: Frag)
    requires Conditioned(t) && !Spoils(t) && !EndsFake(t) && 32765 <= Bytes(Tok, t) <= 65532
    ensures Engine(Flat(IfThen(t)) + [TSemi]) == None
  {
    hide Engine, Flat, Fits, Clean, Spoils, EndsFake, Bytes, Signs.Reach, Signs.Signed, Gen, Conditioned;
    Signs.ReachPlain(t, 2);
    Signs.IfThenSigned(t, 0);
    Stages.EngineExactly(IfThen(t));
  }

  // ----- calling oneself without the pragma -----

  /** int f(int n) { if (n) f(n - 1); return n; } */
  function Countdown(recursive: bool): Func {
    var n := Var(Local(0, Int));
    var call := Call(0, Int, ECons(Binary(Sub, n, IntLit(1)), ENil));
    Func(Int, [Int], 1,
         Compound(INil, SCons(If(n, ExprS(call), Null), SCons(Return(Some(n)), SNil))),
         recursive, [0x1000], 0)
  }

  /** Words of the engine and the given words of the program, in clean text. */
  ghost predicate Fine(ws: set<Word>, fr: Frag) {
    Clean(Mem, fr) && forall t :: t in Flat(fr) ==> Built(t) || (t.T? && t.w in ws)
  }

  lemma FineCat(ws: set<Word>, a: Frag, b: Frag)
    requires Fine(ws, a) && Fine(ws, b)
    ensures Fine(ws, Cat(a, b))
  {
  }

  lemma FineWord(ws: set<Word>, w: Word)
    requires Built(T(w)) || w in ws
    ensures Fine(ws, W(w)) && Fine(ws, Skip)
  {
  }

  lemma FineIfThen(ws: set<Word>, t: Frag)
    requires Fine(ws, t) && !EndsFake(t) && 3 + Bytes(Mem, t) <= FORWARD
    ensures Fine(ws, IfThen(t))
  {
  }

  lemma FineWords(ws: set<Word>, a: Word, b: Word, c: Word)
    requires (Built(T(a)) || a in ws) && (Built(T(b)) || b in ws) && (Built(T(c)) || c in ws)
    ensures Fine(ws, Words2(a, b)) && Fine(ws, Words3(a, b, c))
  {
    hide Fine;
    FineWord(ws, a);
    FineWord(ws, b);
    FineWord(ws, c);
    FineCat(ws, W(a), W(b));
    FineCat(ws, W(b), W(c));
    FineCat(ws, W(a), Words2(b, c));
  }

  /** The program's words in the text of Countdown. */
  function CountdownWords(recursive: bool): set<Word> {
    if recursive then {Frame, Field(0, 0), FrameSize(0), Do(0)} else {Place(0x1000), Do(0)}
  }

  lemma CountdownFrame(cx: Ctx, recursive: bool)
    requires cx == Ctx(0, Countdown(recursive))
    ensures var ws := CountdownWords(recursive);
      Fine(ws, PushFrame(cx)) && Fine(ws, PopFrame(cx)) && Fine(ws, SlotAddress(cx, 0)) && Fine(ws, SaveParams(cx, 1))
    ensures Bytes(Mem, SlotAddress(cx, 0)) <= 6 && (HasFrame(cx.fn) <==> recursive)
  {
    hide Fine;
    var ws := CountdownWords(recursive);
    HasSlot(recursive);
    FineWord(ws, ToFrame);
    FineWord(ws, Op(PLStore));
    FineWord(ws, Do(0));
    if recursive {
      FineWords(ws, FrameSize(0), Op(PAlloc), Op(PDup));
      FineWords(ws, Frame, Op(PSwap), Op(PSwap));
      FineWords(ws, Op(PLStore), ToFrame, ToFrame);
      FineWords(ws, Frame, Op(PDup), Op(PLFetch));
      FineWords(ws, FrameSize(0), Op(PFree), Op(PFree));
      FineWords(ws, Frame, Field(0, 0), Field(0, 0));
      FineCat(ws, Words3(FrameSize(0), Op(PAlloc), Op(PDup)), Words2(Frame, Op(PSwap)));
      FineCat(ws, Cat(Words3(FrameSize(0), Op(PAlloc), Op(PDup)), Words2(Frame, Op(PSwap))), Words2(Op(PLStore), ToFrame));
      FineCat(ws, Words3(Frame, Op(PDup), Op(PLFetch)), W(ToFrame));
      FineCat(ws, Cat(Words3(Frame, Op(PDup), Op(PLFetch)), W(ToFrame)), Words2(FrameSize(0), Op(PFree)));
    } else {
      FineWord(ws, Place(0x1000));
    }
    FineCat(ws, SlotAddress(cx, 0), W(Op(PLStore)));
    FineCat(ws, Cat(SlotAddress(cx, 0), W(Op(PLStore))), Skip);
    assert SaveParams(cx, 0) == Skip;
    assert SaveParams(cx, 1) == Cat(Cat(SlotAddress(cx, 0), W(Op(PLStore))), Skip);
  }

  lemma HasSlot(recursive: bool)
    ensures HasFrame(Countdown(recursive)) <==> recursive
  {
    assert SizeOf(Countdown(recursive).vars[0]) == 4;
  }

  lemma CountdownCall(cx: Ctx, recursive: bool)
    requires cx == Ctx(0, Countdown(recursive))
    ensures var n := EmitR(cx, Var(Local(0, Int)));
      var call := EmitR(cx, Call(0, Int, ECons(Binary(Sub, Var(Local(0, Int)), IntLit(1)), ENil)));
      n == Cat(SlotAddress(cx, 0), W(Op(PLFetch)))
      && call == Cat(Cat(Cat(Cat(n, W(Lit(1))), W(Op(PSub))), Skip), W(Do(0)))
  {
    hide SlotAddress;
    var n := Var(Local(0, Int));
    var less := Binary(Sub, n, IntLit(1));
    assert EmitL(cx, n) == SlotAddress(cx, 0);
    assert EmitR(cx, IntLit(1)) == W(Lit(1));
    assert EmitR(cx, less) == Cat(Cat(EmitR(cx, n), W(Lit(1))), W(Op(PSub)));
    assert EmitArgs(cx, ECons(less, ENil)) == Cat(EmitR(cx, less), Skip);
  }

  lemma CountdownShape(cx: Ctx, recursive: bool)
    requires cx == Ctx(0, Countdown(recursive))
    ensures var n := EmitR(cx, Var(Local(0, Int)));
      var call := EmitR(cx, Call(0, Int, ECons(Binary(Sub, Var(Local(0, Int)), IntLit(1)), ENil)));
      var body := Cat(Skip, Cat(Cat(n, IfThen(Cat(call, W(Op(PDrop))))), Cat(Cat(Cat(n, PopFrame(cx)), W(Exit)), Skip)));
      EmitFunc(cx) == Cat(Cat(PushFrame(cx), SaveParams(cx, 1)),
                          Cat(body, if HasEpilogue(cx.fn) then PopFrame(cx) else Skip))
  {
    hide PushFrame, PopFrame, SaveParams, EmitR, HasEpilogue;
    var n, r := Var(Local(0, Int)), Some(Var(Local(0, Int)));
    var call := Call(0, Int, ECons(Binary(Sub, n, IntLit(1)), ENil));
    var if_, ret := If(n, ExprS(call), Null), Return(r);
    assert EmitS(cx, if_) == Cat(EmitR(cx, n), IfThen(Cat(EmitR(cx, call), W(Op(PDrop)))));
    assert EmitS(cx, ret) == Cat(Cat(EmitR(cx, n), PopFrame(cx)), W(Exit));
    assert EmitBody(cx, SCons(ret, SNil)) == Cat(EmitS(cx, ret), Skip);
    assert EmitBody(cx, SCons(if_, SCons(ret, SNil))) == Cat(EmitS(cx, if_), EmitBody(cx, SCons(ret, SNil)));
    assert cx.fn.body == Compound(INil, SCons(if_, SCons(ret, SNil)));
    assert EmitS(cx, cx.fn.body) == Cat(Skip, EmitBody(cx, SCons(if_, SCons(ret, SNil))));
  }

  lemma DropAfter(call: Frag)
    ensures Bytes(Mem, Cat(call, W(Op(PDrop)))) == Bytes(Mem, call) + 1 && !EndsFake(Cat(call, W(Op(PDrop))))
  {
    var drop := W(Op(PDrop));
    assert Bytes(Mem, drop) == 1 && Len(drop) == 1 && !EndsFake(drop);
  }

  /** The pieces of the text put together. */
  lemma CountdownParts(ws: set<Word>, push: Frag, save: Frag, n: Frag, call: Frag, pop: Frag, tail: Frag)
    requires Fine(ws, push) && Fine(ws, save) && Fine(ws, n) && Fine(ws, call) && Fine(ws, pop) && Fine(ws, tail)
    requires Bytes(Mem, call) <= 100
    ensures var body := Cat(Skip, Cat(Cat(n, IfThen(Cat(call, W(Op(PDrop))))), Cat(Cat(Cat(n, pop), W(Exit)), Skip)));
      Fine(ws, Cat(Cat(push, save), Cat(body, tail)))
  {
    var arm := Cat(call, W(Op(PDrop)));
    hide Fine, Bytes, EndsFake;
    DropAfter(call);
    var if_, ret := Cat(n, IfThen(arm)), Cat(Cat(n, pop), W(Exit));
    FineWord(ws, Op(PDrop));
    FineWord(ws, Exit);
    FineCat(ws, call, W(Op(PDrop)));
    FineIfThen(ws, arm);
    FineCat(ws, n, IfThen(arm));
    FineCat(ws, n, pop);
    FineCat(ws, Cat(n, pop), W(Exit));
    FineCat(ws, ret, Skip);
    FineCat(ws, if_, Cat(ret, Skip));
    FineCat(ws, Skip, Cat(if_, Cat(ret, Skip)));
    FineCat(ws, push, save);
    FineCat(ws, Cat(Skip, Cat(if_, Cat(ret, Skip))), tail);
    FineCat(ws, Cat(push, save), Cat(Cat(Skip, Cat(if_, Cat(ret, Skip))), tail));
  }

  lemma CountdownFine(cx: Ctx, recursive: bool)
    requires cx == Ctx(0, Countdown(recursive))
    ensures Fine(CountdownWords(recursive), EmitFunc(cx)) && T(Do(0)) in Flat(EmitFunc(cx))
  {
    hide Fine, PushFrame, PopFrame, SaveParams, EmitR, EmitFunc, HasEpilogue, SlotAddress, CountdownWords;
    var ws := CountdownWords(recursive);
    var n := EmitR(cx, Var(Local(0, Int)));
    var call := EmitR(cx, Call(0, Int, ECons(Binary(Sub, Var(Local(0, Int)), IntLit(1)), ENil)));
    CountdownFrame(cx, recursive);
    CountdownCall(cx, recursive);
    CountdownShape(cx, recursive);
    CallIn(recursive);
    FineWord(ws, Op(PLFetch));
    FineWord(ws, Lit(1));
    FineWord(ws, Op(PSub));
    FineWord(ws, Do(0));
    FineCat(ws, SlotAddress(cx, 0), W(Op(PLFetch)));
    FineCat(ws, n, W(Lit(1)));
    FineCat(ws, Cat(n, W(Lit(1))), W(Op(PSub)));
    FineCat(ws, Cat(Cat(n, W(Lit(1))), W(Op(PSub))), Skip);
    FineCat(ws, Cat(Cat(Cat(n, W(Lit(1))), W(Op(PSub))), Skip), W(Do(0)));
    CallBytes(SlotAddress(cx, 0));
    CountdownParts(ws, PushFrame(cx), SaveParams(cx, 1), n, call, PopFrame(cx),
                   if HasEpilogue(cx.fn) then PopFrame(cx) else Skip);
    CallWithin(PushFrame(cx), SaveParams(cx, 1), n, call, PopFrame(cx), if HasEpilogue(cx.fn) then PopFrame(cx) else Skip);
  }

  lemma CallIn(recursive: bool)
    ensures Do(0) in CountdownWords(recursive)
  {
  }

  lemma CallBytes(slot: Frag)
    requires Bytes(Mem, slot) <= 6
    ensures var call := Cat(Cat(Cat(Cat(Cat(slot, W(Op(PLFetch))), W(Lit(1))), W(Op(PSub))), Skip), W(Do(0)));
      Bytes(Mem, call) <= 100 && T(Do(0)) in Flat(call)
  {
    var a := Cat(slot, W(Op(PLFetch)));
    var b := Cat(Cat(a, W(Lit(1))), W(Op(PSub)));
    var c := Cat(b, Skip);
    assert Bytes(Mem, a) <= 7;
    assert Bytes(Mem, Cat(a, W(Lit(1)))) <= 8;
    assert Bytes(Mem, b) <= 9;
    assert Bytes(Mem, c) <= 9;
    assert Flat(Cat(c, W(Do(0)))) == Flat(c) + [T(Do(0))];
    assert (Flat(c) + [T(Do(0))])[|Flat(c)|] == T(Do(0));
    assert Bytes(Mem, Cat(c, W(Do(0)))) <= 12;
  }

  lemma CallWithin(push: Frag, save: Frag, n: Frag, call: Frag, pop: Frag, tail: Frag)
    requires T(Do(0)) in Flat(call)
    ensures var body := Cat(Skip, Cat(Cat(n, IfThen(Cat(call, W(Op(PDrop))))), Cat(Cat(Cat(n, pop), W(Exit)), Skip)));
      T(Do(0)) in Flat(Cat(Cat(push, save), Cat(body, tail)))
  {
    var if_ := Cat(n, IfThen(Cat(call, W(Op(PDrop)))));
    assert T(Do(0)) in Flat(Cat(call, W(Op(PDrop))));
    assert T(Do(0)) in Flat(IfThen(Cat(call, W(Op(PDrop)))));
    assert T(Do(0)) in Flat(if_);
    var rest := Cat(Cat(Cat(n, pop), W(Exit)), Skip);
    assert T(Do(0)) in Flat(Cat(if_, rest));
    assert T(Do(0)) in Flat(Cat(Skip, Cat(if_, rest)));
    assert T(Do(0)) in Flat(Cat(Cat(Skip, Cat(if_, rest)), tail));
  }

  /** The words of Countdown are in the dictionary when its text is read. */
  lemma CountdownNamed(p: Program, nm: Names, recursive: bool, w: Word)
    requires p == map[0 := Countdown(recursive)] && w in CountdownWords(recursive)
    ensures Entry(Spell(nm, T(w)), w) in DictAt(p, nm, 0) && Defined(w)
  {
    HasSlot(recursive);
    hide HasFrame;
    var fn := Countdown(recursive);
    assert Before(p, nm, 0) == [Entry("$frame", Frame)];
    assert SlotEntries(nm, 0, fn, 0) == [];
    var slot := if recursive then Entry(nm.field(0, 0), Field(0, 0)) else Entry(nm.place(0x1000), Place(0x1000));
    assert SlotEntries(nm, 0, fn, 1) == [slot];
    assert Definition(nm, 0, fn)
        == PlaceEntries(nm, nm.globals(0)) + [slot]
           + (if recursive then [Entry(nm.size(0), FrameSize(0))] else []) + [Entry(nm.func(0), Do(0))];
  }

  /** The function gets through, and comes out calling itself, with the pragma and
      without it. */
  lemma SelfCall(voc: Vocabulary, nm: Names, recursive: bool)
    requires Standard(voc) && Tidy(voc, DictAt(map[0 := Countdown(recursive)], nm, 0))
    requires recursive ==>
      ReadTrue(voc, nm, FieldDict(map[0 := Countdown(true)], nm, 0, Countdown(true), 0), T(Lit(4)))
    ensures var p: Program := map[0 := Countdown(recursive)];
      ParamsFit(p) && Load1(p, voc, nm, 0) == Some(OwnLoad(p, 0)) && CallsItself(map[0 := OwnLoad(p, 0).code], 0)
  {
    hide Load1, Tidy, Standard, DictAt, Fine, Read, EmitFunc, Clean, FieldDict, Gen, HasFrame;
    var p: Program := map[0 := Countdown(recursive)];
    var fr, dict := EmitFunc(Ctx(0, p[0])), DictAt(p, nm, 0);
    CountdownFine(Ctx(0, p[0]), recursive);
    HasSlot(recursive);
    FineReads(p, voc, nm, recursive, fr);
    CountdownSize();
    assert Loadable1(p, voc, nm, 0);
    Load1Exactly(p, voc, nm, 0);
    OwnCallsItself(fr, OwnLoad(p, 0).code);
  }

  lemma CountdownSize()
    ensures SizeWord(Countdown(true), 0) == T(Lit(4)) && |Countdown(true).vars| == 1
  {
  }

  lemma FineReads(p: Program, voc: Vocabulary, nm: Names, recursive: bool, fr: Frag)
    requires p == map[0 := Countdown(recursive)] && Standard(voc) && Tidy(voc, DictAt(p, nm, 0))
    requires Fine(CountdownWords(recursive), fr)
    ensures ReadsTrue(voc, nm, DictAt(p, nm, 0), Flat(fr) + [TSemi]) && Clean(Mem, fr)
  {
    hide Tidy, Standard, DictAt, Read, Clean, CountdownWords, Countdown;
    var dict, ts := DictAt(p, nm, 0), Flat(fr) + [TSemi];
    FrameFirst(p, nm);
    forall i | 0 <= i < |ts| ensures ReadTrue(voc, nm, dict, ts[i]) {
      assert Built(ts[i]) || ts[i] in Flat(fr);
      if !Built(ts[i]) {
        CountdownNamed(p, nm, recursive, ts[i].w);
      }
      TidyReads(voc, nm, dict, ts[i]);
    }
  }

  lemma FrameFirst(p: Program, nm: Names)
    requires 0 in p
    ensures Entry("$frame", Frame) in DictAt(p, nm, 0)
  {
    assert DictAt(p, nm, 0)[0] == Entry("$frame", Frame);
  }

  lemma OwnCallsItself(fr: Frag, code: seq<Instr>)
    requires T(Do(0)) in Flat(fr) && code == Gen(fr, 0) + [IEnd]
    ensures CallsItself(map[0 := code], 0)
  {
    hide Gen, Flat;
    Stages.GenKinds(fr, 0);
    var i := WordCode(Flat(fr), Do(0));
    assert Loading.Kinds(Gen(fr, 0))[i] == Loading.KWord(Do(0));
    assert code[i] == IWord(Do(0));
  }

  lemma {:induction false} WordCode(ts: seq<Token>, w: Word) returns (i: nat)
    requires T(w) in ts
    ensures i < |Loading.CodesOf(ts)| && Loading.CodesOf(ts)[i] == IWord(w)
  {
    if ts[0] == T(w) {
      i := 0;
    } else {
      var k := WordCode(ts[1..], w);
      i := |Codes(ts[0])| + k;
    }
  }

  /** Calling itself, the function has one place for both of its parameters
      exactly without the pragma. */
  lemma SelfCallShares(al: Allocator, env: Env, st: St, recursive: bool)
    requires env.fn == Countdown(recursive) && (recursive ==> env.frames != [])
    requires Enter(al, env.frames, Acts(env.acts.active, false), 0, env.fn, st).Val?
    ensures var inner := Enter(al, env.frames, Acts(env.acts.active, false), 0, env.fn, st).v;
      SlotAt(inner, 0).Some? && (SlotAt(inner, 0) == SlotAt(env, 0) <==> !recursive)
  {
    HasSlot(recursive);
    hide HasFrame, FrameBytes, Store32;
    var inner := Enter(al, env.frames, Acts(env.acts.active, false), 0, env.fn, st).v;
    if recursive {
      var a, b := inner.frames[0], env.frames[0];
      assert Misses(env.frames, a, 4);
      assert Above(a, 0) in Range(a, 4) && Above(b, 0) in Range(b, 4);
      assert a != b;
      var x: int, y: int := a, b;
      assert Wrap(x + 4) != Wrap(y + 4);
    }
  }
}
