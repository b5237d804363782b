/** The emitted code simulates the C program: same values, same memory, same
    heap, and out of fuel exactly together. */
module Simulation {
  import opened Options
  import opened Cells
  import opened Memory
  import opened CTree
  import opened ConstFold
  import opened Forth
  import opened Emit
  import opened CSemantics
  import opened Supported
  import opened WordLemmas

  // ----- the relation between the two sides -----

  /** `$frame` heads a chain of links through exactly the given frames. */
  ghost predicate Chain(mem: Mem, frame: Cell, frames: seq<Cell>)
    decreases |frames|
  {
    if frames == [] then frame == 0
    else frame == frames[0] && Chain(mem, Fetch32(mem, frame), frames[1..])
  }

  ghost predicate Matches(m: Mach, st: St, env: Env) {
    m.mem == st.mem && m.heap == st.heap && Chain(m.mem, m.frame, env.frames)
    && (HasFrame(env.fn) ==> env.frames != [])
  }

  ghost predicate RelV(mode: Mode, c: Cell, v: Cell) {
    match mode
    case Exact => c == v
    case Truth => c == 0 <==> v == 0
    case Any => true
  }

  /** The stack has gained one cell for the value, or none if it is void. */
  ghost predicate Gained(t: Type, mode: Mode, before: Stack, after: Stack, v: Cell) {
    if t.Void? then after == before
    else after.Push? && after.below == before && RelV(mode, after.top, v)
  }

  ghost predicate AgreesR(env: Env, t: Type, mode: Mode, r: Res<Cell>, m: Mach, out: Out) {
    (r.Val? ==> out.Next? && out.m.frame == m.frame && Matches(out.m, r.st, env)
                && Gained(t, mode, m.ds, out.m.ds, r.v) && (t.UChar? ==> 0 <= r.v < 256))
    && (r.Starve? ==> out == Starved)
  }

  ghost predicate Known(p: Program, env: Env) {
    OkProgram(p) && env.id in p && p[env.id] == env.fn
  }

  ghost predicate Ready(p: Program, env: Env, st: St, m: Mach) {
    Known(p, env) && Matches(m, st, env)
  }

  function Cx(env: Env): Ctx {
    Ctx(env.id, env.fn)
  }

  lemma ProgramFits(p: Program)
    requires OkProgram(p)
    ensures ParamsFit(p)
  {
  }

  /** The dictionary of a supported program. */
  ghost function Code(p: Program): Dict
    requires OkProgram(p)
  {
    ProgramFits(p);
    Dictionary(p)
  }

  /** Storing a byte and storing its conversion are the same. */
  lemma StoreConverts(m: Mem, t: Type, a: Cell, v: Cell)
    ensures Store(m, t, a, Convert(t, v)) == Store(m, t, a, v)
  {
    hide Store32;
  }

  // ----- writes keep the chain -----

  lemma {:induction false} ChainKept(mem: Mem, mem': Mem, a: Cell, n: nat, frame: Cell, frames: seq<Cell>)
    requires SameOutside(mem, mem', a, n) && Misses(frames, a, n) && Chain(mem, frame, frames)
    ensures Chain(mem', frame, frames)
    decreases |frames|
  {
    if frames != [] {
      FetchElsewhere(mem, mem', a, n, frames[0]);
      assert Misses(frames[1..], a, n);
      ChainKept(mem, mem', a, n, Fetch32(mem, frame), frames[1..]);
    }
  }

  lemma WriteKeepsChain(env: Env, st: St, t: Type, a: Cell, v: Cell, frame: Cell)
    requires Write(env, st, t, a, v).Val? && Chain(st.mem, frame, env.frames)
    ensures Chain(Write(env, st, t, a, v).st.mem, frame, env.frames)
  {
    hide Store8, Store32, Range;
    StoresStayInRange(st.mem, a, v);
    ChainKept(st.mem, Store(st.mem, t, a, v), a, ScalarSize(t), frame, env.frames);
  }

  // ----- folded constants -----

  /** A folded constant is the value C computes, and changes nothing. */
  lemma {:induction false} FoldIsValue(p: Program, al: Allocator, env: Env, st: St, e: Expr, fuel: nat)
    requires IsIntExpr(e) && FoldOk(e)
    ensures Eval(p, al, env, st, e, fuel).Undefined?
         || Eval(p, al, env, st, e, fuel) == Val(Fold(e).v, st)
  {
    match e
    case IntLit(_) =>
    case Unary(_, x) => FoldIsValue(p, al, env, st, x, fuel);
    case Binary(op, l, r) =>
      FoldIsValue(p, al, env, st, l, fuel);
      FoldIsValue(p, al, env, st, r, fuel);
      FoldBinaryOk(op, l, r);
    case Logic(_, l, r) =>
      FoldIsValue(p, al, env, st, l, fuel);
      FoldIsValue(p, al, env, st, r, fuel);
    case Cond(c, a, b) =>
      FoldIsValue(p, al, env, st, c, fuel);
      FoldIsValue(p, al, env, st, a, fuel);
      FoldIsValue(p, al, env, st, b, fuel);
    case Cast(_, x) => FoldIsValue(p, al, env, st, x, fuel);
    case Comma(_, _) =>
  }

  // ----- expressions -----

  /** From any stack and memory, the code of an expression adds one cell holding
      the value (in the sense the mode asks for), leaves everything below it
      alone, and ends in the C memory. */
  ghost predicate SimulatedR(p: Program, al: Allocator, env: Env, st: St, e: Expr, mode: Mode, m: Mach, fuel: nat)
    requires Known(p, env)
  {
    AgreesR(env, TypeOf(e), mode, Eval(p, al, env, st, e, fuel), m, Run(Code(p), al, EmitR(Cx(env), e), m, fuel))
  }

  /** The code of an lvalue adds one cell holding its address. */
  ghost predicate SimulatedL(p: Program, al: Allocator, env: Env, st: St, e: Expr, m: Mach, fuel: nat)
    requires Known(p, env)
  {
    AgreesR(env, Int, Exact, Address(p, al, env, st, e, fuel), m, Run(Code(p), al, EmitL(Cx(env), e), m, fuel))
  }

  lemma {:induction false} SimR(p: Program, al: Allocator, env: Env, st: St, e: Expr, mode: Mode, m: Mach, fuel: nat)
    requires Ready(p, env, st, m) && Ok(p, env.fn, e, mode)
    ensures SimulatedR(p, al, env, st, e, mode, m, fuel)
    decreases fuel, e, 3
  {
    hide Ok, Run, Eval, Matches;
    match e
    case IntLit(_) => SimConst(p, al, env, st, e, mode, m, fuel);
    case Var(_) => SimFetch(p, al, env, st, e, mode, m, fuel);
    case Index(_, _) => SimFetch(p, al, env, st, e, mode, m, fuel);
    case Unary(_, _) =>
      if IsIntExpr(e) {
        SimConst(p, al, env, st, e, mode, m, fuel);
      } else {
        SimUnary(p, al, env, st, e, mode, m, fuel);
      }
    case Deref(_) => SimFetch(p, al, env, st, e, mode, m, fuel);
    case AddrOf(_) => SimAddrOf(p, al, env, st, e, mode, m, fuel);
    case IncDec(_, _, _) => SimIncDec(p, al, env, st, e, mode, m, fuel);
    case Binary(_, _, _) =>
      if IsIntExpr(e) {
        SimConst(p, al, env, st, e, mode, m, fuel);
      } else {
        SimBinary(p, al, env, st, e, mode, m, fuel);
      }
    case Logic(_, _, _) =>
      if IsIntExpr(e) {
        SimConst(p, al, env, st, e, mode, m, fuel);
      } else {
        SimLogic(p, al, env, st, e, mode, m, fuel);
      }
    case Comma(_, _) => SimComma(p, al, env, st, e, mode, m, fuel);
    case Assign(_, _) => SimAssign(p, al, env, st, e, mode, m, fuel);
    case OpAssign(_, _, _) => SimOpAssign(p, al, env, st, e, mode, m, fuel);
    case Cond(_, _, _) => SimCond(p, al, env, st, e, mode, m, fuel);
    case Cast(_, _) => SimCast(p, al, env, st, e, mode, m, fuel);
    case Call(_, _, _) => SimCall(p, al, env, st, e, mode, m, fuel);
  }

  /** A literal or a folded subtree. */
  lemma SimConst(p: Program, al: Allocator, env: Env, st: St, e: Expr, mode: Mode, m: Mach, fuel: nat)
    requires Ready(p, env, st, m) && Ok(p, env.fn, e, mode)
    requires e.IntLit? || ((e.Unary? || e.Binary? || e.Logic?) && IsIntExpr(e))
    ensures SimulatedR(p, al, env, st, e, mode, m, fuel)
  {
    hide Run, Chain, Eval, Ok, EmitR, OkProgram, Perform, Fold, FoldOk, IsIntExpr;
    ConstCase(p, env, e, mode);
    FoldIsValue(p, al, env, st, e, fuel);
    DoLit(Code(p), al, FoldValue(e), m);
    RunWord(Code(p), al, Lit(FoldValue(e)), m, fuel);
  }

  lemma ConstCase(p: Program, env: Env, e: Expr, mode: Mode)
    requires Ok(p, env.fn, e, mode)
    requires e.IntLit? || ((e.Unary? || e.Binary? || e.Logic?) && IsIntExpr(e))
    ensures IsIntExpr(e) && FoldOk(e) && EmitR(Cx(env), e) == W(Lit(FoldValue(e))) && FoldValue(e) == Fold(e).v
    ensures !TypeOf(e).Void? && !TypeOf(e).UChar?
  {
  }

  lemma {:induction false} SimUnary(p: Program, al: Allocator, env: Env, st: St, e: Expr, mode: Mode, m: Mach, fuel: nat)
    requires Ready(p, env, st, m) && Ok(p, env.fn, e, mode)
    requires e.Unary? && !IsIntExpr(e)
    ensures SimulatedR(p, al, env, st, e, mode, m, fuel)
    decreases fuel, e, 2
  {
    hide Run, Chain, Eval, Ok, EmitR, OkProgram, UnaryTail;
    var d, x, op := Code(p), e.arg, e.uop;
    UnaryCase(p, al, env, st, e, mode, fuel);
    SimR(p, al, env, st, x, if op == Not then Truth else Exact, m, fuel);
    RunSeq(d, al, EmitR(Cx(env), x), UnaryTail(op), m, fuel);
    if Eval(p, al, env, st, x, fuel).Val? {
      RunUnaryTail(d, al, op, Run(d, al, EmitR(Cx(env), x), m, fuel).m, fuel);
    }
  }

  lemma UnaryCase(p: Program, al: Allocator, env: Env, st: St, e: Expr, mode: Mode, fuel: nat)
    requires Ok(p, env.fn, e, mode) && e.Unary? && !IsIntExpr(e)
    ensures var x := e.arg;
      Ok(p, env.fn, x, if e.uop == Not then Truth else Exact) && !TypeOf(x).Void? && TypeOf(e) == Int
      && Eval(p, al, env, st, e, fuel)
         == (var r := Eval(p, al, env, st, x, fuel); if r.Val? then Val(UnaryOp(e.uop, r.v), r.st) else r)
      && EmitR(Cx(env), e) == Cat(EmitR(Cx(env), x), UnaryTail(e.uop))
  {
    hide Address, UnaryTail, UnaryOp;
  }

  lemma {:induction false} SimBinary(p: Program, al: Allocator, env: Env, st: St, e: Expr, mode: Mode, m: Mach, fuel: nat)
    requires Ready(p, env, st, m) && Ok(p, env.fn, e, mode)
    requires e.Binary? && !IsIntExpr(e)
    ensures SimulatedR(p, al, env, st, e, mode, m, fuel)
    decreases fuel, e, 2
  {
    hide Run, Chain, Eval, Ok, EmitR, OkProgram, BinaryTail, Operate;
    BinaryCase(p, al, env, st, e, mode, fuel);
    var d, l, r, op := Code(p), e.l, e.r, e.op;
    var el, er := EmitR(Cx(env), l), EmitR(Cx(env), r);
    SimR(p, al, env, st, l, Exact, m, fuel);
    RunSeq(d, al, el, er, m, fuel);
    RunSeq(d, al, Cat(el, er), BinaryTail(op, TypeOf(l), TypeOf(r)), m, fuel);
    var x := Eval(p, al, env, st, l, fuel);
    if x.Val? {
      var m1 := Run(d, al, el, m, fuel).m;
      SimR(p, al, env, x.st, r, Exact, m1, fuel);
      var y := Eval(p, al, env, x.st, r, fuel);
      if y.Val? && Operate(op, TypeOf(l), TypeOf(r), x.v, y.v).Some? {
        RunBinaryTail(d, al, op, TypeOf(l), TypeOf(r), x.v, y.v, m.ds, Run(d, al, er, m1, fuel).m, fuel);
      }
    }
  }

  lemma BinaryCase(p: Program, al: Allocator, env: Env, st: St, e: Expr, mode: Mode, fuel: nat)
    requires Ok(p, env.fn, e, mode) && e.Binary? && !IsIntExpr(e)
    ensures var l, r := e.l, e.r;
      Ok(p, env.fn, l, Exact) && Ok(p, env.fn, r, Exact) && OkOperands(e.op, TypeOf(l), TypeOf(r))
      && !TypeOf(l).Void? && !TypeOf(r).Void? && !TypeOf(e).Void? && !TypeOf(e).UChar?
      && Eval(p, al, env, st, e, fuel)
         == (var x := Eval(p, al, env, st, l, fuel);
             if !x.Val? then x
             else var y := Eval(p, al, env, x.st, r, fuel);
               if !y.Val? then y else Answer(Operate(e.op, TypeOf(l), TypeOf(r), x.v, y.v), y.st))
      && EmitR(Cx(env), e) == Cat(Cat(EmitR(Cx(env), l), EmitR(Cx(env), r)), BinaryTail(e.op, TypeOf(l), TypeOf(r)))
  {
    hide Address, BinaryTail, Operate;
    ExactHasValue(p, env.fn, e.l);
    ExactHasValue(p, env.fn, e.r);
  }

  lemma {:induction false} SimFetch(p: Program, al: Allocator, env: Env, st: St, e: Expr, mode: Mode, m: Mach, fuel: nat)
    requires Ready(p, env, st, m) && Ok(p, env.fn, e, mode)
    requires e.Var? || e.Index? || e.Deref?
    ensures SimulatedR(p, al, env, st, e, mode, m, fuel)
    decreases fuel, e, 2
  {
    if e.Deref? && e.ptr.AddrOf? {
      hide Run, Chain, Load;
      SimR(p, al, env, st, e.ptr.lval, Exact, m, fuel);
      StarAmp(p, al, env, st, e, fuel);
    } else {
      hide Run, Chain, Load, Eval, Ok, EmitR, TypeOf;
      FetchCase(p, al, env, st, e, mode, fuel);
      SimL(p, al, env, st, e, m, fuel);
      FetchBoth(env, Code(p), al, TypeOf(e), Address(p, al, env, st, e, fuel), mode, EmitL(Cx(env), e), m, fuel);
    }
  }

  /** `*&x` is x. */
  lemma StarAmp(p: Program, al: Allocator, env: Env, st: St, e: Expr, fuel: nat)
    requires e.Deref? && e.ptr.AddrOf? && (e.ptr.lval.Var? || e.ptr.lval.Index? || e.ptr.lval.Deref?)
    ensures Eval(p, al, env, st, e, fuel) == Eval(p, al, env, st, e.ptr.lval, fuel)
  {
    hide Load, SymAt, Operate, Write;
    assert Address(p, al, env, st, e, fuel) == Eval(p, al, env, st, e.ptr, fuel);
    assert Eval(p, al, env, st, e.ptr, fuel) == Address(p, al, env, st, e.ptr.lval, fuel);
    assert Eval(p, al, env, st, e.ptr.lval, fuel)
        == Fetch(TypeOf(e.ptr.lval), Address(p, al, env, st, e.ptr.lval, fuel));
    assert TypeOf(e) == TypeOf(e.ptr.lval);
  }

  /** What the three fetching nodes mean and emit. */
  lemma FetchCase(p: Program, al: Allocator, env: Env, st: St, e: Expr, mode: Mode, fuel: nat)
    requires Ok(p, env.fn, e, mode)
    requires e.Var? || e.Index? || (e.Deref? && !e.ptr.AddrOf?)
    ensures Eval(p, al, env, st, e, fuel) == Fetch(TypeOf(e), Address(p, al, env, st, e, fuel))
    ensures !TypeOf(e).Void? && OkL(p, env.fn, e)
    ensures EmitR(Cx(env), e)
         == if TypeOf(e).Arr? then EmitL(Cx(env), e) else Cat(EmitL(Cx(env), e), Get(TypeOf(e)))
  {
    hide Address, EmitL, Fetch;
  }

  /** Fetching through an address both sides have computed. */
  lemma FetchBoth(env: Env, d: Dict, al: Allocator, t: Type, a: Res<Cell>, mode: Mode, fr: Frag, m: Mach, fuel: nat)
    requires !t.Void? && AgreesR(env, Int, Exact, a, m, Run(d, al, fr, m, fuel))
    ensures AgreesR(env, t, mode, Fetch(t, a), m,
                    Run(d, al, if t.Arr? then fr else Cat(fr, Get(t)), m, fuel))
  {
    hide Run, Load, Chain, Get;
    RunSeq(d, al, fr, Get(t), m, fuel);
    if a.Val? {
      RunGet(d, al, t, Run(d, al, fr, m, fuel).m, fuel);
      LoadedByte(a.st.mem, t, a.v);
    }
  }

  lemma LoadedByte(m: Mem, t: Type, a: Cell)
    ensures t.UChar? ==> 0 <= Load(m, t, a) < 256
  {
  }

  lemma {:induction false} SimAddrOf(p: Program, al: Allocator, env: Env, st: St, e: Expr, mode: Mode, m: Mach, fuel: nat)
    requires Ready(p, env, st, m) && Ok(p, env.fn, e, mode)
    requires e.AddrOf?
    ensures SimulatedR(p, al, env, st, e, mode, m, fuel)
    decreases fuel, e, 2
  {
    hide Run, Chain, Eval, Ok, EmitR, OkL, Address, EmitL;
    AddrOfCase(p, al, env, st, e, mode, fuel);
    if e.lval.Deref? {
      SimR(p, al, env, st, e.lval.ptr, Exact, m, fuel);
    } else {
      SimL(p, al, env, st, e.lval, m, fuel);
    }
  }

  lemma AddrOfCase(p: Program, al: Allocator, env: Env, st: St, e: Expr, mode: Mode, fuel: nat)
    requires Ok(p, env.fn, e, mode) && e.AddrOf?
    ensures var x := e.lval;
      TypeOf(e).Ptr? && Eval(p, al, env, st, e, fuel) == Address(p, al, env, st, x, fuel)
      && if x.Deref? then
           Ok(p, env.fn, x.ptr, Exact) && !TypeOf(x.ptr).Void? && EmitR(Cx(env), e) == EmitR(Cx(env), x.ptr)
           && Address(p, al, env, st, x, fuel) == Eval(p, al, env, st, x.ptr, fuel)
         else OkL(p, env.fn, x) && EmitR(Cx(env), e) == EmitL(Cx(env), x)
  {
    if e.lval.Deref? {
      ExactHasValue(p, env.fn, e.lval.ptr);
    }
  }

  lemma {:induction false} SimIncDec(p: Program, al: Allocator, env: Env, st: St, e: Expr, mode: Mode, m: Mach, fuel: nat)
    requires Ready(p, env, st, m) && Ok(p, env.fn, e, mode)
    requires e.IncDec?
    ensures SimulatedR(p, al, env, st, e, mode, m, fuel)
    decreases fuel, e, 2
  {
    hide Run, Chain, Eval, Ok, EmitR;
    IncDecCase(p, al, env, st, e, mode, fuel);
    SimL(p, al, env, st, e.lval, m, fuel);
    BumpBoth(env, Code(p), al, e.inc, e.prefix, TypeOf(e.lval), mode,
             Address(p, al, env, st, e.lval, fuel), EmitL(Cx(env), e.lval), m, fuel);
  }

  lemma IncDecCase(p: Program, al: Allocator, env: Env, st: St, e: Expr, mode: Mode, fuel: nat)
    requires Ok(p, env.fn, e, mode) && e.IncDec?
    ensures var t := TypeOf(e.lval);
      OkL(p, env.fn, e.lval) && Scalar(t) && (t.UChar? && e.prefix ==> mode == Any) && TypeOf(e) == t
      && Eval(p, al, env, st, e, fuel)
         == CSemantics.Bump(env, e.inc, e.prefix, t, Address(p, al, env, st, e.lval, fuel))
      && EmitR(Cx(env), e) == Cat(EmitL(Cx(env), e.lval), Emit.Bump(e.inc, e.prefix, t))
  {
    hide OkL, Address, EmitL;
  }

  lemma BumpBoth(env: Env, d: Dict, al: Allocator, inc: bool, prefix: bool, t: Type, mode: Mode,
                 a: Res<Cell>, fr: Frag, m: Mach, fuel: nat)
    requires Scalar(t) && (t.UChar? && prefix ==> mode == Any)
    requires AgreesR(env, Int, Exact, a, m, Run(d, al, fr, m, fuel))
    ensures AgreesR(env, t, mode, CSemantics.Bump(env, inc, prefix, t, a), m,
                    Run(d, al, Cat(fr, Emit.Bump(inc, prefix, t)), m, fuel))
  {
    hide Run, Emit.Bump, Load, Store, Chain, Misses, Bumped;
    RunSeq(d, al, fr, Emit.Bump(inc, prefix, t), m, fuel);
    if a.Val? {
      var m1 := Run(d, al, fr, m, fuel).m;
      RunBump(d, al, inc, prefix, t, a.v, m.ds, m1, fuel);
      var was := Load(a.st.mem, t, a.v);
      LoadedByte(a.st.mem, t, a.v);
      StoreConverts(a.st.mem, t, a.v, Bumped(inc, t, was));
      var now := Convert(t, Bumped(inc, t, was));
      if Write(env, a.st, t, a.v, now).Val? {
        WriteKeepsChain(env, a.st, t, a.v, now, m.frame);
      }
    }
  }

  /** Keep a copy and test it: the flag asks whether the right operand runs. */
  lemma RunDupTest(d: Dict, al: Allocator, conj: bool, m: Mach, fuel: nat)
    requires m.ds.Push?
    ensures Run(d, al, Words2(Op(PDup), Op(if conj then PZeroNe else PZeroEq)), m, fuel)
         == Next(m.(ds := Push(Forth.Truth((m.ds.top != 0) == conj), m.ds)))
  {
    hide Run, Perform;
    var x, s := m.ds.top, m.ds.below;
    var q := if conj then PZeroNe else PZeroEq;
    DoShuffle(d, al, x, s, m);
    RunFirst(d, al, Op(PDup), W(Op(q)), m, fuel);
    DoUnop(d, al, q, m.(ds := Push(x, m.ds)));
    RunWord(d, al, Op(q), m.(ds := Push(x, m.ds)), fuel);
  }

  /** `if drop ... then` on a flag above a copy of the left operand. */
  lemma RunIfDrop(d: Dict, al: Allocator, fr: Frag, flag: bool, m: Mach, fuel: nat)
    requires m.ds.Push?
    ensures Run(d, al, IfThen(Cat(W(Op(PDrop)), fr)), m.(ds := Push(Forth.Truth(flag), m.ds)), fuel)
         == if flag then Run(d, al, fr, m.(ds := m.ds.below), fuel) else Next(m)
  {
    if flag {
      DoShuffle(d, al, m.ds.top, m.ds.below, m);
      RunFirst(d, al, Op(PDrop), fr, m, fuel);
    }
    hide Perform;
  }

  lemma {:induction false} SimLogic(p: Program, al: Allocator, env: Env, st: St, e: Expr, mode: Mode, m: Mach, fuel: nat)
    requires Ready(p, env, st, m) && Ok(p, env.fn, e, mode)
    requires e.Logic? && !IsIntExpr(e)
    ensures SimulatedR(p, al, env, st, e, mode, m, fuel)
    decreases fuel, e, 2
  {
    hide Run, Chain, Eval, Ok, EmitR, OkProgram;
    LogicCase(p, al, env, st, e, mode, fuel);
    var d, l, r, conj := Code(p), e.l, e.r, e.conj;
    var el, er := EmitR(Cx(env), l), EmitR(Cx(env), r);
    var test := Words2(Op(PDup), Op(if conj then PZeroNe else PZeroEq));
    SimR(p, al, env, st, l, Mode.Truth, m, fuel);
    RunSeq(d, al, el, test, m, fuel);
    RunSeq(d, al, Cat(el, test), IfThen(Cat(W(Op(PDrop)), er)), m, fuel);
    var x := Eval(p, al, env, st, l, fuel);
    if x.Val? {
      var m1 := Run(d, al, el, m, fuel).m;
      RunDupTest(d, al, conj, m1, fuel);
      RunIfDrop(d, al, er, (m1.ds.top != 0) == conj, m1, fuel);
      if (x.v != 0) == conj {
        SimR(p, al, env, x.st, r, mode, m1.(ds := m.ds), fuel);
      }
    }
  }

  lemma LogicCase(p: Program, al: Allocator, env: Env, st: St, e: Expr, mode: Mode, fuel: nat)
    requires Ok(p, env.fn, e, mode) && e.Logic? && !IsIntExpr(e)
    ensures var l, r := e.l, e.r;
      mode != Exact && Ok(p, env.fn, l, Truth) && Ok(p, env.fn, r, mode)
      && !TypeOf(l).Void? && !TypeOf(r).Void? && TypeOf(e) == Int
      && Eval(p, al, env, st, e, fuel)
         == (var x := Eval(p, al, env, st, l, fuel);
             if !x.Val? then x
             else if (x.v != 0) != e.conj then Val(Flag(!e.conj), x.st)
             else var y := Eval(p, al, env, x.st, r, fuel);
               if y.Val? then Val(Flag(y.v != 0), y.st) else y)
      && EmitR(Cx(env), e)
         == Cat(Cat(EmitR(Cx(env), l), Words2(Op(PDup), Op(if e.conj then PZeroNe else PZeroEq))),
                IfThen(Cat(W(Op(PDrop)), EmitR(Cx(env), r))))
  {
    hide Address;
    TruthHasValue(p, env.fn, e.l);
  }

  /** Dropping a value leaves the stack as it was. */
  lemma RunDiscard(d: Dict, al: Allocator, t: Type, before: Stack, m: Mach, fuel: nat)
    requires if t.Void? then m.ds == before else m.ds.Push? && m.ds.below == before
    ensures Run(d, al, Discard(t), m, fuel) == Next(m.(ds := before))
  {
    if t.Void? {
      hide Perform;
    } else {
      hide Run, Perform;
      DoShuffle(d, al, m.ds.top, before, m);
      RunWord(d, al, Op(PDrop), m, fuel);
    }
  }

  /** An expression evaluated for its effect leaves nothing on the stack. */
  lemma {:induction false} SimEffect(p: Program, al: Allocator, env: Env, st: St, e: Expr, m: Mach, fuel: nat)
    requires Ready(p, env, st, m) && Ok(p, env.fn, e, Any)
    ensures AgreesR(env, Void, Any, Eval(p, al, env, st, e, fuel), m,
                    Run(Code(p), al, EmitEffect(Cx(env), e), m, fuel))
    decreases fuel, e, 4
  {
    hide Run, Ok, Eval, Chain, EmitR, OkProgram;
    var d := Code(p);
    SimR(p, al, env, st, e, Any, m, fuel);
    RunSeq(d, al, EmitR(Cx(env), e), Discard(TypeOf(e)), m, fuel);
    if Eval(p, al, env, st, e, fuel).Val? {
      RunDiscard(d, al, TypeOf(e), m.ds, Run(d, al, EmitR(Cx(env), e), m, fuel).m, fuel);
    }
  }

  lemma {:induction false} SimComma(p: Program, al: Allocator, env: Env, st: St, e: Expr, mode: Mode, m: Mach, fuel: nat)
    requires Ready(p, env, st, m) && Ok(p, env.fn, e, mode)
    requires e.Comma?
    ensures SimulatedR(p, al, env, st, e, mode, m, fuel)
    decreases fuel, e, 2
  {
    hide Run, Chain, Eval, Ok, EmitR, OkProgram, EmitEffect;
    CommaCase(p, al, env, st, e, mode, fuel);
    var d, l, r := Code(p), e.l, e.r;
    SimEffect(p, al, env, st, l, m, fuel);
    RunSeq(d, al, EmitEffect(Cx(env), l), EmitR(Cx(env), r), m, fuel);
    var x := Eval(p, al, env, st, l, fuel);
    if x.Val? {
      SimR(p, al, env, x.st, r, mode, Run(d, al, EmitEffect(Cx(env), l), m, fuel).m, fuel);
    }
  }

  lemma CommaCase(p: Program, al: Allocator, env: Env, st: St, e: Expr, mode: Mode, fuel: nat)
    requires Ok(p, env.fn, e, mode) && e.Comma?
    ensures var l, r := e.l, e.r;
      Ok(p, env.fn, l, Any) && Ok(p, env.fn, r, mode) && TypeOf(e) == TypeOf(r)
      && Eval(p, al, env, st, e, fuel)
         == (var x := Eval(p, al, env, st, l, fuel); if x.Val? then Eval(p, al, env, x.st, r, fuel) else x)
      && EmitR(Cx(env), e) == Cat(EmitEffect(Cx(env), l), EmitR(Cx(env), r))
  {
    hide Address, Discard;
  }

  lemma {:induction false} SimAssign(p: Program, al: Allocator, env: Env, st: St, e: Expr, mode: Mode, m: Mach, fuel: nat)
    requires Ready(p, env, st, m) && Ok(p, env.fn, e, mode)
    requires e.Assign?
    ensures SimulatedR(p, al, env, st, e, mode, m, fuel)
    decreases fuel, e, 2
  {
    hide Run, Chain, Eval, Ok, EmitR;
    AssignCase(p, al, env, st, e, mode, fuel);
    var d, l, r, t := Code(p), e.l, e.r, TypeOf(e.l);
    var el, er := EmitL(Cx(env), l), EmitR(Cx(env), r);
    SimR(p, al, env, st, r, Exact, m, fuel);
    RunSeq(d, al, Cat(er, W(Op(PDup))), Cat(el, Set(t)), m, fuel);
    RunSeq(d, al, er, W(Op(PDup)), m, fuel);
    var y := Eval(p, al, env, st, r, fuel);
    if y.Val? {
      var m1 := Run(d, al, er, m, fuel).m;
      RunDup(d, al, m1, fuel);
      var m2 := m1.(ds := Push(y.v, m1.ds));
      SameMemory(m1, y.st, env);
      SimL(p, al, env, y.st, l, m2, fuel);
      SetBoth(env, d, al, t, y.v, Address(p, al, env, y.st, l, fuel), m1.ds, el, m2, fuel);
    }
  }

  lemma AssignCase(p: Program, al: Allocator, env: Env, st: St, e: Expr, mode: Mode, fuel: nat)
    requires Ok(p, env.fn, e, mode) && e.Assign?
    ensures var t := TypeOf(e.l);
      OkL(p, env.fn, e.l) && Scalar(t) && Ok(p, env.fn, e.r, Exact) && !TypeOf(e.r).Void?
      && (t.UChar? ==> TypeOf(e.r).UChar?) && TypeOf(e) == t
      && Eval(p, al, env, st, e, fuel)
         == (var y := Eval(p, al, env, st, e.r, fuel);
             if y.Val? then Assigned(env, t, Address(p, al, env, y.st, e.l, fuel), y.v) else y)
      && EmitR(Cx(env), e) == Cat(Cat(EmitR(Cx(env), e.r), W(Op(PDup))), Cat(EmitL(Cx(env), e.l), Set(t)))
  {
    hide OkL, Address, EmitL, Assigned;
    ExactHasValue(p, env.fn, e.r);
  }

  lemma ExactHasValue(p: Program, fn: Func, e: Expr)
    requires Ok(p, fn, e, Exact)
    ensures !TypeOf(e).Void?
  {
  }

  lemma RunDup(d: Dict, al: Allocator, m: Mach, fuel: nat)
    requires m.ds.Push?
    ensures Run(d, al, W(Op(PDup)), m, fuel) == Next(m.(ds := Push(m.ds.top, m.ds)))
  {
    hide Run, Perform;
    DoShuffle(d, al, m.ds.top, m.ds.below, m);
    RunWord(d, al, Op(PDup), m, fuel);
  }

  /** The relation between the states does not look at the data stack. */
  lemma SameMemory(m: Mach, st: St, env: Env)
    requires Matches(m, st, env)
    ensures forall s :: Matches(m.(ds := s), st, env)
  {
    hide Chain;
  }

  /** Storing the value below an address both sides have computed; a copy of the
      value stays. */
  lemma SetBoth(env: Env, d: Dict, al: Allocator, t: Type, v: Cell, a: Res<Cell>, s: Stack,
                fr: Frag, m: Mach, fuel: nat)
    requires m.ds == Push(v, s) && s.Push? && s.top == v && (t.UChar? ==> 0 <= v < 256) && !t.Void?
    requires AgreesR(env, Int, Exact, a, m, Run(d, al, fr, m, fuel))
    ensures AgreesR(env, t, Exact, Assigned(env, t, a, v), m.(ds := s.below), Run(d, al, Cat(fr, Set(t)), m, fuel))
  {
    hide Run, Set, Store, Chain, Misses;
    RunSeq(d, al, fr, Set(t), m, fuel);
    if a.Val? {
      RunSet(d, al, t, Run(d, al, fr, m, fuel).m, fuel);
      if Write(env, a.st, t, a.v, v).Val? {
        WriteKeepsChain(env, a.st, t, a.v, v, m.frame);
      }
    }
  }

  lemma {:induction false} SimOpAssign(p: Program, al: Allocator, env: Env, st: St, e: Expr, mode: Mode, m: Mach, fuel: nat)
    requires Ready(p, env, st, m) && Ok(p, env.fn, e, mode)
    requires e.OpAssign?
    ensures SimulatedR(p, al, env, st, e, mode, m, fuel)
    decreases fuel, e, 2
  {
    hide Run, Chain, Eval, Ok, EmitR, OkProgram, OkL, Address, EmitL, Operate;
    hide Store, Load, Get, KeepAndSet, AssignTail, Misses;
    OpAssignCase(p, al, env, st, e, mode, fuel);
    var d, l, r, op, t := Code(p), e.l, e.r, e.op, TypeOf(e.l);
    var el, er := EmitL(Cx(env), l), EmitR(Cx(env), r);
    var fetch, tail := Cat(W(Op(PDup)), Get(t)), AssignTail(op, t);
    SimL(p, al, env, st, l, m, fuel);
    RunSeq(d, al, el, fetch, m, fuel);
    RunSeq(d, al, Cat(el, fetch), Cat(Cat(er, tail), KeepAndSet(t)), m, fuel);
    var a := Address(p, al, env, st, l, fuel);
    if a.Val? {
      var m1 := Run(d, al, el, m, fuel).m;
      var was := Load(a.st.mem, t, a.v);
      var m2 := m1.(ds := Push(was, m1.ds));
      RunDupGet(d, al, t, a.v, m.ds, m1, fuel);
      SimR(p, al, env, a.st, r, Exact, m2, fuel);
      RunSeq(d, al, er, tail, m2, fuel);
      RunSeq(d, al, Cat(er, tail), KeepAndSet(t), m2, fuel);
      var y := Eval(p, al, env, a.st, r, fuel);
      if y.Val? && Operate(op, t, TypeOf(r), was, y.v).Some? {
        SimUpdate(env, d, al, op, t, TypeOf(r), was, a.v, y, m.ds, Run(d, al, er, m2, fuel).m, fuel);
      }
    }
  }

  lemma OpAssignCase(p: Program, al: Allocator, env: Env, st: St, e: Expr, mode: Mode, fuel: nat)
    requires Ok(p, env.fn, e, mode) && e.OpAssign?
    ensures var l, r, op, t := e.l, e.r, e.op, TypeOf(e.l);
      OkL(p, env.fn, l) && Scalar(t) && Ok(p, env.fn, r, Exact) && !TypeOf(r).Void? && TypeOf(e) == t
      && op != Mod && !Pointing(TypeOf(r)) && (t.UChar? ==> mode == Any)
      && Eval(p, al, env, st, e, fuel)
         == (var a := Address(p, al, env, st, l, fuel);
             if !a.Val? then a
             else
               var was := Load(a.st.mem, t, a.v);
               var y := Eval(p, al, env, a.st, r, fuel);
               if !y.Val? then y
               else
                 var z := Operate(op, t, TypeOf(r), was, y.v);
                 if z.Some? then Write(env, y.st, t, a.v, Convert(t, z.value)) else Undefined)
      && EmitR(Cx(env), e)
         == Cat(Cat(EmitL(Cx(env), l), Cat(W(Op(PDup)), Get(t))),
                Cat(Cat(EmitR(Cx(env), r), AssignTail(op, t)), KeepAndSet(t)))
  {
    hide OkL, Address, EmitL, Write, Operate, Load, Get, KeepAndSet, AssignTail, Convert;
    ExactHasValue(p, env.fn, e.r);
  }

  lemma RunDupGet(d: Dict, al: Allocator, t: Type, a: Cell, s: Stack, m: Mach, fuel: nat)
    requires m.ds == Push(a, s)
    ensures Run(d, al, Cat(W(Op(PDup)), Get(t)), m, fuel) == Next(m.(ds := Push(Load(m.mem, t, a), m.ds)))
  {
    hide Run, Perform, Load, Get;
    DoShuffle(d, al, a, s, m);
    RunFirst(d, al, Op(PDup), Get(t), m, fuel);
    RunGet(d, al, t, m.(ds := Push(a, m.ds)), fuel);
  }

  /** The operator and the store of an `op=`, once both operands are there. */
  lemma SimUpdate(env: Env, d: Dict, al: Allocator, op: BinOp, t: Type, rt: Type, was: Cell, a: Cell,
                  y: Res<Cell>, s: Stack, m: Mach, fuel: nat)
    requires y.Val? && m.ds == Push(y.v, Push(was, Push(a, s))) && Matches(m, y.st, env)
    requires Operate(op, t, rt, was, y.v).Some? && op != Mod && !Pointing(rt)
    ensures var z := Operate(op, t, rt, was, y.v).value;
      var w := Write(env, y.st, t, a, Convert(t, z));
      var out := Run(d, al, AssignTail(op, t), m, fuel);
      out.Next? &&
      (w.Val? ==>
         var out' := Run(d, al, KeepAndSet(t), out.m, fuel);
         out'.Next? && out'.m.ds == Push(z, s) && out'.m.frame == m.frame && Matches(out'.m, w.st, env))
  {
    hide Run, Operate, Store, AssignTail, KeepAndSet, Misses;
    var z := Operate(op, t, rt, was, y.v).value;
    RunAssignTail(d, al, op, t, rt, was, y.v, Push(a, s), m, fuel);
    RunKeepAndSet(d, al, t, z, a, s, m.(ds := Push(z, Push(a, s))), fuel);
    StoreConverts(y.st.mem, t, a, z);
    if Write(env, y.st, t, a, Convert(t, z)).Val? {
      WriteKeepsChain(env, y.st, t, a, Convert(t, z), m.frame);
    }
  }

  lemma {:induction false} SimCond(p: Program, al: Allocator, env: Env, st: St, e: Expr, mode: Mode, m: Mach, fuel: nat)
    requires Ready(p, env, st, m) && Ok(p, env.fn, e, mode)
    requires e.Cond?
    ensures SimulatedR(p, al, env, st, e, mode, m, fuel)
    decreases fuel, e, 2
  {
    hide Run, Chain, Eval, Ok, EmitR, OkProgram;
    CondCase(p, al, env, st, e, mode, fuel);
    var d, c, a, b := Code(p), e.c, e.a, e.b;
    var ec, ea, eb := EmitR(Cx(env), c), EmitR(Cx(env), a), EmitR(Cx(env), b);
    SimR(p, al, env, st, c, Mode.Truth, m, fuel);
    RunSeq(d, al, ec, IfElse(ea, eb), m, fuel);
    var x := Eval(p, al, env, st, c, fuel);
    if x.Val? {
      var m1 := Run(d, al, ec, m, fuel).m;
      RunIfElse(d, al, ea, eb, m1, fuel);
      SimR(p, al, env, x.st, if x.v != 0 then a else b, mode, m1.(ds := m.ds), fuel);
    }
  }

  lemma CondCase(p: Program, al: Allocator, env: Env, st: St, e: Expr, mode: Mode, fuel: nat)
    requires Ok(p, env.fn, e, mode) && e.Cond?
    ensures var c, a, b := e.c, e.a, e.b;
      Ok(p, env.fn, c, Truth) && Ok(p, env.fn, a, mode) && Ok(p, env.fn, b, mode) && !TypeOf(c).Void?
      && TypeOf(e) == TypeOf(a) && TypeOf(a).Void? == TypeOf(b).Void? && TypeOf(a).UChar? == TypeOf(b).UChar?
      && Eval(p, al, env, st, e, fuel)
         == (var x := Eval(p, al, env, st, c, fuel);
             if x.Val? then Eval(p, al, env, x.st, if x.v != 0 then a else b, fuel) else x)
      && EmitR(Cx(env), e) == Cat(EmitR(Cx(env), c), IfElse(EmitR(Cx(env), a), EmitR(Cx(env), b)))
  {
    hide Address;
    TruthHasValue(p, env.fn, e.c);
  }

  lemma {:induction false} SimCast(p: Program, al: Allocator, env: Env, st: St, e: Expr, mode: Mode, m: Mach, fuel: nat)
    requires Ready(p, env, st, m) && Ok(p, env.fn, e, mode)
    requires e.Cast?
    ensures SimulatedR(p, al, env, st, e, mode, m, fuel)
    decreases fuel, e, 2
  {
    hide Run, Chain, Eval, Ok, EmitR, CastTail;
    var d, t, x := Code(p), e.to, e.e;
    var inner := CastMode(t, TypeOf(x), mode);
    CastCase(p, al, env, st, e, mode, fuel);
    SimR(p, al, env, st, x, inner, m, fuel);
    if t.Ptr? && TypeOf(x).Arr? {
      var v := Eval(p, al, env, st, x, fuel);
      if v.Val? {
        assert Val(Convert(t, v.v), v.st) == v;
      }
    } else {
      CastBoth(env, d, al, t, TypeOf(x), mode, Eval(p, al, env, st, x, fuel), EmitR(Cx(env), x), m, fuel);
    }
  }

  /** What is asked of the operand of a cast. */
  function CastMode(to: Type, from: Type, mode: Mode): Mode {
    if to.Void? then Any
    else if (to.Ptr? && from.Arr?) || to.UChar? != from.UChar? then Exact
    else mode
  }

  lemma CastCase(p: Program, al: Allocator, env: Env, st: St, e: Expr, mode: Mode, fuel: nat)
    requires Ok(p, env.fn, e, mode) && e.Cast?
    ensures var t, x := e.to, e.e;
      Ok(p, env.fn, x, CastMode(t, TypeOf(x), mode)) && !TypeOf(x).Void? && TypeOf(e) == t
      && (t.Void? || Scalar(t))
      && Eval(p, al, env, st, e, fuel)
         == (var r := Eval(p, al, env, st, x, fuel); if r.Val? then Val(Convert(t, r.v), r.st) else r)
      && EmitR(Cx(env), e)
         == if t.Ptr? && TypeOf(x).Arr? then EmitR(Cx(env), x) else Cat(EmitR(Cx(env), x), CastTail(t, TypeOf(x)))
  {
    hide Address, CastTail;
    if e.to.Ptr? && TypeOf(e.e).Arr? {
      ArrayIsAddress(env, e.e);
    }
  }

  /** The value of an array variable or element is its address. */
  lemma ArrayIsAddress(env: Env, x: Expr)
    requires (x.Var? || x.Index?) && TypeOf(x).Arr?
    ensures EmitR(Cx(env), x) == EmitL(Cx(env), x)
  {
  }

  lemma CastBoth(env: Env, d: Dict, al: Allocator, to: Type, from: Type, mode: Mode, r: Res<Cell>,
                 fr: Frag, m: Mach, fuel: nat)
    requires !from.Void? && (to.Void? || Scalar(to))
    requires AgreesR(env, from, CastMode(to, from, mode), r, m, Run(d, al, fr, m, fuel))
    ensures AgreesR(env, to, mode, if r.Val? then Val(Convert(to, r.v), r.st) else r, m,
                    Run(d, al, Cat(fr, CastTail(to, from)), m, fuel))
  {
    hide Run, Chain, CastTail;
    RunSeq(d, al, fr, CastTail(to, from), m, fuel);
    if r.Val? {
      RunCastTail(d, al, to, from, Run(d, al, fr, m, fuel).m, fuel);
    }
  }

  lemma RunCastTail(d: Dict, al: Allocator, to: Type, from: Type, m: Mach, fuel: nat)
    requires m.ds.Push?
    ensures Run(d, al, CastTail(to, from), m, fuel)
         == Next(m.(ds := if to.Void? then m.ds.below
                          else if to.UChar? != from.UChar? then Push(m.ds.top % 256, m.ds.below)
                          else m.ds))
  {
    if to.Void? {
      hide Run, Perform;
      DoShuffle(d, al, m.ds.top, m.ds.below, m);
      RunWord(d, al, Op(PDrop), m, fuel);
    } else if to.UChar? != from.UChar? {
      RunMask(d, al, m, fuel);
    } else {
      hide Perform;
    }
  }

  // ----- lvalues -----

  lemma {:induction false} SimL(p: Program, al: Allocator, env: Env, st: St, e: Expr, m: Mach, fuel: nat)
    requires Ready(p, env, st, m) && OkL(p, env.fn, e)
    ensures SimulatedL(p, al, env, st, e, m, fuel)
    decreases fuel, e, 1
  {
    match e
    case Var(s) =>
      hide Run, Chain;
      if SymAt(env, s).Some? {
        RunSymAddress(p, al, env, st, s, m, fuel);
      }
    case Deref(x) => SimR(p, al, env, st, x, Exact, m, fuel);
    case Index(_, _) => SimIndex(p, al, env, st, e, m, fuel);
    case _ =>
  }

  lemma FieldSizes(p: Program, f: FuncId)
    requires OkProgram(p) && f in p
    ensures f in Code(p) && Code(p)[f].sizes == Sizes(p[f].vars)
  {
    hide OkProgram, Sizes, EmitFunc;
  }

  /** A slot's address: `$frame` plus the offset its `field` word adds, or the
      static variable. */
  lemma RunSlotAddress(p: Program, al: Allocator, env: Env, st: St, slot: nat, m: Mach, fuel: nat)
    requires Ready(p, env, st, m) && SlotAt(env, slot).Some?
    ensures Run(Code(p), al, SlotAddress(Cx(env), slot), m, fuel)
         == Next(m.(ds := Push(SlotAt(env, slot).value, m.ds)))
  {
    hide Run, Offset, Wrap, Sizes, OkProgram, Chain, ExecPrim;
    var d := Code(p);
    FieldSizes(p, env.id);
    ChainTop(m.mem, m.frame, env.frames);
    if env.fn.recursive {
      RunFirst(d, al, Frame, W(Field(env.id, slot)), m, fuel);
      RunWord(d, al, Field(env.id, slot), m.(ds := Push(m.frame, m.ds)), fuel);
    } else {
      DoPlace(d, al, env.fn.statics[slot], m);
      RunWord(d, al, Place(env.fn.statics[slot]), m, fuel);
    }
  }

  lemma RunSymAddress(p: Program, al: Allocator, env: Env, st: St, s: Sym, m: Mach, fuel: nat)
    requires Ready(p, env, st, m) && SymAt(env, s).Some?
    ensures Run(Code(p), al, SymAddress(Cx(env), s), m, fuel)
         == Next(m.(ds := Push(SymAt(env, s).value, m.ds)))
  {
    hide Run, Chain, SlotAddress, SlotAt;
    match s
    case Global(a, _) =>
      DoPlace(Code(p), al, a, m);
      RunWord(Code(p), al, Place(a), m, fuel);
    case Local(slot, _) => RunSlotAddress(p, al, env, st, slot, m, fuel);
  }

  lemma {:induction false} SimIndex(p: Program, al: Allocator, env: Env, st: St, e: Expr, m: Mach, fuel: nat)
    requires Ready(p, env, st, m) && OkL(p, env.fn, e) && e.Index?
    ensures SimulatedL(p, al, env, st, e, m, fuel)
    decreases fuel, e, 0
  {
    hide Run, Chain, Eval, OkL, EmitR, Address, EmitL, Displace, Scale, Wrap, LibMul;
    IndexCase(p, al, env, st, e, fuel);
    var d, a, i := Code(p), e.arr, e.idx;
    var size := SizeOf(Pointee(TypeOf(a)));
    var ea, ei := EmitR(Cx(env), a), EmitR(Cx(env), i);
    SimR(p, al, env, st, a, Exact, m, fuel);
    RunSeq(d, al, ea, IndexTail(env, i, size), m, fuel);
    var x := Eval(p, al, env, st, a, fuel);
    if x.Val? {
      var m1 := Run(d, al, ea, m, fuel).m;
      if IsIntExpr(i) {
        FoldIsValue(p, al, env, x.st, i, fuel);
        DisplaceBoth(d, al, FoldValue(i), size, x.v, m.ds, m1, fuel);
      } else {
        SimR(p, al, env, x.st, i, Exact, m1, fuel);
        ScaleBoth(env, d, al, size, x.v, Eval(p, al, env, x.st, i, fuel), TypeOf(i), m.ds, ei, m1, fuel);
      }
    }
  }

  function IndexTail(env: Env, i: Expr, size: nat): Frag {
    if IsIntExpr(i) then Displace(LibMul(FoldValue(i), Wrap(size)))
    else Cat(Cat(EmitR(Cx(env), i), Scale(size)), W(Op(PAdd)))
  }

  lemma IndexCase(p: Program, al: Allocator, env: Env, st: St, e: Expr, fuel: nat)
    requires OkL(p, env.fn, e) && e.Index?
    ensures var size := SizeOf(Pointee(TypeOf(e.arr)));
      Ok(p, env.fn, e.arr, Exact) && !TypeOf(e.arr).Void? && size < HALF
      && (if IsIntExpr(e.idx) then FoldOk(e.idx) else Ok(p, env.fn, e.idx, Exact) && !TypeOf(e.idx).Void?)
      && EmitL(Cx(env), e) == Cat(EmitR(Cx(env), e.arr), IndexTail(env, e.idx, size))
      && Address(p, al, env, st, e, fuel)
         == (var x := Eval(p, al, env, st, e.arr, fuel);
             if !x.Val? then x
             else var y := Eval(p, al, env, x.st, e.idx, fuel);
               if y.Val? then Val(Wrap(x.v + y.v * size), y.st) else y)
  {
    hide Eval, EmitR, Scale, Displace, Wrap, FoldOk, Ok;
    ExactHasValue(p, env.fn, e.arr);
    if !IsIntExpr(e.idx) {
      ExactHasValue(p, env.fn, e.idx);
    }
  }

  lemma DisplaceBoth(d: Dict, al: Allocator, i: Cell, size: nat, x: Cell, s: Stack, m: Mach, fuel: nat)
    requires m.ds == Push(x, s) && size < HALF
    ensures Run(d, al, Displace(LibMul(i, Wrap(size))), m, fuel) == Next(m.(ds := Push(Wrap(x + i * size), s)))
  {
    hide Run, Displace, Wrap, LibMul;
    LibMulScales(i, size);
    RunDisplace(d, al, LibMul(i, Wrap(size)), m, fuel);
    WrapAdd(x, i * size);
  }

  lemma ScaleBoth(env: Env, d: Dict, al: Allocator, size: nat, x: Cell, y: Res<Cell>, t: Type, s: Stack,
                  fr: Frag, m: Mach, fuel: nat)
    requires m.ds == Push(x, s) && !t.Void?
    requires AgreesR(env, t, Exact, y, m, Run(d, al, fr, m, fuel))
    ensures AgreesR(env, Int, Exact, if y.Val? then Val(Wrap(x + y.v * size), y.st) else y, m.(ds := s),
                    Run(d, al, Cat(Cat(fr, Scale(size)), W(Op(PAdd))), m, fuel))
  {
    hide Run, Scale, Wrap, Perform, Chain;
    RunSeq(d, al, fr, Scale(size), m, fuel);
    RunSeq(d, al, Cat(fr, Scale(size)), W(Op(PAdd)), m, fuel);
    if y.Val? {
      var m2 := Run(d, al, fr, m, fuel).m;
      var m3 := m2.(ds := Push(Wrap(y.v * size), m.ds));
      RunScale(d, al, size, m2, fuel);
      DoBinop(d, al, PAdd, x, Wrap(y.v * size), s, m3);
      RunWord(d, al, Op(PAdd), m3, fuel);
      WrapAdd(x, y.v * size);
    }
  }

  // ----- calls -----

  /** Arguments on a stack, the last one on top. */
  function PushAll(s: Stack, vs: seq<Cell>): Stack {
    if |vs| == 0 then s else Push(vs[|vs| - 1], PushAll(s, vs[..|vs| - 1]))
  }

  lemma {:induction false} PushAllCons(s: Stack, v: Cell, vs: seq<Cell>)
    ensures PushAll(Push(v, s), vs) == PushAll(s, [v] + vs)
  {
    var all := [v] + vs;
    if |vs| == 0 {
      assert all[..0] == [];
    } else {
      assert all[..|all| - 1] == [v] + vs[..|vs| - 1];
      PushAllCons(s, v, vs[..|vs| - 1]);
    }
  }

  ghost predicate AgreesArgs(env: Env, r: Res<seq<Cell>>, m: Mach, out: Out) {
    (r.Val? ==> out.Next? && out.m.frame == m.frame && Matches(out.m, r.st, env)
                && out.m.ds == PushAll(m.ds, r.v))
    && (r.Starve? ==> out == Starved)
  }

  lemma {:induction false} SimArgs(p: Program, al: Allocator, env: Env, st: St, args: Exprs, m: Mach, fuel: nat)
    requires Ready(p, env, st, m) && OkArgs(p, env.fn, args)
    ensures AgreesArgs(env, EvalArgs(p, al, env, st, args, fuel), m,
                       Run(Code(p), al, EmitArgs(Cx(env), args), m, fuel))
    ensures EvalArgs(p, al, env, st, args, fuel).Val?
        ==> |EvalArgs(p, al, env, st, args, fuel).v| == Count(args)
    decreases fuel, args, 0
  {
    if args.ECons? {
      hide Run, Chain, Eval, Ok, EmitR;
      var d, x, rest := Code(p), args.head, args.tail;
      ExactHasValue(p, env.fn, x);
      SimR(p, al, env, st, x, Exact, m, fuel);
      RunSeq(d, al, EmitR(Cx(env), x), EmitArgs(Cx(env), rest), m, fuel);
      var r := Eval(p, al, env, st, x, fuel);
      if r.Val? {
        SimArgs(p, al, env, r.st, rest, Run(d, al, EmitR(Cx(env), x), m, fuel).m, fuel);
        var rs := EvalArgs(p, al, env, r.st, rest, fuel);
        if rs.Val? {
          PushAllCons(m.ds, r.v, rs.v);
        }
      }
    }
  }

  /** The frame offsets the words compute are the ones the reference uses. */
  lemma SizeWord(p: Program, al: Allocator, f: FuncId, m: Mach)
    requires OkProgram(p) && f in p
    ensures FrameBytes(p[f]) < HALF
    ensures Perform(Code(p), al, FrameSize(f), m) == Some(m.(ds := Push(FrameBytes(p[f]), m.ds)))
  {
    hide Offset, Sizes, ExecPrim;
    FieldSizes(p, f);
  }

  lemma DoAlloc(d: Dict, al: Allocator, n: nat, s: Stack, m: Mach)
    requires n < HALF && m.ds == Push(n, s) && al(m.heap, n) != 0
    ensures Perform(d, al, Op(PAlloc), m) == Some(m.(ds := Push(al(m.heap, n), s), heap := m.heap[al(m.heap, n) := n]))
  {
    assert Bits(n) == n;
    hide Wrap;
  }

  /** `dup $frame swap`, with the block's address on the stack. */
  lemma RunLink(d: Dict, al: Allocator, a: Cell, s: Stack, m: Mach, fuel: nat)
    requires m.ds == Push(a, s)
    ensures Run(d, al, W(Op(PDup)), m, fuel) == Next(m.(ds := Push(a, m.ds)))
    ensures Run(d, al, Words2(Frame, Op(PSwap)), m.(ds := Push(a, m.ds)), fuel)
         == Next(m.(ds := Push(a, Push(m.frame, Push(a, s)))))
  {
    hide Run, ExecPrim;
    RunDup(d, al, m, fuel);
    var m1 := m.(ds := Push(a, m.ds));
    RunFirst(d, al, Frame, W(Op(PSwap)), m1, fuel);
    var m2 := m.(ds := Push(m.frame, m1.ds));
    DoShuffle(d, al, m.frame, m1.ds, m2);
    RunWord(d, al, Op(PSwap), m2, fuel);
  }

  /** `l! to $frame`. */
  lemma RunSetFrame(d: Dict, al: Allocator, a: Cell, v: Cell, s: Stack, m: Mach, fuel: nat)
    requires m.ds == Push(a, Push(v, Push(a, s)))
    ensures Run(d, al, Words2(Op(PLStore), ToFrame), m, fuel)
         == Next(m.(ds := s, mem := Store32(m.mem, a, v), frame := a))
  {
    hide Run, ExecPrim, Store32;
    DoStore(d, al, a, v, Push(a, s), m);
    RunFirst(d, al, Op(PLStore), W(ToFrame), m, fuel);
    RunWord(d, al, ToFrame, m.(ds := Push(a, s), mem := Store32(m.mem, a, v)), fuel);
  }

  lemma DoStore(d: Dict, al: Allocator, a: Cell, v: Cell, s: Stack, m: Mach)
    requires m.ds == Push(a, Push(v, s))
    ensures Perform(d, al, Op(PLStore), m) == Some(m.(ds := s, mem := Store32(m.mem, a, v)))
  {
    hide Store32;
  }

  lemma DoFree(d: Dict, al: Allocator, n: Cell, a: Cell, s: Stack, m: Mach)
    requires m.ds == Push(n, Push(a, s))
    ensures Perform(d, al, Op(PFree), m) == Some(m.(ds := s, heap := m.heap - {a}))
  {
    hide Store32;
  }

  lemma RunPushFrameWords(p: Program, al: Allocator, f: FuncId, m: Mach, fuel: nat)
    requires OkProgram(p) && f in p && HasFrame(p[f]) && al(m.heap, FrameBytes(p[f])) != 0
    ensures var n := FrameBytes(p[f]);
      var a := al(m.heap, n);
      Run(Code(p), al, PushFrame(Ctx(f, p[f])), m, fuel)
      == Next(m.(mem := Store32(m.mem, a, m.frame), heap := m.heap[a := n], frame := a))
  {
    hide Run, Perform, FrameBytes, Store32;
    var d, n := Code(p), FrameBytes(p[f]);
    var a := al(m.heap, n);
    SizeWord(p, al, f, m);
    RunFirst(d, al, FrameSize(f), Words2(Op(PAlloc), Op(PDup)), m, fuel);
    var m1 := m.(ds := Push(n, m.ds));
    DoAlloc(d, al, n, m.ds, m1);
    RunFirst(d, al, Op(PAlloc), W(Op(PDup)), m1, fuel);
    var m2 := m.(ds := Push(a, m.ds), heap := m.heap[a := n]);
    RunLink(d, al, a, m.ds, m2, fuel);
    RunSetFrame(d, al, a, m.frame, m.ds, m2.(ds := Push(a, Push(m.frame, m2.ds))), fuel);
    var start := Words3(FrameSize(f), Op(PAlloc), Op(PDup));
    RunThen(d, al, start, Words2(Frame, Op(PSwap)), m, fuel);
    RunThen(d, al, Cat(start, Words2(Frame, Op(PSwap))), Words2(Op(PLStore), ToFrame), m, fuel);
  }

  lemma ChainTop(mem: Mem, frame: Cell, frames: seq<Cell>)
    requires Chain(mem, frame, frames)
    ensures frame == TopFrame(frames)
  {
  }

  /** A new frame that misses the old links, linked in front of them. */
  lemma ChainPush(mem: Mem, frame: Cell, frames: seq<Cell>, a: Cell)
    requires Chain(mem, frame, frames) && Misses(frames, a, 4)
    ensures frame == TopFrame(frames) && Chain(Store32(mem, a, frame), a, [a] + frames)
  {
    hide Store32, Fetch32, Misses;
    FetchStored(mem, a, frame);
    StoresStayInRange(mem, a, frame);
    ChainKept(mem, Store32(mem, a, frame), a, 4, frame, frames);
    assert ([a] + frames)[1..] == frames;
  }

  /** The prologue makes the reference's activation record: `$frame` moves to the
      new frame, which links to the old one. */
  lemma RunPushFrame(p: Program, al: Allocator, f: FuncId, frames: seq<Cell>, acts: Acts, st: St, m: Mach, fuel: nat)
    requires OkProgram(p) && f in p && m.mem == st.mem && m.heap == st.heap && Chain(m.mem, m.frame, frames)
    requires Enter(al, frames, acts, f, p[f], st).Val?
    ensures var r := Enter(al, frames, acts, f, p[f], st);
      var out := Run(Code(p), al, PushFrame(Ctx(f, p[f])), m, fuel);
      out.Next? && out.m.ds == m.ds && Matches(out.m, r.st, r.v) && r.v.id == f && r.v.fn == p[f]
  {
    if HasFrame(p[f]) {
      hide Run, FrameBytes, Store32, Misses, PushFrame, Chain, OkProgram;
      RunPushFrameWords(p, al, f, m, fuel);
      ChainPush(m.mem, m.frame, frames, al(m.heap, FrameBytes(p[f])));
    } else {
      hide Perform, Chain;
    }
  }

  /** Parameters: argument i moves into slot i. */
  lemma {:induction false} RunSaveParams(p: Program, al: Allocator, env: Env, st: St, vs: seq<Cell>, n: nat,
                                         s: Stack, m: Mach, fuel: nat)
    requires Known(p, env) && n <= |vs| && n <= |env.fn.vars| && n <= env.fn.nparams
    requires Matches(m, st, env) && m.ds == PushAll(s, vs[..n])
    requires Bind(env, st, vs, n).Val?
    ensures var out := Run(Code(p), al, SaveParams(Cx(env), n), m, fuel);
      out.Next? && out.m.ds == s && out.m.frame == m.frame && Matches(out.m, Bind(env, st, vs, n).st, env)
    decreases n
  {
    hide Chain, Perform, SlotAddress, Store, Set, Misses;
    if n > 0 {
      hide Run;
      var d, t, v := Code(p), env.fn.vars[n - 1], vs[n - 1];
      var a := SlotAt(env, n - 1).value;
      var s1 := PushAll(s, vs[..n - 1]);
      assert vs[..n][..n - 1] == vs[..n - 1];
      RunSlotAddress(p, al, env, st, n - 1, m, fuel);
      RunThen(d, al, SlotAddress(Cx(env), n - 1), Set(t), m, fuel);
      RunSet(d, al, t, m.(ds := Push(a, Push(v, s1))), fuel);
      WriteKeepsChain(env, st, t, a, v, m.frame);
      var w := Write(env, st, t, a, v);
      RunThen(d, al, Cat(SlotAddress(Cx(env), n - 1), Set(t)), SaveParams(Cx(env), n - 1), m, fuel);
      RunSaveParams(p, al, env, w.st, vs, n - 1, s, m.(ds := s1, mem := w.st.mem), fuel);
    }
  }

  /** The active frames once the running call has returned. */
  function Outer(env: Env): seq<Cell> {
    if HasFrame(env.fn) && env.frames != [] then env.frames[1..] else env.frames
  }

  /** The epilogue unlinks the frame and frees it. */
  lemma RunPopFrame(p: Program, al: Allocator, env: Env, st: St, m: Mach, fuel: nat)
    requires Ready(p, env, st, m)
    ensures var out := Run(Code(p), al, PopFrame(Cx(env)), m, fuel);
      out.Next? && out.m.ds == m.ds && out.m.mem == st.mem && out.m.heap == Leave(env, st).heap
      && Chain(out.m.mem, out.m.frame, Outer(env))
  {
    if HasFrame(env.fn) {
      var link := Fetch32(m.mem, m.frame);
      RunPopFrameWords(p, al, env.id, m, fuel);
      hide Run, PopFrame, Fetch32;
    } else {
      hide Perform, Chain;
    }
  }

  lemma RunPopFrameWords(p: Program, al: Allocator, f: FuncId, m: Mach, fuel: nat)
    requires OkProgram(p) && f in p && HasFrame(p[f])
    ensures Run(Code(p), al, PopFrame(Ctx(f, p[f])), m, fuel)
         == Next(m.(heap := m.heap - {m.frame}, frame := Fetch32(m.mem, m.frame)))
  {
    hide Run, FrameBytes, Fetch32;
    var d, a, link := Code(p), m.frame, Fetch32(m.mem, m.frame);
    RunFirst(d, al, Frame, Words2(Op(PDup), Op(PLFetch)), m, fuel);
    var m1 := m.(ds := Push(a, m.ds));
    RunUnlink(d, al, a, m.ds, m1, fuel);
    var start := Words3(Frame, Op(PDup), Op(PLFetch));
    RunThen(d, al, start, W(ToFrame), m, fuel);
    RunThen(d, al, Cat(start, W(ToFrame)), Words2(FrameSize(f), Op(PFree)), m, fuel);
    var m4 := m.(ds := Push(a, m.ds), frame := link);
    SizeWord(p, al, f, m4);
    RunFree(p, al, f, a, m.ds, m4, fuel);
  }

  lemma RunUnlink(d: Dict, al: Allocator, a: Cell, s: Stack, m: Mach, fuel: nat)
    requires m.ds == Push(a, s)
    ensures var m2 := m.(ds := Push(Fetch32(m.mem, a), Push(a, s)));
      Run(d, al, Words2(Op(PDup), Op(PLFetch)), m, fuel) == Next(m2)
      && Run(d, al, W(ToFrame), m2, fuel) == Next(m.(ds := Push(a, s), frame := Fetch32(m.mem, a)))
  {
    hide Run, Fetch32;
    DoShuffle(d, al, a, s, m);
    RunFirst(d, al, Op(PDup), W(Op(PLFetch)), m, fuel);
    DoUnop(d, al, PLFetch, m.(ds := Push(a, m.ds)));
    RunWord(d, al, Op(PLFetch), m.(ds := Push(a, m.ds)), fuel);
    RunWord(d, al, ToFrame, m.(ds := Push(Fetch32(m.mem, a), Push(a, s))), fuel);
  }

  lemma RunFree(p: Program, al: Allocator, f: FuncId, a: Cell, s: Stack, m: Mach, fuel: nat)
    requires OkProgram(p) && f in p && m.ds == Push(a, s)
    ensures Run(Code(p), al, Words2(FrameSize(f), Op(PFree)), m, fuel)
         == Next(m.(ds := s, heap := m.heap - {a}))
  {
    hide Run, FrameBytes, Perform;
    var d := Code(p);
    SizeWord(p, al, f, m);
    RunFirst(d, al, FrameSize(f), W(Op(PFree)), m, fuel);
    DoFree(d, al, FrameBytes(p[f]), a, s, m.(ds := Push(FrameBytes(p[f]), m.ds)));
    RunWord(d, al, Op(PFree), m.(ds := Push(FrameBytes(p[f]), m.ds)), fuel);
  }

  // ----- statements -----

  /** A statement leaves the data stack as it was; leaving the function, the
      frame is gone, `$frame` is the caller's, and the result is on the stack. */
  ghost predicate AgreesS(env: Env, r: Res<Flow>, m: Mach, out: Out) {
    (r.Val? && r.v.Fell? ==>
       out.Next? && out.m.ds == m.ds && out.m.frame == m.frame && Matches(out.m, r.st, env))
    && (r.Val? && r.v.Returned? ==> out.Left? && HasReturned(env, r, m, out.m))
    && (r.Starve? ==> out == Starved)
  }

  ghost predicate HasReturned(env: Env, r: Res<Flow>, m: Mach, m': Mach)
    requires r.Val? && r.v.Returned?
  {
    m'.mem == r.st.mem && m'.heap == Leave(env, r.st).heap && Chain(m'.mem, m'.frame, Outer(env))
    && (r.v.val.Some? <==> !env.fn.ret.Void?)
    && (env.fn.ret.UChar? ==> 0 <= r.v.val.value < 256)
    && m'.ds == (if r.v.val.Some? then Push(r.v.val.value, m.ds) else m.ds)
  }

  ghost predicate SimulatedS(p: Program, al: Allocator, env: Env, st: St, s: Stmt, m: Mach, fuel: nat)
    requires Known(p, env)
  {
    AgreesS(env, Exec(p, al, env, st, s, fuel), m, Run(Code(p), al, EmitS(Cx(env), s), m, fuel))
  }

  lemma {:induction false} SimS(p: Program, al: Allocator, env: Env, st: St, s: Stmt, m: Mach, fuel: nat)
    requires Ready(p, env, st, m) && OkS(p, env.fn, s)
    ensures SimulatedS(p, al, env, st, s, m, fuel)
    decreases fuel, s, 4
  {
    hide Run, Chain, Eval;
    match s
    case Null => RunSkip(Code(p), al, m, fuel);
    case ExprS(e) => SimEffectS(p, al, env, st, e, m, fuel);
    case Compound(inits, body) =>
      SimInits(p, al, env, st, inits, m, fuel);
      var d, ei, eb := Code(p), EmitInits(Cx(env), inits), EmitBody(Cx(env), body);
      RunSeq(d, al, ei, eb, m, fuel);
      var r := Init(p, al, env, st, inits, fuel);
      if r.Val? {
        SimBody(p, al, env, r.st, body, Run(d, al, ei, m, fuel).m, fuel);
      }
    case If(_, _, _) => SimIf(p, al, env, st, s, m, fuel);
    case While(_, _) => SimWhile(p, al, env, st, s, m, fuel);
    case DoWhile(_, _) => SimDoWhile(p, al, env, st, s, m, fuel);
    case For(_, _, _, _) => SimFor(p, al, env, st, s, m, fuel);
    case Return(_) => SimReturn(p, al, env, st, s, m, fuel);
  }

  lemma {:induction false} SimEffectS(p: Program, al: Allocator, env: Env, st: St, e: Expr, m: Mach, fuel: nat)
    requires Ready(p, env, st, m) && Ok(p, env.fn, e, Any)
    ensures AgreesS(env, Effect(p, al, env, st, e, fuel), m, Run(Code(p), al, EmitEffect(Cx(env), e), m, fuel))
    decreases fuel, e, 5
  {
    hide Run, Chain, Eval, Ok, EmitEffect;
    SimEffect(p, al, env, st, e, m, fuel);
  }

  lemma {:induction false} SimEffectOpt(p: Program, al: Allocator, env: Env, st: St, e: Option<Expr>, m: Mach, fuel: nat)
    requires Ready(p, env, st, m) && (e.Some? ==> Ok(p, env.fn, e.value, Any))
    ensures AgreesS(env, EffectOpt(p, al, env, st, e, fuel), m, Run(Code(p), al, EmitOpt(Cx(env), e), m, fuel))
    ensures EffectOpt(p, al, env, st, e, fuel).Val? ==> EffectOpt(p, al, env, st, e, fuel).v.Fell?
    decreases fuel, e, 6
  {
    hide Chain, Eval, Ok, EmitEffect, Perform;
    if e.Some? {
      SimEffectS(p, al, env, st, e.value, m, fuel);
    }
  }

  lemma {:induction false} SimInits(p: Program, al: Allocator, env: Env, st: St, inits: Inits, m: Mach, fuel: nat)
    requires Ready(p, env, st, m) && OkInits(p, env.fn, inits)
    ensures AgreesS(env, Init(p, al, env, st, inits, fuel), m, Run(Code(p), al, EmitInits(Cx(env), inits), m, fuel))
    ensures Init(p, al, env, st, inits, fuel).Val? ==> Init(p, al, env, st, inits, fuel).v.Fell?
    decreases fuel, inits, 0
  {
    match inits
    case INil => hide Chain, Perform;
    case ICons(slot, t, init, rest) =>
      hide Run, Chain, Eval, Ok, EmitR, SlotAddress, SlotAt, Misses;
      var d, e := Code(p), EmitR(Cx(env), init);
      var set_ := Cat(SlotAddress(Cx(env), slot), Set(t));
      ExactHasValue(p, env.fn, init);
      SimR(p, al, env, st, init, Exact, m, fuel);
      RunSeq(d, al, Cat(e, set_), EmitInits(Cx(env), rest), m, fuel);
      RunSeq(d, al, e, set_, m, fuel);
      var r := Eval(p, al, env, st, init, fuel);
      if r.Val? && SlotAt(env, slot).Some? {
        var m1 := Run(d, al, e, m, fuel).m;
        var w := Write(env, r.st, t, SlotAt(env, slot).value, Convert(t, r.v));
        SetSlot(p, al, env, r.st, slot, t, r.v, m.ds, m1, fuel);
        if w.Val? {
          SimInits(p, al, env, w.st, rest, Run(d, al, set_, m1, fuel).m, fuel);
        }
      }
  }

  /** Store the top of the stack in a slot. */
  lemma SetSlot(p: Program, al: Allocator, env: Env, st: St, slot: nat, t: Type, v: Cell, s: Stack, m: Mach, fuel: nat)
    requires Ready(p, env, st, m) && m.ds == Push(v, s) && SlotAt(env, slot).Some?
    ensures var w := Write(env, st, t, SlotAt(env, slot).value, Convert(t, v));
      var out := Run(Code(p), al, Cat(SlotAddress(Cx(env), slot), Set(t)), m, fuel);
      w.Val? ==> out.Next? && out.m.ds == s && out.m.frame == m.frame && Matches(out.m, w.st, env)
  {
    hide Run, Chain, SlotAddress, SlotAt, Set, Store, Misses;
    var d, a := Code(p), SlotAt(env, slot).value;
    RunSlotAddress(p, al, env, st, slot, m, fuel);
    RunThen(d, al, SlotAddress(Cx(env), slot), Set(t), m, fuel);
    RunSet(d, al, t, m.(ds := Push(a, m.ds)), fuel);
    StoreConverts(st.mem, t, a, v);
    if Write(env, st, t, a, Convert(t, v)).Val? {
      WriteKeepsChain(env, st, t, a, Convert(t, v), m.frame);
    }
  }

  lemma {:induction false} SimBody(p: Program, al: Allocator, env: Env, st: St, ss: Stmts, m: Mach, fuel: nat)
    requires Ready(p, env, st, m) && OkBody(p, env.fn, ss)
    ensures AgreesS(env, ExecBody(p, al, env, st, ss, fuel), m, Run(Code(p), al, EmitBody(Cx(env), ss), m, fuel))
    decreases fuel, ss, 0
  {
    match ss
    case SNil => hide Chain, Perform;
    case SCons(s, rest) =>
      hide Run, Chain, Exec, OkS, EmitS;
      var d := Code(p);
      SimS(p, al, env, st, s, m, fuel);
      RunSeq(d, al, EmitS(Cx(env), s), EmitBody(Cx(env), rest), m, fuel);
      var r := Exec(p, al, env, st, s, fuel);
      if r.Val? && r.v.Fell? {
        SimBody(p, al, env, r.st, rest, Run(d, al, EmitS(Cx(env), s), m, fuel).m, fuel);
      }
  }

  lemma {:induction false} SimIf(p: Program, al: Allocator, env: Env, st: St, s: Stmt, m: Mach, fuel: nat)
    requires Ready(p, env, st, m) && OkS(p, env.fn, s) && s.If?
    ensures SimulatedS(p, al, env, st, s, m, fuel)
    decreases fuel, s, 3
  {
    hide Run, Chain, Eval, Ok, EmitR;
    var d, c := Code(p), s.c;
    var ec, et, ee := EmitR(Cx(env), c), EmitS(Cx(env), s.then_), EmitS(Cx(env), s.else_);
    SimR(p, al, env, st, c, Mode.Truth, m, fuel);
    TruthHasValue(p, env.fn, c);
    RunSeq(d, al, ec, if s.else_.Null? then IfThen(et) else IfElse(et, ee), m, fuel);
    var x := Eval(p, al, env, st, c, fuel);
    if x.Val? {
      var m1 := Run(d, al, ec, m, fuel).m;
      RunIfThen(d, al, et, m1, fuel);
      RunIfElse(d, al, et, ee, m1, fuel);
      SimS(p, al, env, x.st, if x.v != 0 then s.then_ else s.else_, m1.(ds := m.ds), fuel);
    }
  }

  lemma TruthHasValue(p: Program, fn: Func, e: Expr)
    requires Ok(p, fn, e, Mode.Truth)
    ensures !TypeOf(e).Void?
  {
  }

  lemma {:induction false} SimWhile(p: Program, al: Allocator, env: Env, st: St, s: Stmt, m: Mach, fuel: nat)
    requires Ready(p, env, st, m) && OkS(p, env.fn, s) && s.While?
    ensures SimulatedS(p, al, env, st, s, m, fuel)
    decreases fuel, s, 3
  {
    hide Run, Chain, Eval, Ok, EmitR;
    var d, c, b := Code(p), s.c, s.s;
    SimR(p, al, env, st, c, Mode.Truth, m, fuel);
    TruthHasValue(p, env.fn, c);
    RunLoop(d, al, EmitR(Cx(env), c), EmitS(Cx(env), b), m, fuel);
    var x := Eval(p, al, env, st, c, fuel);
    if x.Val? && x.v != 0 {
      var m1 := Run(d, al, EmitR(Cx(env), c), m, fuel).m.(ds := m.ds);
      SimS(p, al, env, x.st, b, m1, fuel);
      var r := Exec(p, al, env, x.st, b, fuel);
      if r.Val? && r.v.Fell? && fuel > 0 {
        SimWhile(p, al, env, r.st, s, Run(d, al, EmitS(Cx(env), b), m1, fuel).m, fuel - 1);
      }
    }
  }

  lemma {:induction false} SimDoWhile(p: Program, al: Allocator, env: Env, st: St, s: Stmt, m: Mach, fuel: nat)
    requires Ready(p, env, st, m) && OkS(p, env.fn, s) && s.DoWhile?
    ensures SimulatedS(p, al, env, st, s, m, fuel)
    decreases fuel, s, 3
  {
    hide Run, Chain, Eval, Ok, EmitR;
    var d, b, c := Code(p), s.s, s.c;
    var eb, ec := EmitS(Cx(env), b), EmitR(Cx(env), c);
    SimS(p, al, env, st, b, m, fuel);
    RunLoop(d, al, Cat(eb, ec), Skip, m, fuel);
    RunSeq(d, al, eb, ec, m, fuel);
    var r := Exec(p, al, env, st, b, fuel);
    if r.Val? && r.v.Fell? {
      var m1 := Run(d, al, eb, m, fuel).m;
      SimR(p, al, env, r.st, c, Mode.Truth, m1, fuel);
      TruthHasValue(p, env.fn, c);
      var x := Eval(p, al, env, r.st, c, fuel);
      if x.Val? && x.v != 0 {
        var m2 := Run(d, al, ec, m1, fuel).m.(ds := m.ds);
        RunSkip(d, al, m2, fuel);
        if fuel > 0 {
          SimDoWhile(p, al, env, x.st, s, m2, fuel - 1);
        }
      }
    }
  }

  lemma {:induction false} SimFor(p: Program, al: Allocator, env: Env, st: St, s: Stmt, m: Mach, fuel: nat)
    requires Ready(p, env, st, m) && OkS(p, env.fn, s) && s.For?
    ensures SimulatedS(p, al, env, st, s, m, fuel)
    decreases fuel, s, 3
  {
    hide Run, Chain, Eval, Ok, EmitR, ForLoop, EmitOpt, EffectOpt;
    var d, e1 := Code(p), EmitOpt(Cx(env), s.e1);
    SimEffectOpt(p, al, env, st, s.e1, m, fuel);
    RunSeq(d, al, e1, ForFrag(env, s), m, fuel);
    var r := EffectOpt(p, al, env, st, s.e1, fuel);
    if r.Val? {
      SimForLoop(p, al, env, r.st, s, Run(d, al, e1, m, fuel).m, fuel);
    }
  }

  /** The loop of a `for` statement that has a condition. */
  function ForFrag(env: Env, s: Stmt): Frag
    requires s.For? && s.e2.Some?
  {
    Loop(EmitR(Cx(env), s.e2.value), Cat(EmitS(Cx(env), s.s), EmitOpt(Cx(env), s.e3)))
  }

  lemma {:induction false} SimForLoop(p: Program, al: Allocator, env: Env, st: St, s: Stmt, m: Mach, fuel: nat)
    requires Ready(p, env, st, m) && s.For? && OkS(p, env.fn, s)
    ensures AgreesS(env, ForLoop(p, al, env, st, s, fuel), m, Run(Code(p), al, ForFrag(env, s), m, fuel))
    decreases fuel, s, 2
  {
    hide Run, Chain, Eval, Ok, EmitR, EmitOpt, EffectOpt, Exec, EmitS;
    var d, c, b := Code(p), s.e2.value, s.s;
    var ec, eb, e3 := EmitR(Cx(env), c), EmitS(Cx(env), b), EmitOpt(Cx(env), s.e3);
    SimR(p, al, env, st, c, Mode.Truth, m, fuel);
    TruthHasValue(p, env.fn, c);
    RunLoop(d, al, ec, Cat(eb, e3), m, fuel);
    var x := Eval(p, al, env, st, c, fuel);
    if x.Val? && x.v != 0 {
      var m1 := Run(d, al, ec, m, fuel).m.(ds := m.ds);
      SimS(p, al, env, x.st, b, m1, fuel);
      RunSeq(d, al, eb, e3, m1, fuel);
      var r := Exec(p, al, env, x.st, b, fuel);
      if r.Val? && r.v.Fell? {
        var m2 := Run(d, al, eb, m1, fuel).m;
        SimEffectOpt(p, al, env, r.st, s.e3, m2, fuel);
        var r3 := EffectOpt(p, al, env, r.st, s.e3, fuel);
        if r3.Val? && fuel > 0 {
          SimForLoop(p, al, env, r3.st, s, Run(d, al, e3, m2, fuel).m, fuel - 1);
        }
      }
    }
  }

  lemma {:induction false} SimReturn(p: Program, al: Allocator, env: Env, st: St, s: Stmt, m: Mach, fuel: nat)
    requires Ready(p, env, st, m) && OkS(p, env.fn, s) && s.Return?
    ensures SimulatedS(p, al, env, st, s, m, fuel)
    decreases fuel, s, 3
  {
    hide Run, Chain, Eval, Ok, EmitR, PopFrame, Leave;
    var d, v := Code(p), s.val;
    var ev := if v.Some? then EmitR(Cx(env), v.value) else Skip;
    RunSeq(d, al, Cat(ev, PopFrame(Cx(env))), W(Exit), m, fuel);
    RunSeq(d, al, ev, PopFrame(Cx(env)), m, fuel);
    if v.None? {
      RunSkip(d, al, m, fuel);
      RunPopFrame(p, al, env, st, m, fuel);
      RunExit(d, al, Run(d, al, PopFrame(Cx(env)), m, fuel).m, fuel);
    } else {
      SimR(p, al, env, st, v.value, Exact, m, fuel);
      var x := Eval(p, al, env, st, v.value, fuel);
      if x.Val? {
        var m1 := Run(d, al, ev, m, fuel).m;
        RunPopFrame(p, al, env, x.st, m1, fuel);
        RunExit(d, al, Run(d, al, PopFrame(Cx(env)), m1, fuel).m, fuel);
      }
    }
  }

  // ----- calls -----

  /** What a call does once its arguments are on the stack. */
  function Enters(p: Program, al: Allocator, frames: seq<Cell>, acts: Acts, f: FuncId, vs: Res<seq<Cell>>, fuel: nat)
    : Res<Cell>
    requires vs.Val? && f in p && fuel > 0
  {
    if |vs.v| != p[f].nparams || p[f].nparams > |p[f].vars| then Undefined
    else
      var enter := Enter(al, frames, acts, f, p[f], vs.st);
      if !enter.Val? then Undefined
      else
        var bound := Bind(enter.v, enter.st, vs.v, p[f].nparams);
        if !bound.Val? then Undefined
        else Yield(p[f].ret, enter.v, Exec(p, al, enter.v, bound.st, p[f].body, fuel - 1))
  }

  /** The value of a call whose body has run. */
  function Yield(ret: Type, env: Env, r: Res<Flow>): Res<Cell> {
    if r.Starve? then Starve
    else if r.Undefined? then Undefined
    else if ret.Void? then Val(0, Leave(env, r.st))
    else if r.v.Returned? && r.v.val.Some? then Val(r.v.val.value, Leave(env, r.st))
    else Undefined
  }

  lemma {:induction false} SimCall(p: Program, al: Allocator, env: Env, st: St, e: Expr, mode: Mode, m: Mach, fuel: nat)
    requires Ready(p, env, st, m) && Ok(p, env.fn, e, mode)
    requires e.Call?
    ensures SimulatedR(p, al, env, st, e, mode, m, fuel)
    decreases fuel, e, 2
  {
    hide Run, Chain, Eval, Ok, EmitR, EvalArgs, EmitArgs, Enters, OkArgs, OkProgram, Misses;
    CallCase(p, al, env, st, e, mode, fuel);
    var d, f := Code(p), e.f;
    SimArgs(p, al, env, st, e.args, m, fuel);
    RunSeq(d, al, EmitArgs(Cx(env), e.args), W(Do(f)), m, fuel);
    var vs := EvalArgs(p, al, env, st, e.args, fuel);
    if vs.Val? {
      var m1 := Run(d, al, EmitArgs(Cx(env), e.args), m, fuel).m;
      RunDo(d, al, f, m1, fuel);
      if fuel > 0 {
        SimEnter(p, al, env.frames, env.acts, f, vs, m.ds, m1, fuel - 1);
        var out, r := Run(d, al, d[f].frag, m1, fuel - 1), Enters(p, al, env.frames, env.acts, f, vs, fuel);
        if !r.Undefined? {
          SameFrame(env, e.ret, r, vs.st, m.ds, m1, out);
          hide AgreesR;
          Weaken(env, e.ret, mode, r, m1.(ds := m.ds), m, if out.Left? then Next(out.m) else out);
        }
      }
    }
  }

  /** An exact answer is good in any mode. */
  lemma Weaken(env: Env, t: Type, mode: Mode, r: Res<Cell>, m: Mach, m': Mach, out: Out)
    requires AgreesR(env, t, Exact, r, m, out) && m'.ds == m.ds && m'.frame == m.frame
    ensures AgreesR(env, t, mode, r, m', out)
  {
    hide Matches;
  }

  lemma CallCase(p: Program, al: Allocator, env: Env, st: St, e: Expr, mode: Mode, fuel: nat)
    requires Ok(p, env.fn, e, mode) && e.Call?
    ensures e.f in p && e.ret == p[e.f].ret && OkArgs(p, env.fn, e.args) && TypeOf(e) == e.ret
    ensures Eval(p, al, env, st, e, fuel)
         == (var vs := EvalArgs(p, al, env, st, e.args, fuel);
             if vs.Starve? then Starve
             else if vs.Undefined? then Undefined
             else if fuel == 0 then Starve
             else Enters(p, al, env.frames, env.acts, e.f, vs, fuel))
    ensures EmitR(Cx(env), e) == Cat(EmitArgs(Cx(env), e.args), W(Do(e.f)))
  {
    hide EvalArgs, Exec, EmitArgs, Enter, Bind, Leave;
  }

  /** A whole call: prologue, body, epilogue. `$frame` comes back as found. */
  lemma {:induction false} SimEnter(p: Program, al: Allocator, frames: seq<Cell>, acts: Acts, f: FuncId,
                                    vs: Res<seq<Cell>>, s: Stack, m: Mach, fuel: nat)
    requires OkProgram(p) && f in p && vs.Val?
    requires m.mem == vs.st.mem && m.heap == vs.st.heap && Chain(m.mem, m.frame, frames) && m.ds == PushAll(s, vs.v)
    ensures var r := Enters(p, al, frames, acts, f, vs, fuel + 1);
      var out := Run(Code(p), al, Code(p)[f].frag, m, fuel);
      (r.Starve? ==> out == Starved) && (r.Val? ==> Completed(frames, p[f].ret, r, s, out))
    decreases fuel
  {
    hide Run, Chain, Exec, OkS, EmitS, PushFrame, SaveParams, Leave, Completed;
    var r := Enters(p, al, frames, acts, f, vs, fuel + 1);
    if !r.Undefined? {
      var d, cx := Code(p), Ctx(f, p[f]);
      var enter := Enter(al, frames, acts, f, p[f], vs.st);
      var bound := Bind(enter.v, enter.st, vs.v, p[f].nparams);
      RunPushFrame(p, al, f, frames, acts, vs.st, m, fuel);
      var m1 := Run(d, al, PushFrame(cx), m, fuel).m;
      assert vs.v[..p[f].nparams] == vs.v;
      RunSaveParams(p, al, enter.v, enter.st, vs.v, p[f].nparams, s, m1, fuel);
      var m2 := Run(d, al, SaveParams(cx, p[f].nparams), m1, fuel).m;
      SimS(p, al, enter.v, bound.st, p[f].body, m2, fuel);
      var body := Exec(p, al, enter.v, bound.st, p[f].body, fuel);
      EnterFrames(al, frames, acts, f, p[f], vs.st);
      FuncFrag(p, f);
      var tail := if p[f].ret.Void? then PopFrame(cx) else Skip;
      RunSeq(d, al, Cat(PushFrame(cx), SaveParams(cx, p[f].nparams)), Cat(EmitS(cx, p[f].body), tail), m, fuel);
      RunSeq(d, al, PushFrame(cx), SaveParams(cx, p[f].nparams), m, fuel);
      RunSeq(d, al, EmitS(cx, p[f].body), tail, m2, fuel);
      FinishCall(p, al, frames, enter.v, body, m2, fuel);
    }
  }

  /** A complete call has put `$frame` back. */
  lemma SameFrame(env: Env, ret: Type, r: Res<Cell>, st: St, s: Stack, m: Mach, out: Out)
    requires Matches(m, st, env) && (r.Starve? || Completed(env.frames, ret, r, s, out))
    requires r.Starve? ==> out == Starved
    ensures AgreesR(env, ret, Exact, r, m.(ds := s), if out.Left? then Next(out.m) else out)
  {
    if r.Val? {
      ChainTop(m.mem, m.frame, env.frames);
      ChainTop(out.m.mem, out.m.frame, env.frames);
    }
    hide Chain;
  }

  lemma EnterFrames(al: Allocator, frames: seq<Cell>, acts: Acts, f: FuncId, fn: Func, st: St)
    requires Enter(al, frames, acts, f, fn, st).Val?
    ensures var r := Enter(al, frames, acts, f, fn, st);
      r.v.id == f && r.v.fn == fn && Outer(r.v) == frames
  {
    hide FrameBytes, Misses, Store32;
  }

  lemma FuncFrag(p: Program, f: FuncId)
    requires OkProgram(p) && f in p
    ensures var cx := Ctx(f, p[f]);
      Code(p)[f].frag == Cat(Cat(PushFrame(cx), SaveParams(cx, p[f].nparams)),
                             Cat(EmitS(cx, p[f].body), if p[f].ret.Void? then PopFrame(cx) else Skip))
  {
    hide PushFrame, SaveParams, EmitS, PopFrame, CheckReturn;
    EpilogueOnlyIfVoid(p[f]);
  }

  /** The machine after a complete call that yields y. */
  ghost predicate Completed(frames: seq<Cell>, ret: Type, y: Res<Cell>, s: Stack, out: Out) {
    y.Val? && (out.Left? || out.Next?) && out.m.mem == y.st.mem && out.m.heap == y.st.heap
    && Chain(out.m.mem, out.m.frame, frames)
    && out.m.ds == (if ret.Void? then s else Push(y.v, s))
    && (ret.UChar? ==> 0 <= y.v < 256)
  }

  /** After the body: the epilogue of a void function that falls off its end. */
  lemma FinishCall(p: Program, al: Allocator, frames: seq<Cell>, inner: Env, r: Res<Flow>, m: Mach, fuel: nat)
    requires Known(p, inner) && Outer(inner) == frames
    requires AgreesS(inner, r, m, Run(Code(p), al, EmitS(Cx(inner), inner.fn.body), m, fuel))
    requires !Yield(inner.fn.ret, inner, r).Undefined?
    ensures var d := Code(p);
      var tail := if inner.fn.ret.Void? then PopFrame(Cx(inner)) else Skip;
      var b := Run(d, al, EmitS(Cx(inner), inner.fn.body), m, fuel);
      var out := if b.Next? then Run(d, al, tail, b.m, fuel) else b;
      var y := Yield(inner.fn.ret, inner, r);
      if y.Starve? then out == Starved else Completed(frames, inner.fn.ret, y, m.ds, out)
  {
    hide Run, Chain, PopFrame, Leave, EmitS;
    if r.Val? && r.v.Fell? && inner.fn.ret.Void? {
      RunPopFrame(p, al, inner, r.st, Run(Code(p), al, EmitS(Cx(inner), inner.fn.body), m, fuel).m, fuel);
      LeaveKeepsMemory(inner, r.st);
    }
    if r.Val? {
      LeaveKeepsMemory(inner, r.st);
    }
  }

  lemma LeaveKeepsMemory(env: Env, st: St)
    ensures Leave(env, st).mem == st.mem
  {
  }
}
