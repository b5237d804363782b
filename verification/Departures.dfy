/** Where the generator departs from C, and exactly on which operands it still
    gives the C result. Module Supported leaves these constructs out. */
module Departures {
  import opened Cells
  import opened Memory
  import opened CTree
  import opened ConstFold
  import opened Forth
  import opened Emit
  import opened CSemantics
  import opened Supported
  import opened WordLemmas
  import opened Simulation

  // ----- %= -----

  /** The operands for which adding is as good as taking the remainder. */
  predicate RemainderIsSum(x: Cell, y: Cell) {
    (0 < y && 0 - y <= x < 0) || (y < 0 && 0 < x <= 0 - y) || (x == y == -HALF)
  }

  /** x mod y is x less a multiple of y; it is x + y when the quotient is -1. */
  lemma SumOrRemainder(x: Cell, y: Cell)
    requires y != 0
    ensures Wrap(x + y) == Wrap(FloorMod(x, y)) <==> RemainderIsSum(x, y)
  {
    var q := FloorDiv(x, y);
    QuotientBounds(x, y);
    var step := y * (q + 1);
    assert x + y - FloorMod(x, y) == step by {
      assert y * (q + 1) == y * q + y;
    }
    WrapEqual(x + y, FloorMod(x, y));
    if step % MODULUS == 0 {
      assert step == 0 || step == -MODULUS by {
        assert -MODULUS <= step < MODULUS;
      }
      if step == 0 {
        ZeroProduct(y, q + 1);
      }
    }
  }

  lemma ZeroProduct(a: int, b: int)
    requires a * b == 0
    ensures a == 0 || b == 0
  {
  }

  /** The multiple of the divisor just past x, and when it is zero. */
  lemma QuotientBounds(x: Cell, y: Cell)
    requires y != 0
    ensures var step := y * (FloorDiv(x, y) + 1);
      (y > 0 ==> x < step <= x + y) && (y < 0 ==> x + y <= step < x)
      && (FloorDiv(x, y) == -1 <==> (0 < y && 0 - y <= x < 0) || (y < 0 && 0 < x <= 0 - y))
  {
    var q := FloorDiv(x, y);
    if y > 0 {
      assert x == y * q + x % y;
      assert y * (q + 1) == y * q + y;
    } else {
      var z := 0 - y;
      assert 0 - x == z * q + (0 - x) % z;
      assert y * (q + 1) == 0 - (z * q) - z;
    }
  }

  lemma WrapEqual(a: int, b: int)
    ensures Wrap(a) == Wrap(b) <==> (a - b) % MODULUS == 0
  {
  }

  /** `x %= y` stores x + y. */
  lemma ModAssignAdds(d: Dict, al: Allocator, x: Cell, y: Cell, s: Stack, m: Mach, fuel: nat)
    requires m.ds == Push(y, Push(x, s)) && y != 0
    ensures var out := Run(d, al, AssignTail(Mod, Int), m, fuel);
      out == Next(m.(ds := Push(Wrap(x + y), s)))
      && (out.m.ds.top == Arith(Mod, x, y).value <==> RemainderIsSum(x, y))
  {
    hide Run, Perform, Wrap, FloorMod;
    DoBinop(d, al, PAdd, x, y, s, m);
    RunWord(d, al, Op(PAdd), m, fuel);
    SumOrRemainder(x, y);
  }

  // ----- && and || -----

  /** The value `&&` and `||` leave. */
  function Operand(conj: bool, x: Cell, y: Cell): Cell {
    if (x != 0) == conj then y else x
  }

  /** `&&` and `||` leave the operand that decided; it is the 0 or 1 of C exactly
      when that operand is itself 0 or 1. */
  lemma LogicLeavesOperand(p: Program, al: Allocator, env: Env, st: St, e: Expr, m: Mach, fuel: nat)
    requires Ready(p, env, st, m) && e.Logic? && !IsIntExpr(e)
    requires Ok(p, env.fn, e.l, Exact) && Ok(p, env.fn, e.r, Exact)
    requires Eval(p, al, env, st, e, fuel).Val?
    ensures var x := Eval(p, al, env, st, e.l, fuel);
      var out := Run(Code(p), al, EmitR(Cx(env), e), m, fuel);
      x.Val? && out.Next? && out.m.ds.Push? && out.m.ds.below == m.ds
      && (if (x.v != 0) == e.conj then
            var y := Eval(p, al, env, x.st, e.r, fuel);
            y.Val? && out.m.ds.top == y.v
            && (out.m.ds.top == Eval(p, al, env, st, e, fuel).v <==> y.v == 0 || y.v == 1)
          else
            out.m.ds.top == x.v
            && (out.m.ds.top == Eval(p, al, env, st, e, fuel).v <==> x.v == 0 || x.v == 1))
  {
    hide Run, Chain, Eval, Ok, EmitR, OkProgram;
    LogicEval(p, al, env, st, e, fuel);
    ExactHasValue(p, env.fn, e.l);
    ExactHasValue(p, env.fn, e.r);
    var d, l, r, conj := Code(p), e.l, e.r, e.conj;
    var el, er := EmitR(Cx(env), l), EmitR(Cx(env), r);
    var test := Words2(Op(PDup), Op(if conj then PZeroNe else PZeroEq));
    SimR(p, al, env, st, l, Exact, m, fuel);
    RunSeq(d, al, el, test, m, fuel);
    RunSeq(d, al, Cat(el, test), IfThen(Cat(W(Op(PDrop)), er)), m, fuel);
    var x := Eval(p, al, env, st, l, fuel);
    var m1 := Run(d, al, el, m, fuel).m;
    RunDupTest(d, al, conj, m1, fuel);
    RunIfDrop(d, al, er, (m1.ds.top != 0) == conj, m1, fuel);
    if (x.v != 0) == conj {
      SimR(p, al, env, x.st, r, Exact, m1.(ds := m.ds), fuel);
    }
  }

  lemma LogicEval(p: Program, al: Allocator, env: Env, st: St, e: Expr, fuel: nat)
    requires e.Logic? && !IsIntExpr(e)
    ensures var l, r := e.l, e.r;
      Eval(p, al, env, st, e, fuel)
         == (var x := Eval(p, al, env, st, l, fuel);
             if !x.Val? then x
             else if (x.v != 0) != e.conj then Val(Flag(!e.conj), x.st)
             else var y := Eval(p, al, env, x.st, r, fuel);
               if y.Val? then Val(Flag(y.v != 0), y.st) else y)
      && EmitR(Cx(env), e)
         == Cat(Cat(EmitR(Cx(env), l), Words2(Op(PDup), Op(if e.conj then PZeroNe else PZeroEq))),
                IfThen(Cat(W(Op(PDrop)), EmitR(Cx(env), r))))
  {
    hide Address;
  }

  // ----- pointer subtraction of single units -----

  function Depth(s: Stack): nat {
    if s.Bot? then 0 else 1 + Depth(s.below)
  }

  /** Subtracting from a pointer to single units emits no operator: the stack is
      one cell too deep, whatever the operands. With any other size below 2^31
      the subtraction takes both operands away. */
  lemma UnitMinusLeavesBoth(d: Dict, al: Allocator, lt: Type, rt: Type, x: Cell, y: Cell, s: Stack, m: Mach, fuel: nat)
    requires m.ds == Push(y, Push(x, s)) && Pointing(lt) && 0 < SizeOf(Pointee(lt)) < HALF
    ensures var out := Run(d, al, BinaryTail(Sub, lt, rt), m, fuel);
      out.Next? && Depth(out.m.ds) == Depth(s) + (if SizeOf(Pointee(lt)) == 1 then 2 else 1)
  {
    if SizeOf(Pointee(lt)) == 1 {
      RunSkip(d, al, m, fuel);
    } else {
      hide Run, BinaryTail;
      RunBinaryTail(d, al, Sub, lt, rt, x, y, s, m, fuel);
    }
  }

  // ----- a void call cast to void -----

  /** Casting a void expression to void drops a cell it never pushed: the
      caller's top cell is gone. */
  lemma VoidCastDropsTwice(d: Dict, al: Allocator, x: Cell, s: Stack, m: Mach, fuel: nat)
    requires m.ds == Push(x, s)
    ensures Run(d, al, CastTail(Void, Void), m, fuel) == Next(m.(ds := s))
  {
    RunCastTail(d, al, Void, Void, m, fuel);
  }

  // ----- ++ and -- on unsigned char -----

  /** Prefix `++` and `--` on an unsigned char leave the sum before it is cut to
      a byte, though the byte is what they store. */
  lemma BytePrefixBump(d: Dict, al: Allocator, inc: bool, a: Cell, s: Stack, m: Mach, fuel: nat)
    requires m.ds == Push(a, s)
    ensures var was, out := Load(m.mem, UChar, a), Run(d, al, Emit.Bump(inc, true, UChar), m, fuel);
      out.Next? && out.m.ds.Push? && out.m.ds.below == s
      && Load(out.m.mem, UChar, a) == Convert(UChar, Bumped(inc, UChar, was))
      && (out.m.ds.top == Load(out.m.mem, UChar, a) <==> was != (if inc then 255 else 0))
  {
    hide Run, Emit.Bump;
    RunBump(d, al, inc, true, UChar, a, s, m, fuel);
  }

  // ----- op= on unsigned char -----

  /** `op=` on an unsigned char stores the result cut to a byte but leaves it
      uncut; what it leaves is the value of the assignment exactly when the
      result fits a byte. */
  lemma ByteOpAssign(d: Dict, al: Allocator, op: BinOp, x: Cell, y: Cell, a: Cell, s: Stack, m: Mach, fuel: nat)
    requires m.ds == Push(y, Push(x, Push(a, s))) && op != Mod && Arith(op, x, y).Some?
    ensures var z := Arith(op, x, y).value;
      var out := Run(d, al, Cat(AssignTail(op, UChar), KeepAndSet(UChar)), m, fuel);
      out == Next(m.(ds := Push(z, s), mem := Store(m.mem, UChar, a, z)))
      && Load(out.m.mem, UChar, a) == Convert(UChar, z)
      && (out.m.ds.top == Convert(UChar, z) <==> 0 <= z < 256)
  {
    hide Run, AssignTail, KeepAndSet, Arith;
    var z := Arith(op, x, y).value;
    RunAssignTail(d, al, op, UChar, Int, x, y, Push(a, s), m, fuel);
    RunThen(d, al, AssignTail(op, UChar), KeepAndSet(UChar), m, fuel);
    RunKeepAndSet(d, al, UChar, z, a, s, m.(ds := Push(z, Push(a, s))), fuel);
  }

  // ----- arithmetic on an array, as an address -----

  /** `a + i` on an array, where its address is asked for: the index is scaled by
      the size of the whole array. The address left is the C one exactly when the
      surplus scaling makes a whole number of turns of the address space. */
  lemma ArrayStepsByWhole(p: Program, al: Allocator, env: Env, st: St, e: Expr, m: Mach, fuel: nat)
    requires Ready(p, env, st, m) && e.Binary? && e.op == Add && TypeOf(e.l).Arr? && TypeOf(e.r) == Int
    requires Ok(p, env.fn, e.l, Exact) && Ok(p, env.fn, e.r, Exact)
    requires var x := Eval(p, al, env, st, e.l, fuel); x.Val? && Eval(p, al, env, x.st, e.r, fuel).Val?
    ensures var x := Eval(p, al, env, st, e.l, fuel);
      var y := Eval(p, al, env, x.st, e.r, fuel);
      var all, one := SizeOf(TypeOf(e.l)), SizeOf(Pointee(TypeOf(e.l)));
      var out := Run(Code(p), al, EmitL(Cx(env), e), m, fuel);
      && out.Next? && Matches(out.m, y.st, env) && out.m.ds == Push(Wrap(x.v + y.v * all), m.ds)
      && (out.m.ds.top == Operate(Add, TypeOf(e.l), Int, x.v, y.v).value <==> (y.v * (all - one)) % MODULUS == 0)
  {
    hide Run, Chain, Eval, Ok, EmitR, OkProgram, Scale, SizeOf, Operate, Wrap;
    var d, el, er := Code(p), EmitR(Cx(env), e.l), EmitR(Cx(env), e.r);
    var all, one := SizeOf(TypeOf(e.l)), SizeOf(Pointee(TypeOf(e.l)));
    var tail := Cat(Scale(all), W(Op(PAdd)));
    assert EmitL(Cx(env), e) == Cat(Cat(el, er), tail);
    SimR(p, al, env, st, e.l, Exact, m, fuel);
    RunSeq(d, al, el, er, m, fuel);
    RunSeq(d, al, Cat(el, er), tail, m, fuel);
    var x := Eval(p, al, env, st, e.l, fuel);
    var m1 := Run(d, al, el, m, fuel).m;
    SimR(p, al, env, x.st, e.r, Exact, m1, fuel);
    var y := Eval(p, al, env, x.st, e.r, fuel);
    var m2 := Run(d, al, er, m1, fuel).m;
    RunScaleInto(d, al, all, true, x.v, y.v, m.ds, m2, fuel);
    StepIsC(TypeOf(e.l), x.v, y.v);
  }

  lemma StepIsC(t: Type, x: Cell, y: Cell)
    requires t.Arr?
    ensures Operate(Add, t, Int, x, y).Some?
    ensures Wrap(x + y * SizeOf(t)) == Operate(Add, t, Int, x, y).value
       <==> (y * (SizeOf(t) - SizeOf(Pointee(t)))) % MODULUS == 0
  {
    hide SizeOf, Wrap;
    SurplusTurns(x, y, SizeOf(t), SizeOf(Pointee(t)));
  }

  lemma SurplusTurns(x: int, y: int, all: int, one: int)
    ensures Wrap(x + y * all) == Wrap(x + y * one) <==> (y * (all - one)) % MODULUS == 0
  {
    hide Wrap;
    WrapEqual(x + y * all, x + y * one);
    assert (x + y * all) - (x + y * one) == y * (all - one);
  }

  /** `a - i` there: the index is taken off as it is, and the difference divided by
      the size of the whole array. */
  lemma ArrayMinusDivides(d: Dict, al: Allocator, cx: Ctx, e: Expr, x: Cell, y: Cell, s: Stack, m: Mach, fuel: nat)
    requires m.ds == Push(y, Push(x, s)) && e.Binary? && e.op == Sub && 0 < SizeOf(TypeOf(e.l)) < HALF
    ensures var tail := EmitL(cx, e).b;
      EmitL(cx, e) == Cat(Cat(EmitR(cx, e.l), EmitR(cx, e.r)), tail) &&
      Run(d, al, tail, m, fuel) == Next(m.(ds := Push(Wrap(FloorDiv(Wrap(x - y), SizeOf(TypeOf(e.l)))), s)))
  {
    hide Run, EmitR, SizeOf;
    RunPointerDiff(d, al, SizeOf(TypeOf(e.l)), x, y, s, m, fuel);
  }
}
