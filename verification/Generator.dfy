/** The generator as it runs: a walk over the tree that appends words to the
    output, and the constant evaluator that overwrites its result in place. What
    they produce is what module Emit says. */
module Generator {
  import opened Options
  import opened Cells
  import opened CTree
  import opened ConstFold
  import opened Forth
  import opened Emit

  // ----- the constant evaluator -----

  /** The result of a constant evaluation, updated in place. */
  class ConstExpr {
    var ival: Cell
    var state: Folded     // Known, or why `ival` means nothing

    ghost function Value(): Folded
      reads this
    {
      if state.Known? then Known(ival) else state
    }

    constructor ()
      ensures Value() == Known(0)
    {
      ival := 0;
      state := Known(0);
    }

    method Be(f: Folded)
      modifies this
      ensures Value() == f
    {
      state := f;
      if f.Known? {
        ival := f.v;
      }
    }
  }

  /** Evaluates the first operand into the result, the second into a temporary,
      and applies the operator to the result. */
  method EvalConstExpr(e: Expr, ret: ConstExpr)
    modifies ret
    ensures ret.Value() == Fold(e)
    decreases e
  {
    match e {
      case IntLit(v) => ret.Be(Known(v));
      case Unary(op, x) =>
        EvalConstExpr(x, ret);
        if ret.state.Known? {
          ret.ival := UnaryOp(op, ret.ival);
        }
      case Binary(op, l, r) =>
        var val2 := new ConstExpr();
        EvalConstExpr(l, ret);
        EvalConstExpr(r, val2);
        if ret.state.Known? && val2.state.Known? {
          ret.Be(FoldBinary(op, TypeOf(l), ret.ival, val2.ival));
        } else {
          ret.Be(Worse(ret.state, val2.state));
        }
      case Logic(conj, l, r) =>
        var val2 := new ConstExpr();
        EvalConstExpr(l, ret);
        EvalConstExpr(r, val2);
        if ret.state.Known? && val2.state.Known? {
          var i := if conj then 0 else 1;
          if conj && ret.ival != 0 && val2.ival != 0 {
            i := 1;
          } else if !conj && ret.ival == 0 && val2.ival == 0 {
            i := 0;
          }
          ret.ival := i;
        } else {
          ret.Be(Worse(ret.state, val2.state));
        }
      case Cond(c, a, _) =>
        var arg := new ConstExpr();
        EvalConstExpr(c, arg);
        if !arg.state.Known? {
          ret.Be(arg.state);
        } else {
          EvalConstExpr(if arg.ival == 0 then a else c, ret);
        }
      case Cast(t, x) =>
        EvalConstExpr(x, ret);
        if ret.state.Known? && t.UChar? {
          var low := ret.ival % 256;
          ret.ival := if low < 128 then low else low - 256;
        }
      case _ => ret.Be(Stopped);
    }
  }

  // ----- appending -----

  /** The output after a fragment has been appended. */
  function Say(out: seq<Token>, fr: Frag): seq<Token> {
    out + Flat(fr)
  }

  lemma SayWord(out: seq<Token>, w: Word)
    ensures Say(out, W(w)) == out + [T(w)]
  {
  }

  lemma SaySkip(out: seq<Token>)
    ensures Say(out, Skip) == out
  {
  }

  lemma SayCat(out: seq<Token>, a: Frag, b: Frag)
    ensures Say(out, Cat(a, b)) == Say(Say(out, a), b)
  {
    assert out + (Flat(a) + Flat(b)) == out + Flat(a) + Flat(b);
  }

  lemma SayIfThen(out: seq<Token>, t: Frag)
    ensures Say(out, IfThen(t)) == Say(out + [TIf], t) + [TThen]
  {
    assert out + ([TIf] + Flat(t) + [TThen]) == out + [TIf] + Flat(t) + [TThen];
  }

  lemma SayIfElse(out: seq<Token>, t: Frag, e: Frag)
    ensures Say(out, IfElse(t, e)) == Say(Say(out + [TIf], t) + [TElse], e) + [TThen]
  {
    assert out + ([TIf] + Flat(t) + [TElse] + Flat(e) + [TThen]) == out + [TIf] + Flat(t) + [TElse] + Flat(e) + [TThen];
  }

  lemma SayLoop(out: seq<Token>, test: Frag, body: Frag)
    ensures Say(out, Loop(test, body)) == Say(Say(out + [TBegin], test) + [TWhile], body) + [TRepeat]
  {
    assert out + ([TBegin] + Flat(test) + [TWhile] + Flat(body) + [TRepeat])
        == out + [TBegin] + Flat(test) + [TWhile] + Flat(body) + [TRepeat];
  }

  lemma SayEndless(out: seq<Token>, body: Frag)
    ensures Say(out, Endless(body)) == Say(out + [TBegin], body) + [TRepeat]
  {
    assert out + ([TBegin] + Flat(body) + [TRepeat]) == out + [TBegin] + Flat(body) + [TRepeat];
  }

  lemma SayWords(out: seq<Token>, a: Word, b: Word, c: Word)
    ensures Say(out, Words2(a, b)) == out + [T(a)] + [T(b)]
    ensures Say(out, Words3(a, b, c)) == out + [T(a)] + [T(b)] + [T(c)]
  {
    hide Say;
    SayWord(out, a);
    SayWord(out + [T(a)], b);
    SayWord(out + [T(a)] + [T(b)], c);
    SayCat(out, W(a), W(b));
    SayCat(out + [T(a)], W(b), W(c));
    SayCat(out, W(a), Words2(b, c));
  }

  // ----- the generator -----

  /** The generator at work on one function. */
  class Generator {
    var out: seq<Token>
    const cx: Ctx

    constructor (cx: Ctx)
      ensures this.cx == cx && out == []
    {
      this.cx := cx;
      out := [];
    }

    method P(w: Word)
      modifies this
      ensures out == Say(old(out), W(w)) == old(out) + [T(w)]
    {
      out := out + [T(w)];
    }

    method Control(t: Token)
      modifies this
      ensures out == old(out) + [t]
    {
      out := out + [t];
    }

    method DoGet(t: Type)
      modifies this
      ensures out == Say(old(out), Get(t))
    {
      if t.UChar? {
        P(Op(PCFetch));
      } else {
        P(Op(PLFetch));
      }
    }

    method DoSet(t: Type)
      modifies this
      ensures out == Say(old(out), Set(t))
    {
      if t.UChar? {
        P(Op(PCStore));
      } else {
        P(Op(PLStore));
      }
    }

    /** `size *`, unless the size is one. */
    method DoScale(size: nat)
      modifies this
      ensures out == Say(old(out), Scale(size))
    {
      SayWords(out, Lit(Wrap(size)), Op(PMul), Exit);
      SaySkip(out);
      if size != 1 {
        P(Lit(Wrap(size)));
        P(Op(PMul));
      }
    }

    method MkSlot(slot: nat)
      modifies this
      ensures out == Say(old(out), SlotAddress(cx, slot))
    {
      SayWords(out, Frame, Field(cx.id, slot), Exit);
      SaySkip(out);
      if cx.fn.recursive {
        P(Frame);
        P(Field(cx.id, slot));
      } else if slot < |cx.fn.statics| {
        P(Place(cx.fn.statics[slot]));
      }
    }

    /** A constant subtree: its value. */
    method MkInit(e: Expr)
      modifies this
      ensures out == Say(old(out), W(Lit(FoldValue(e))))
    {
      var ret := new ConstExpr();
      EvalConstExpr(e, ret);
      P(Lit(if ret.state.Known? then ret.ival else 0));
    }
  
    /** `++` or `--` on the lvalue whose address is on the stack. */
    method DoBump(inc: bool, prefix: bool, t: Type)
      modifies this
      ensures out == Say(old(out), Emit.Bump(inc, prefix, t))
    {
      hide Say;
      ghost var o := out;
      P(Op(PDup));
      DoGet(t);
      ghost var fetched := out;
      SayCat(o, W(Op(PDup)), Get(t));
      if !prefix {
        P(Op(PTuck));
      }
      ghost var kept := out;
      var step := Lit(if t.Ptr? then Wrap(SizeOf(t.to)) else 1);
      P(step);
      P(Op(if inc then PAdd else PSub));
      SayWords(kept, step, Op(if inc then PAdd else PSub), Exit);
      ghost var change := Words2(step, Op(if inc then PAdd else PSub));
      if prefix {
        P(Op(PTuck));
      }
      SayCat(fetched, change, W(Op(PTuck)));
      SayCat(fetched, W(Op(PTuck)), change);
      ghost var changed := out;
      P(Op(PSwap));
      DoSet(t);
      SayCat(changed, W(Op(PSwap)), Set(t));
      ghost var middle := if prefix then Cat(change, W(Op(PTuck))) else Cat(W(Op(PTuck)), change);
      SayCat(fetched, middle, Cat(W(Op(PSwap)), Set(t)));
      SayCat(o, Cat(W(Op(PDup)), Get(t)), Cat(middle, Cat(W(Op(PSwap)), Set(t))));
    }

    method DoCompare(p: Prim)
      modifies this
      ensures out == Say(old(out), Compare(p))
    {
      SayWords(out, Op(p), Lit(1), Op(PAnd));
      P(Op(p));
      P(Lit(1));
      P(Op(PAnd));
    }

    /** The word of an operator between integers. */
    method DoArith(op: BinOp)
      modifies this
      ensures out == Say(old(out), ArithTail(op))
    {
      match op {
        case Mul => P(Op(PMul));
        case Div => P(Op(PDiv));
        case Mod => P(Op(PMod));
        case Add => P(Op(PAdd));
        case Sub => P(Op(PSub));
        case Shl => P(Op(PLshift));
        case Shr => P(Op(PRshiftA));
        case Lt => DoCompare(PLt);
        case Gt => DoCompare(PGt);
        case Le => DoCompare(PLe);
        case Ge => DoCompare(PGe);
        case Eq => DoCompare(PEq);
        case Ne => DoCompare(PNe);
        case Band => P(Op(PAnd));
        case Bxor => P(Op(PXor));
        case Bor => P(Op(POr));
      }
    }

    /** The words of a binary operator after both operands. */
    method DoBinary(op: BinOp, lt: Type, rt: Type)
      modifies this
      ensures out == Say(old(out), BinaryTail(op, lt, rt))
    {
      hide Say;
      ghost var o := out;
      var size := SizeOf(Pointee(lt));
      if op == Add && Pointing(lt) {
        DoScale(size);
        P(Op(PAdd));
        SayCat(o, Scale(size), W(Op(PAdd)));
      } else if op == Sub && Pointing(lt) {
        SaySkip(o);
        if size != 1 {
          if Pointing(rt) {
            SayWords(o, Op(PSub), Lit(Wrap(size)), Op(PDiv));
            P(Op(PSub));
            P(Lit(Wrap(size)));
            P(Op(PDiv));
          } else {
            SayWords(o, Lit(Wrap(size)), Op(PMul), Op(PSub));
            P(Lit(Wrap(size)));
            P(Op(PMul));
            P(Op(PSub));
          }
        }
      } else {
        DoArith(op);
      }
    }

    /** The words of `op=` after the right operand. */
    method DoAssignOp(op: BinOp, lt: Type)
      modifies this
      ensures out == Say(old(out), AssignTail(op, lt))
    {
      hide Say;
      ghost var o := out;
      if op == Mod {
        P(Op(PAdd));
      } else if (op == Add || op == Sub) && Pointing(lt) {
        DoScale(SizeOf(Pointee(lt)));
        P(Op(if op == Add then PAdd else PSub));
        SayCat(o, Scale(SizeOf(Pointee(lt))), W(Op(if op == Add then PAdd else PSub)));
      } else {
        DoArith(op);
      }
    }

    method DoKeepAndSet(t: Type)
      modifies this
      ensures out == Say(old(out), KeepAndSet(t))
    {
      hide Say;
      ghost var o := out;
      SayWords(o, Op(PTuck), Op(PSwap), Exit);
      P(Op(PTuck));
      P(Op(PSwap));
      DoSet(t);
      SayCat(o, Words2(Op(PTuck), Op(PSwap)), Set(t));
    }

    method DoUnary(op: UnOp)
      modifies this
      ensures out == Say(old(out), UnaryTail(op))
    {
      hide Say;
      ghost var o := out;
      match op {
        case Plus => SaySkip(o);
        case Neg => P(Op(PNegate));
        case Compl => P(Op(PInvert));
        case Not =>
          SayWords(o, Op(PZeroNe), Op(PInvert), Exit);
          P(Op(PZeroNe));
          P(Op(PInvert));
          SayWords(out, Lit(1), Op(PAnd), Exit);
          SayCat(o, Words2(Op(PZeroNe), Op(PInvert)), Words2(Lit(1), Op(PAnd)));
          P(Lit(1));
          P(Op(PAnd));
      }
    }

    method DoDiscard(t: Type)
      modifies this
      ensures out == Say(old(out), Discard(t))
    {
      SaySkip(out);
      if !t.Void? {
        P(Op(PDrop));
      }
    }

    method DoCast(to: Type, from: Type)
      modifies this
      ensures out == Say(old(out), CastTail(to, from))
    {
      SaySkip(out);
      SayWords(out, Lit(255), Op(PAnd), Exit);
      if to.Void? {
        P(Op(PDrop));
      } else if to.UChar? != from.UChar? {
        P(Lit(255));
        P(Op(PAnd));
      }
    }

    /** The value of an expression. */
    method MkTree(e: Expr)
      modifies this
      ensures out == Say(old(out), EmitR(cx, e))
      decreases e, 4
    {
      hide Say, ArithTail, BinaryTail, AssignTail, UnaryTail, CastTail, Scale, Emit.Bump, KeepAndSet, IsIntExpr;
      ghost var o := out;
      match e {
        case IntLit(v) => P(Lit(v));
        case Var(_) => MkFetch(e);
        case Index(_, _) => MkFetch(e);
        case Unary(op, x) =>
          if IsIntExpr(e) {
            MkInit(e);
          } else {
            MkTree(x);
            DoUnary(op);
            SayCat(o, EmitR(cx, x), UnaryTail(op));
          }
        case Deref(x) =>
          if x.AddrOf? {
            MkTree(x.lval);
          } else {
            MkFetchDeref(e);
          }
        case AddrOf(x) =>
          if x.Deref? {
            MkTree(x.ptr);
          } else {
            MkLval(x);
          }
        case IncDec(inc, prefix, x) =>
          MkLval(x);
          DoBump(inc, prefix, TypeOf(x));
          SayCat(o, EmitL(cx, x), Emit.Bump(inc, prefix, TypeOf(x)));
        case Binary(op, l, r) =>
          if IsIntExpr(e) {
            MkInit(e);
          } else {
            MkTree(l);
            MkTree(r);
            SayCat(o, EmitR(cx, l), EmitR(cx, r));
            DoBinary(op, TypeOf(l), TypeOf(r));
            SayCat(o, Cat(EmitR(cx, l), EmitR(cx, r)), BinaryTail(op, TypeOf(l), TypeOf(r)));
          }
        case Logic(_, _, _) => MkLogic(e);
        case Comma(l, r) =>
          if IsIntExpr(e) {
            MkInit(e);
          } else {
            MkTree(l);
            DoDiscard(TypeOf(l));
            SayCat(o, EmitR(cx, l), Discard(TypeOf(l)));
            MkTree(r);
            SayCat(o, Cat(EmitR(cx, l), Discard(TypeOf(l))), EmitR(cx, r));
          }
        case Assign(_, _) => MkAssign(e);
        case OpAssign(_, _, _) => MkOpAssign(e);
        case Cond(_, _, _) => MkCond(e);
        case Cast(_, _) => MkCast(e);
        case Call(_, _, _) => MkCall(e);
      }
    }

    method MkFetch(e: Expr)
      requires e.Var? || e.Index?
      modifies this
      ensures out == Say(old(out), EmitR(cx, e))
      decreases e, 3
    {
      hide Say;
      ghost var o := out;
      MkLval(e);
      if !TypeOf(e).Arr? {
        DoGet(TypeOf(e));
        SayCat(o, EmitL(cx, e), Get(TypeOf(e)));
      }
    }

    method MkFetchDeref(e: Expr)
      requires e.Deref? && !e.ptr.AddrOf?
      modifies this
      ensures out == Say(old(out), EmitR(cx, e))
      decreases e, 3
    {
      hide Say;
      ghost var o := out;
      MkLval(e);
      DoGet(TypeOf(e));
      SayCat(o, EmitL(cx, e), Get(TypeOf(e)));
    }

    method MkLogic(e: Expr)
      requires e.Logic?
      modifies this
      ensures out == Say(old(out), EmitR(cx, e))
      decreases e, 3
    {
      hide Say, IsIntExpr;
      ghost var o := out;
      if IsIntExpr(e) {
        MkInit(e);
      } else {
        var test := Op(if e.conj then PZeroNe else PZeroEq);
        MkTree(e.l);
        SayWords(out, Op(PDup), test, Exit);
        P(Op(PDup));
        P(test);
        SayCat(o, EmitR(cx, e.l), Words2(Op(PDup), test));
        ghost var tested := out;
        Control(TIf);
        P(Op(PDrop));
        MkTree(e.r);
        SayCat(tested + [TIf], W(Op(PDrop)), EmitR(cx, e.r));
        Control(TThen);
        SayIfThen(tested, Cat(W(Op(PDrop)), EmitR(cx, e.r)));
        SayCat(o, Cat(EmitR(cx, e.l), Words2(Op(PDup), test)), IfThen(Cat(W(Op(PDrop)), EmitR(cx, e.r))));
      }
    }

    method MkAssign(e: Expr)
      requires e.Assign?
      modifies this
      ensures out == Say(old(out), EmitR(cx, e))
      decreases e, 3
    {
      hide Say;
      ghost var o := out;
      var t := TypeOf(e.l);
      MkTree(e.r);
      P(Op(PDup));
      SayCat(o, EmitR(cx, e.r), W(Op(PDup)));
      ghost var kept := out;
      MkLval(e.l);
      DoSet(t);
      SayCat(kept, EmitL(cx, e.l), Set(t));
      SayCat(o, Cat(EmitR(cx, e.r), W(Op(PDup))), Cat(EmitL(cx, e.l), Set(t)));
    }

    method MkOpAssign(e: Expr)
      requires e.OpAssign?
      modifies this
      ensures out == Say(old(out), EmitR(cx, e))
      decreases e, 3
    {
      hide Say, AssignTail, KeepAndSet;
      ghost var o := out;
      var t := TypeOf(e.l);
      MkLval(e.l);
      ghost var addressed := out;
      P(Op(PDup));
      DoGet(t);
      SayCat(addressed, W(Op(PDup)), Get(t));
      SayCat(o, EmitL(cx, e.l), Cat(W(Op(PDup)), Get(t)));
      ghost var fetched := out;
      MkTree(e.r);
      DoAssignOp(e.op, t);
      SayCat(fetched, EmitR(cx, e.r), AssignTail(e.op, t));
      DoKeepAndSet(t);
      SayCat(fetched, Cat(EmitR(cx, e.r), AssignTail(e.op, t)), KeepAndSet(t));
      SayCat(o, Cat(EmitL(cx, e.l), Cat(W(Op(PDup)), Get(t))), Cat(Cat(EmitR(cx, e.r), AssignTail(e.op, t)), KeepAndSet(t)));
    }

    method MkCond(e: Expr)
      requires e.Cond?
      modifies this
      ensures out == Say(old(out), Cat(EmitR(cx, e.c), IfElse(EmitR(cx, e.a), EmitR(cx, e.b))))
      decreases e, 1
    {
      hide Say;
      ghost var o := out;
      MkTree(e.c);
      SayIfElse(out, EmitR(cx, e.a), EmitR(cx, e.b));
      SayCat(o, EmitR(cx, e.c), IfElse(EmitR(cx, e.a), EmitR(cx, e.b)));
      Control(TIf);
      MkTree(e.a);
      Control(TElse);
      MkTree(e.b);
      Control(TThen);
    }

    method MkCast(e: Expr)
      requires e.Cast?
      modifies this
      ensures out == Say(old(out), EmitR(cx, e)) == Say(old(out), EmitL(cx, e))
      decreases e, 1
    {
      hide Say, CastTail;
      ghost var o := out;
      if e.to.Ptr? && TypeOf(e.e).Arr? {
        MkLval(e.e);
      } else {
        MkTree(e.e);
        DoCast(e.to, TypeOf(e.e));
        SayCat(o, EmitR(cx, e.e), CastTail(e.to, TypeOf(e.e)));
      }
    }

    method MkCall(e: Expr)
      requires e.Call?
      modifies this
      ensures out == Say(old(out), Cat(EmitArgs(cx, e.args), W(Do(e.f))))
      decreases e, 1
    {
      hide Say;
      SayCat(out, EmitArgs(cx, e.args), W(Do(e.f)));
      MkArgs(e.args);
      P(Do(e.f));
    }

    method MkArgs(args: Exprs)
      modifies this
      ensures out == Say(old(out), EmitArgs(cx, args))
      decreases args, 0
    {
      hide Say;
      ghost var o := out;
      SaySkip(o);
      if args.ECons? {
        MkTree(args.head);
        MkArgs(args.tail);
        SayCat(o, EmitR(cx, args.head), EmitArgs(cx, args.tail));
      }
    }

    /** The address of an lvalue. */
    method MkLval(e: Expr)
      modifies this
      ensures out == Say(old(out), EmitL(cx, e))
      decreases e, 2
    {
      hide Say, Emit.Bump, Displace, Scale, IsIntExpr, CastTail;
      ghost var o := out;
      SaySkip(o);
      match e {
        case Var(s) =>
          if s.Global? {
            P(Place(s.addr));
          } else {
            MkSlot(s.slot);
          }
        case Index(_, _) => MkIndex(e);
        case Deref(x) => MkTree(x);
        case AddrOf(x) => MkLval(x);
        case IncDec(inc, prefix, x) =>
          MkLval(x);
          DoBump(inc, prefix, TypeOf(x));
          SayCat(o, EmitL(cx, x), Emit.Bump(inc, prefix, TypeOf(x)));
        case Binary(_, _, _) => MkDecay(e);
        case Cond(_, _, _) => MkCond(e);
        case Cast(_, _) => MkCast(e);
        case Call(_, _, _) => MkCall(e);
        case _ =>
      }
    }
  
    method MkIndex(e: Expr)
      requires e.Index?
      modifies this
      ensures out == Say(old(out), EmitL(cx, e))
      decreases e, 1
    {
      hide Say, Displace, Scale, IsIntExpr;
      ghost var o := out;
      var size := SizeOf(Pointee(TypeOf(e.arr)));
      MkTree(e.arr);
      ghost var based := out;
      if IsIntExpr(e.idx) {
        var ret := new ConstExpr();
        EvalConstExpr(e.idx, ret);
        var n := LibMul(if ret.state.Known? then ret.ival else 0, Wrap(size));
        DoDisplace(n);
        SayCat(o, EmitR(cx, e.arr), Displace(n));
      } else {
        MkTree(e.idx);
        DoScale(size);
        SayCat(based, EmitR(cx, e.idx), Scale(size));
        P(Op(PAdd));
        SayCat(based, Cat(EmitR(cx, e.idx), Scale(size)), W(Op(PAdd)));
        SayCat(o, EmitR(cx, e.arr), Cat(Cat(EmitR(cx, e.idx), Scale(size)), W(Op(PAdd))));
      }
    }

    method DoDisplace(n: Cell)
      modifies this
      ensures out == Say(old(out), Displace(n))
    {
      SaySkip(out);
      SayWords(out, Lit(n), Op(PAdd), Exit);
      if n != 0 {
        P(Lit(n));
        P(Op(PAdd));
      }
    }

    /** Pointer arithmetic used as an address. */
    method MkDecay(e: Expr)
      requires e.Binary?
      modifies this
      ensures out == Say(old(out), EmitL(cx, e))
      decreases e, 1
    {
      hide Say, Scale;
      ghost var o := out;
      var size := SizeOf(TypeOf(e.l));
      MkTree(e.l);
      MkTree(e.r);
      SayCat(o, EmitR(cx, e.l), EmitR(cx, e.r));
      ghost var operands := out;
      if e.op == Add {
        SaySkip(operands);
        if !Pointing(TypeOf(e.r)) {
          DoScale(size);
        }
        P(Op(PAdd));
        SayCat(operands, if Pointing(TypeOf(e.r)) then Skip else Scale(size), W(Op(PAdd)));
        SayCat(o, Cat(EmitR(cx, e.l), EmitR(cx, e.r)),
               Cat(if Pointing(TypeOf(e.r)) then Skip else Scale(size), W(Op(PAdd))));
      } else {
        SayWords(out, Op(PSub), Lit(Wrap(size)), Op(PDiv));
        P(Op(PSub));
        P(Lit(Wrap(size)));
        P(Op(PDiv));
        SayCat(o, Cat(EmitR(cx, e.l), EmitR(cx, e.r)), Words3(Op(PSub), Lit(Wrap(size)), Op(PDiv)));
      }
    }

    // ----- statements -----

    method PopsFrame()
      modifies this
      ensures out == Say(old(out), PopFrame(cx))
    {
      hide Say;
      ghost var o := out;
      SaySkip(o);
      if HasFrame(cx.fn) {
        SayWords(o, Frame, Op(PDup), Op(PLFetch));
        P(Frame);
        P(Op(PDup));
        P(Op(PLFetch));
        ghost var linked := out;
        P(ToFrame);
        SayCat(o, Words3(Frame, Op(PDup), Op(PLFetch)), W(ToFrame));
        SayWords(out, FrameSize(cx.id), Op(PFree), Exit);
        P(FrameSize(cx.id));
        P(Op(PFree));
        SayCat(o, Cat(Words3(Frame, Op(PDup), Op(PLFetch)), W(ToFrame)), Words2(FrameSize(cx.id), Op(PFree)));
      }
    }

    method PushesFrame()
      modifies this
      ensures out == Say(old(out), PushFrame(cx))
    {
      hide Say;
      ghost var o := out;
      SaySkip(o);
      if HasFrame(cx.fn) {
        SayWords(o, FrameSize(cx.id), Op(PAlloc), Op(PDup));
        P(FrameSize(cx.id));
        P(Op(PAlloc));
        P(Op(PDup));
        SayWords(out, Frame, Op(PSwap), Exit);
        P(Frame);
        P(Op(PSwap));
        SayCat(o, Words3(FrameSize(cx.id), Op(PAlloc), Op(PDup)), Words2(Frame, Op(PSwap)));
        SayWords(out, Op(PLStore), ToFrame, Exit);
        P(Op(PLStore));
        P(ToFrame);
        SayCat(o, Cat(Words3(FrameSize(cx.id), Op(PAlloc), Op(PDup)), Words2(Frame, Op(PSwap))),
               Words2(Op(PLStore), ToFrame));
      }
    }

    /** An expression whose value is not wanted. */
    method MkEffect(e: Expr)
      modifies this
      ensures out == Say(old(out), EmitEffect(cx, e))
    {
      hide Say, Discard;
      ghost var o := out;
      MkTree(e);
      DoDiscard(TypeOf(e));
      SayCat(o, EmitR(cx, e), Discard(TypeOf(e)));
    }

    method MkOpt(e: Option<Expr>)
      modifies this
      ensures out == Say(old(out), EmitOpt(cx, e))
    {
      hide Say, EmitEffect;
      SaySkip(out);
      if e.Some? {
        MkEffect(e.value);
      }
    }

    method MkInits(inits: Inits)
      modifies this
      ensures out == Say(old(out), EmitInits(cx, inits))
      decreases inits
    {
      hide Say, SlotAddress;
      ghost var o := out;
      SaySkip(o);
      if inits.ICons? {
        MkTree(inits.init);
        ghost var valued := out;
        MkSlot(inits.slot);
        DoSet(inits.ty);
        SayCat(valued, SlotAddress(cx, inits.slot), Set(inits.ty));
        ghost var set_ := Cat(SlotAddress(cx, inits.slot), Set(inits.ty));
        SayCat(o, EmitR(cx, inits.init), set_);
        MkInits(inits.rest);
        SayCat(o, Cat(EmitR(cx, inits.init), set_), EmitInits(cx, inits.rest));
      }
    }

    method MkStmt(s: Stmt)
      modifies this
      ensures out == Say(old(out), EmitS(cx, s))
      decreases s, 1
    {
      hide Say, PopFrame, EmitEffect;
      ghost var o := out;
      SaySkip(o);
      match s {
        case Null =>
        case ExprS(e) => MkEffect(e);
        case Compound(inits, body) =>
          MkInits(inits);
          MkBody(body);
          SayCat(o, EmitInits(cx, inits), EmitBody(cx, body));
        case If(_, _, _) => MkIf(s);
        case While(c, b) =>
          SayLoop(o, EmitR(cx, c), EmitS(cx, b));
          Control(TBegin);
          MkTree(c);
          Control(TWhile);
          MkStmt(b);
          Control(TRepeat);
        case DoWhile(_, _) => MkDoWhile(s);
        case For(_, _, _, _) => MkFor(s);
        case Return(v) =>
          if v.Some? {
            MkTree(v.value);
          }
          PopsFrame();
          ghost var value := if v.Some? then EmitR(cx, v.value) else Skip;
          SayCat(o, value, PopFrame(cx));
          P(Exit);
          SayCat(o, Cat(value, PopFrame(cx)), W(Exit));
      }
    }

    method MkIf(s: Stmt)
      requires s.If?
      modifies this
      ensures out == Say(old(out), EmitS(cx, s))
      decreases s, 0
    {
      hide Say;
      ghost var o := out;
      MkTree(s.c);
      ghost var et, ee := EmitS(cx, s.then_), EmitS(cx, s.else_);
      SayIfThen(out, et);
      SayIfElse(out, et, ee);
      SayCat(o, EmitR(cx, s.c), if s.else_.Null? then IfThen(et) else IfElse(et, ee));
      Control(TIf);
      MkStmt(s.then_);
      if !s.else_.Null? {
        Control(TElse);
        MkStmt(s.else_);
      }
      Control(TThen);
    }

    method MkDoWhile(s: Stmt)
      requires s.DoWhile?
      modifies this
      ensures out == Say(old(out), EmitS(cx, s))
      decreases s, 0
    {
      hide Say;
      ghost var o := out;
      Control(TBegin);
      ghost var begun := out;
      MkStmt(s.s);
      MkTree(s.c);
      SayCat(begun, EmitS(cx, s.s), EmitR(cx, s.c));
      Control(TWhile);
      SaySkip(out);
      Control(TRepeat);
      SayLoop(o, Cat(EmitS(cx, s.s), EmitR(cx, s.c)), Skip);
    }

    method MkFor(s: Stmt)
      requires s.For?
      modifies this
      ensures out == Say(old(out), EmitS(cx, s))
      decreases s, 0
    {
      hide Say, EmitOpt;
      ghost var o := out;
      MkOpt(s.e1);
      ghost var begun := out;
      ghost var turn := Cat(EmitS(cx, s.s), EmitOpt(cx, s.e3));
      Control(TBegin);
      if s.e2.Some? {
        MkTree(s.e2.value);
        Control(TWhile);
        SayLoop(begun, EmitR(cx, s.e2.value), turn);
      } else {
        SayEndless(begun, turn);
      }
      ghost var tested := out;
      MkStmt(s.s);
      MkOpt(s.e3);
      SayCat(tested, EmitS(cx, s.s), EmitOpt(cx, s.e3));
      Control(TRepeat);
      SayCat(o, EmitOpt(cx, s.e1), if s.e2.Some? then Loop(EmitR(cx, s.e2.value), turn) else Endless(turn));
    }

    method MkBody(ss: Stmts)
      modifies this
      ensures out == Say(old(out), EmitBody(cx, ss))
      decreases ss, 0
    {
      hide Say;
      ghost var o := out;
      SaySkip(o);
      if ss.SCons? {
        MkStmt(ss.head);
        MkBody(ss.tail);
        SayCat(o, EmitS(cx, ss.head), EmitBody(cx, ss.tail));
      }
    }

    // ----- functions -----

    /** A definition: prologue, parameters last to first, body, epilogue, and the
        `;` that compiles a return. */
    method MkFunction()
      requires cx.fn.nparams <= |cx.fn.vars|
      modifies this
      ensures out == Say(old(out), EmitFunc(cx)) + [TSemi]
    {
      hide Say, PushFrame, PopFrame, SlotAddress;
      ghost var o := out;
      PushesFrame();
      ghost var pushed := out;
      var i := cx.fn.nparams;
      while i > 0
        invariant 0 <= i <= cx.fn.nparams
        invariant Say(out, SaveParams(cx, i)) == Say(pushed, SaveParams(cx, cx.fn.nparams))
      {
        i := i - 1;
        ghost var here := out;
        MkSlot(i);
        DoSet(cx.fn.vars[i]);
        SayCat(here, SlotAddress(cx, i), Set(cx.fn.vars[i]));
        SayCat(here, Cat(SlotAddress(cx, i), Set(cx.fn.vars[i])), SaveParams(cx, i));
      }
      SaySkip(out);
      SayCat(o, PushFrame(cx), SaveParams(cx, cx.fn.nparams));
      ghost var saved := out;
      MkStmt(cx.fn.body);
      SaySkip(out);
      if cx.fn.ret.Void? || CheckReturn(cx.fn.body) == NUnknown {
        PopsFrame();
      }
      ghost var tail := if HasEpilogue(cx.fn) then PopFrame(cx) else Skip;
      SayCat(saved, EmitS(cx, cx.fn.body), tail);
      SayCat(o, Cat(PushFrame(cx), SaveParams(cx, cx.fn.nparams)), Cat(EmitS(cx, cx.fn.body), tail));
      Control(TSemi);
    }
  }
}
