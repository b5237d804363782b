/** The text generated for a function: where it has unconditional loops, and whom
    it calls. */
module Acceptance {
  import opened Options
  import opened Cells
  import opened CTree
  import opened ConstFold
  import opened Forth
  import opened Emit
  import opened Supported
  import opened Threaded

  /** The text of one definition, after its name: the body and `;`. */
  function Text(p: Program, f: FuncId): seq<Token>
    requires ParamsFit(p) && f in p
  {
    Flat(EmitFunc(Ctx(f, p[f]))) + [TSemi]
  }

  /** The functions a supported function may call. */
  function Seen(p: Program, f: FuncId): set<FuncId>
    requires f in p
  {
    set g | g in p && Callable(p[f].(id := f), g)
  }

  // ----- unconditional loops come from `for` without a condition -----

  lemma WordsConditioned()
    ensures forall a, b :: Conditioned(Words2(a, b))
    ensures forall a, b, c :: Conditioned(Words3(a, b, c))
  {
    forall a, b ensures Conditioned(Words2(a, b)) {
      assert Conditioned(W(a)) && Conditioned(W(b));
    }
    forall a, b, c ensures Conditioned(Words3(a, b, c)) {
      assert Conditioned(W(a)) && Conditioned(Words2(b, c));
    }
  }

  lemma ArithConditioned(op: BinOp)
    ensures Conditioned(ArithTail(op))
  {
    WordsConditioned();
  }

  /** The operator words have no loops. */
  lemma TailsConditioned(op: BinOp, u: UnOp, lt: Type, rt: Type, n: nat, c: Cell)
    ensures Conditioned(Scale(n)) && Conditioned(Displace(c)) && Conditioned(ArithTail(op))
    ensures Conditioned(BinaryTail(op, lt, rt)) && Conditioned(AssignTail(op, lt)) && Conditioned(UnaryTail(u))
    ensures Conditioned(Get(lt)) && Conditioned(Set(lt)) && Conditioned(Discard(lt)) && Conditioned(CastTail(lt, rt))
  {
    hide ArithTail;
    ArithConditioned(op);
    WordsConditioned();
    assert forall w :: Conditioned(W(w));
    assert Conditioned(Scale(SizeOf(Pointee(lt))));
  }

  lemma BumpConditioned(inc: bool, prefix: bool, t: Type)
    ensures Conditioned(Emit.Bump(inc, prefix, t)) && Conditioned(KeepAndSet(t))
  {
    WordsConditioned();
    assert forall w :: Conditioned(W(w));
    var change := Words2(Lit(if t.Ptr? then Wrap(SizeOf(t.to)) else 1), Op(if inc then PAdd else PSub));
    assert Conditioned(Cat(change, W(Op(PTuck)))) && Conditioned(Cat(W(Op(PTuck)), change));
    assert Conditioned(Cat(W(Op(PDup)), Get(t))) && Conditioned(Cat(W(Op(PSwap)), Set(t)));
  }

  lemma SlotConditioned(cx: Ctx, slot: nat)
    ensures Conditioned(SlotAddress(cx, slot))
  {
    WordsConditioned();
  }

  lemma {:induction false} ConditionedR(cx: Ctx, e: Expr)
    ensures Conditioned(EmitR(cx, e))
    decreases e, 1
  {
    hide Scale, Displace, ArithTail, BinaryTail, AssignTail, UnaryTail, Get, Set, Discard, CastTail, Emit.Bump, KeepAndSet;
    WordsConditioned();
    match e
    case IntLit(_) =>
    case Var(_) => ConditionedL(cx, e); TailsConditioned(Add, Plus, TypeOf(e), Int, 0, 0);
    case Index(_, _) => ConditionedL(cx, e); TailsConditioned(Add, Plus, TypeOf(e), Int, 0, 0);
    case Unary(op, x) => ConditionedR(cx, x); TailsConditioned(Add, op, Int, Int, 0, 0);
    case Deref(x) =>
      ConditionedL(cx, e);
      TailsConditioned(Add, Plus, TypeOf(e), Int, 0, 0);
      if x.AddrOf? {
        ConditionedR(cx, x.lval);
      }
    case AddrOf(x) =>
      ConditionedL(cx, x);
      if x.Deref? {
        ConditionedR(cx, x.ptr);
      }
    case IncDec(inc, prefix, x) => ConditionedL(cx, x); BumpConditioned(inc, prefix, TypeOf(x));
    case Binary(op, l, r) =>
      ConditionedR(cx, l);
      ConditionedR(cx, r);
      TailsConditioned(op, Plus, TypeOf(l), TypeOf(r), 0, 0);
    case Logic(_, l, r) =>
      ConditionedR(cx, l);
      ConditionedR(cx, r);
      assert Conditioned(Cat(W(Op(PDrop)), EmitR(cx, r)));
    case Comma(l, r) => ConditionedR(cx, l); ConditionedR(cx, r); TailsConditioned(Add, Plus, TypeOf(l), Int, 0, 0);
    case Assign(l, r) =>
      ConditionedL(cx, l);
      ConditionedR(cx, r);
      TailsConditioned(Add, Plus, TypeOf(l), Int, 0, 0);
      assert Conditioned(Cat(EmitR(cx, r), W(Op(PDup))));
    case OpAssign(op, l, r) =>
      ConditionedL(cx, l);
      ConditionedR(cx, r);
      TailsConditioned(op, Plus, TypeOf(l), Int, 0, 0);
      BumpConditioned(true, true, TypeOf(l));
      assert Conditioned(Cat(W(Op(PDup)), Get(TypeOf(l))));
      assert Conditioned(Cat(EmitR(cx, r), AssignTail(op, TypeOf(l))));
    case Cond(c, a, b) => ConditionedR(cx, c); ConditionedR(cx, a); ConditionedR(cx, b);
    case Cast(t, x) =>
      ConditionedL(cx, x);
      ConditionedR(cx, x);
      TailsConditioned(Add, Plus, t, TypeOf(x), 0, 0);
    case Call(_, _, args) => ConditionedArgs(cx, args);
  }

  lemma {:induction false} ConditionedL(cx: Ctx, e: Expr)
    ensures Conditioned(EmitL(cx, e))
    decreases e, 0
  {
    hide Scale, Displace, CastTail, Emit.Bump, SlotAddress;
    WordsConditioned();
    match e
    case Var(s) =>
      if s.Local? {
        SlotConditioned(cx, s.slot);
      }
    case Index(a, i) =>
      var size := SizeOf(Pointee(TypeOf(a)));
      ConditionedR(cx, a);
      ConditionedR(cx, i);
      TailsConditioned(Add, Plus, Int, Int, size, LibMul(FoldValue(i), Wrap(size)));
      assert Conditioned(Cat(EmitR(cx, i), Scale(size)));
    case Deref(x) => ConditionedR(cx, x);
    case AddrOf(x) => ConditionedL(cx, x);
    case IncDec(inc, prefix, x) => ConditionedL(cx, x); BumpConditioned(inc, prefix, TypeOf(x));
    case Binary(_, l, r) =>
      ConditionedR(cx, l);
      ConditionedR(cx, r);
      TailsConditioned(Add, Plus, Int, Int, SizeOf(TypeOf(l)), 0);
    case Cond(c, a, b) => ConditionedR(cx, c); ConditionedR(cx, a); ConditionedR(cx, b);
    case Cast(t, x) =>
      ConditionedL(cx, x);
      ConditionedR(cx, x);
      TailsConditioned(Add, Plus, t, TypeOf(x), 0, 0);
    case Call(_, _, args) => ConditionedArgs(cx, args);
    case _ =>
  }

  lemma {:induction false} ConditionedArgs(cx: Ctx, args: Exprs)
    ensures Conditioned(EmitArgs(cx, args))
    decreases args, 0
  {
    if args.ECons? {
      ConditionedR(cx, args.head);
      ConditionedArgs(cx, args.tail);
    }
  }

  lemma FrameConditioned(cx: Ctx)
    ensures Conditioned(PushFrame(cx)) && Conditioned(PopFrame(cx))
  {
    hide HasFrame;
    WordsConditioned();
  }

  predicate ForsConditioned(s: Stmt) {
    match s
    case Compound(_, body) => BodyConditioned(body)
    case If(_, t, e) => ForsConditioned(t) && ForsConditioned(e)
    case While(_, b) => ForsConditioned(b)
    case DoWhile(b, _) => ForsConditioned(b)
    case For(_, c, _, b) => c.Some? && ForsConditioned(b)
    case _ => true
  }

  predicate BodyConditioned(ss: Stmts) {
    ss.SNil? || (ForsConditioned(ss.head) && BodyConditioned(ss.tail))
  }

  /** The Forth of a statement has an unconditional loop exactly where the C has
      a `for` without a condition. */
  lemma {:induction false} ConditionedS(cx: Ctx, s: Stmt)
    ensures Conditioned(EmitS(cx, s)) <==> ForsConditioned(s)
  {
    match s
    case Null =>
    case ExprS(e) => ConditionedR(cx, e);
    case Compound(inits, body) =>
      ConditionedInits(cx, inits);
      ConditionedBody(cx, body);
    case If(c, t, e) => ConditionedR(cx, c); ConditionedS(cx, t); ConditionedS(cx, e);
    case While(c, b) => ConditionedR(cx, c); ConditionedS(cx, b);
    case DoWhile(b, c) => ConditionedR(cx, c); ConditionedS(cx, b);
    case For(e1, e2, e3, b) =>
      ConditionedOpt(cx, e1);
      ConditionedOpt(cx, e2);
      ConditionedOpt(cx, e3);
      ConditionedS(cx, b);
      assert Conditioned(Cat(EmitS(cx, b), EmitOpt(cx, e3))) <==> ForsConditioned(b);
    case Return(v) =>
      ConditionedOpt(cx, v);
      FrameConditioned(cx);
  }

  lemma ConditionedOpt(cx: Ctx, e: Option<Expr>)
    ensures Conditioned(EmitOpt(cx, e)) && (e.Some? ==> Conditioned(EmitR(cx, e.value)))
  {
    if e.Some? {
      TailsConditioned(Add, Plus, TypeOf(e.value), Int, 0, 0);
      ConditionedR(cx, e.value);
    }
  }

  lemma {:induction false} ConditionedInits(cx: Ctx, inits: Inits)
    ensures Conditioned(EmitInits(cx, inits))
  {
    if inits.ICons? {
      ConditionedR(cx, inits.init);
      SlotConditioned(cx, inits.slot);
      TailsConditioned(Add, Plus, inits.ty, Int, 0, 0);
      assert Conditioned(Cat(SlotAddress(cx, inits.slot), Set(inits.ty)));
      ConditionedInits(cx, inits.rest);
    }
  }

  lemma {:induction false} ConditionedBody(cx: Ctx, ss: Stmts)
    ensures Conditioned(EmitBody(cx, ss)) <==> BodyConditioned(ss)
  {
    if ss.SCons? {
      ConditionedS(cx, ss.head);
      ConditionedBody(cx, ss.tail);
    }
  }

  lemma {:induction false} SavesConditioned(cx: Ctx, n: nat)
    requires n <= |cx.fn.vars|
    ensures Conditioned(SaveParams(cx, n))
  {
    if n > 0 {
      SlotConditioned(cx, n - 1);
      TailsConditioned(Add, Plus, cx.fn.vars[n - 1], Int, 0, 0);
      SavesConditioned(cx, n - 1);
      assert Conditioned(Cat(SlotAddress(cx, n - 1), Set(cx.fn.vars[n - 1])));
    }
  }

  lemma ConditionedFunc(p: Program, f: FuncId)
    requires ParamsFit(p) && f in p
    ensures Conditioned(EmitFunc(Ctx(f, p[f]))) <==> ForsConditioned(p[f].body)
  {
    hide EmitS, ForsConditioned, PushFrame, PopFrame, SaveParams, HasEpilogue;
    var cx := Ctx(f, p[f]);
    var tail := if HasEpilogue(cx.fn) then PopFrame(cx) else Skip;
    SavesConditioned(cx, cx.fn.nparams);
    FrameConditioned(cx);
    ConditionedS(cx, p[f].body);
    assert Conditioned(Cat(PushFrame(cx), SaveParams(cx, cx.fn.nparams)));
    assert Conditioned(tail);
    assert Conditioned(Cat(EmitS(cx, cx.fn.body), tail)) == Conditioned(EmitS(cx, cx.fn.body));
  }

  // ----- supported programs call what has been defined -----

  ghost predicate Sees(p: Program, fn: Func, known: set<FuncId>) {
    forall g :: g in p && Callable(fn, g) ==> g in known
  }

  lemma WordsVisible(known: set<FuncId>)
    ensures forall w: Word :: !w.Do? ==> Visible(known, W(w))
    ensures forall a: Word, b: Word :: !a.Do? && !b.Do? ==> Visible(known, Words2(a, b))
    ensures forall a: Word, b: Word, c: Word :: !a.Do? && !b.Do? && !c.Do? ==> Visible(known, Words3(a, b, c))
  {
    forall a: Word, b: Word | !a.Do? && !b.Do? ensures Visible(known, Words2(a, b)) {
      assert Visible(known, W(a)) && Visible(known, W(b));
    }
    forall a: Word, b: Word, c: Word | !a.Do? && !b.Do? && !c.Do? ensures Visible(known, Words3(a, b, c)) {
      assert Visible(known, W(a)) && Visible(known, Words2(b, c));
    }
  }

  lemma ArithVisible(known: set<FuncId>, op: BinOp)
    ensures Visible(known, ArithTail(op))
  {
    WordsVisible(known);
  }

  /** The operator words call nothing. */
  lemma TailsVisible(known: set<FuncId>, op: BinOp, u: UnOp, lt: Type, rt: Type, n: nat, c: Cell)
    ensures Visible(known, Scale(n)) && Visible(known, Displace(c)) && Visible(known, ArithTail(op))
    ensures Visible(known, BinaryTail(op, lt, rt)) && Visible(known, AssignTail(op, lt)) && Visible(known, UnaryTail(u))
    ensures Visible(known, Get(lt)) && Visible(known, Set(lt)) && Visible(known, Discard(lt))
    ensures Visible(known, CastTail(lt, rt))
  {
    hide ArithTail;
    ArithVisible(known, op);
    WordsVisible(known);
    assert Visible(known, Scale(SizeOf(Pointee(lt))));
  }

  lemma BumpVisible(known: set<FuncId>, inc: bool, prefix: bool, t: Type)
    ensures Visible(known, Emit.Bump(inc, prefix, t)) && Visible(known, KeepAndSet(t))
  {
    WordsVisible(known);
    var change := Words2(Lit(if t.Ptr? then Wrap(SizeOf(t.to)) else 1), Op(if inc then PAdd else PSub));
    assert Visible(known, Cat(change, W(Op(PTuck)))) && Visible(known, Cat(W(Op(PTuck)), change));
    assert Visible(known, Cat(W(Op(PDup)), Get(t))) && Visible(known, Cat(W(Op(PSwap)), Set(t)));
  }

  lemma SlotVisible(known: set<FuncId>, cx: Ctx, slot: nat)
    ensures Visible(known, SlotAddress(cx, slot))
  {
    WordsVisible(known);
  }

  lemma {:induction false} VisibleR(p: Program, known: set<FuncId>, cx: Ctx, e: Expr, mode: Mode)
    requires Ok(p, cx.fn, e, mode) && Sees(p, cx.fn, known)
    ensures Visible(known, EmitR(cx, e))
    decreases e, 1
  {
    hide Scale, Displace, ArithTail, BinaryTail, AssignTail, UnaryTail, Get, Set, Discard, CastTail, Emit.Bump, KeepAndSet;
    hide Sees, FoldOk, IsIntExpr, OkOperands;
    if (e.Unary? || e.Binary? || e.Logic? || e.Comma?) && IsIntExpr(e) {
      assert EmitR(cx, e) == W(Lit(FoldValue(e)));
    } else if e.Var? || e.Index? || e.Deref? || e.AddrOf? || e.IncDec? {
      VisiblePlace(p, known, cx, e, mode);
    } else if e.Unary? {
      VisibleR(p, known, cx, e.arg, if e.uop == Not then Truth else Exact);
      TailsVisible(known, Add, e.uop, Int, Int, 0, 0);
    } else if e.Binary? {
      VisibleR(p, known, cx, e.l, Exact);
      VisibleR(p, known, cx, e.r, Exact);
      TailsVisible(known, e.op, Plus, TypeOf(e.l), TypeOf(e.r), 0, 0);
    } else if e.Logic? {
      VisibleR(p, known, cx, e.l, Truth);
      VisibleR(p, known, cx, e.r, mode);
      WordsVisible(known);
      assert Visible(known, Cat(W(Op(PDrop)), EmitR(cx, e.r)));
    } else if e.Comma? {
      VisibleR(p, known, cx, e.l, Any);
      VisibleR(p, known, cx, e.r, mode);
      TailsVisible(known, Add, Plus, TypeOf(e.l), Int, 0, 0);
    } else if e.Assign? || e.OpAssign? {
      VisibleAssign(p, known, cx, e, mode);
    } else if e.Cond? {
      VisibleR(p, known, cx, e.c, Truth);
      VisibleR(p, known, cx, e.a, mode);
      VisibleR(p, known, cx, e.b, mode);
    } else if e.Cast? {
      VisibleCast(p, known, cx, e, mode);
    } else if e.Call? {
      VisibleArgs(p, known, cx, e.args);
      CallSeen(p, known, cx.fn, e.f);
    }
  }

  /** Expressions that start from a place in memory. */
  lemma {:induction false} VisiblePlace(p: Program, known: set<FuncId>, cx: Ctx, e: Expr, mode: Mode)
    requires Ok(p, cx.fn, e, mode) && Sees(p, cx.fn, known)
    requires e.Var? || e.Index? || e.Deref? || e.AddrOf? || e.IncDec?
    ensures Visible(known, EmitR(cx, e))
    decreases e, 0, 1
  {
    hide Get, Emit.Bump, Sees, FoldOk, IsIntExpr;
    TailsVisible(known, Add, Plus, TypeOf(e), Int, 0, 0);
    if e.Var? || e.Index? {
      VisibleL(p, known, cx, e);
    } else if e.Deref? {
      if e.ptr.AddrOf? {
        VisibleR(p, known, cx, e.ptr.lval, Exact);
      } else {
        VisibleL(p, known, cx, e);
      }
    } else if e.AddrOf? {
      if e.lval.Deref? {
        VisibleR(p, known, cx, e.lval.ptr, Exact);
      } else {
        VisibleL(p, known, cx, e.lval);
      }
    } else {
      VisibleL(p, known, cx, e.lval);
      BumpVisible(known, e.inc, e.prefix, TypeOf(e.lval));
    }
  }

  lemma CallSeen(p: Program, known: set<FuncId>, fn: Func, g: FuncId)
    requires Sees(p, fn, known) && g in p && Callable(fn, g)
    ensures g in known
  {
  }

  lemma {:induction false} VisibleAssign(p: Program, known: set<FuncId>, cx: Ctx, e: Expr, mode: Mode)
    requires Ok(p, cx.fn, e, mode) && Sees(p, cx.fn, known) && (e.Assign? || e.OpAssign?)
    ensures Visible(known, EmitR(cx, e))
    decreases e, 0, 1
  {
    hide AssignTail, Get, Set, KeepAndSet, Sees;
    VisibleL(p, known, cx, e.l);
    VisibleR(p, known, cx, e.r, Exact);
    TailsVisible(known, if e.OpAssign? then e.op else Add, Plus, TypeOf(e.l), Int, 0, 0);
    BumpVisible(known, true, true, TypeOf(e.l));
    assert Visible(known, Cat(EmitR(cx, e.r), W(Op(PDup))));
    assert Visible(known, Cat(W(Op(PDup)), Get(TypeOf(e.l))));
    if e.OpAssign? {
      assert Visible(known, Cat(EmitR(cx, e.r), AssignTail(e.op, TypeOf(e.l))));
    }
  }

  lemma {:induction false} VisibleCast(p: Program, known: set<FuncId>, cx: Ctx, e: Expr, mode: Mode)
    requires Ok(p, cx.fn, e, mode) && Sees(p, cx.fn, known) && e.Cast?
    ensures Visible(known, EmitR(cx, e))
    decreases e, 0, 1
  {
    hide CastTail, Sees;
    if e.to.Ptr? && TypeOf(e.e).Arr? {
      VisibleL(p, known, cx, e.e);
    } else {
      VisibleR(p, known, cx, e.e, if e.to.Void? then Any else if e.to.UChar? == TypeOf(e.e).UChar? then mode else Exact);
      TailsVisible(known, Add, Plus, e.to, TypeOf(e.e), 0, 0);
    }
  }

  lemma {:induction false} VisibleL(p: Program, known: set<FuncId>, cx: Ctx, e: Expr)
    requires OkL(p, cx.fn, e) && Sees(p, cx.fn, known)
    ensures Visible(known, EmitL(cx, e))
    decreases e, 0, 0
  {
    hide Scale, Displace, SlotAddress, Sees, FoldOk, IsIntExpr;
    WordsVisible(known);
    if e.Var? {
      if e.sym.Local? {
        SlotVisible(known, cx, e.sym.slot);
      }
    } else if e.Index? {
      var size := SizeOf(Pointee(TypeOf(e.arr)));
      VisibleR(p, known, cx, e.arr, Exact);
      TailsVisible(known, Add, Plus, Int, Int, size, LibMul(FoldValue(e.idx), Wrap(size)));
      if !IsIntExpr(e.idx) {
        VisibleR(p, known, cx, e.idx, Exact);
        assert Visible(known, Cat(EmitR(cx, e.idx), Scale(size)));
      }
    } else if e.Deref? {
      VisibleR(p, known, cx, e.ptr, Exact);
    }
  }

  lemma {:induction false} VisibleArgs(p: Program, known: set<FuncId>, cx: Ctx, args: Exprs)
    requires OkArgs(p, cx.fn, args) && Sees(p, cx.fn, known)
    ensures Visible(known, EmitArgs(cx, args))
    decreases args, 0
  {
    hide Sees, Ok;
    if args.ECons? {
      VisibleR(p, known, cx, args.head, Exact);
      VisibleArgs(p, known, cx, args.tail);
    }
  }

  lemma FrameVisible(known: set<FuncId>, cx: Ctx)
    ensures Visible(known, PushFrame(cx)) && Visible(known, PopFrame(cx))
  {
    hide HasFrame;
    WordsVisible(known);
  }

  lemma VisibleOpt(p: Program, known: set<FuncId>, cx: Ctx, e: Option<Expr>, mode: Mode)
    requires (e.Some? ==> Ok(p, cx.fn, e.value, mode)) && Sees(p, cx.fn, known)
    ensures Visible(known, EmitOpt(cx, e)) && (e.Some? ==> Visible(known, EmitR(cx, e.value)))
  {
    hide Ok, Sees, EmitR;
    if e.Some? {
      TailsVisible(known, Add, Plus, TypeOf(e.value), Int, 0, 0);
      VisibleR(p, known, cx, e.value, mode);
    }
  }

  lemma {:induction false} VisibleS(p: Program, known: set<FuncId>, cx: Ctx, s: Stmt)
    requires OkS(p, cx.fn, s) && Sees(p, cx.fn, known)
    ensures Visible(known, EmitS(cx, s))
  {
    hide Ok, Sees, EmitR, PopFrame;
    match s
    case Null =>
    case ExprS(e) => VisibleOpt(p, known, cx, Some(e), Any);
    case Compound(inits, body) => VisibleInits(p, known, cx, inits); VisibleBody(p, known, cx, body);
    case If(c, t, e) => VisibleR(p, known, cx, c, Truth); VisibleS(p, known, cx, t); VisibleS(p, known, cx, e);
    case While(c, b) => VisibleR(p, known, cx, c, Truth); VisibleS(p, known, cx, b);
    case DoWhile(b, c) => VisibleR(p, known, cx, c, Truth); VisibleS(p, known, cx, b);
    case For(e1, e2, e3, b) =>
      VisibleOpt(p, known, cx, e1, Any);
      VisibleOpt(p, known, cx, e2, Truth);
      VisibleOpt(p, known, cx, e3, Any);
      VisibleS(p, known, cx, b);
      assert Visible(known, Cat(EmitS(cx, b), EmitOpt(cx, e3)));
    case Return(v) =>
      VisibleOpt(p, known, cx, v, Exact);
      FrameVisible(known, cx);
  }

  lemma {:induction false} VisibleInits(p: Program, known: set<FuncId>, cx: Ctx, inits: Inits)
    requires OkInits(p, cx.fn, inits) && Sees(p, cx.fn, known)
    ensures Visible(known, EmitInits(cx, inits))
  {
    hide Ok, Sees, EmitR, SlotAddress, Set;
    if inits.ICons? {
      VisibleR(p, known, cx, inits.init, Exact);
      SlotVisible(known, cx, inits.slot);
      TailsVisible(known, Add, Plus, inits.ty, Int, 0, 0);
      assert Visible(known, Cat(SlotAddress(cx, inits.slot), Set(inits.ty)));
      VisibleInits(p, known, cx, inits.rest);
    }
  }

  lemma {:induction false} VisibleBody(p: Program, known: set<FuncId>, cx: Ctx, ss: Stmts)
    requires OkBody(p, cx.fn, ss) && Sees(p, cx.fn, known)
    ensures Visible(known, EmitBody(cx, ss))
  {
    hide OkS, Sees, EmitS;
    if ss.SCons? {
      VisibleS(p, known, cx, ss.head);
      VisibleBody(p, known, cx, ss.tail);
    }
  }

  lemma {:induction false} SavesVisible(known: set<FuncId>, cx: Ctx, n: nat)
    requires n <= |cx.fn.vars|
    ensures Visible(known, SaveParams(cx, n))
  {
    hide SlotAddress, Set;
    if n > 0 {
      SlotVisible(known, cx, n - 1);
      TailsVisible(known, Add, Plus, cx.fn.vars[n - 1], Int, 0, 0);
      SavesVisible(known, cx, n - 1);
      assert Visible(known, Cat(SlotAddress(cx, n - 1), Set(cx.fn.vars[n - 1])));
    }
  }

  lemma VisibleFunc(p: Program, f: FuncId)
    requires OkProgram(p) && ParamsFit(p) && f in p
    ensures Visible(Seen(p, f), EmitFunc(Ctx(f, p[f])))
  {
    hide EmitS, PushFrame, PopFrame, SaveParams, HasEpilogue, OkS;
    var cx, known := Ctx(f, p[f]), Seen(p, f);
    var tail := if HasEpilogue(cx.fn) then PopFrame(cx) else Skip;
    SavesVisible(known, cx, cx.fn.nparams);
    FrameVisible(known, cx);
    VisibleS(p, known, cx, p[f].body);
    assert Visible(known, Cat(PushFrame(cx), SaveParams(cx, cx.fn.nparams)));
    assert Visible(known, Cat(EmitS(cx, cx.fn.body), tail));
  }

  // ----- the compiled program -----
}
