/** The C this generator compiles faithfully: the fragment of signed `int`,
    unsigned `char`, pointers and arrays minus the constructs it gets wrong. The
    conditions are syntactic, apart from the values of constant subtrees. */
module Supported {
  import opened Cells
  import opened CTree
  import opened ConstFold
  import Forth
  import Emit

  /** What is asked of a value: to be the C value, to be zero exactly when the C
      value is, or nothing because it is dropped. `&&` and `||` leave one of
      their operands, so they only ever give a Truth. */
  datatype Mode = Exact | Truth | Any

  predicate Named(fn: Func, s: Sym) {
    !SymType(s).Void? && (s.Local? ==> s.slot < |fn.vars| && fn.vars[s.slot] == s.lty)
  }

  predicate Ok(p: Program, fn: Func, e: Expr, mode: Mode)
    decreases e, 1
  {
    (mode == Any || !TypeOf(e).Void?) &&
    match e
    case IntLit(_) => true
    case Var(_) => OkL(p, fn, e)
    case Index(_, _) => OkL(p, fn, e) && !TypeOf(e).Void?
    case Unary(op, x) =>
      if IsIntExpr(e) then FoldOk(e)
      else Ok(p, fn, x, if op == Not then Truth else Exact) && !TypeOf(x).Void?
    case Deref(x) =>
      Scalar(TypeOf(e)) &&
      if x.AddrOf? then (x.lval.Var? || x.lval.Index? || x.lval.Deref?) && Ok(p, fn, x.lval, Exact)
      else OkL(p, fn, e)
    case AddrOf(x) => if x.Deref? then Ok(p, fn, x.ptr, Exact) else OkL(p, fn, x)
    case IncDec(_, prefix, x) =>
      OkL(p, fn, x) && Scalar(TypeOf(x)) && (TypeOf(x).UChar? && prefix ==> mode == Any)
    case Binary(op, l, r) =>
      if IsIntExpr(e) then FoldOk(e)
      else Ok(p, fn, l, Exact) && Ok(p, fn, r, Exact) && OkOperands(op, TypeOf(l), TypeOf(r))
    case Logic(_, l, r) =>
      if IsIntExpr(e) then FoldOk(e)
      else mode != Exact && Ok(p, fn, l, Truth) && Ok(p, fn, r, mode) && !TypeOf(r).Void?
    case Comma(l, r) => !IsIntExpr(e) && Ok(p, fn, l, Any) && Ok(p, fn, r, mode)
    case Assign(l, r) =>
      OkL(p, fn, l) && Scalar(TypeOf(l)) && Ok(p, fn, r, Exact)
      && (TypeOf(l).UChar? ==> TypeOf(r).UChar?)
    case OpAssign(op, l, r) =>
      OkL(p, fn, l) && Scalar(TypeOf(l)) && Ok(p, fn, r, Exact)
      && op !in {Mod, Lt, Gt, Le, Ge, Eq, Ne}
      && !Pointing(TypeOf(r)) && (TypeOf(l).Ptr? ==> op == Add || op == Sub)
      && (TypeOf(l).UChar? ==> mode == Any)
    case Cond(c, a, b) =>
      Ok(p, fn, c, Truth) && Ok(p, fn, a, mode) && Ok(p, fn, b, mode)
      && TypeOf(a).Void? == TypeOf(b).Void? && TypeOf(a).UChar? == TypeOf(b).UChar?
    case Cast(t, x) =>
      if t.Void? then Ok(p, fn, x, Any) && !TypeOf(x).Void?
      else if t.Ptr? && TypeOf(x).Arr? then (x.Var? || x.Index?) && Ok(p, fn, x, Exact)
      else Scalar(t) && Scalar(TypeOf(x))
           && Ok(p, fn, x, if t.UChar? == TypeOf(x).UChar? then mode else Exact)
    case Call(f, ret, args) =>
      f in p && Callable(fn, f) && ret == p[f].ret && OkArgs(p, fn, args) && Count(args) == p[f].nparams
  }

  /** A name can be called once its definition is complete, and under the
      `recursive` pragma from its own body too. Nothing is declared ahead. */
  predicate Callable(fn: Func, f: FuncId) {
    f < fn.id || (f == fn.id && fn.recursive)
  }

  /** Pointer subtraction of single units emits no operator, and pointers are
      compared with the signed words. */
  predicate OkOperands(op: BinOp, lt: Type, rt: Type) {
    (op == Add ==> !Pointing(rt)) &&
    (op == Sub && Pointing(lt) ==> SizeOf(Pointee(lt)) != 1 && SizeOf(Pointee(lt)) < HALF) &&
    (op in {Lt, Gt, Le, Ge} ==> !Pointing(lt) && !Pointing(rt))
  }

  predicate OkL(p: Program, fn: Func, e: Expr)
    decreases e, 0
  {
    match e
    case Var(s) => Named(fn, s)
    case Index(a, i) =>
      Ok(p, fn, a, Exact) && Pointing(TypeOf(a)) && SizeOf(Pointee(TypeOf(a))) < HALF
      && if IsIntExpr(i) then FoldOk(i) else Ok(p, fn, i, Exact)
    case Deref(x) => Ok(p, fn, x, Exact) && Pointing(TypeOf(x))
    case _ => false
  }

  predicate OkArgs(p: Program, fn: Func, args: Exprs)
    decreases args, 0
  {
    match args
    case ENil => true
    case ECons(x, rest) => Ok(p, fn, x, Exact) && OkArgs(p, fn, rest)
  }

  function Count(args: Exprs): nat {
    if args.ENil? then 0 else 1 + Count(args.tail)
  }

  // ----- statements -----

  predicate OkS(p: Program, fn: Func, s: Stmt) {
    match s
    case Null => true
    case ExprS(e) => Ok(p, fn, e, Any)
    case Compound(inits, body) => OkInits(p, fn, inits) && OkBody(p, fn, body)
    case If(c, t, e) => Ok(p, fn, c, Truth) && OkS(p, fn, t) && OkS(p, fn, e)
    case While(c, b) => Ok(p, fn, c, Truth) && OkS(p, fn, b)
    case DoWhile(b, c) => OkS(p, fn, b) && Ok(p, fn, c, Truth)
    case For(e1, e2, e3, b) =>
      e2.Some? && Ok(p, fn, e2.value, Truth) && OkS(p, fn, b)
      && (e1.Some? ==> Ok(p, fn, e1.value, Any)) && (e3.Some? ==> Ok(p, fn, e3.value, Any))
    case Return(v) =>
      if v.None? then fn.ret.Void?
      else !fn.ret.Void? && TypeOf(v.value) == fn.ret && Ok(p, fn, v.value, Exact)
  }

  predicate OkInits(p: Program, fn: Func, inits: Inits) {
    match inits
    case INil => true
    case ICons(slot, t, init, rest) =>
      slot < |fn.vars| && fn.vars[slot] == t && Scalar(t) && Ok(p, fn, init, Exact)
      && OkInits(p, fn, rest)
  }

  predicate OkBody(p: Program, fn: Func, ss: Stmts) {
    ss.SNil? || (OkS(p, fn, ss.head) && OkBody(p, fn, ss.tail))
  }

  // ----- functions -----

  predicate OkFunc(p: Program, fn: Func) {
    fn.nparams <= |fn.vars|
    && (forall i :: 0 <= i < |fn.vars| ==> SizeOf(fn.vars[i]) != 0)
    && (forall i :: 0 <= i < fn.nparams ==> Scalar(fn.vars[i]))
    && (!fn.recursive ==> |fn.statics| == |fn.vars|)
    && Forth.Offset(Emit.Sizes(fn.vars), |fn.vars|) < HALF
    && OkS(p, fn, fn.body)
  }

  ghost predicate OkProgram(p: Program) {
    forall f :: f in p ==> p[f].id == f && OkFunc(p, p[f])
  }
}
