/** No run of a supported program calls a function that is under way unless it
    keeps its variables in a frame. The strict semantics, in which such a call is
    undefined, is therefore the lax one: static variables serve as automatic
    ones, each held by one activation at a time. */
module Reentry {
  import opened Options
  import opened Cells
  import opened Memory
  import opened CTree
  import opened ConstFold
  import opened CSemantics
  import opened Supported
  import Frames

  /** Calls lead to earlier definitions, so the active ones come no earlier than
      the running one. */
  ghost predicate Ordered(p: Program, env: Env) {
    && OkProgram(p) && env.id in p && p[env.id] == env.fn
    && forall f :: f in env.acts.active ==> env.id <= f
  }

  /** The same calls under way, with nothing said about calling them again. */
  function Lax(env: Env): Env {
    env.(acts := env.acts.(strict := false))
  }

  /** A call that a supported function makes does not clash with any under way. */
  lemma NoClash(p: Program, env: Env, f: FuncId)
    requires Ordered(p, env) && f in p && Callable(env.fn, f)
    ensures !Clashes(env.acts, f, p[f])
  {
  }

  lemma EnterSame(p: Program, al: Allocator, env: Env, f: FuncId, st: St)
    requires Ordered(p, env) && f in p && Callable(env.fn, f)
    ensures var r, l := Enter(al, env.frames, env.acts, f, p[f], st), Enter(al, env.frames, Lax(env).acts, f, p[f], st);
      if r.Val? then l == Val(Lax(r.v), r.st) && Ordered(p, r.v) && r.v.fn == p[f] else l == r
  {
    hide Emit.HasFrame, FrameBytes, Misses, Store32, OkFunc;
    NoClash(p, env, f);
  }

  // ----- expressions -----

  /** A constant expression has the same value in any activation. */
  lemma {:induction false} ConstSame(p: Program, al: Allocator, env: Env, st: St, e: Expr, fuel: nat)
    requires IsIntExpr(e)
    ensures Eval(p, al, Lax(env), st, e, fuel) == Eval(p, al, env, st, e, fuel)
    ensures KeepsSt(st, Eval(p, al, env, st, e, fuel))
    decreases e
  {
    hide Operate, Address, EvalArgs;
    match e
    case IntLit(_) =>
    case Unary(_, x) => ConstSame(p, al, env, st, x, fuel);
    case Binary(_, l, r) => ConstSame(p, al, env, st, l, fuel); ConstSame(p, al, env, st, r, fuel);
    case Logic(_, l, r) => ConstSame(p, al, env, st, l, fuel); ConstSame(p, al, env, st, r, fuel);
    case Comma(l, r) => ConstSame(p, al, env, st, l, fuel); ConstSame(p, al, env, st, r, fuel);
    case Cond(c, a, b) =>
      ConstSame(p, al, env, st, c, fuel);
      ConstSame(p, al, env, st, a, fuel);
      ConstSame(p, al, env, st, b, fuel);
    case Cast(_, x) => ConstSame(p, al, env, st, x, fuel);
  }

  ghost predicate KeepsSt<T>(st: St, r: Res<T>) {
    r.Val? ==> r.st == st
  }

  /** The value of an expression, and all it does, are the same in both. */
  lemma {:induction false} EvalSame(p: Program, al: Allocator, env: Env, st: St, e: Expr, mode: Mode, fuel: nat)
    requires Ordered(p, env) && Ok(p, env.fn, e, mode)
    ensures Eval(p, al, Lax(env), st, e, fuel) == Eval(p, al, env, st, e, fuel)
    decreases fuel, e, 3
  {
    hide Ordered, Operate, Misses, Store, Load, OkProgram, IsIntExpr, FoldOk;
    if IsIntExpr(e) {
      ConstSame(p, al, env, st, e, fuel);
    } else if e.Var? || e.Index? || e.Deref? {
      FetchSame(p, al, env, st, e, mode, fuel);
    } else if e.AddrOf? {
      AddrSame(p, al, env, st, e, mode, fuel);
    } else if e.Unary? {
      EvalSame(p, al, env, st, e.arg, if e.uop == Not then Truth else Exact, fuel);
    } else if e.IncDec? {
      AddressSame(p, al, env, st, e.lval, fuel);
    } else if e.Binary? {
      EvalSame(p, al, env, st, e.l, Exact, fuel);
      EvalAfter(p, al, env, Eval(p, al, env, st, e.l, fuel), e.r, Exact, fuel);
    } else if e.Logic? {
      EvalSame(p, al, env, st, e.l, Truth, fuel);
      EvalAfter(p, al, env, Eval(p, al, env, st, e.l, fuel), e.r, mode, fuel);
    } else if e.Comma? {
      EvalSame(p, al, env, st, e.l, Any, fuel);
      EvalAfter(p, al, env, Eval(p, al, env, st, e.l, fuel), e.r, mode, fuel);
    } else if e.Assign? {
      AssignSame(p, al, env, st, e, mode, fuel);
    } else if e.OpAssign? {
      OpAssignSame(p, al, env, st, e, mode, fuel);
    } else if e.Cond? {
      EvalSame(p, al, env, st, e.c, Truth, fuel);
      EvalAfter(p, al, env, Eval(p, al, env, st, e.c, fuel), e.a, mode, fuel);
      EvalAfter(p, al, env, Eval(p, al, env, st, e.c, fuel), e.b, mode, fuel);
    } else if e.Cast? {
      CastSame(p, al, env, st, e, mode, fuel);
    } else if e.Call? {
      CallSame(p, al, env, st, e, mode, fuel);
    }
  }

  lemma {:induction false} EvalAfter(p: Program, al: Allocator, env: Env, x: Res<Cell>, e: Expr, mode: Mode, fuel: nat)
    requires Ordered(p, env) && Ok(p, env.fn, e, mode)
    ensures x.Val? ==> Eval(p, al, Lax(env), x.st, e, fuel) == Eval(p, al, env, x.st, e, fuel)
    decreases fuel, e, 4
  {
    hide Eval, Ok, Ordered;
    if x.Val? {
      EvalSame(p, al, env, x.st, e, mode, fuel);
    }
  }

  lemma {:induction false} FetchSame(p: Program, al: Allocator, env: Env, st: St, e: Expr, mode: Mode, fuel: nat)
    requires Ordered(p, env) && Ok(p, env.fn, e, mode) && (e.Var? || e.Index? || e.Deref?)
    ensures Eval(p, al, Lax(env), st, e, fuel) == Eval(p, al, env, st, e, fuel)
    decreases fuel, e, 2
  {
    hide Ordered, Misses, Store, Load, OkProgram, Ok;
    LvalueSame(p, al, env, st, e, mode, fuel);
  }

  /** `*&x` designates x. */
  lemma {:induction false} LvalueSame(p: Program, al: Allocator, env: Env, st: St, e: Expr, mode: Mode, fuel: nat)
    requires Ordered(p, env) && Ok(p, env.fn, e, mode) && (e.Var? || e.Index? || e.Deref?)
    ensures Address(p, al, Lax(env), st, e, fuel) == Address(p, al, env, st, e, fuel)
    decreases fuel, e, 1
  {
    hide Ordered, OkProgram;
    if e.Deref? && e.ptr.AddrOf? {
      LvalueSame(p, al, env, st, e.ptr.lval, Exact, fuel);
    } else {
      AddressSame(p, al, env, st, e, fuel);
    }
  }

  lemma {:induction false} AddrSame(p: Program, al: Allocator, env: Env, st: St, e: Expr, mode: Mode, fuel: nat)
    requires Ordered(p, env) && Ok(p, env.fn, e, mode) && e.AddrOf?
    ensures Eval(p, al, Lax(env), st, e, fuel) == Eval(p, al, env, st, e, fuel)
    decreases fuel, e, 1
  {
    hide Ordered, Misses, Store, Load, OkProgram;
    if e.lval.Deref? {
      EvalSame(p, al, env, st, e.lval.ptr, Exact, fuel);
    } else {
      AddressSame(p, al, env, st, e.lval, fuel);
    }
  }

  lemma {:induction false} AssignSame(p: Program, al: Allocator, env: Env, st: St, e: Expr, mode: Mode, fuel: nat)
    requires Ordered(p, env) && Ok(p, env.fn, e, mode) && e.Assign?
    ensures Eval(p, al, Lax(env), st, e, fuel) == Eval(p, al, env, st, e, fuel)
    decreases fuel, e, 1
  {
    hide Ordered, Misses, Store, Load, OkProgram, Address;
    EvalSame(p, al, env, st, e.r, Exact, fuel);
    var y := Eval(p, al, env, st, e.r, fuel);
    if y.Val? {
      AddressSame(p, al, env, y.st, e.l, fuel);
    }
  }

  lemma {:induction false} OpAssignSame(p: Program, al: Allocator, env: Env, st: St, e: Expr, mode: Mode, fuel: nat)
    requires Ordered(p, env) && Ok(p, env.fn, e, mode) && e.OpAssign?
    ensures Eval(p, al, Lax(env), st, e, fuel) == Eval(p, al, env, st, e, fuel)
    decreases fuel, e, 1
  {
    hide Ordered, Misses, Store, Load, OkProgram, Operate, Address;
    AddressSame(p, al, env, st, e.l, fuel);
    EvalAfter(p, al, env, Address(p, al, env, st, e.l, fuel), e.r, Exact, fuel);
  }

  lemma {:induction false} CastSame(p: Program, al: Allocator, env: Env, st: St, e: Expr, mode: Mode, fuel: nat)
    requires Ordered(p, env) && Ok(p, env.fn, e, mode) && e.Cast?
    ensures Eval(p, al, Lax(env), st, e, fuel) == Eval(p, al, env, st, e, fuel)
    decreases fuel, e, 1
  {
    hide Ordered, OkProgram, Address;
    var inner := if e.to.Void? then Any
                 else if (e.to.Ptr? && TypeOf(e.e).Arr?) || e.to.UChar? != TypeOf(e.e).UChar? then Exact else mode;
    EvalSame(p, al, env, st, e.e, inner, fuel);
  }

  /** The address of an lvalue is the same in both. */
  lemma {:induction false} AddressSame(p: Program, al: Allocator, env: Env, st: St, e: Expr, fuel: nat)
    requires Ordered(p, env) && OkL(p, env.fn, e)
    ensures Address(p, al, Lax(env), st, e, fuel) == Address(p, al, env, st, e, fuel)
    decreases fuel, e, 0
  {
    hide Ordered, Eval, IsIntExpr;
    match e
    case Var(s) =>
    case Index(a, i) =>
      EvalSame(p, al, env, st, a, Exact, fuel);
      var x := Eval(p, al, env, st, a, fuel);
      if x.Val? {
        if IsIntExpr(i) {
          ConstSame(p, al, env, x.st, i, fuel);
        } else {
          EvalSame(p, al, env, x.st, i, Exact, fuel);
        }
      }
    case Deref(x) => EvalSame(p, al, env, st, x, Exact, fuel);
    case _ =>
  }

  lemma {:induction false} ArgsSame(p: Program, al: Allocator, env: Env, st: St, args: Exprs, fuel: nat)
    requires Ordered(p, env) && OkArgs(p, env.fn, args)
    ensures EvalArgs(p, al, Lax(env), st, args, fuel) == EvalArgs(p, al, env, st, args, fuel)
    decreases fuel, args, 0
  {
    hide Ordered, Eval, Ok;
    if args.ECons? {
      EvalSame(p, al, env, st, args.head, Exact, fuel);
      var r := Eval(p, al, env, st, args.head, fuel);
      if r.Val? {
        ArgsSame(p, al, env, r.st, args.tail, fuel);
      }
    }
  }

  lemma {:induction false} BindSame(env: Env, st: St, vs: seq<Cell>, n: nat)
    requires n <= |vs| && n <= |env.fn.vars|
    ensures Bind(Lax(env), st, vs, n) == Bind(env, st, vs, n)
    decreases n
  {
    hide Misses, Store;
    if n > 0 && SlotAt(env, n - 1).Some? {
      var w := Write(env, st, env.fn.vars[n - 1], SlotAt(env, n - 1).value, vs[n - 1]);
      if w.Val? {
        BindSame(env, w.st, vs, n - 1);
      }
    }
  }

  lemma {:induction false} CallSame(p: Program, al: Allocator, env: Env, st: St, e: Expr, mode: Mode, fuel: nat)
    requires Ordered(p, env) && Ok(p, env.fn, e, mode) && e.Call?
    ensures Eval(p, al, Lax(env), st, e, fuel) == Eval(p, al, env, st, e, fuel)
    decreases fuel, e, 1
  {
    var f := e.f;
    CallCase(p, env, e, mode);
    hide Ordered, Ok, Enter, Bind, Exec, EvalArgs, Leave, OkProgram, OkS;
    ArgsSame(p, al, env, st, e.args, fuel);
    var vs := EvalArgs(p, al, env, st, e.args, fuel);
    if vs.Val? && fuel > 0 && |vs.v| == p[f].nparams && p[f].nparams <= |p[f].vars| {
      EnterSame(p, al, env, f, vs.st);
      var enter := Enter(al, env.frames, env.acts, f, p[f], vs.st);
      if enter.Val? {
        BindSame(enter.v, enter.st, vs.v, p[f].nparams);
        var bound := Bind(enter.v, enter.st, vs.v, p[f].nparams);
        if bound.Val? {
          ExecSame(p, al, enter.v, bound.st, p[f].body, fuel - 1);
          var r := Exec(p, al, enter.v, bound.st, p[f].body, fuel - 1);
          if r.Val? {
            LeaveSame(enter.v, r.st);
          }
        }
      }
    }
  }

  lemma CallCase(p: Program, env: Env, e: Expr, mode: Mode)
    requires Ordered(p, env) && Ok(p, env.fn, e, mode) && e.Call?
    ensures e.f in p && Callable(env.fn, e.f) && OkArgs(p, env.fn, e.args) && OkS(p, p[e.f], p[e.f].body)
  {
    hide OkS, OkArgs;
  }

  lemma LeaveSame(env: Env, st: St)
    ensures Leave(Lax(env), st) == Leave(env, st)
  {
    hide Emit.HasFrame;
  }

  // ----- statements -----

  lemma {:induction false} EffectSame(p: Program, al: Allocator, env: Env, st: St, e: Option<Expr>, fuel: nat)
    requires Ordered(p, env) && (e.Some? ==> Ok(p, env.fn, e.value, Any))
    ensures EffectOpt(p, al, Lax(env), st, e, fuel) == EffectOpt(p, al, env, st, e, fuel)
    decreases fuel, e, 0
  {
    hide Ordered, Eval, Ok;
    if e.Some? {
      EvalSame(p, al, env, st, e.value, Any, fuel);
    }
  }

  /** What a statement does, and how it is left, are the same in both. */
  lemma {:induction false} ExecSame(p: Program, al: Allocator, env: Env, st: St, s: Stmt, fuel: nat)
    requires Ordered(p, env) && OkS(p, env.fn, s)
    ensures Exec(p, al, Lax(env), st, s, fuel) == Exec(p, al, env, st, s, fuel)
    decreases fuel, s, 2
  {
    hide Ordered, Eval, Ok, EffectOpt, ForLoop;
    match s
    case Null =>
    case ExprS(e) => EvalSame(p, al, env, st, e, Any, fuel);
    case Compound(inits, body) =>
      InitSame(p, al, env, st, inits, fuel);
      var r := Init(p, al, env, st, inits, fuel);
      if r.Val? {
        BodySame(p, al, env, r.st, body, fuel);
      }
    case If(c, t, e) =>
      EvalSame(p, al, env, st, c, Truth, fuel);
      var x := Eval(p, al, env, st, c, fuel);
      if x.Val? {
        ExecSame(p, al, env, x.st, if x.v != 0 then t else e, fuel);
      }
    case While(c, b) =>
      EvalSame(p, al, env, st, c, Truth, fuel);
      var x := Eval(p, al, env, st, c, fuel);
      if x.Val? {
        ExecSame(p, al, env, x.st, b, fuel);
        var r := Exec(p, al, env, x.st, b, fuel);
        if r.Val? && fuel > 0 {
          ExecSame(p, al, env, r.st, s, fuel - 1);
        }
      }
    case DoWhile(b, c) =>
      ExecSame(p, al, env, st, b, fuel);
      var r := Exec(p, al, env, st, b, fuel);
      if r.Val? {
        EvalSame(p, al, env, r.st, c, Truth, fuel);
        var x := Eval(p, al, env, r.st, c, fuel);
        if x.Val? && fuel > 0 {
          ExecSame(p, al, env, x.st, s, fuel - 1);
        }
      }
    case For(e1, _, _, _) =>
      EffectSame(p, al, env, st, e1, fuel);
      var r := EffectOpt(p, al, env, st, e1, fuel);
      if r.Val? {
        ForSame(p, al, env, r.st, s, fuel);
      }
    case Return(v) =>
      if v.Some? {
        EvalSame(p, al, env, st, v.value, Exact, fuel);
      }
  }

  lemma {:induction false} ForSame(p: Program, al: Allocator, env: Env, st: St, s: Stmt, fuel: nat)
    requires Ordered(p, env) && OkS(p, env.fn, s) && s.For?
    ensures ForLoop(p, al, Lax(env), st, s, fuel) == ForLoop(p, al, env, st, s, fuel)
    decreases fuel, s, 1
  {
    hide Ordered, Eval, Exec, EffectOpt, Ok;
    EvalSame(p, al, env, st, s.e2.value, Truth, fuel);
    var x := Eval(p, al, env, st, s.e2.value, fuel);
    if x.Val? {
      ExecSame(p, al, env, x.st, s.s, fuel);
      var r := Exec(p, al, env, x.st, s.s, fuel);
      if r.Val? {
        EffectSame(p, al, env, r.st, s.e3, fuel);
        var r3 := EffectOpt(p, al, env, r.st, s.e3, fuel);
        if r3.Val? && fuel > 0 {
          ForSame(p, al, env, r3.st, s, fuel - 1);
        }
      }
    }
  }

  lemma {:induction false} InitSame(p: Program, al: Allocator, env: Env, st: St, inits: Inits, fuel: nat)
    requires Ordered(p, env) && OkInits(p, env.fn, inits)
    ensures Init(p, al, Lax(env), st, inits, fuel) == Init(p, al, env, st, inits, fuel)
    decreases fuel, inits, 0
  {
    hide Ordered, Eval, Ok, Store, Misses;
    if inits.ICons? {
      EvalSame(p, al, env, st, inits.init, Exact, fuel);
      var r := Eval(p, al, env, st, inits.init, fuel);
      if r.Val? && SlotAt(env, inits.slot).Some? {
        var w := Write(env, r.st, inits.ty, SlotAt(env, inits.slot).value, Convert(inits.ty, r.v));
        if w.Val? {
          InitSame(p, al, env, w.st, inits.rest, fuel);
        }
      }
    }
  }

  lemma {:induction false} BodySame(p: Program, al: Allocator, env: Env, st: St, ss: Stmts, fuel: nat)
    requires Ordered(p, env) && OkBody(p, env.fn, ss)
    ensures ExecBody(p, al, Lax(env), st, ss, fuel) == ExecBody(p, al, env, st, ss, fuel)
    decreases fuel, ss, 0
  {
    hide Ordered, Exec, OkS;
    if ss.SCons? {
      ExecSame(p, al, env, st, ss.head, fuel);
      var r := Exec(p, al, env, st, ss.head, fuel);
      if r.Val? {
        BodySame(p, al, env, r.st, ss.tail, fuel);
      }
    }
  }

  // ----- static variables as automatic ones -----

  /** Slots outside frames have storage of their own. */
  ghost predicate Placed(p: Program) {
    forall f, g, i, j ::
      f in p && g in p && 0 <= i < |p[f].statics| && 0 <= j < |p[g].statics|
      && i < |p[f].vars| && j < |p[g].vars| && (f != g || i != j)
      ==> Range(p[f].statics[i], SizeOf(p[f].vars[i])) !! Range(p[g].statics[j], SizeOf(p[g].vars[j]))
  }

  /** Assigning one such variable changes no other, of this function or of any
      other. */
  lemma SlotsHeld(p: Program, env: Env, m: Mem, i: nat, v: Cell, g: FuncId, j: nat)
    requires Placed(p) && Ordered(p, env) && !env.fn.recursive && g in p
    requires i < |env.fn.statics| && j < |p[g].statics| && i < |env.fn.vars| && j < |p[g].vars|
    requires Scalar(env.fn.vars[i]) && Scalar(p[g].vars[j]) && (env.id != g || i != j)
    ensures SlotAt(env, i) == Some(env.fn.statics[i])
    ensures var a, b, t, u := env.fn.statics[i], p[g].statics[j], env.fn.vars[i], p[g].vars[j];
      Load(Store(m, t, a, v), t, a) == Convert(t, v) && Load(Store(m, t, a, v), u, b) == Load(m, u, b)
  {
    hide Range, Load, Store, Convert, OkFunc;
    Frames.LoadStored(m, env.fn.vars[i], env.fn.statics[i], v);
    Frames.LoadElsewhere(m, env.fn.vars[i], env.fn.statics[i], v, p[g].vars[j], p[g].statics[j]);
  }
}
