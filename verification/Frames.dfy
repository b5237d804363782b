/** Stack frames over whole runs: every frame is freed exactly once, by the call
    that made it, and argument i lands in parameter i. */
module Frames {
  import opened Options
  import opened Cells
  import opened Memory
  import opened CTree
  import opened CSemantics

  // ----- the heap comes back -----

  ghost predicate KeepsHeap<T>(st: St, r: Res<T>) {
    r.Val? ==> r.st.heap == st.heap
  }

  /** Evaluating an expression, whatever it calls, leaves no frame behind and
      frees no block it did not allocate. */
  lemma {:induction false} EvalKeepsHeap(p: Program, al: Allocator, env: Env, st: St, e: Expr, fuel: nat)
    ensures KeepsHeap(st, Eval(p, al, env, st, e, fuel))
    decreases fuel, e, 1
  {
    hide SymAt, Operate, Misses, Store, Load;
    match e
    case IntLit(_) =>
    case Var(_) => AddressKeepsHeap(p, al, env, st, e, fuel);
    case Index(_, _) => AddressKeepsHeap(p, al, env, st, e, fuel);
    case Deref(_) => AddressKeepsHeap(p, al, env, st, e, fuel);
    case AddrOf(x) => AddressKeepsHeap(p, al, env, st, x, fuel);
    case Unary(_, x) => EvalKeepsHeap(p, al, env, st, x, fuel);
    case IncDec(_, _, x) => AddressKeepsHeap(p, al, env, st, x, fuel);
    case Binary(_, l, r) => EvalKeepsHeap(p, al, env, st, l, fuel); EvalNext(p, al, env, st, l, r, fuel);
    case Logic(_, l, r) => EvalKeepsHeap(p, al, env, st, l, fuel); EvalNext(p, al, env, st, l, r, fuel);
    case Comma(l, r) => EvalKeepsHeap(p, al, env, st, l, fuel); EvalNext(p, al, env, st, l, r, fuel);
    case Assign(_, _) => AssignKeepsHeap(p, al, env, st, e, fuel);
    case OpAssign(_, _, _) => AssignKeepsHeap(p, al, env, st, e, fuel);
    case Cond(c, a, b) =>
      EvalKeepsHeap(p, al, env, st, c, fuel);
      EvalNext(p, al, env, st, c, a, fuel);
      EvalNext(p, al, env, st, c, b, fuel);
    case Cast(_, x) => EvalKeepsHeap(p, al, env, st, x, fuel);
    case Call(_, _, _) => CallKeepsHeap(p, al, env, st, e, fuel);
  }

  lemma {:induction false} AssignKeepsHeap(p: Program, al: Allocator, env: Env, st: St, e: Expr, fuel: nat)
    requires e.Assign? || e.OpAssign?
    ensures KeepsHeap(st, Eval(p, al, env, st, e, fuel))
    decreases fuel, e, 0
  {
    hide SymAt, Operate, Misses, Store, Load, Address;
    if e.Assign? {
      EvalKeepsHeap(p, al, env, st, e.r, fuel);
      var y := Eval(p, al, env, st, e.r, fuel);
      if y.Val? {
        AddressKeepsHeap(p, al, env, y.st, e.l, fuel);
      }
    } else {
      AddressKeepsHeap(p, al, env, st, e.l, fuel);
      var a := Address(p, al, env, st, e.l, fuel);
      if a.Val? {
        EvalKeepsHeap(p, al, env, a.st, e.r, fuel);
      }
    }
  }

  lemma {:induction false} EvalNext(p: Program, al: Allocator, env: Env, st: St, l: Expr, r: Expr, fuel: nat)
    ensures var x := Eval(p, al, env, st, l, fuel);
      x.Val? ==> KeepsHeap(x.st, Eval(p, al, env, x.st, r, fuel))
    decreases fuel, r, 2
  {
    hide Eval;
    var x := Eval(p, al, env, st, l, fuel);
    if x.Val? {
      EvalKeepsHeap(p, al, env, x.st, r, fuel);
    }
  }

  lemma {:induction false} AddressKeepsHeap(p: Program, al: Allocator, env: Env, st: St, e: Expr, fuel: nat)
    ensures KeepsHeap(st, Address(p, al, env, st, e, fuel))
    decreases fuel, e, 0
  {
    match e
    case Var(s) =>
    case Index(a, i) => EvalKeepsHeap(p, al, env, st, a, fuel); EvalNext(p, al, env, st, a, i, fuel);
    case Deref(x) => EvalKeepsHeap(p, al, env, st, x, fuel);
    case _ =>
  }

  lemma {:induction false} ArgsKeepHeap(p: Program, al: Allocator, env: Env, st: St, args: Exprs, fuel: nat)
    ensures KeepsHeap(st, EvalArgs(p, al, env, st, args, fuel))
    decreases fuel, args, 0
  {
    hide Eval;
    if args.ECons? {
      EvalKeepsHeap(p, al, env, st, args.head, fuel);
      var r := Eval(p, al, env, st, args.head, fuel);
      if r.Val? {
        ArgsKeepHeap(p, al, env, r.st, args.tail, fuel);
      }
    }
  }

  lemma {:induction false} BindKeepsHeap(env: Env, st: St, vs: seq<Cell>, n: nat)
    requires n <= |vs| && n <= |env.fn.vars|
    ensures KeepsHeap(st, Bind(env, st, vs, n))
    decreases n
  {
    hide Store, SlotAt, Misses;
    if n > 0 && SlotAt(env, n - 1).Some? {
      var r := Write(env, st, env.fn.vars[n - 1], SlotAt(env, n - 1).value, vs[n - 1]);
      if r.Val? {
        BindKeepsHeap(env, r.st, vs, n - 1);
      }
    }
  }

  /** The frame a call allocates is the one it frees. */
  lemma LeaveUndoesEnter(al: Allocator, frames: seq<Cell>, acts: Acts, f: FuncId, fn: Func, st: St, mem: Mem)
    requires Enter(al, frames, acts, f, fn, st).Val?
    ensures var r := Enter(al, frames, acts, f, fn, st);
      Leave(r.v, St(mem, r.st.heap)) == St(mem, st.heap)
  {
    hide FrameBytes, Misses, Store32;
  }

  lemma {:induction false} CallKeepsHeap(p: Program, al: Allocator, env: Env, st: St, e: Expr, fuel: nat)
    requires e.Call?
    ensures KeepsHeap(st, Eval(p, al, env, st, e, fuel))
    decreases fuel, e, 0
  {
    hide Enter, Leave, EvalArgs, Bind, Exec;
    ArgsKeepHeap(p, al, env, st, e.args, fuel);
    var vs, f := EvalArgs(p, al, env, st, e.args, fuel), e.f;
    if vs.Val? && fuel > 0 && f in p && |vs.v| == p[f].nparams && p[f].nparams <= |p[f].vars| {
      var enter := Enter(al, env.frames, env.acts, f, p[f], vs.st);
      if enter.Val? {
        EnterFunc(al, env.frames, env.acts, f, p[f], vs.st);
        BindKeepsHeap(enter.v, enter.st, vs.v, p[f].nparams);
        var bound := Bind(enter.v, enter.st, vs.v, p[f].nparams);
        if bound.Val? {
          ExecKeepsHeap(p, al, enter.v, bound.st, p[f].body, fuel - 1);
          var r := Exec(p, al, enter.v, bound.st, p[f].body, fuel - 1);
          if r.Val? {
            LeaveUndoesEnter(al, env.frames, env.acts, f, p[f], vs.st, r.st.mem);
            assert r.st == St(r.st.mem, enter.st.heap);
          }
        }
      }
    }
  }

  lemma EnterFunc(al: Allocator, frames: seq<Cell>, acts: Acts, f: FuncId, fn: Func, st: St)
    requires Enter(al, frames, acts, f, fn, st).Val?
    ensures Enter(al, frames, acts, f, fn, st).v.fn == fn
  {
    hide FrameBytes, Misses, Store32;
  }

  lemma {:induction false} EffectKeepsHeap(p: Program, al: Allocator, env: Env, st: St, e: Option<Expr>, fuel: nat)
    ensures KeepsHeap(st, EffectOpt(p, al, env, st, e, fuel))
    ensures e.Some? ==> KeepsHeap(st, Effect(p, al, env, st, e.value, fuel))
    decreases fuel, e, 0
  {
    hide Eval;
    if e.Some? {
      EvalKeepsHeap(p, al, env, st, e.value, fuel);
    }
  }

  lemma {:induction false} ExecKeepsHeap(p: Program, al: Allocator, env: Env, st: St, s: Stmt, fuel: nat)
    ensures KeepsHeap(st, Exec(p, al, env, st, s, fuel))
    decreases fuel, s, 2
  {
    hide Eval, Effect, EffectOpt;
    match s
    case Null =>
    case ExprS(e) => EvalKeepsHeap(p, al, env, st, e, fuel); EffectIsEval(p, al, env, st, e, fuel);
    case Compound(inits, body) =>
      InitKeepsHeap(p, al, env, st, inits, fuel);
      var r := Init(p, al, env, st, inits, fuel);
      if r.Val? {
        BodyKeepsHeap(p, al, env, r.st, body, fuel);
      }
    case If(c, t, e) =>
      EvalKeepsHeap(p, al, env, st, c, fuel);
      var x := Eval(p, al, env, st, c, fuel);
      if x.Val? {
        ExecKeepsHeap(p, al, env, x.st, if x.v != 0 then t else e, fuel);
      }
    case While(c, b) =>
      EvalKeepsHeap(p, al, env, st, c, fuel);
      var x := Eval(p, al, env, st, c, fuel);
      if x.Val? {
        ExecKeepsHeap(p, al, env, x.st, b, fuel);
        var r := Exec(p, al, env, x.st, b, fuel);
        if r.Val? && fuel > 0 {
          ExecKeepsHeap(p, al, env, r.st, s, fuel - 1);
        }
      }
    case DoWhile(b, c) =>
      ExecKeepsHeap(p, al, env, st, b, fuel);
      var r := Exec(p, al, env, st, b, fuel);
      if r.Val? {
        EvalKeepsHeap(p, al, env, r.st, c, fuel);
        var x := Eval(p, al, env, r.st, c, fuel);
        if x.Val? && fuel > 0 {
          ExecKeepsHeap(p, al, env, x.st, s, fuel - 1);
        }
      }
    case For(e1, _, _, _) =>
      EffectKeepsHeap(p, al, env, st, e1, fuel);
      var r := EffectOpt(p, al, env, st, e1, fuel);
      if r.Val? {
        ForKeepsHeap(p, al, env, r.st, s, fuel);
      }
    case Return(v) =>
      if v.Some? {
        EvalKeepsHeap(p, al, env, st, v.value, fuel);
      }
  }

  lemma EffectIsEval(p: Program, al: Allocator, env: Env, st: St, e: Expr, fuel: nat)
    requires KeepsHeap(st, Eval(p, al, env, st, e, fuel))
    ensures KeepsHeap(st, Effect(p, al, env, st, e, fuel))
  {
    hide Eval;
  }

  lemma {:induction false} ForKeepsHeap(p: Program, al: Allocator, env: Env, st: St, s: Stmt, fuel: nat)
    requires s.For?
    ensures KeepsHeap(st, ForLoop(p, al, env, st, s, fuel))
    decreases fuel, s, 1
  {
    hide Eval, Exec, EffectOpt;
    if s.e2.Some? {
      EvalKeepsHeap(p, al, env, st, s.e2.value, fuel);
    }
    var x := if s.e2.Some? then Eval(p, al, env, st, s.e2.value, fuel) else Val(1, st);
    if x.Val? {
      ExecKeepsHeap(p, al, env, x.st, s.s, fuel);
      var r := Exec(p, al, env, x.st, s.s, fuel);
      if r.Val? {
        EffectKeepsHeap(p, al, env, r.st, s.e3, fuel);
        var r3 := EffectOpt(p, al, env, r.st, s.e3, fuel);
        if r3.Val? && fuel > 0 {
          ForKeepsHeap(p, al, env, r3.st, s, fuel - 1);
        }
      }
    }
  }

  lemma {:induction false} InitKeepsHeap(p: Program, al: Allocator, env: Env, st: St, inits: Inits, fuel: nat)
    ensures KeepsHeap(st, Init(p, al, env, st, inits, fuel))
    decreases fuel, inits, 0
  {
    hide Eval, SlotAt, Store, Misses;
    if inits.ICons? {
      EvalKeepsHeap(p, al, env, st, inits.init, fuel);
      var r := Eval(p, al, env, st, inits.init, fuel);
      if r.Val? && SlotAt(env, inits.slot).Some? {
        var w := Write(env, r.st, inits.ty, SlotAt(env, inits.slot).value, Convert(inits.ty, r.v));
        if w.Val? {
          InitKeepsHeap(p, al, env, w.st, inits.rest, fuel);
        }
      }
    }
  }

  lemma {:induction false} BodyKeepsHeap(p: Program, al: Allocator, env: Env, st: St, ss: Stmts, fuel: nat)
    ensures KeepsHeap(st, ExecBody(p, al, env, st, ss, fuel))
    decreases fuel, ss, 0
  {
    hide Exec;
    if ss.SCons? {
      ExecKeepsHeap(p, al, env, st, ss.head, fuel);
      var r := Exec(p, al, env, st, ss.head, fuel);
      if r.Val? {
        BodyKeepsHeap(p, al, env, r.st, ss.tail, fuel);
      }
    }
  }

  // ----- arguments land in parameters -----

  lemma {:induction false} OffsetStep(sizes: seq<nat>, k: nat)
    requires k < |sizes|
    ensures Forth.Offset(sizes, k + 1) == Forth.Offset(sizes, k) + sizes[k]
  {
  }

  /** Offsets grow by at least the sizes of the fields between them. */
  lemma {:induction false} OffsetsApart(sizes: seq<nat>, i: nat, j: nat)
    requires i < j <= |sizes|
    ensures Forth.LINK_SIZE <= Forth.Offset(sizes, i)
    ensures Forth.Offset(sizes, i) + sizes[i] <= Forth.Offset(sizes, j)
    decreases j
  {
    OffsetStep(sizes, j - 1);
    if i < j - 1 {
      OffsetsApart(sizes, i, j - 1);
    } else {
      OffsetAfterLink(sizes, i);
    }
  }

  lemma {:induction false} OffsetAfterLink(sizes: seq<nat>, i: nat)
    requires i <= |sizes|
    ensures Forth.LINK_SIZE <= Forth.Offset(sizes, i)
  {
    if i > 0 {
      OffsetAfterLink(sizes, i - 1);
    }
  }

  lemma AboveAbove(a: Cell, i: int, j: int)
    ensures Above(Above(a, i), j) == Above(a, i + j)
  {
    WrapAdd(j, a + i);
  }

  /** Two stretches of one block that do not meet before wrapping around. */
  lemma StretchesApart(a: Cell, i: nat, n: nat, j: nat, k: nat)
    requires i + n <= j && j + k <= MODULUS
    ensures Range(Above(a, i), n) !! Range(Above(a, j), k)
  {
    forall x, y | 0 <= x < n && 0 <= y < k
      ensures Above(Above(a, i), x) != Above(Above(a, j), y)
    {
      AboveAbove(a, i, x);
      AboveAbove(a, j, y);
      AboveInjective(a, i + x, j + y);
    }
  }

  lemma StretchWithin(a: Cell, i: nat, n: nat, k: nat)
    requires i + n <= k
    ensures Range(Above(a, i), n) <= Range(a, k)
  {
    forall x | 0 <= x < n ensures Above(Above(a, i), x) in Range(a, k) {
      AboveAbove(a, i, x);
      assert 0 <= i + x < k;
    }
  }

  lemma Prefix(a: Cell, n: nat, k: nat)
    requires n <= k
    ensures Range(a, n) <= Range(a, k)
  {
  }

  /** An allocator that honours its contract: a block apart from all live ones. */
  ghost predicate Sound(al: Allocator, heap: Heap, n: nat) {
    var a := al(heap, n);
    a != 0 && a !in heap && forall b :: b in heap ==> Range(a, n) !! Range(b, heap[b])
  }

  /** The active frames are live blocks. */
  ghost predicate Live(heap: Heap, frames: seq<Cell>) {
    forall i :: 0 <= i < |frames| ==> frames[i] in heap && heap[frames[i]] >= Forth.LINK_SIZE
  }

  /** A function that keeps its slots in a frame. */
  predicate Framed(fn: Func) {
    fn.recursive && Emit.HasFrame(fn) && FrameBytes(fn) < HALF && fn.nparams <= |fn.vars|
    && forall i :: 0 <= i < fn.nparams ==> Scalar(fn.vars[i])
  }

  /** Where slot k lies within the frame. */
  function SlotOffset(fn: Func, k: nat): nat {
    Forth.Offset(Emit.Sizes(fn.vars), k)
  }

  lemma SlotFits(fn: Func, k: nat)
    requires Framed(fn) && k < fn.nparams
    ensures Forth.LINK_SIZE <= SlotOffset(fn, k)
    ensures SlotOffset(fn, k) + ScalarSize(fn.vars[k]) <= FrameBytes(fn)
  {
    OffsetsApart(Emit.Sizes(fn.vars), k, |fn.vars|);
  }

  lemma SlotsApart(fn: Func, a: Cell, i: nat, j: nat)
    requires Framed(fn) && i < j < fn.nparams
    ensures Range(Above(a, SlotOffset(fn, i)), ScalarSize(fn.vars[i]))
         !! Range(Above(a, SlotOffset(fn, j)), ScalarSize(fn.vars[j]))
  {
    hide Range, Above;
    SlotFits(fn, j);
    OffsetsApart(Emit.Sizes(fn.vars), i, j);
    StretchesApart(a, SlotOffset(fn, i), ScalarSize(fn.vars[i]), SlotOffset(fn, j), ScalarSize(fn.vars[j]));
  }

  /** A fresh block's link and slots miss the links of all older frames, and the
      slots miss the block's own link. */
  lemma FreshMisses(al: Allocator, heap: Heap, frames: seq<Cell>, fn: Func, k: nat)
    requires Framed(fn) && Sound(al, heap, FrameBytes(fn)) && Live(heap, frames)
    ensures var a := al(heap, FrameBytes(fn));
      Misses(frames, a, Forth.LINK_SIZE)
      && (k < fn.nparams ==> Misses([a] + frames, Above(a, SlotOffset(fn, k)), ScalarSize(fn.vars[k])))
  {
    hide Range, FrameBytes, SlotOffset;
    var n := FrameBytes(fn);
    var a := al(heap, n);
    FrameHoldsLink(fn);
    Prefix(a, Forth.LINK_SIZE, n);
    forall i | 0 <= i < |frames| ensures Range(a, n) !! Range(frames[i], 4) {
      Prefix(frames[i], 4, heap[frames[i]]);
    }
    if k < fn.nparams {
      var off, size := SlotOffset(fn, k), ScalarSize(fn.vars[k]);
      SlotFits(fn, k);
      StretchWithin(a, off, size, n);
      StretchesApart(a, 0, 4, off, size);
      assert Above(a, 0) == a;
      forall i | 0 <= i < |[a] + frames| ensures Range(Above(a, off), size) !! Range(([a] + frames)[i], 4) {
        if i > 0 {
          assert ([a] + frames)[i] == frames[i - 1];
        }
      }
    }
  }

  lemma FrameHoldsLink(fn: Func)
    ensures Forth.LINK_SIZE <= FrameBytes(fn)
  {
    OffsetAfterLink(Emit.Sizes(fn.vars), |fn.vars|);
  }

  lemma LoadStored(m: Mem, t: Type, a: Cell, v: Cell)
    ensures Load(Store(m, t, a, v), t, a) == Convert(t, v)
  {
    hide Fetch32, Store32;
    FetchStored(m, a, v);
  }

  lemma LoadElsewhere(m: Mem, t: Type, a: Cell, v: Cell, t': Type, b: Cell)
    requires Range(a, ScalarSize(t)) !! Range(b, ScalarSize(t'))
    ensures Load(Store(m, t, a, v), t', b) == Load(m, t', b)
  {
    hide Fetch32, Store32, Store8;
    StoresStayInRange(m, a, v);
    if t'.UChar? {
      assert Above(b, 0) == b;
      assert b in Range(b, 1);
    } else {
      FetchElsewhere(m, Store(m, t, a, v), a, ScalarSize(t), b);
    }
  }

  /** The running call has a frame of its own at a. */
  ghost predicate FrameAt(env: Env, a: Cell) {
    Framed(env.fn) && env.frames != [] && env.frames[0] == a
    && forall k :: 0 <= k < env.fn.nparams ==> Misses(env.frames, Above(a, SlotOffset(env.fn, k)), ScalarSize(env.fn.vars[k]))
  }

  function Param(env: Env, mem: Mem, k: nat): Cell
    requires env.fn.recursive && env.frames != [] && k < |env.fn.vars|
  {
    Load(mem, env.fn.vars[k], SlotAt(env, k).value)
  }

  /** Storing one argument: its parameter holds it, the others are as before. */
  lemma BindOne(env: Env, a: Cell, st: St, n: nat, v: Cell)
    requires FrameAt(env, a) && 0 < n <= env.fn.nparams
    ensures SlotAt(env, n - 1).Some?
    ensures var w := Write(env, st, env.fn.vars[n - 1], SlotAt(env, n - 1).value, v);
      w.Val? && Param(env, w.st.mem, n - 1) == Convert(env.fn.vars[n - 1], v)
      && forall j :: 0 <= j < env.fn.nparams && j != n - 1 ==> Param(env, w.st.mem, j) == Param(env, st.mem, j)
  {
    hide Load, Store, Convert, Misses, SlotOffset, Range, Above;
    var t := env.fn.vars[n - 1];
    SlotIsAbove(env, a, n - 1);
    var b := SlotAt(env, n - 1).value;
    LoadStored(st.mem, t, b, v);
    forall j | 0 <= j < env.fn.nparams && j != n - 1
      ensures Load(Store(st.mem, t, b, v), env.fn.vars[j], SlotAt(env, j).value) == Param(env, st.mem, j)
    {
      SlotIsAbove(env, a, j);
      SlotsApart(env.fn, a, if j < n - 1 then j else n - 1, if j < n - 1 then n - 1 else j);
      LoadElsewhere(st.mem, t, b, v, env.fn.vars[j], SlotAt(env, j).value);
    }
  }

  lemma BindFirst(env: Env, st: St, vs: seq<Cell>, n: nat)
    requires 0 < n <= |vs| && n <= |env.fn.vars| && SlotAt(env, n - 1).Some?
    ensures var w := Write(env, st, env.fn.vars[n - 1], SlotAt(env, n - 1).value, vs[n - 1]);
      w.Val? ==> Bind(env, st, vs, n) == Bind(env, w.st, vs, n - 1)
  {
    hide Write, SlotAt;
  }

  lemma {:induction false} BindLands(env: Env, a: Cell, st: St, vs: seq<Cell>, n: nat)
    requires FrameAt(env, a) && n <= env.fn.nparams <= |env.fn.vars| && n <= |vs|
    requires env.fn.recursive && env.frames != []
    ensures var r := Bind(env, st, vs, n);
      r.Val?
      && (forall i :: 0 <= i < n ==> Param(env, r.st.mem, i) == Convert(env.fn.vars[i], vs[i]))
      && (forall j :: n <= j < env.fn.nparams ==> Param(env, r.st.mem, j) == Param(env, st.mem, j))
    decreases n
  {
    hide Param, Write, SlotAt, Convert, FrameAt;
    if n > 0 {
      BindOne(env, a, st, n, vs[n - 1]);
      var w := Write(env, st, env.fn.vars[n - 1], SlotAt(env, n - 1).value, vs[n - 1]);
      BindLands(env, a, w.st, vs, n - 1);
      BindFirst(env, st, vs, n);
    }
  }

  lemma SlotIsAbove(env: Env, a: Cell, k: nat)
    requires env.fn.recursive && env.frames != [] && env.frames[0] == a
    ensures SlotAt(env, k) == Some(Above(a, SlotOffset(env.fn, k)))
  {
  }

  /** Under a sound allocator a call always gets its frame and its parameters,
      and each parameter holds the argument passed for it. */
  lemma ArgumentsLand(al: Allocator, frames: seq<Cell>, acts: Acts, f: FuncId, fn: Func, st: St, vs: seq<Cell>)
    requires Framed(fn) && !Clashes(acts, f, fn) && Sound(al, st.heap, FrameBytes(fn)) && Live(st.heap, frames) && |vs| == fn.nparams
    ensures var r := Enter(al, frames, acts, f, fn, st);
      r.Val? && Live(r.st.heap, r.v.frames) && r.v.fn == fn && r.v.frames != []
      && (var b := Bind(r.v, r.st, vs, fn.nparams);
          b.Val? && forall i :: 0 <= i < fn.nparams ==> Param(r.v, b.st.mem, i) == Convert(fn.vars[i], vs[i]))
  {
    hide Misses, FrameBytes, SlotOffset, Store32, Range, Load, Above;
    var a := al(st.heap, FrameBytes(fn));
    FrameHoldsLink(fn);
    FreshMisses(al, st.heap, frames, fn, fn.nparams);
    var r := Enter(al, frames, acts, f, fn, st);
    assert r.Val? && r.v == Env(f, fn, [a] + frames, acts.(active := acts.active + {f}));
    forall k | 0 <= k < fn.nparams
      ensures Misses(r.v.frames, Above(a, SlotOffset(fn, k)), ScalarSize(fn.vars[k]))
    {
      FreshMisses(al, st.heap, frames, fn, k);
    }
    BindLands(r.v, a, r.st, vs, fn.nparams);
  }
}
