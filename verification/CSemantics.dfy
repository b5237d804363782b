/** The reference: what the C program does. Evaluation order is the one the
    generator picks where C leaves it open: operands left to right, the right
    side of `=` before its left, the left side of `op=` fetched before the right
    is evaluated. */
module CSemantics {
  import opened Options
  import opened Cells
  import opened Memory
  import opened CTree
  import Forth
  import Emit

  datatype St = St(mem: Mem, heap: Heap)

  /** The functions of the calls under way. If the semantics is strict, calling
      one of them again is undefined unless it keeps its variables in a frame:
      two activations would share storage that C gives to each of them alone. */
  datatype Acts = Acts(active: set<FuncId>, strict: bool)

  /** The running function, the addresses of the frames of all active calls that
      have one, newest first, and the active functions, itself included. */
  datatype Env = Env(id: FuncId, fn: Func, frames: seq<Cell>, acts: Acts)

  datatype Res<T> = Val(v: T, st: St) | Starve | Undefined

  datatype Flow = Fell | Returned(val: Option<Cell>)

  function ScalarSize(t: Type): nat {
    if t.UChar? then 1 else 4
  }

  function Load(m: Mem, t: Type, a: Cell): Cell {
    if t.UChar? then At(m, a) else Fetch32(m, a)
  }

  function Store(m: Mem, t: Type, a: Cell, v: Cell): Mem {
    if t.UChar? then Store8(m, a, v) else Store32(m, a, v)
  }

  /** A write that misses the link cells of all active frames. C objects never
      overlap those cells, so any other write is undefined. */
  predicate Misses(frames: seq<Cell>, a: Cell, n: nat) {
    forall i :: 0 <= i < |frames| ==> Range(a, n) !! Range(frames[i], 4)
  }

  function Write(env: Env, st: St, t: Type, a: Cell, v: Cell): Res<Cell> {
    if Misses(env.frames, a, ScalarSize(t)) then Val(v, st.(mem := Store(st.mem, t, a, v)))
    else Undefined
  }

  /** Total size of a frame, link included. */
  function FrameBytes(f: Func): nat {
    Forth.Offset(Emit.Sizes(f.vars), |f.vars|)
  }

  /** Where a slot of the running function lives. */
  function SlotAt(env: Env, slot: nat): Option<Cell> {
    if env.fn.recursive then
      if env.frames == [] then None
      else Some(Wrap(env.frames[0] + Forth.Offset(Emit.Sizes(env.fn.vars), slot)))
    else if slot < |env.fn.statics| then Some(env.fn.statics[slot])
    else None
  }

  function SymAt(env: Env, s: Sym): Option<Cell> {
    match s
    case Global(a, _) => Some(a)
    case Local(slot, _) => SlotAt(env, slot)
  }

  function Step(t: Type): int {
    if t.Ptr? then SizeOf(t.to) else 1
  }

  // ----- entering and leaving a function -----

  function TopFrame(frames: seq<Cell>): Cell {
    if frames == [] then 0 else frames[0]
  }

  /** Would the call share its variables with one under way? */
  predicate Clashes(acts: Acts, f: FuncId, fn: Func) {
    acts.strict && !fn.recursive && f in acts.active
  }

  /** Make the activation record: undefined if the allocator has no room or
      breaks its contract of handing out a fresh block. */
  function Enter(al: Allocator, frames: seq<Cell>, acts: Acts, f: FuncId, fn: Func, st: St): Res<Env> {
    var acts' := acts.(active := acts.active + {f});
    if Clashes(acts, f, fn) then Undefined
    else if Emit.HasFrame(fn) then
      var n := FrameBytes(fn);
      var a := al(st.heap, n);
      if a == 0 || a in st.heap || !Misses(frames, a, 4) then Undefined
      else Val(Env(f, fn, [a] + frames, acts'), St(Store32(st.mem, a, TopFrame(frames)), st.heap[a := n]))
    else Val(Env(f, fn, frames, acts'), st)
  }

  /** Arguments n-1 down to 0 move into their slots. */
  function Bind(env: Env, st: St, vs: seq<Cell>, n: nat): Res<Cell>
    requires n <= |vs| && n <= |env.fn.vars|
    decreases n
  {
    if n == 0 then Val(0, st)
    else
      var a := SlotAt(env, n - 1);
      if a.None? then Undefined
      else
        var r := Write(env, st, env.fn.vars[n - 1], a.value, vs[n - 1]);
        if r.Val? then Bind(env, r.st, vs, n - 1) else r
  }

  function Leave(env: Env, st: St): St {
    if Emit.HasFrame(env.fn) && env.frames != [] then st.(heap := st.heap - {env.frames[0]}) else st
  }

  // ----- expressions -----

  /** The value of an expression; a void one yields 0, an array its address. */
  function Eval(p: Program, al: Allocator, env: Env, st: St, e: Expr, fuel: nat): Res<Cell>
    decreases fuel, e, 1
  {
    match e
    case IntLit(v) => Val(v, st)
    case Var(_) => Fetch(TypeOf(e), Address(p, al, env, st, e, fuel))
    case Index(_, _) => Fetch(TypeOf(e), Address(p, al, env, st, e, fuel))
    case Deref(_) => Fetch(TypeOf(e), Address(p, al, env, st, e, fuel))
    case AddrOf(x) => Address(p, al, env, st, x, fuel)
    case Unary(op, x) =>
      var r := Eval(p, al, env, st, x, fuel);
      if r.Val? then Val(UnaryOp(op, r.v), r.st) else r
    case IncDec(inc, prefix, x) =>
      Bump(env, inc, prefix, TypeOf(x), Address(p, al, env, st, x, fuel))
    case Binary(op, l, r) =>
      var x := Eval(p, al, env, st, l, fuel);
      if !x.Val? then x
      else
        var y := Eval(p, al, env, x.st, r, fuel);
        if !y.Val? then y else Answer(Operate(op, TypeOf(l), TypeOf(r), x.v, y.v), y.st)
    case Logic(conj, l, r) =>
      var x := Eval(p, al, env, st, l, fuel);
      if !x.Val? then x
      else if (x.v != 0) != conj then Val(Flag(!conj), x.st)
      else
        var y := Eval(p, al, env, x.st, r, fuel);
        if y.Val? then Val(Flag(y.v != 0), y.st) else y
    case Comma(l, r) =>
      var x := Eval(p, al, env, st, l, fuel);
      if x.Val? then Eval(p, al, env, x.st, r, fuel) else x
    case Assign(l, r) =>
      var y := Eval(p, al, env, st, r, fuel);
      if !y.Val? then y
      else
        Assigned(env, TypeOf(l), Address(p, al, env, y.st, l, fuel), y.v)
    case OpAssign(op, l, r) =>
      var a := Address(p, al, env, st, l, fuel);
      if !a.Val? then a
      else
        var t := TypeOf(l);
        var before := Load(a.st.mem, t, a.v);
        var y := Eval(p, al, env, a.st, r, fuel);
        if !y.Val? then y
        else
          var z := Operate(op, t, TypeOf(r), before, y.v);
          if z.None? then Undefined else Write(env, y.st, t, a.v, Convert(t, z.value))
    case Cond(c, a, b) =>
      var x := Eval(p, al, env, st, c, fuel);
      if x.Val? then Eval(p, al, env, x.st, if x.v != 0 then a else b, fuel) else x
    case Cast(t, x) =>
      var r := Eval(p, al, env, st, x, fuel);
      if r.Val? then Val(Convert(t, r.v), r.st) else r
    case Call(f, _, args) =>
      var vs := EvalArgs(p, al, env, st, args, fuel);
      if vs.Starve? then Starve
      else if vs.Undefined? then Undefined
      else if fuel == 0 then Starve
      else if f !in p || |vs.v| != p[f].nparams || p[f].nparams > |p[f].vars| then Undefined
      else
        var enter := Enter(al, env.frames, env.acts, f, p[f], vs.st);
        if !enter.Val? then Undefined
        else
          var bound := Bind(enter.v, enter.st, vs.v, p[f].nparams);
          if !bound.Val? then Undefined
          else
            var r := Exec(p, al, enter.v, bound.st, p[f].body, fuel - 1);
            if r.Starve? then Starve
            else if r.Undefined? then Undefined
            else if p[f].ret.Void? then Val(0, Leave(enter.v, r.st))
            else if r.v.Returned? && r.v.val.Some? then Val(r.v.val.value, Leave(enter.v, r.st))
            else Undefined
  }

  /** `++` and `--` on the object at an address. */
  function Bump(env: Env, inc: bool, prefix: bool, t: Type, a: Res<Cell>): Res<Cell> {
    if !a.Val? then a
    else
      var before := Load(a.st.mem, t, a.v);
      var after := Convert(t, Bumped(inc, t, before));
      var w := Write(env, a.st, t, a.v, after);
      if w.Val? then Val(if prefix then after else before, w.st) else w
  }

  function Bumped(inc: bool, t: Type, x: Cell): Cell {
    Wrap(if inc then x + Step(t) else x - Step(t))
  }

  /** Assign a value, converted, to the object at an address. */
  function Assigned(env: Env, t: Type, a: Res<Cell>, v: Cell): Res<Cell> {
    if a.Val? then Write(env, a.st, t, a.v, Convert(t, v)) else a
  }

  function Fetch(t: Type, a: Res<Cell>): Res<Cell> {
    if a.Val? && !t.Arr? then Val(Load(a.st.mem, t, a.v), a.st) else a
  }

  function Answer(x: Option<Cell>, st: St): Res<Cell> {
    if x.Some? then Val(x.value, st) else Undefined
  }

  /** The address an lvalue designates. */
  function Address(p: Program, al: Allocator, env: Env, st: St, e: Expr, fuel: nat): Res<Cell>
    decreases fuel, e, 0
  {
    match e
    case Var(s) => Answer(SymAt(env, s), st)
    case Index(a, i) =>
      var x := Eval(p, al, env, st, a, fuel);
      if !x.Val? then x
      else
        var y := Eval(p, al, env, x.st, i, fuel);
        if y.Val? then Val(Wrap(x.v + y.v * SizeOf(Pointee(TypeOf(a)))), y.st) else y
    case Deref(x) => Eval(p, al, env, st, x, fuel)
    case _ => Undefined
  }

  function EvalArgs(p: Program, al: Allocator, env: Env, st: St, args: Exprs, fuel: nat): Res<seq<Cell>>
    decreases fuel, args, 0
  {
    match args
    case ENil => Val([], st)
    case ECons(x, rest) =>
      var r := Eval(p, al, env, st, x, fuel);
      if r.Starve? then Starve
      else if r.Undefined? then Undefined
      else
        var rs := EvalArgs(p, al, env, r.st, rest, fuel);
        if rs.Val? then Val([r.v] + rs.v, rs.st) else rs
  }

  // ----- statements -----

  function Effect(p: Program, al: Allocator, env: Env, st: St, e: Expr, fuel: nat): Res<Flow>
    decreases fuel, e, 2
  {
    var r := Eval(p, al, env, st, e, fuel);
    if r.Val? then Val(Fell, r.st) else if r.Starve? then Starve else Undefined
  }

  function Exec(p: Program, al: Allocator, env: Env, st: St, s: Stmt, fuel: nat): Res<Flow>
    decreases fuel, s, 1
  {
    match s
    case Null => Val(Fell, st)
    case ExprS(e) => Effect(p, al, env, st, e, fuel)
    case Compound(inits, body) =>
      var r := Init(p, al, env, st, inits, fuel);
      if r.Val? then ExecBody(p, al, env, r.st, body, fuel) else r
    case If(c, t, e) =>
      var x := Eval(p, al, env, st, c, fuel);
      if x.Starve? then Starve
      else if x.Undefined? then Undefined
      else Exec(p, al, env, x.st, if x.v != 0 then t else e, fuel)
    case While(c, b) =>
      var x := Eval(p, al, env, st, c, fuel);
      if x.Starve? then Starve
      else if x.Undefined? then Undefined
      else if x.v == 0 then Val(Fell, x.st)
      else
        var r := Exec(p, al, env, x.st, b, fuel);
        if !r.Val? || r.v.Returned? then r
        else if fuel == 0 then Starve
        else Exec(p, al, env, r.st, s, fuel - 1)
    case DoWhile(b, c) =>
      var r := Exec(p, al, env, st, b, fuel);
      if !r.Val? || r.v.Returned? then r
      else
        var x := Eval(p, al, env, r.st, c, fuel);
        if x.Starve? then Starve
        else if x.Undefined? then Undefined
        else if x.v == 0 then Val(Fell, x.st)
        else if fuel == 0 then Starve
        else Exec(p, al, env, x.st, s, fuel - 1)
    case For(e1, _, _, _) =>
      var r := EffectOpt(p, al, env, st, e1, fuel);
      if r.Val? then ForLoop(p, al, env, r.st, s, fuel) else r
    case Return(v) =>
      if v.None? then Val(Returned(None), st)
      else
        var x := Eval(p, al, env, st, v.value, fuel);
        if x.Val? then Val(Returned(Some(x.v)), x.st) else if x.Starve? then Starve else Undefined
  }

  /** A `for` statement after its first expression; an absent condition is true. */
  function ForLoop(p: Program, al: Allocator, env: Env, st: St, s: Stmt, fuel: nat): Res<Flow>
    requires s.For?
    decreases fuel, s, 0
  {
    var x := if s.e2.Some? then Eval(p, al, env, st, s.e2.value, fuel) else Val(1, st);
    if x.Starve? then Starve
    else if x.Undefined? then Undefined
    else if x.v == 0 then Val(Fell, x.st)
    else
      var r := Exec(p, al, env, x.st, s.s, fuel);
      if !r.Val? || r.v.Returned? then r
      else
        var r3 := EffectOpt(p, al, env, r.st, s.e3, fuel);
        if !r3.Val? then r3
        else if fuel == 0 then Starve
        else ForLoop(p, al, env, r3.st, s, fuel - 1)
  }

  function EffectOpt(p: Program, al: Allocator, env: Env, st: St, e: Option<Expr>, fuel: nat): Res<Flow>
    decreases fuel, e, 3
  {
    if e.Some? then Effect(p, al, env, st, e.value, fuel) else Val(Fell, st)
  }

  function Init(p: Program, al: Allocator, env: Env, st: St, inits: Inits, fuel: nat): Res<Flow>
    decreases fuel, inits, 0
  {
    match inits
    case INil => Val(Fell, st)
    case ICons(slot, t, init, rest) =>
      var r := Eval(p, al, env, st, init, fuel);
      if r.Starve? then Starve
      else if r.Undefined? || SlotAt(env, slot).None? then Undefined
      else
        var w := Write(env, r.st, t, SlotAt(env, slot).value, Convert(t, r.v));
        if w.Val? then Init(p, al, env, w.st, rest, fuel) else Undefined
  }

  function ExecBody(p: Program, al: Allocator, env: Env, st: St, ss: Stmts, fuel: nat): Res<Flow>
    decreases fuel, ss, 0
  {
    match ss
    case SNil => Val(Fell, st)
    case SCons(s, rest) =>
      var r := Exec(p, al, env, st, s, fuel);
      if !r.Val? || r.v.Returned? then r
      else ExecBody(p, al, env, r.st, rest, fuel)
  }
}
