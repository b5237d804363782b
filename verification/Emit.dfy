/** What the generator emits for every node of the C tree. */
module Emit {
  import opened Options
  import opened Cells
  import opened CTree
  import opened ConstFold
  import opened Forth

  /** The function whose body is being generated. */
  datatype Ctx = Ctx(id: FuncId, fn: Func)

  function Sizes(vars: seq<Type>): (s: seq<nat>)
    ensures |s| == |vars|
    ensures forall i :: 0 <= i < |vars| ==> s[i] == SizeOf(vars[i])
  {
    if |vars| == 0 then [] else Sizes(vars[..|vars| - 1]) + [SizeOf(vars[|vars| - 1])]
  }

  /** A function keeps its variables in a stack frame under the `recursive`
      pragma, unless they take no room at all. */
  predicate HasFrame(f: Func) {
    f.recursive && exists i | 0 <= i < |f.vars| :: SizeOf(f.vars[i]) != 0
  }

  function Words2(a: Word, b: Word): Frag {
    Cat(W(a), W(b))
  }

  function Words3(a: Word, b: Word, c: Word): Frag {
    Cat(W(a), Words2(b, c))
  }

  function Get(t: Type): Frag {
    W(Op(if t.UChar? then PCFetch else PLFetch))
  }

  function Set(t: Type): Frag {
    W(Op(if t.UChar? then PCStore else PLStore))
  }

  /** The address of a slot of the current function. */
  function SlotAddress(cx: Ctx, slot: nat): Frag {
    if cx.fn.recursive then Words2(Frame, Field(cx.id, slot))
    else if slot < |cx.fn.statics| then W(Place(cx.fn.statics[slot]))
    else Skip
  }

  function SymAddress(cx: Ctx, s: Sym): Frag {
    match s
    case Global(a, _) => W(Place(a))
    case Local(slot, _) => SlotAddress(cx, slot)
  }

  /** `size *`, left out for single units. */
  function Scale(size: nat): Frag {
    if size == 1 then Skip else Words2(Lit(Wrap(size)), Op(PMul))
  }

  /** `n +`, left out for zero. */
  function Displace(n: Cell): Frag {
    if n == 0 then Skip else Words2(Lit(n), Op(PAdd))
  }

  /** A comparison, its true flag cut down to 1. */
  function Compare(p: Prim): Frag {
    Words3(Op(p), Lit(1), Op(PAnd))
  }

  /** The operator of `x op= y`, and of `x op y` between integers. */
  function ArithTail(op: BinOp): Frag {
    match op
    case Mul => W(Op(PMul))
    case Div => W(Op(PDiv))
    case Mod => W(Op(PMod))
    case Add => W(Op(PAdd))
    case Sub => W(Op(PSub))
    case Shl => W(Op(PLshift))
    case Shr => W(Op(PRshiftA))
    case Lt => Compare(PLt)
    case Gt => Compare(PGt)
    case Le => Compare(PLe)
    case Ge => Compare(PGe)
    case Eq => Compare(PEq)
    case Ne => Compare(PNe)
    case Band => W(Op(PAnd))
    case Bxor => W(Op(PXor))
    case Bor => W(Op(POr))
  }

  function BinaryTail(op: BinOp, lt: Type, rt: Type): Frag {
    var size := SizeOf(Pointee(lt));
    if op == Add && Pointing(lt) then Cat(Scale(size), W(Op(PAdd)))
    else if op == Sub && Pointing(lt) then
      if size == 1 then Skip   // no operator at all
      else if Pointing(rt) then Words3(Op(PSub), Lit(Wrap(size)), Op(PDiv))
      else Words3(Lit(Wrap(size)), Op(PMul), Op(PSub))
    else ArithTail(op)
  }

  /** The operator of an assignment: `%=` is emitted as an addition. */
  function AssignTail(op: BinOp, lt: Type): Frag {
    if op == Mod then W(Op(PAdd))
    else if (op == Add || op == Sub) && Pointing(lt) then
      Cat(Scale(SizeOf(Pointee(lt))), W(Op(if op == Add then PAdd else PSub)))
    else ArithTail(op)
  }

  /** Store the value on top of the stack at the address below it, keeping a
      copy of the value. */
  function KeepAndSet(t: Type): Frag {
    Cat(Words2(Op(PTuck), Op(PSwap)), Set(t))
  }

  /** `++` and `--` on the lvalue whose address is on the stack. */
  function Bump(inc: bool, prefix: bool, t: Type): Frag {
    var step := Lit(if t.Ptr? then Wrap(SizeOf(t.to)) else 1);
    var change := Words2(step, Op(if inc then PAdd else PSub));
    Cat(Cat(W(Op(PDup)), Get(t)),
        Cat(if prefix then Cat(change, W(Op(PTuck))) else Cat(W(Op(PTuck)), change),
            Cat(W(Op(PSwap)), Set(t))))
  }

  function UnaryTail(op: UnOp): Frag {
    match op
    case Plus => Skip
    case Neg => W(Op(PNegate))
    case Compl => W(Op(PInvert))
    case Not => Cat(Words2(Op(PZeroNe), Op(PInvert)), Words2(Lit(1), Op(PAnd)))
  }

  function Discard(t: Type): Frag {
    if t.Void? then Skip else W(Op(PDrop))
  }

  /** Conversions between widths; a pointer is as wide as an int. */
  function CastTail(to: Type, from: Type): Frag {
    if to.Void? then W(Op(PDrop))
    else if to.UChar? != from.UChar? then Words2(Lit(255), Op(PAnd))
    else Skip
  }

  /** The value of an expression. */
  function EmitR(cx: Ctx, e: Expr): Frag
    decreases e, 1
  {
    match e
    case IntLit(v) => W(Lit(v))
    case Var(s) => if SymType(s).Arr? then EmitL(cx, e) else Cat(EmitL(cx, e), Get(SymType(s)))
    case Index(_, _) => if TypeOf(e).Arr? then EmitL(cx, e) else Cat(EmitL(cx, e), Get(TypeOf(e)))
    case Unary(op, x) =>
      if IsIntExpr(e) then W(Lit(FoldValue(e))) else Cat(EmitR(cx, x), UnaryTail(op))
    case Deref(p) => if p.AddrOf? then EmitR(cx, p.lval) else Cat(EmitL(cx, e), Get(TypeOf(e)))
    case AddrOf(x) => if x.Deref? then EmitR(cx, x.ptr) else EmitL(cx, x)
    case IncDec(inc, prefix, x) => Cat(EmitL(cx, x), Bump(inc, prefix, TypeOf(x)))
    case Binary(op, l, r) =>
      if IsIntExpr(e) then W(Lit(FoldValue(e)))
      else Cat(Cat(EmitR(cx, l), EmitR(cx, r)), BinaryTail(op, TypeOf(l), TypeOf(r)))
    case Logic(conj, l, r) =>
      if IsIntExpr(e) then W(Lit(FoldValue(e)))
      else Cat(Cat(EmitR(cx, l), Words2(Op(PDup), Op(if conj then PZeroNe else PZeroEq))),
               IfThen(Cat(W(Op(PDrop)), EmitR(cx, r))))
    case Comma(l, r) =>
      if IsIntExpr(e) then W(Lit(FoldValue(e)))
      else Cat(Cat(EmitR(cx, l), Discard(TypeOf(l))), EmitR(cx, r))
    case Assign(l, r) => Cat(Cat(EmitR(cx, r), W(Op(PDup))), Cat(EmitL(cx, l), Set(TypeOf(l))))
    case OpAssign(op, l, r) =>
      Cat(Cat(EmitL(cx, l), Cat(W(Op(PDup)), Get(TypeOf(l)))),
          Cat(Cat(EmitR(cx, r), AssignTail(op, TypeOf(l))), KeepAndSet(TypeOf(l))))
    case Cond(c, a, b) => Cat(EmitR(cx, c), IfElse(EmitR(cx, a), EmitR(cx, b)))
    case Cast(t, x) =>
      if t.Ptr? && TypeOf(x).Arr? then EmitL(cx, x)
      else Cat(EmitR(cx, x), CastTail(t, TypeOf(x)))
    case Call(f, _, args) => Cat(EmitArgs(cx, args), W(Do(f)))
  }

  /** The address of an lvalue. */
  function EmitL(cx: Ctx, e: Expr): Frag
    decreases e, 0
  {
    match e
    case Var(s) => SymAddress(cx, s)
    case Index(a, i) =>
      var size := SizeOf(Pointee(TypeOf(a)));
      Cat(EmitR(cx, a),
          if IsIntExpr(i) then Displace(LibMul(FoldValue(i), Wrap(size)))
          else Cat(Cat(EmitR(cx, i), Scale(size)), W(Op(PAdd))))
    case Deref(p) => EmitR(cx, p)
    case AddrOf(x) => EmitL(cx, x)
    case IncDec(inc, prefix, x) => Cat(EmitL(cx, x), Bump(inc, prefix, TypeOf(x)))
    case Binary(op, l, r) =>
      var size := SizeOf(TypeOf(l));   // the whole left operand, not its element
      Cat(Cat(EmitR(cx, l), EmitR(cx, r)),
          if op == Add then Cat(if Pointing(TypeOf(r)) then Skip else Scale(size), W(Op(PAdd)))
          else Words3(Op(PSub), Lit(Wrap(size)), Op(PDiv)))
    case Cond(c, a, b) => Cat(EmitR(cx, c), IfElse(EmitR(cx, a), EmitR(cx, b)))
    case Cast(t, x) =>
      if t.Ptr? && TypeOf(x).Arr? then EmitL(cx, x)
      else Cat(EmitR(cx, x), CastTail(t, TypeOf(x)))
    case Call(f, _, args) => Cat(EmitArgs(cx, args), W(Do(f)))
    case _ => Skip
  }

  /** Arguments, first one deepest. */
  function EmitArgs(cx: Ctx, args: Exprs): Frag
    decreases args, 0
  {
    match args
    case ENil => Skip
    case ECons(x, rest) => Cat(EmitR(cx, x), EmitArgs(cx, rest))
  }

  // ----- statements -----

  /** Unlink and free the current frame. */
  function PopFrame(cx: Ctx): Frag {
    if HasFrame(cx.fn) then
      Cat(Cat(Words3(Frame, Op(PDup), Op(PLFetch)), W(ToFrame)), Words2(FrameSize(cx.id), Op(PFree)))
    else Skip
  }

  function EmitInits(cx: Ctx, inits: Inits): Frag {
    match inits
    case INil => Skip
    case ICons(slot, ty, init, rest) =>
      Cat(Cat(EmitR(cx, init), Cat(SlotAddress(cx, slot), Set(ty))), EmitInits(cx, rest))
  }

  function EmitS(cx: Ctx, s: Stmt): Frag {
    match s
    case Null => Skip
    case ExprS(e) => EmitEffect(cx, e)
    case Compound(inits, body) => Cat(EmitInits(cx, inits), EmitBody(cx, body))
    case If(c, t, e) =>
      Cat(EmitR(cx, c), if e.Null? then IfThen(EmitS(cx, t)) else IfElse(EmitS(cx, t), EmitS(cx, e)))
    case While(c, b) => Loop(EmitR(cx, c), EmitS(cx, b))
    case DoWhile(b, c) => Loop(Cat(EmitS(cx, b), EmitR(cx, c)), Skip)
    case For(e1, e2, e3, b) =>
      var turn := Cat(EmitS(cx, b), EmitOpt(cx, e3));
      Cat(EmitOpt(cx, e1), if e2.Some? then Loop(EmitR(cx, e2.value), turn) else Endless(turn))
    case Return(v) =>
      Cat(Cat(if v.Some? then EmitR(cx, v.value) else Skip, PopFrame(cx)), W(Exit))
  }

  /** An expression cast to void: its value is dropped if it has one. */
  function EmitEffect(cx: Ctx, e: Expr): Frag {
    Cat(EmitR(cx, e), Discard(TypeOf(e)))
  }

  function EmitOpt(cx: Ctx, e: Option<Expr>): Frag {
    if e.Some? then EmitEffect(cx, e.value) else Skip
  }

  function EmitBody(cx: Ctx, ss: Stmts): Frag {
    match ss
    case SNil => Skip
    case SCons(s, rest) => Cat(EmitS(cx, s), EmitBody(cx, rest))
  }

  // ----- functions -----

  /** Allocate and link a frame. */
  function PushFrame(cx: Ctx): Frag {
    if HasFrame(cx.fn) then
      Cat(Cat(Words3(FrameSize(cx.id), Op(PAlloc), Op(PDup)), Words2(Frame, Op(PSwap))),
          Words2(Op(PLStore), ToFrame))
    else Skip
  }

  /** Pop the first n arguments into their slots, last one first. */
  function SaveParams(cx: Ctx, n: nat): Frag
    requires n <= |cx.fn.vars|
  {
    if n == 0 then Skip
    else Cat(Cat(SlotAddress(cx, n - 1), Set(cx.fn.vars[n - 1])), SaveParams(cx, n - 1))
  }

  /** What `check_return` finds at the end of a statement; the kinds that matter. */
  datatype NodeType = NUnknown | NExpr | NCompound | NIf | NWhile | NDoWhile | NFor | NReturn

  function CheckReturn(s: Stmt): NodeType {
    match s
    case Null => NExpr
    case ExprS(_) => NExpr
    case Compound(_, body) => if body.SNil? then NCompound else CheckLast(body)
    case If(_, t, e) =>
      if e.Null? then NIf
      else if CheckReturn(t) != NReturn then CheckReturn(t)
      else CheckReturn(e)
    case While(c, b) => if IsIntExpr(c) && FoldValue(c) != 0 then CheckReturn(b) else NWhile
    case DoWhile(b, c) => if IsIntExpr(c) && FoldValue(c) != 0 then CheckReturn(b) else NDoWhile
    case For(_, c, _, b) => if c.Some? && IsIntExpr(c.value) && FoldValue(c.value) != 0 then CheckReturn(b) else NFor
    case Return(_) => NReturn
  }

  function CheckLast(ss: Stmts): NodeType
    requires ss.SCons?
  {
    if ss.tail.SNil? then CheckReturn(ss.head) else CheckLast(ss.tail)
  }

  /** The frame is popped at the end of a void function, and where the check
      comes back as zero, which stands for an unknown node. */
  predicate HasEpilogue(fn: Func) {
    fn.ret.Void? || CheckReturn(fn.body).NUnknown?
  }

  lemma {:induction false} NeverUnknown(s: Stmt)
    ensures CheckReturn(s) != NUnknown
  {
    match s
    case Compound(_, body) => if body.SCons? { LastNeverUnknown(body); }
    case If(_, t, e) => NeverUnknown(t); NeverUnknown(e);
    case While(_, b) => NeverUnknown(b);
    case DoWhile(b, _) => NeverUnknown(b);
    case For(_, _, _, b) => NeverUnknown(b);
    case _ =>
  }

  lemma {:induction false} LastNeverUnknown(ss: Stmts)
    requires ss.SCons?
    ensures CheckLast(ss) != NUnknown
  {
    if ss.tail.SNil? { NeverUnknown(ss.head); } else { LastNeverUnknown(ss.tail); }
  }

  /** No node is unknown, so a function that falls off its end without returning
      the value it should gets no epilogue. */
  lemma EpilogueOnlyIfVoid(fn: Func)
    ensures HasEpilogue(fn) <==> fn.ret.Void?
  {
    NeverUnknown(fn.body);
  }

  function EmitFunc(cx: Ctx): Frag
    requires cx.fn.nparams <= |cx.fn.vars|
  {
    Cat(Cat(PushFrame(cx), SaveParams(cx, cx.fn.nparams)),
        Cat(EmitS(cx, cx.fn.body), if HasEpilogue(cx.fn) then PopFrame(cx) else Skip))
  }

  ghost predicate ParamsFit(p: Program) {
    forall f :: f in p ==> p[f].nparams <= |p[f].vars|
  }

  /** The dictionary the generated program builds. */
  function Dictionary(p: Program): Dict
    requires ParamsFit(p)
  {
    map f | f in p :: Def(Sizes(p[f].vars), EmitFunc(Ctx(f, p[f])))
  }
}
