/** The typed C tree the code generator walks: 32-bit signed `int`, unsigned
    `char`, pointers and arrays, after the node constructors have inserted the
    implicit casts and put the pointer operand of `+` and `-` first. */
module CTree {
  import opened Options
  import opened Cells

  datatype Type = Void | Int | UChar | Ptr(to: Type) | Arr(elem: Type, len: nat)

  /** Size in addressable units (bytes). */
  function SizeOf(t: Type): nat {
    match t
    case Void => 0
    case Int => 4
    case UChar => 1
    case Ptr(_) => 4
    case Arr(elem, len) => len * SizeOf(elem)
  }

  predicate Pointing(t: Type) {
    t.Ptr? || t.Arr?
  }

  predicate Scalar(t: Type) {
    t.Int? || t.UChar? || t.Ptr?
  }

  function Pointee(t: Type): Type {
    match t
    case Ptr(to) => to
    case Arr(elem, _) => elem
    case _ => Void
  }

  type FuncId = nat

  /** A name: a file-scope object at a fixed address, or a slot of the current
      function (its parameters first, then its other variables). */
  datatype Sym = Global(addr: Cell, gty: Type) | Local(slot: nat, lty: Type)

  function SymType(s: Sym): Type {
    if s.Global? then s.gty else s.lty
  }

  datatype UnOp = Plus | Neg | Compl | Not

  datatype BinOp = Mul | Div | Mod | Add | Sub | Shl | Shr
                 | Lt | Gt | Le | Ge | Eq | Ne | Band | Bxor | Bor

  datatype Expr =
    | IntLit(val: Cell)
    | Var(sym: Sym)
    | Index(arr: Expr, idx: Expr)
    | Unary(uop: UnOp, arg: Expr)
    | Deref(ptr: Expr)
    | AddrOf(lval: Expr)
    | IncDec(inc: bool, prefix: bool, lval: Expr)
    | Binary(op: BinOp, l: Expr, r: Expr)
    | Logic(conj: bool, l: Expr, r: Expr)
    | Comma(l: Expr, r: Expr)
    | Assign(l: Expr, r: Expr)
    | OpAssign(op: BinOp, l: Expr, r: Expr)
    | Cond(c: Expr, a: Expr, b: Expr)
    | Cast(to: Type, e: Expr)
    | Call(f: FuncId, ret: Type, args: Exprs)

  datatype Exprs = ENil | ECons(head: Expr, tail: Exprs)

  /** Initializers of the variables of a block, in declaration order. */
  datatype Inits = INil | ICons(slot: nat, ty: Type, init: Expr, rest: Inits)

  datatype Stmt =
    | Null
    | ExprS(e: Expr)
    | Compound(inits: Inits, body: Stmts)
    | If(c: Expr, then_: Stmt, else_: Stmt)
    | While(c: Expr, s: Stmt)
    | DoWhile(s: Stmt, c: Expr)
    | For(e1: Option<Expr>, e2: Option<Expr>, e3: Option<Expr>, s: Stmt)
    | Return(val: Option<Expr>)

  datatype Stmts = SNil | SCons(head: Stmt, tail: Stmts)

  /** A function definition, in its place `id` in the program text. `vars` are its
      slots' types, the first `nparams`
      of them parameters. Under the `recursive` pragma the slots live in a stack
      frame; otherwise each is a static variable at `statics[slot]`. */
  datatype Func = Func(ret: Type, vars: seq<Type>, nparams: nat, body: Stmt,
                       recursive: bool, statics: seq<Cell>, id: FuncId)

  type Program = map<FuncId, Func>

  function TypeOf(e: Expr): Type {
    match e
    case IntLit(_) => Int
    case Var(s) => SymType(s)
    case Index(arr, _) => Pointee(TypeOf(arr))
    case Unary(_, _) => Int
    case Deref(p) => Pointee(TypeOf(p))
    case AddrOf(x) => Ptr(TypeOf(x))
    case IncDec(_, _, x) => TypeOf(x)
    case Binary(op, l, r) =>
      if (op == Add || op == Sub) && Pointing(TypeOf(l)) then
        if op == Sub && Pointing(TypeOf(r)) then Int else TypeOf(l)
      else Int
    case Logic(_, _, _) => Int
    case Comma(_, r) => TypeOf(r)
    case Assign(l, _) => TypeOf(l)
    case OpAssign(_, l, _) => TypeOf(l)
    case Cond(_, a, _) => TypeOf(a)
    case Cast(t, _) => t
    case Call(_, ret, _) => ret
  }

  // ----- what the operators mean in C on this target -----

  /** Arithmetic on `int` wraps; division rounds toward minus infinity, which
      section 6.3.5 of ISO/IEC 9899:1990 lets the implementation choose. None
      is undefined behaviour. */
  function Arith(op: BinOp, x: Cell, y: Cell): Option<Cell> {
    match op
    case Mul => Some(Wrap(x * y))
    case Div => if y == 0 then None else Some(Wrap(FloorDiv(x, y)))
    case Mod => if y == 0 then None else Some(Wrap(FloorMod(x, y)))
    case Add => Some(Wrap(x + y))
    case Sub => Some(Wrap(x - y))
    case Shl => if 0 <= y < 32 then Some(Wrap(x * Pow2(y))) else None
    case Shr => if 0 <= y < 32 then Some(Wrap(x / Pow2(y))) else None
    case Lt => Some(Flag(x < y))
    case Gt => Some(Flag(x > y))
    case Le => Some(Flag(x <= y))
    case Ge => Some(Flag(x >= y))
    case Eq => Some(Flag(x == y))
    case Ne => Some(Flag(x != y))
    case Band => Some(BitwiseCell(BAnd, x, y))
    case Bxor => Some(BitwiseCell(BXor, x, y))
    case Bor => Some(BitwiseCell(BOr, x, y))
  }

  /** A binary operator on operands of the given types: pointers move by whole
      elements and two pointers subtract to a number of elements. */
  function Operate(op: BinOp, lt: Type, rt: Type, x: Cell, y: Cell): Option<Cell> {
    if Pointing(lt) && (op == Add || op == Sub) then
      var size := SizeOf(Pointee(lt));
      if op == Add then Some(Wrap(x + y * size))
      else if Pointing(rt) then
        if size == 0 then None else Some(Wrap(FloorDiv(Wrap(x - y), size)))
      else Some(Wrap(x - y * size))
    else Arith(op, x, y)
  }

  function UnaryOp(op: UnOp, x: Cell): Cell {
    match op
    case Plus => x
    case Neg => Wrap(0 - x)
    case Compl => Wrap(-1 - x)
    case Not => Flag(x == 0)
  }

  /** Conversion to a scalar type. */
  function Convert(t: Type, x: Cell): Cell {
    if t.UChar? then x % 256 else x
  }
}
