/** What the short word groups of the generator do to the machine. */
module WordLemmas {
  import opened Options
  import opened Cells
  import opened Memory
  import opened CTree
  import opened ConstFold
  import opened Forth
  import opened Emit
  import opened CSemantics

  // ----- one word -----

  lemma DoPlace(d: Dict, al: Allocator, a: Cell, m: Mach)
    ensures Perform(d, al, Place(a), m) == Some(m.(ds := Push(a, m.ds)))
  {
  }

  lemma DoLit(d: Dict, al: Allocator, n: Cell, m: Mach)
    ensures Perform(d, al, Lit(n), m) == Some(m.(ds := Push(n, m.ds)))
  {
  }

  lemma DoBinop(d: Dict, al: Allocator, p: Prim, x: Cell, y: Cell, s: Stack, m: Mach)
    requires m.ds == Push(y, Push(x, s)) && Binop(p, x, y).Some?
    ensures Perform(d, al, Op(p), m) == Some(m.(ds := Push(Binop(p, x, y).value, s)))
  {
    hide Wrap, Bits, DivMod, BitwiseCell, Pow2;
  }

  lemma DoUnop(d: Dict, al: Allocator, p: Prim, m: Mach)
    requires m.ds.Push? && Unop(p, m.ds.top, m).Some?
    ensures Perform(d, al, Op(p), m) == Some(m.(ds := Push(Unop(p, m.ds.top, m).value, m.ds.below)))
  {
    hide Unop, Binop;
  }

  lemma DoShuffle(d: Dict, al: Allocator, x: Cell, s: Stack, m: Mach)
    requires m.ds == Push(x, s)
    ensures Perform(d, al, Op(PDup), m) == Some(m.(ds := Push(x, m.ds)))
    ensures Perform(d, al, Op(PDrop), m) == Some(m.(ds := s))
    ensures s.Push? ==> Perform(d, al, Op(PSwap), m) == Some(m.(ds := Push(s.top, Push(x, s.below))))
    ensures s.Push? ==> Perform(d, al, Op(PTuck), m) == Some(m.(ds := Push(x, Push(s.top, Push(x, s.below)))))
  {
  }

  // ----- groups -----

  lemma RunGet(d: Dict, al: Allocator, t: Type, m: Mach, fuel: nat)
    requires m.ds.Push?
    ensures Run(d, al, Get(t), m, fuel) == Next(m.(ds := Push(Load(m.mem, t, m.ds.top), m.ds.below)))
  {
    hide Run, Perform;
    var p := if t.UChar? then PCFetch else PLFetch;
    DoUnop(d, al, p, m);
    RunWord(d, al, Op(p), m, fuel);
  }

  lemma RunSet(d: Dict, al: Allocator, t: Type, m: Mach, fuel: nat)
    requires m.ds.Push? && m.ds.below.Push?
    ensures Run(d, al, Set(t), m, fuel)
         == Next(m.(ds := m.ds.below.below, mem := Store(m.mem, t, m.ds.top, m.ds.below.top)))
  {
    hide Run, Store8, Store32;
    RunWord(d, al, Op(if t.UChar? then PCStore else PLStore), m, fuel);
  }

  lemma RunScale(d: Dict, al: Allocator, size: nat, m: Mach, fuel: nat)
    requires m.ds.Push?
    ensures Run(d, al, Scale(size), m, fuel) == Next(m.(ds := Push(Wrap(m.ds.top * size), m.ds.below)))
  {
    var y := m.ds.top;
    if size == 1 {
      hide Perform;
    } else {
      hide Run, Perform;
      var m1 := m.(ds := Push(Wrap(size), m.ds));
      DoLit(d, al, Wrap(size), m);
      RunFirst(d, al, Lit(Wrap(size)), W(Op(PMul)), m, fuel);
      DoBinop(d, al, PMul, y, Wrap(size), m.ds.below, m1);
      RunWord(d, al, Op(PMul), m1, fuel);
      ScaleWraps(y, size);
    }
  }

  lemma ScaleWraps(y: Cell, size: nat)
    ensures Wrap(y * Wrap(size)) == Wrap(y * size)
  {
    WrapMul(size, y);
    assert Wrap(size) * y == y * Wrap(size) && size * y == y * size;
  }

  lemma RunDisplace(d: Dict, al: Allocator, n: Cell, m: Mach, fuel: nat)
    requires m.ds.Push?
    ensures Run(d, al, Displace(n), m, fuel) == Next(m.(ds := Push(Wrap(m.ds.top + n), m.ds.below)))
  {
    if n == 0 {
      hide Perform;
    } else {
      hide Run, Perform, Wrap;
      var m1 := m.(ds := Push(n, m.ds));
      DoLit(d, al, n, m);
      RunFirst(d, al, Lit(n), W(Op(PAdd)), m, fuel);
      DoBinop(d, al, PAdd, m.ds.top, n, m.ds.below, m1);
      RunWord(d, al, Op(PAdd), m1, fuel);
    }
  }

  lemma AndOne(b: bool)
    ensures BitwiseCell(BAnd, Truth(b), 1) == Flag(b)
  {
    hide Bitwise;
    assert Pow2(1) == 2 * Pow2(0) == 2;
    MaskIsMod(Bits(Truth(b)), 1, 32);
  }

  /** `1 and`, after a flag word. */
  lemma RunAndOne(d: Dict, al: Allocator, b: bool, m: Mach, fuel: nat)
    requires m.ds.Push? && m.ds.top == Truth(b)
    ensures Run(d, al, Words2(Lit(1), Op(PAnd)), m, fuel) == Next(m.(ds := Push(Flag(b), m.ds.below)))
  {
    hide Run, Perform, BitwiseCell;
    var m1 := m.(ds := Push(1, m.ds));
    DoLit(d, al, 1, m);
    RunFirst(d, al, Lit(1), W(Op(PAnd)), m, fuel);
    DoBinop(d, al, PAnd, m.ds.top, 1, m.ds.below, m1);
    RunWord(d, al, Op(PAnd), m1, fuel);
    AndOne(b);
  }

  /** The flag words give -1 for true; `1 and` makes it C's 1. */
  lemma RunCompare(d: Dict, al: Allocator, p: Prim, b: bool, x: Cell, y: Cell, s: Stack, m: Mach, fuel: nat)
    requires m.ds == Push(y, Push(x, s)) && Binop(p, x, y) == Some(Truth(b))
    ensures Run(d, al, Compare(p), m, fuel) == Next(m.(ds := Push(Flag(b), s)))
  {
    hide Run, Perform, Binop;
    DoBinop(d, al, p, x, y, s, m);
    RunFirst(d, al, Op(p), Words2(Lit(1), Op(PAnd)), m, fuel);
    RunAndOne(d, al, b, m.(ds := Push(Truth(b), s)), fuel);
  }

  /** The engine divides by rounding toward minus infinity. */
  lemma EngineFloors(x: Cell, y: Cell)
    requires y != 0
    ensures DivMod(x, y) == (FloorDiv(x, y), FloorMod(x, y))
  {
    FloorDivOfMagnitudes(x, y);
    FloorModOfMagnitudes(x, y);
    if x == 0 {
      ModUnique(0, Abs(y), 0, 0);
    }
  }

  /** The word for an integer operator that needs no flag. */
  function PrimOf(op: BinOp): Prim {
    match op
    case Mul => PMul
    case Div => PDiv
    case Mod => PMod
    case Add => PAdd
    case Sub => PSub
    case Shl => PLshift
    case Shr => PRshiftA
    case Lt => PLt
    case Gt => PGt
    case Le => PLe
    case Ge => PGe
    case Eq => PEq
    case Ne => PNe
    case Band => PAnd
    case Bxor => PXor
    case Bor => POr
  }

  predicate Comparing(op: BinOp) {
    op == Lt || op == Gt || op == Le || op == Ge || op == Eq || op == Ne
  }

  /** The engine's word computes the C operator, up to the shape of flags. */
  lemma EngineComputes(op: BinOp, x: Cell, y: Cell)
    requires Arith(op, x, y).Some?
    ensures Binop(PrimOf(op), x, y)
         == Some(if Comparing(op) then Truth(Arith(op, x, y).value == 1) else Arith(op, x, y).value)
  {
    hide Wrap, DivMod, FloorDiv, FloorMod, BitwiseCell, Pow2, Bits;
    if op == Div || op == Mod {
      EngineFloors(x, y);
    } else if op == Shl || op == Shr {
      SmallBits(y);
    }
  }

  lemma SmallBits(y: Cell)
    requires y >= 0
    ensures Bits(y) == y
  {
  }

  lemma RunArithTail(d: Dict, al: Allocator, op: BinOp, x: Cell, y: Cell, s: Stack, m: Mach, fuel: nat)
    requires m.ds == Push(y, Push(x, s)) && Arith(op, x, y).Some?
    ensures Run(d, al, ArithTail(op), m, fuel) == Next(m.(ds := Push(Arith(op, x, y).value, s)))
  {
    var p, z := PrimOf(op), Arith(op, x, y).value;
    EngineComputes(op, x, y);
    hide Run, Perform, Binop;
    if Comparing(op) {
      FlagValue(op, x, y);
      RunCompare(d, al, p, z == 1, x, y, s, m, fuel);
      assert ArithTail(op) == Compare(p);
    } else {
      hide Arith;
      DoBinop(d, al, p, x, y, s, m);
      RunWord(d, al, Op(p), m, fuel);
      assert ArithTail(op) == W(Op(p));
    }
  }

  lemma FlagValue(op: BinOp, x: Cell, y: Cell)
    requires Comparing(op)
    ensures Arith(op, x, y) == Some(Flag(Arith(op, x, y).value == 1))
  {
    hide Wrap, FloorDiv, FloorMod, BitwiseCell, Pow2;
  }

  /** `size * -` for a pointer minus an integer. */
  lemma RunPointerMinus(d: Dict, al: Allocator, size: nat, x: Cell, y: Cell, s: Stack, m: Mach, fuel: nat)
    requires m.ds == Push(y, Push(x, s))
    ensures Run(d, al, Words3(Lit(Wrap(size)), Op(PMul), Op(PSub)), m, fuel)
         == Next(m.(ds := Push(Wrap(x - y * size), s)))
  {
    hide Run, Perform, Wrap;
    var m1 := m.(ds := Push(Wrap(size), m.ds));
    var m2 := m.(ds := Push(Wrap(y * Wrap(size)), Push(x, s)));
    DoLit(d, al, Wrap(size), m);
    RunFirst(d, al, Lit(Wrap(size)), Words2(Op(PMul), Op(PSub)), m, fuel);
    DoBinop(d, al, PMul, y, Wrap(size), Push(x, s), m1);
    RunFirst(d, al, Op(PMul), W(Op(PSub)), m1, fuel);
    ScaleWraps(y, size);
    DoBinop(d, al, PSub, x, m2.ds.top, s, m2);
    RunWord(d, al, Op(PSub), m2, fuel);
    WrapSub(x, y * size);
  }

  /** `- size /` for two pointers. */
  lemma RunPointerDiff(d: Dict, al: Allocator, size: nat, x: Cell, y: Cell, s: Stack, m: Mach, fuel: nat)
    requires m.ds == Push(y, Push(x, s)) && 0 < size < HALF
    ensures Run(d, al, Words3(Op(PSub), Lit(Wrap(size)), Op(PDiv)), m, fuel)
         == Next(m.(ds := Push(Wrap(FloorDiv(Wrap(x - y), size)), s)))
  {
    assert Wrap(size) == size;
    hide Run, Perform, Wrap, FloorDiv, FloorMod, DivMod;
    var m1 := m.(ds := Push(Wrap(x - y), s));
    var m2 := m.(ds := Push(size, m1.ds));
    DoBinop(d, al, PSub, x, y, s, m);
    RunFirst(d, al, Op(PSub), Words2(Lit(Wrap(size)), Op(PDiv)), m, fuel);
    DoLit(d, al, size, m1);
    RunFirst(d, al, Lit(size), W(Op(PDiv)), m1, fuel);
    EngineFloors(m1.ds.top, size);
    DoBinop(d, al, PDiv, m1.ds.top, size, s, m2);
    RunWord(d, al, Op(PDiv), m2, fuel);
  }

  /** Scale the top, then add or subtract it. */
  lemma RunScaleInto(d: Dict, al: Allocator, size: nat, plus: bool, x: Cell, y: Cell, s: Stack, m: Mach, fuel: nat)
    requires m.ds == Push(y, Push(x, s))
    ensures Run(d, al, Cat(Scale(size), W(Op(if plus then PAdd else PSub))), m, fuel)
         == Next(m.(ds := Push(Wrap(if plus then x + y * size else x - y * size), s)))
  {
    hide Run, Perform, Wrap, Scale;
    var p := if plus then PAdd else PSub;
    var m1 := m.(ds := Push(Wrap(y * size), Push(x, s)));
    RunScale(d, al, size, m, fuel);
    RunThen(d, al, Scale(size), W(Op(p)), m, fuel);
    DoBinop(d, al, p, x, m1.ds.top, s, m1);
    RunWord(d, al, Op(p), m1, fuel);
    WrapAdd(x, y * size);
    WrapSub(x, y * size);
  }

  lemma RunBinaryTail(d: Dict, al: Allocator, op: BinOp, lt: Type, rt: Type,
                      x: Cell, y: Cell, s: Stack, m: Mach, fuel: nat)
    requires m.ds == Push(y, Push(x, s)) && Operate(op, lt, rt, x, y).Some?
    requires op == Sub && Pointing(lt) ==> SizeOf(Pointee(lt)) != 1 && SizeOf(Pointee(lt)) < HALF
    ensures Run(d, al, BinaryTail(op, lt, rt), m, fuel)
         == Next(m.(ds := Push(Operate(op, lt, rt, x, y).value, s)))
  {
    hide Run, Perform, Wrap, Arith, ArithTail, Scale, FloorDiv;
    var size := SizeOf(Pointee(lt));
    if op == Add && Pointing(lt) {
      RunScaleInto(d, al, size, true, x, y, s, m, fuel);
    } else if op == Sub && Pointing(lt) {
      if Pointing(rt) {
        RunPointerDiff(d, al, size, x, y, s, m, fuel);
      } else {
        RunPointerMinus(d, al, size, x, y, s, m, fuel);
      }
    } else {
      RunArithTail(d, al, op, x, y, s, m, fuel);
    }
  }

  lemma RunAssignTail(d: Dict, al: Allocator, op: BinOp, lt: Type, rt: Type,
                      x: Cell, y: Cell, s: Stack, m: Mach, fuel: nat)
    requires m.ds == Push(y, Push(x, s)) && Operate(op, lt, rt, x, y).Some?
    requires op != Mod && !Pointing(rt)
    ensures Run(d, al, AssignTail(op, lt), m, fuel)
         == Next(m.(ds := Push(Operate(op, lt, rt, x, y).value, s)))
  {
    hide Run, Perform, Wrap, Arith, ArithTail, Scale, FloorDiv;
    if (op == Add || op == Sub) && Pointing(lt) {
      RunScaleInto(d, al, SizeOf(Pointee(lt)), op == Add, x, y, s, m, fuel);
    } else {
      RunArithTail(d, al, op, x, y, s, m, fuel);
    }
  }

  lemma RunKeepAndSet(d: Dict, al: Allocator, t: Type, v: Cell, a: Cell, s: Stack, m: Mach, fuel: nat)
    requires m.ds == Push(v, Push(a, s))
    ensures Run(d, al, KeepAndSet(t), m, fuel)
         == Next(m.(ds := Push(v, s), mem := Store(m.mem, t, a, v)))
  {
    hide Run, Perform, Store, Set;
    var m1 := m.(ds := Push(v, Push(a, Push(v, s))));
    var m2 := m.(ds := Push(a, Push(v, Push(v, s))));
    DoShuffle(d, al, v, Push(a, s), m);
    RunFirst(d, al, Op(PTuck), W(Op(PSwap)), m, fuel);
    DoShuffle(d, al, v, Push(a, Push(v, s)), m1);
    RunWord(d, al, Op(PSwap), m1, fuel);
    RunThen(d, al, Words2(Op(PTuck), Op(PSwap)), Set(t), m, fuel);
    RunSet(d, al, t, m2, fuel);
  }

  lemma RunUnaryTail(d: Dict, al: Allocator, op: UnOp, m: Mach, fuel: nat)
    requires m.ds.Push?
    ensures Run(d, al, UnaryTail(op), m, fuel)
         == Next(m.(ds := Push(UnaryOp(op, m.ds.top), m.ds.below)))
  {
    match op
    case Plus => hide Perform;
    case Neg => hide Run, Perform; DoUnop(d, al, PNegate, m); RunWord(d, al, Op(PNegate), m, fuel);
    case Compl => hide Run, Perform; DoUnop(d, al, PInvert, m); RunWord(d, al, Op(PInvert), m, fuel);
    case Not => RunNot(d, al, m, fuel);
  }

  /** `0<> invert 1 and`. */
  lemma RunNot(d: Dict, al: Allocator, m: Mach, fuel: nat)
    requires m.ds.Push?
    ensures Run(d, al, UnaryTail(Not), m, fuel) == Next(m.(ds := Push(Flag(m.ds.top == 0), m.ds.below)))
  {
    hide Run, Perform;
    var x, s := m.ds.top, m.ds.below;
    var m1 := m.(ds := Push(Truth(x != 0), s));
    var m2 := m.(ds := Push(Truth(x == 0), s));
    DoUnop(d, al, PZeroNe, m);
    RunFirst(d, al, Op(PZeroNe), W(Op(PInvert)), m, fuel);
    DoUnop(d, al, PInvert, m1);
    assert Wrap(-1 - Truth(x != 0)) == Truth(x == 0);
    RunWord(d, al, Op(PInvert), m1, fuel);
    RunThen(d, al, Words2(Op(PZeroNe), Op(PInvert)), Words2(Lit(1), Op(PAnd)), m, fuel);
    RunAndOne(d, al, x == 0, m2, fuel);
  }

  lemma AndMask(x: Cell)
    ensures BitwiseCell(BAnd, x, 255) == x % 256
  {
    assert Pow2(8) == 256 by {
      assert Pow2(4) == 16;
    }
    hide Bitwise, Pow2;
    MaskIsMod(Bits(x), 8, 32);
    LowByte(x);
  }

  lemma LowByte(x: Cell)
    ensures Bits(x) % 256 == x % 256 && Wrap(x % 256) == x % 256
  {
    assert Bits(x) == x || Bits(x) == x + 0x100_0000 * 256;
  }

  lemma RunMask(d: Dict, al: Allocator, m: Mach, fuel: nat)
    requires m.ds.Push?
    ensures Run(d, al, Words2(Lit(255), Op(PAnd)), m, fuel)
         == Next(m.(ds := Push(m.ds.top % 256, m.ds.below)))
  {
    hide Run, Perform, BitwiseCell;
    var m1 := m.(ds := Push(255, m.ds));
    DoLit(d, al, 255, m);
    RunFirst(d, al, Lit(255), W(Op(PAnd)), m, fuel);
    DoBinop(d, al, PAnd, m.ds.top, 255, m.ds.below, m1);
    RunWord(d, al, Op(PAnd), m1, fuel);
    AndMask(m.ds.top);
  }

  /** The step is added or subtracted. */
  lemma RunChange(d: Dict, al: Allocator, inc: bool, t: Type, x: Cell, s: Stack, m: Mach, fuel: nat)
    requires m.ds == Push(x, s)
    ensures Run(d, al, Words2(Lit(if t.Ptr? then Wrap(SizeOf(t.to)) else 1), Op(if inc then PAdd else PSub)), m, fuel)
         == Next(m.(ds := Push(Bumped(inc, t, x), s)))
  {
    hide Run, Perform, Wrap;
    var n := if t.Ptr? then Wrap(SizeOf(t.to)) else 1;
    var p := if inc then PAdd else PSub;
    var m1 := m.(ds := Push(n, m.ds));
    DoLit(d, al, n, m);
    RunFirst(d, al, Lit(n), W(Op(p)), m, fuel);
    DoBinop(d, al, p, x, n, s, m1);
    RunWord(d, al, Op(p), m1, fuel);
    WrapAdd(x, Step(t));
    WrapSub(x, Step(t));
  }

  /** The step and the copy that will be the value. */
  lemma RunChangeKept(d: Dict, al: Allocator, inc: bool, prefix: bool, t: Type, x: Cell, a: Cell, s: Stack, m: Mach, fuel: nat)
    requires m.ds == Push(x, Push(a, s))
    ensures var change := Words2(Lit(if t.Ptr? then Wrap(SizeOf(t.to)) else 1), Op(if inc then PAdd else PSub));
      Run(d, al, if prefix then Cat(change, W(Op(PTuck))) else Cat(W(Op(PTuck)), change), m, fuel)
      == Next(m.(ds := Push(Bumped(inc, t, x), Push(a, Push(if prefix then Bumped(inc, t, x) else x, s)))))
  {
    hide Run, Perform, Wrap, Bumped;
    var change := Words2(Lit(if t.Ptr? then Wrap(SizeOf(t.to)) else 1), Op(if inc then PAdd else PSub));
    var n := Bumped(inc, t, x);
    if prefix {
      var m1 := m.(ds := Push(n, Push(a, s)));
      RunChange(d, al, inc, t, x, Push(a, s), m, fuel);
      RunThen(d, al, change, W(Op(PTuck)), m, fuel);
      DoShuffle(d, al, n, Push(a, s), m1);
      RunWord(d, al, Op(PTuck), m1, fuel);
    } else {
      DoShuffle(d, al, x, Push(a, s), m);
      RunFirst(d, al, Op(PTuck), change, m, fuel);
      RunChange(d, al, inc, t, x, Push(a, Push(x, s)), m.(ds := Push(x, Push(a, Push(x, s)))), fuel);
    }
  }

  /** `++` and `--`: memory gets the new value, the stack the new or the old. */
  lemma RunBump(d: Dict, al: Allocator, inc: bool, prefix: bool, t: Type, a: Cell, s: Stack, m: Mach, fuel: nat)
    requires m.ds == Push(a, s)
    ensures var was := Load(m.mem, t, a);
      Run(d, al, Emit.Bump(inc, prefix, t), m, fuel)
      == Next(m.(ds := Push(if prefix then Bumped(inc, t, was) else was, s),
                 mem := Store(m.mem, t, a, Bumped(inc, t, was))))
  {
    hide Run, Perform, Wrap, Bumped, Load, Store, Get, Set;
    var x := Load(m.mem, t, a);
    var n := Bumped(inc, t, x);
    var kept := Push(if prefix then n else x, s);
    var change := Words2(Lit(if t.Ptr? then Wrap(SizeOf(t.to)) else 1), Op(if inc then PAdd else PSub));
    var middle := if prefix then Cat(change, W(Op(PTuck))) else Cat(W(Op(PTuck)), change);
    var fetch, store := Cat(W(Op(PDup)), Get(t)), Cat(W(Op(PSwap)), Set(t));
    var m1 := m.(ds := Push(x, Push(a, s)));
    var m2 := m.(ds := Push(n, Push(a, kept)));
    DoShuffle(d, al, a, s, m);
    RunFirst(d, al, Op(PDup), Get(t), m, fuel);
    RunGet(d, al, t, m.(ds := Push(a, Push(a, s))), fuel);
    RunChangeKept(d, al, inc, prefix, t, x, a, s, m1, fuel);
    DoShuffle(d, al, n, Push(a, kept), m2);
    RunFirst(d, al, Op(PSwap), Set(t), m2, fuel);
    RunSet(d, al, t, m.(ds := Push(a, Push(n, kept))), fuel);
    RunThen(d, al, middle, store, m1, fuel);
    RunThen(d, al, fetch, Cat(middle, store), m, fuel);
  }
}
