/** The Forth side: the words the generator prints, the engine's effect of each
    word, and control flow compiled to branches and run one instruction at a
    time. Words behave as in Annex A of IEEE Std 1275-1994 and in the engine
    that ships with the compiler. */
module Forth {
  import opened Options
  import opened Cells
  import opened Memory
  import opened CTree

  datatype Prim =
    | PAdd | PSub | PMul | PDiv | PMod | PAnd | POr | PXor | PInvert | PNegate
    | PLshift | PRshiftA | PLt | PGt | PLe | PGe | PEq | PNe | PZeroNe | PZeroEq
    | PDup | PDrop | PSwap | PTuck | PLFetch | PLStore | PCFetch | PCStore
    | PAlloc | PFree

  /** A word that is not control flow. `Place` is the name of a variable, which
      leaves its address. `Frame` reads the value `$frame`, `ToFrame`
      sets it; `Field` is a name made by `field`, `FrameSize` the constant made
      at the end of a function's frame structure. */
  datatype Word =
    | Lit(n: Cell) | Place(a: Cell) | Op(p: Prim) | Frame | ToFrame
    | Field(f: FuncId, slot: nat) | FrameSize(f: FuncId)
    | Do(f: FuncId) | Exit

  /** What the generator prints, as a stream. */
  datatype Token = T(w: Word) | TIf | TElse | TThen | TBegin | TWhile | TRepeat | TSemi

  /** The same text with its control structure made explicit. */
  datatype Frag =
    | Skip
    | W(w: Word)
    | Cat(a: Frag, b: Frag)
    | IfThen(t: Frag)
    | IfElse(t: Frag, e: Frag)
    | Loop(test: Frag, body: Frag)      // begin test while body repeat
    | Endless(body: Frag)               // begin body repeat

  function Flat(fr: Frag): seq<Token> {
    match fr
    case Skip => []
    case W(w) => [T(w)]
    case Cat(a, b) => Flat(a) + Flat(b)
    case IfThen(t) => [TIf] + Flat(t) + [TThen]
    case IfElse(t, e) => [TIf] + Flat(t) + [TElse] + Flat(e) + [TThen]
    case Loop(test, body) => [TBegin] + Flat(test) + [TWhile] + Flat(body) + [TRepeat]
    case Endless(body) => [TBegin] + Flat(body) + [TRepeat]
  }

  // ----- the effect of one word -----

  datatype Stack = Bot | Push(top: Cell, below: Stack)

  datatype Mach = Mach(ds: Stack, mem: Mem, heap: Heap, frame: Cell)

  /** A definition: the sizes given to its `field` words, and its body. */
  datatype Def = Def(sizes: seq<nat>, frag: Frag)

  type Dict = map<FuncId, Def>

  const LINK_SIZE: nat := 4

  /** The offset `field` words leave on the stack after the first k fields; the
      frame structure starts with the link to the previous frame. */
  function Offset(sizes: seq<nat>, k: nat): nat {
    if k == 0 || |sizes| == 0 then LINK_SIZE
    else if k <= |sizes| then Offset(sizes, k - 1) + sizes[k - 1]
    else Offset(sizes, |sizes|)
  }

  function Truth(b: bool): Cell {
    if b then -1 else 0
  }

  /** The engine's division: on magnitudes, then corrected for the signs. */
  function DivMod(num: Cell, den: Cell): (int, int)
    requires den != 0
  {
    var n, d := Abs(num), Abs(den);
    var q, m := n / d, n % d;
    var negd := (num < 0) != (den < 0);
    var (q1, m1) := if negd && m != 0 then (q + 1, d - m) else (q, m);
    (if negd then 0 - q1 else q1, if den < 0 then 0 - m1 else m1)
  }

  function Binop(p: Prim, x: Cell, y: Cell): Option<Cell> {
    match p
    case PAdd => Some(Wrap(x + y))
    case PSub => Some(Wrap(x - y))
    case PMul => Some(Wrap(x * y))
    case PDiv => if y == 0 then None else Some(Wrap(DivMod(x, y).0))
    case PMod => if y == 0 then None else Some(Wrap(DivMod(x, y).1))
    case PAnd => Some(BitwiseCell(BAnd, x, y))
    case POr => Some(BitwiseCell(BOr, x, y))
    case PXor => Some(BitwiseCell(BXor, x, y))
    case PLshift => Some(Wrap(x * Pow2(Bits(y))))
    case PRshiftA => Some(Wrap(x / Pow2(Bits(y))))
    case PLt => Some(Truth(x < y))
    case PGt => Some(Truth(x > y))
    case PLe => Some(Truth(x <= y))
    case PGe => Some(Truth(x >= y))
    case PEq => Some(Truth(x == y))
    case PNe => Some(Truth(x != y))
    case _ => None
  }

  function Unop(p: Prim, x: Cell, m: Mach): Option<Cell> {
    match p
    case PInvert => Some(Wrap(-1 - x))
    case PNegate => Some(Wrap(0 - x))
    case PZeroNe => Some(Truth(x != 0))
    case PZeroEq => Some(Truth(x == 0))
    case PLFetch => Some(Fetch32(m.mem, x))
    case PCFetch => Some(At(m.mem, x))
    case _ => None
  }

  /** Stack shuffles, stores and the heap words; None is a stack underflow or an
      error the engine reports. */
  function ExecPrim(al: Allocator, p: Prim, m: Mach): Option<Mach> {
    if m.ds.Bot? then None
    else
      var x, s := m.ds.top, m.ds.below;
      if Unop(p, x, m).Some? then Some(m.(ds := Push(Unop(p, x, m).value, s)))
      else if p == PDup then Some(m.(ds := Push(x, m.ds)))
      else if p == PDrop then Some(m.(ds := s))
      else if p == PAlloc then
        var a := al(m.heap, Bits(x));
        if a == 0 then None else Some(m.(ds := Push(a, s), heap := m.heap[a := Bits(x)]))
      else if s.Bot? then None
      else
        var y, s' := s.top, s.below;
        if Binop(p, y, x).Some? then Some(m.(ds := Push(Binop(p, y, x).value, s')))
        else if p == PSwap then Some(m.(ds := Push(y, Push(x, s'))))
        else if p == PTuck then Some(m.(ds := Push(x, Push(y, Push(x, s')))))
        else if p == PLStore then Some(m.(ds := s', mem := Store32(m.mem, x, y)))
        else if p == PCStore then Some(m.(ds := s', mem := Store8(m.mem, x, y)))
        else if p == PFree then Some(m.(ds := s', heap := m.heap - {y}))
        else None
  }

  /** Any word except a call and `exit`. */
  function Perform(d: Dict, al: Allocator, w: Word, m: Mach): Option<Mach> {
    match w
    case Lit(n) => Some(m.(ds := Push(n, m.ds)))
    case Place(a) => Some(m.(ds := Push(a, m.ds)))
    case Op(p) => ExecPrim(al, p, m)
    case Frame => Some(m.(ds := Push(m.frame, m.ds)))
    case ToFrame => if m.ds.Bot? then None else Some(m.(ds := m.ds.below, frame := m.ds.top))
    case Field(f, slot) =>
      if m.ds.Bot? || f !in d then None
      else Some(m.(ds := Push(Wrap(m.ds.top + Offset(d[f].sizes, slot)), m.ds.below)))
    case FrameSize(f) =>
      if f !in d then None
      else Some(m.(ds := Push(Wrap(Offset(d[f].sizes, |d[f].sizes|)), m.ds)))
    case Do(_) => None
    case Exit => None
  }

  // ----- structured execution -----

  /** Fell through to the end; left the definition by `exit`; the fuel for loop
      turns and calls ran out; or an error. */
  datatype Out = Next(m: Mach) | Left(m: Mach) | Starved | Stuck

  function Run(d: Dict, al: Allocator, fr: Frag, m: Mach, fuel: nat): Out
    decreases fuel, fr
  {
    match fr
    case Skip => Next(m)
    case W(w) =>
      if w.Do? then
        if fuel == 0 then Starved
        else if w.f !in d then Stuck
        else
          var r := Run(d, al, d[w.f].frag, m, fuel - 1);
          if r.Left? then Next(r.m) else r
      else if w.Exit? then Left(m)
      else
        var r := Perform(d, al, w, m);
        if r.Some? then Next(r.value) else Stuck
    case Cat(a, b) =>
      var r := Run(d, al, a, m, fuel);
      if r.Next? then Run(d, al, b, r.m, fuel) else r
    case IfThen(t) =>
      if m.ds.Bot? then Stuck
      else if m.ds.top != 0 then Run(d, al, t, m.(ds := m.ds.below), fuel)
      else Next(m.(ds := m.ds.below))
    case IfElse(t, e) =>
      if m.ds.Bot? then Stuck
      else Run(d, al, if m.ds.top != 0 then t else e, m.(ds := m.ds.below), fuel)
    case Loop(test, body) =>
      var r := Run(d, al, test, m, fuel);
      if !r.Next? then r
      else if r.m.ds.Bot? then Stuck
      else if r.m.ds.top == 0 then Next(r.m.(ds := r.m.ds.below))
      else
        var r' := Run(d, al, body, r.m.(ds := r.m.ds.below), fuel);
        if !r'.Next? then r'
        else if fuel == 0 then Starved
        else Run(d, al, fr, r'.m, fuel - 1)
    case Endless(_) => Stuck
  }

  // ----- one construct at a time -----

  lemma RunWord(d: Dict, al: Allocator, w: Word, m: Mach, fuel: nat)
    requires !w.Do? && !w.Exit? && Perform(d, al, w, m).Some?
    ensures Run(d, al, W(w), m, fuel) == Next(Perform(d, al, w, m).value)
  {
    hide Perform;
  }

  lemma RunThen(d: Dict, al: Allocator, a: Frag, b: Frag, m: Mach, fuel: nat)
    requires Run(d, al, a, m, fuel).Next?
    ensures Run(d, al, Cat(a, b), m, fuel) == Run(d, al, b, Run(d, al, a, m, fuel).m, fuel)
  {
    hide Perform;
  }

  /** Run the first word of a group. */
  lemma RunFirst(d: Dict, al: Allocator, w: Word, rest: Frag, m: Mach, fuel: nat)
    requires !w.Do? && !w.Exit? && Perform(d, al, w, m).Some?
    ensures Run(d, al, Cat(W(w), rest), m, fuel) == Run(d, al, rest, Perform(d, al, w, m).value, fuel)
  {
    hide Perform, Run;
    RunWord(d, al, w, m, fuel);
    RunThen(d, al, W(w), rest, m, fuel);
  }

  lemma RunSeq(d: Dict, al: Allocator, a: Frag, b: Frag, m: Mach, fuel: nat)
    ensures Run(d, al, Cat(a, b), m, fuel)
         == (var r := Run(d, al, a, m, fuel); if r.Next? then Run(d, al, b, r.m, fuel) else r)
  {
    hide Perform;
  }

  lemma RunIfThen(d: Dict, al: Allocator, t: Frag, m: Mach, fuel: nat)
    requires m.ds.Push?
    ensures Run(d, al, IfThen(t), m, fuel)
         == if m.ds.top != 0 then Run(d, al, t, m.(ds := m.ds.below), fuel) else Next(m.(ds := m.ds.below))
  {
    hide Perform;
  }

  lemma RunIfElse(d: Dict, al: Allocator, t: Frag, e: Frag, m: Mach, fuel: nat)
    requires m.ds.Push?
    ensures Run(d, al, IfElse(t, e), m, fuel)
         == Run(d, al, if m.ds.top != 0 then t else e, m.(ds := m.ds.below), fuel)
  {
    hide Perform;
  }

  /** One turn of `begin ... while ... repeat`. */
  lemma RunLoop(d: Dict, al: Allocator, test: Frag, body: Frag, m: Mach, fuel: nat)
    ensures Run(d, al, Loop(test, body), m, fuel)
         == (var r := Run(d, al, test, m, fuel);
             if !r.Next? then r
             else if r.m.ds.Bot? then Stuck
             else if r.m.ds.top == 0 then Next(r.m.(ds := r.m.ds.below))
             else
               var r' := Run(d, al, body, r.m.(ds := r.m.ds.below), fuel);
               if !r'.Next? then r'
               else if fuel == 0 then Starved
               else Run(d, al, Loop(test, body), r'.m, fuel - 1))
  {
    hide Perform;
  }

  lemma RunSkip(d: Dict, al: Allocator, m: Mach, fuel: nat)
    ensures Run(d, al, Skip, m, fuel) == Next(m)
  {
    hide Perform;
  }

  lemma RunExit(d: Dict, al: Allocator, m: Mach, fuel: nat)
    ensures Run(d, al, W(Exit), m, fuel) == Left(m)
  {
    hide Perform;
  }

  lemma RunDo(d: Dict, al: Allocator, f: FuncId, m: Mach, fuel: nat)
    requires f in d
    ensures Run(d, al, W(Do(f)), m, fuel)
         == if fuel == 0 then Starved
            else (var r := Run(d, al, d[f].frag, m, fuel - 1); if r.Left? then Next(r.m) else r)
  {
    hide Perform;
  }
}
