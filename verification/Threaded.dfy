/** From Forth text to threaded code in two stages. The tokenizer turns words into
    FCodes, keeps branch positions on a control stack and patches offsets of two
    bytes. Loading the FCodes compiles them again, with a control stack and offsets
    of its own. */
module Threaded {
  import opened Options
  import opened Cells
  import opened CTree
  import opened Forth

  /** Tokenizing, or compiling in memory. */
  datatype Stage = Tok | Mem

  // ----- instructions and their bytes -----

  /** What has been compiled at a position, in either stage: a word, the end of
      the definition, a forward branch, one taken when the top of the stack is
      zero, the same two leading back, the target of a forward branch, the mark
      of a loop. `IBad` is a forward branch too long for its two bytes, which
      hold the low half of the offset; `IGarbled`, bytes that a stray patch has
      overwritten. Targets are positions in the definition. */
  datatype Instr =
    | IWord(w: Word) | IEnd
    | IBranch(target: nat) | IZBranch(target: nat) | IBack(target: nat) | IZBack(target: nat)
    | IResolve | IMark | IBad(zero: bool, negative: bool) | IGarbled

  /** Words of the program are FCodes of two bytes; in memory they take three, and
      two more instructions take one byte more than as FCodes. */
  function Size(m: Stage, i: Instr): nat {
    match i
    case IWord(w) =>
      (match w
       case Lit(n) => if -1 <= n <= 3 then 1 else 5
       case Op(_) => 1
       case Exit => 1
       case ToFrame => if m.Tok? then 3 else 4
       case _ => if m.Tok? then 2 else 3)
    case IZBranch(_) => if m.Tok? then 3 else 4
    case IZBack(_) => if m.Tok? then 3 else 4
    case IBranch(_) => 3
    case IBack(_) => 3
    case IMark => if m.Tok? then 1 else 2
    case IBad(zero, _) => if m.Mem? && zero then 4 else 3
    case IEnd => 1
    case IResolve => 1
    case IGarbled => 1
  }

  function FCode(p: Prim): nat {
    match p
    case PAdd => 0x1E case PSub => 0x1F case PMul => 0x20 case PDiv => 0x21
    case PMod => 0x22 case PAnd => 0x23 case POr => 0x24 case PXor => 0x25
    case PInvert => 0x26 case PLshift => 0x27 case PRshiftA => 0x29 case PNegate => 0x2C
    case PZeroEq => 0x34 case PZeroNe => 0x35 case PLt => 0x3A case PGt => 0x3B
    case PEq => 0x3C case PNe => 0x3D case PGe => 0x42 case PLe => 0x43
    case PDrop => 0x46 case PDup => 0x47 case PSwap => 0x49 case PTuck => 0x4C
    case PLFetch => 0x6E case PCFetch => 0x71 case PLStore => 0x73 case PCStore => 0x75
    case PAlloc => 0x8B case PFree => 0x8C
  }

  /** A number the engine gives to a word of the program: an FCode, or a token of
      its own while in memory. */
  function Name(m: Stage, num: nat): seq<nat> {
    (if m.Tok? then [] else [0x06]) + [num / 0x100, num % 0x100]
  }

  function Bytes16(offset: nat): seq<nat> {
    [offset / 0x100 % 0x100, offset % 0x100]
  }

  /** The bytes of an instruction, given the numbers of the program's words and
      the offset of a branch. */
  function Encoding(m: Stage, num: Word -> nat, i: Instr, offset: nat): seq<nat> {
    match i
    case IWord(w) =>
      (match w
       case Lit(n) =>
         if -1 <= n <= 3 then [0xA5 + n]
         else
           var b := Bits(n);
           [0x10, b / 0x100_0000, b / 0x1_0000 % 0x100, b / 0x100 % 0x100, b % 0x100]
       case Op(p) => [FCode(p)]
       case Exit => [0x33]
       case ToFrame => [0xC3] + Name(m, num(Frame))
       case _ => Name(m, num(w)))
    case IBranch(_) => [0x13] + Bytes16(offset)
    case IBack(_) => [0x13] + Bytes16(offset)
    case IZBranch(_) => (if m.Tok? then [0x14] else [0x07, 0x14]) + Bytes16(offset)
    case IZBack(_) => (if m.Tok? then [0x14] else [0x07, 0x14]) + Bytes16(offset)
    case IBad(zero, _) =>
      (if !zero then [0x13] else if m.Tok? then [0x14] else [0x07, 0x14]) + Bytes16(offset)
    case IEnd => if m.Tok? then [0xC2] else [0x00]
    case IResolve => [0xB2]
    case IMark => if m.Tok? then [0xB1] else [0x07, 0x01]
    case IGarbled => [0xFF]
  }

  /** The sizes counted are those of the bytes. */
  lemma SizeIsBytes(m: Stage, num: Word -> nat, i: Instr, offset: nat)
    ensures |Encoding(m, num, i, offset)| == Size(m, i)
  {
  }

  /** A number that ends like a branch whose offset is still to be patched. */
  predicate LooksLikeElse(w: Word) {
    w.Lit? && Bits(w.n) % 0x100_0000 == 0x13_0000
  }

  predicate FakeElse(i: Instr) {
    i.IWord? && LooksLikeElse(i.w)
  }

  /** What `then` takes for the branch of an `else`. */
  predicate Closes(i: Instr) {
    FakeElse(i) || i == IBranch(0)
  }

  /** Numbers for words: FCodes 0x800 to 0xFFF, or tokens below 0x8000. */
  ghost predicate Numbered(m: Stage, num: Word -> nat) {
    forall w: Word :: if m.Tok? then 0x800 <= num(w) < 0x1000 else 0x1000 <= num(w) < 0x8000
  }

  /** Branches and the mark as they are when they have just been compiled. */
  predicate Fresh(m: Stage, i: Instr, offset: nat) {
    match i
    case IBranch(t) => t == 0 && offset == 0
    case IBack(_) => 0x8000 <= offset < 0x1_0000
    case IBad(_, _) => false
    case IEnd => false
    case IGarbled => false
    case _ => true
  }

  /** The test on the last three bytes compiled finds the branch an `else` leaves
      while FCodes are loaded, and any number that ends like it. */
  lemma {:induction false} ElseTestFinds(m: Stage, num: Word -> nat, before: seq<nat>, i: Instr, offset: nat)
    requires |before| >= 2 && Numbered(m, num) && Fresh(m, i, offset)
    ensures var bytes := before + Encoding(m, num, i, offset);
      |bytes| == |before| + Size(m, i) && (bytes[|bytes| - 3..] == [0x13, 0, 0] <==> Closes(i))
  {
    var e := Encoding(m, num, i, offset);
    var bytes := before + e;
    var last := bytes[|bytes| - 3..];
    assert last[2] == e[|e| - 1];
    if |e| >= 2 {
      assert last[1] == e[|e| - 2];
    }
    if |e| >= 3 {
      assert last[0] == e[|e| - 3];
    }
    if i.IWord? && i.w.Lit? && |e| == 5 {
      LowBytes(Bits(i.w.n));
      assert last == [e[2], e[3], e[4]];
    }
  }

  lemma LowBytes(b: nat)
    ensures b % 0x100_0000 == (b / 0x1_0000 % 0x100) * 0x1_0000 + (b / 0x100 % 0x100) * 0x100 + b % 0x100
  {
  }

  // ----- the control stack -----

  /** What the control-flow words leave for each other: a branch whose offset at
      byte `brk` is to be patched, or the mark that `begin` makes. */
  datatype Ctl = Orig(at: nat, brk: nat) | Mark(at: nat, brk: nat)

  /** The instructions compiled, how many bytes they take, and the control stack. */
  datatype Compiling = Compiling(code: seq<Instr>, fbrk: nat, ctl: seq<Ctl>)

  const FORWARD: int := 32767
  const BACKWARD: int := 32768

  function Lay(m: Stage, c: Compiling, i: Instr): Compiling {
    Compiling(c.code + [i], c.fbrk + Size(m, i), c.ctl)
  }

  /** An offset too large to patch is reported, but its low 16 bits are stored. */
  function Patched(i: Instr, e: Ctl, target: nat, fbrk: nat): Instr {
    if e.Mark? || !(i.IBranch? || i.IZBranch?) then IGarbled
    else if fbrk - e.brk > FORWARD then IBad(i.IZBranch?, (fbrk - e.brk) % 0x1_0000 > FORWARD)
    else if i.IBranch? then IBranch(target)
    else IZBranch(target)
  }

  /** Let a branch lead to the next instruction to be compiled. */
  function Patch(c: Compiling, e: Ctl): Compiling {
    if e.at >= |c.code| then c
    else c.(code := c.code[e.at := Patched(c.code[e.at], e, |c.code|, c.fbrk)])
  }

  /** A conditional branch, its offset to be patched. */
  function Open(m: Stage, c: Compiling): Compiling {
    Lay(m, c, IZBranch(0)).(ctl := [Orig(|c.code|, c.fbrk + if m.Tok? then 1 else 2)] + c.ctl)
  }

  function Begun(m: Stage, c: Compiling): Compiling {
    var c1 := Lay(m, c, IMark);
    c1.(ctl := [Mark(|c.code|, c1.fbrk)] + c.ctl)
  }

  /** `b(>resolve)`: for the entry on top or, after what looks like the branch of
      an `else`, for the one below it. */
  function Resolve(m: Stage, c: Compiling): Option<Compiling> {
    var here, ctl := |c.code|, c.ctl;
    if ctl == [] then None
    else if here > 0 && Closes(c.code[here - 1]) then
      if |ctl| < 2 then None else Some(Patch(Lay(m, c, IResolve), ctl[1]).(ctl := [ctl[0]] + ctl[2..]))
    else Some(Patch(Lay(m, c, IResolve), ctl[0]).(ctl := ctl[1..]))
  }

  /** A branch back to a loop's mark: the entry on top or the one below it. */
  function BackTo(c: Compiling, zero: bool): Option<Compiling> {
    var ctl := c.ctl;
    if ctl == [] || (ctl[0].Orig? && (|ctl| < 2 || ctl[1].Orig?)) then None
    else
      var mark := if ctl[0].Mark? then ctl[0] else ctl[1];
      var rest := if ctl[0].Mark? then ctl[1..] else [ctl[0]] + ctl[2..];
      if c.fbrk + (if zero then 2 else 1) - mark.brk > BACKWARD then None
      else Some(Lay(Mem, c, if zero then IZBack(mark.at + 1) else IBack(mark.at + 1)).(ctl := rest))
  }

  // ----- loading FCodes -----

  /** Compile one FCode in memory. A branch leads forward or back as its offset's
      sign says; the offset itself is patched anew. What becomes of overwritten
      bytes the model does not say. */
  function LoadStep(c: Compiling, i: Instr): Option<Compiling> {
    var jump := Lay(Mem, c, IBranch(0)).(ctl := [Orig(|c.code|, c.fbrk + 1)] + c.ctl);
    match i
    case IWord(_) => Some(Lay(Mem, c, i))
    case IEnd => Some(Lay(Mem, c, i))
    case IZBranch(_) => Some(Open(Mem, c))
    case IBranch(_) => Some(jump)
    case IBad(zero, negative) =>
      if negative then BackTo(c, zero) else if zero then Some(Open(Mem, c)) else Some(jump)
    case IBack(_) => BackTo(c, false)
    case IZBack(_) => BackTo(c, true)
    case IResolve => Resolve(Mem, c)
    case IMark => Some(Begun(Mem, c))
    case IGarbled => None
  }

  function Load(c: Compiling, code: seq<Instr>): Option<Compiling>
    decreases |code|
  {
    if |code| == 0 then Some(c)
    else
      var c' := LoadStep(c, code[0]);
      if c'.Some? then Load(c'.value, code[1..]) else None
  }

  // ----- tokenizing -----

  /** The FCodes of one token, the offsets of branches zero or, back, not. */
  function Codes(t: Token): seq<Instr> {
    match t
    case T(w) => [IWord(w)]
    case TIf => [IZBranch(0)]
    case TWhile => [IZBranch(0)]
    case TElse => [IBranch(0), IResolve]
    case TThen => [IResolve]
    case TBegin => [IMark]
    case TRepeat => [IBack(0), IResolve]
    case TSemi => [IEnd]
  }

  /** `else`: close the branch on top behind one of its own. */
  function Elsed(m: Stage, c: Compiling): Compiling
    requires c.ctl != []
  {
    Patch(Lay(m, Lay(m, c, IBranch(0)), IResolve), c.ctl[0]).(ctl := [Orig(|c.code|, c.fbrk + 1)] + c.ctl[1..])
  }

  /** `repeat`: back to the mark, then close the branch on top. */
  function Repeated(m: Stage, c: Compiling): Compiling
    requires |c.ctl| >= 2
  {
    Patch(Lay(m, Lay(m, c, IBack(c.ctl[1].at + 1)), IResolve), c.ctl[0]).(ctl := c.ctl[2..])
  }

  /** Tokenize one word, or compile its FCodes in memory. None: the engine reports
      an error and drops the text. No control word of the tokenizer but `repeat`
      looks at what kind of entry it takes. */
  function CompileToken(m: Stage, c: Compiling, t: Token): Option<Compiling> {
    if m.Mem? then Load(c, Codes(t))
    else
      match t
      case T(w) => Some(Lay(m, c, IWord(w)))
      case TIf => Some(Open(m, c))
      case TWhile => Some(Open(m, c))
      case TElse => if c.ctl == [] then None else Some(Elsed(m, c))
      case TThen => Resolve(m, c)
      case TBegin => Some(Begun(m, c))
      case TRepeat =>
        if |c.ctl| < 2 || c.ctl[1].Orig? || c.fbrk + 1 - c.ctl[1].brk > BACKWARD then None else Some(Repeated(m, c))
      case TSemi => Some(Lay(m, c, IEnd))
  }

  function CompileText(m: Stage, c: Compiling, ts: seq<Token>): Option<Compiling>
    decreases |ts|
  {
    if |ts| == 0 then Some(c)
    else
      var c' := CompileToken(m, c, ts[0]);
      if c'.Some? then CompileText(m, c'.value, ts[1..]) else None
  }

  const START := Compiling([], 0, [])

  /** The FCodes the tokenizer makes of a definition. Its `;` does not look at the
      control stack. */
  function Tokenize(ts: seq<Token>): Option<seq<Instr>> {
    var c := CompileText(Tok, START, ts);
    if c.Some? then Some(c.value.code) else None
  }

  /** The threaded code of a definition, tokenized and loaded. */
  function Engine(ts: seq<Token>): Option<seq<Instr>> {
    var fcodes := Tokenize(ts);
    if fcodes.None? then None
    else
      var c := Load(START, fcodes.value);
      if c.Some? then Some(c.value.code) else None
  }

  // ----- structured text -----

  /** No unconditional loops. */
  predicate Conditioned(fr: Frag) {
    match fr
    case Skip => true
    case W(_) => true
    case Cat(a, b) => Conditioned(a) && Conditioned(b)
    case IfThen(t) => Conditioned(t)
    case IfElse(t, e) => Conditioned(t) && Conditioned(e)
    case Loop(test, body) => Conditioned(test) && Conditioned(body)
    case Endless(_) => false
  }

  /** Every function it calls is among the known ones. */
  predicate Visible(known: set<FuncId>, fr: Frag) {
    match fr
    case Skip => true
    case W(w) => w.Do? ==> w.f in known
    case Cat(a, b) => Visible(known, a) && Visible(known, b)
    case IfThen(t) => Visible(known, t)
    case IfElse(t, e) => Visible(known, t) && Visible(known, e)
    case Loop(test, body) => Visible(known, test) && Visible(known, body)
    case Endless(body) => Visible(known, body)
  }

  function Len(fr: Frag): nat {
    match fr
    case Skip => 0
    case W(_) => 1
    case Cat(a, b) => Len(a) + Len(b)
    case IfThen(t) => 2 + Len(t)
    case IfElse(t, e) => 4 + Len(t) + Len(e)
    case Loop(test, body) => 4 + Len(test) + Len(body)
    case Endless(body) => 3 + Len(body)
  }

  function Bytes(m: Stage, fr: Frag): nat {
    match fr
    case Skip => 0
    case W(w) => Size(m, IWord(w))
    case Cat(a, b) => Bytes(m, a) + Bytes(m, b)
    case IfThen(t) => Opening(m) + Bytes(m, t) + 1
    case IfElse(t, e) => Opening(m) + Bytes(m, t) + 4 + Bytes(m, e) + 1
    case Loop(test, body) => Size(m, IMark) + Bytes(m, test) + Opening(m) + Bytes(m, body) + 4
    case Endless(body) => Size(m, IMark) + Bytes(m, body) + 4
  }

  /** The bytes of `if` and `while`. */
  function Opening(m: Stage): nat {
    if m.Tok? then 3 else 4
  }

  /** The last word is a number `then` takes for an `else`. */
  predicate EndsFake(fr: Frag) {
    match fr
    case W(w) => LooksLikeElse(w)
    case Cat(a, b) => if Len(b) == 0 then EndsFake(a) else EndsFake(b)
    case _ => false
  }

  /** Some `then` at its outermost level closes the structure around it. */
  predicate Spoils(fr: Frag) {
    match fr
    case Cat(a, b) => Spoils(a) || Spoils(b)
    case IfThen(t) => EndsFake(t)
    case IfElse(_, e) => EndsFake(e)
    case _ => false
  }

  /** The bytes from a loop's mark to the offset of its `repeat`. */
  function BackBytes(m: Stage, test: Frag, body: Frag): nat {
    Bytes(m, test) + Opening(m) + Bytes(m, body) + 1
  }

  /** The engine gets through the text: a `then` after such a number needs a
      structure around it to patch, which must not be a loop that is still at its
      test; and loops do not reach back too far. */
  predicate Fits(m: Stage, fr: Frag, within: bool) {
    match fr
    case Cat(a, b) => Fits(m, a, within) && Fits(m, b, within)
    case IfThen(t) => Fits(m, t, true) && (EndsFake(t) ==> within)
    case IfElse(t, e) => Fits(m, t, true) && Fits(m, e, true) && (EndsFake(e) ==> within)
    case Loop(test, body) =>
      Fits(m, test, true) && !Spoils(test) && Fits(m, body, true) && BackBytes(m, test, body) <= BACKWARD
    case _ => true
  }

  /** The engine makes the code it should: no `then` follows such a number, and no
      branch is too long. */
  predicate Clean(m: Stage, fr: Frag) {
    match fr
    case Skip => true
    case W(w) => true
    case Cat(a, b) => Clean(m, a) && Clean(m, b)
    case IfThen(t) => Clean(m, t) && !EndsFake(t) && 3 + Bytes(m, t) <= FORWARD
    case IfElse(t, e) =>
      Clean(m, t) && Clean(m, e) && !EndsFake(e) && 6 + Bytes(m, t) <= FORWARD && 4 + Bytes(m, e) <= FORWARD
    case Loop(test, body) =>
      Clean(m, test) && Clean(m, body) && 6 + Bytes(m, body) <= FORWARD && BackBytes(m, test, body) <= BACKWARD
    case Endless(_) => false
  }

  function Join(w: seq<Instr>, x: seq<Instr>, y: seq<Instr>, z: seq<Instr>): (code: seq<Instr>)
    ensures |code| == |w| + |x| + |y| + |z|
  {
    w + x + y + z
  }

  /** Threaded code of a fragment placed at a base position. */
  function Gen(fr: Frag, base: nat): (code: seq<Instr>)
    ensures |code| == Len(fr)
  {
    match fr
    case Skip => []
    case W(w) => [IWord(w)]
    case Cat(a, b) => Gen(a, base) + Gen(b, base + Len(a))
    case IfThen(t) => Join([IZBranch(base + 2 + Len(t))], Gen(t, base + 1), [IResolve], [])
    case IfElse(t, e) =>
      var m := base + 1 + Len(t);
      Join([IZBranch(m + 2)], Gen(t, base + 1), [IBranch(m + 3 + Len(e)), IResolve], Gen(e, m + 2) + [IResolve])
    case Loop(test, body) =>
      var m := base + 1 + Len(test);
      Join([IMark] + Gen(test, base + 1), [IZBranch(m + 3 + Len(body))], Gen(body, m + 1),
           [IBack(base + 1), IResolve])
    case Endless(body) => Join([IMark], Gen(body, base + 1), [IBack(base + 1), IResolve], [])
  }

  lemma {:induction false} CleanIs(m: Stage, fr: Frag, within: bool)
    requires Clean(m, fr)
    ensures Conditioned(fr) && Fits(m, fr, within) && !Spoils(fr)
  {
    hide Bytes;
    match fr
    case Cat(a, b) => CleanIs(m, a, within); CleanIs(m, b, within);
    case IfThen(t) => CleanIs(m, t, true);
    case IfElse(t, e) => CleanIs(m, t, true); CleanIs(m, e, true);
    case Loop(test, body) => CleanIs(m, test, true); CleanIs(m, body, true);
    case _ =>
  }

  lemma {:induction false} FitsSpoils(m: Stage, fr: Frag)
    requires Fits(m, fr, false)
    ensures !Spoils(fr)
  {
    if fr.Cat? {
      FitsSpoils(m, fr.a);
      FitsSpoils(m, fr.b);
    }
  }

  /** FCodes are no longer than the code in memory. */
  lemma {:induction false} TokShorter(fr: Frag)
    ensures Bytes(Tok, fr) <= Bytes(Mem, fr)
  {
    match fr
    case Skip =>
    case W(_) =>
    case Cat(a, b) => TokShorter(a); TokShorter(b);
    case IfThen(t) => TokShorter(t);
    case IfElse(t, e) => TokShorter(t); TokShorter(e);
    case Loop(test, body) => TokShorter(test); TokShorter(body);
    case Endless(body) => TokShorter(body);
  }

  /** What fits in memory fits as FCodes. */
  lemma {:induction false} MemFits(fr: Frag, within: bool)
    ensures Fits(Mem, fr, within) ==> Fits(Tok, fr, within)
    ensures Clean(Mem, fr) ==> Clean(Tok, fr)
  {
    hide Bytes;
    match fr
    case Cat(a, b) => MemFits(a, within); MemFits(b, within);
    case IfThen(t) => MemFits(t, true); TokShorter(t);
    case IfElse(t, e) => MemFits(t, true); MemFits(e, true); TokShorter(t); TokShorter(e);
    case Loop(test, body) => MemFits(test, true); MemFits(body, true); TokShorter(test); TokShorter(body);
    case _ =>
  }
}
