/** Loads and stores of bitfields: the words the generator prints for them, on a
    machine with 32-bit cells and big-endian byte memory. */
module Bitfields {
  import opened Options

  /** A 32-bit cell. */
  datatype Cell = Cell(b: bv32)

  datatype BWord =
    | Num(n: Cell)
    | Dup | Over | Swap | MinusRot | ToR | RFrom
    | BAnd | BOr | BInvert | BLshift | BRshift
    | Fetch(bytes: nat) | Store(bytes: nat)

  datatype Stk = Bot | Push(top: Cell, below: Stk)

  /** Bytes by address; only the low eight bits of an entry count. */
  type Bytes = map<int, Cell>

  datatype State = State(ds: Stk, rs: Stk, mem: Bytes)

  function Address(x: Cell): int {
    x.b as int
  }

  /** The low byte. */
  function Low(x: Cell): Cell {
    Cell(x.b & 0xFF)
  }

  /** The cell without its k low bytes. */
  function Upper(x: Cell, k: nat): Cell
    requires k < 4
  {
    Cell(if k == 1 then x.b >> 8 else if k == 2 then x.b >> 16 else if k == 3 then x.b >> 24 else x.b)
  }

  function Glue2(p: Cell, q: Cell): Cell {
    Cell((p.b << 8) | q.b)
  }

  function Glue4(p: Cell, q: Cell, r: Cell, t: Cell): Cell {
    Cell((p.b << 24) | (q.b << 16) | (r.b << 8) | t.b)
  }

  function Byte(mem: Bytes, a: int): Cell {
    if a in mem then Low(mem[a]) else Cell(0)
  }

  function Load(bytes: nat, mem: Bytes, a: int): Cell {
    if bytes == 1 then Byte(mem, a)
    else if bytes == 2 then Glue2(Byte(mem, a), Byte(mem, a + 1))
    else Glue4(Byte(mem, a), Byte(mem, a + 1), Byte(mem, a + 2), Byte(mem, a + 3))
  }

  function Save(bytes: nat, mem: Bytes, a: int, x: Cell): Bytes {
    if bytes == 1 then mem[a := x]
    else if bytes == 2 then mem[a := Upper(x, 1)][a + 1 := x]
    else mem[a := Upper(x, 3)][a + 1 := Upper(x, 2)][a + 2 := Upper(x, 1)][a + 3 := x]
  }

  /** Shifts by a whole cell or more clear it. */
  function Lsh(x: Cell, n: Cell): Cell {
    Cell(if n.b < 32 then x.b << n.b else 0)
  }

  function Rsh(x: Cell, n: Cell): Cell {
    Cell(if n.b < 32 then x.b >> n.b else 0)
  }

  function Conj(x: Cell, y: Cell): Cell {
    Cell(x.b & y.b)
  }

  function Disj(x: Cell, y: Cell): Cell {
    Cell(x.b | y.b)
  }

  function Inverse(x: Cell): Cell {
    Cell(!x.b)
  }

  /** The stack holds at least n cells, for n up to 3. */
  predicate Holds(s: Stk, n: nat) {
    n == 0 || (s.Push? && (n == 1 || (s.below.Push? && (n == 2 || s.below.below.Push?))))
  }

  /** How many cells a word takes from the stack. */
  function Takes(w: BWord): nat {
    if w.Num? || w.RFrom? then 0
    else if w.Dup? || w.ToR? || w.BInvert? || w.Fetch? then 1
    else if w.MinusRot? then 3
    else 2
  }

  /** One word. None is an underflow. */
  function Perform(w: BWord, s: State): Option<State> {
    if !Holds(s.ds, Takes(w)) || (w.RFrom? && s.rs.Bot?) then None
    else if w.Num? then Some(s.(ds := Push(w.n, s.ds)))
    else if w.RFrom? then Some(s.(ds := Push(s.rs.top, s.ds), rs := s.rs.below))
    else
      var x, d := s.ds.top, s.ds.below;
      if w.Dup? then Some(s.(ds := Push(x, s.ds)))
      else if w.ToR? then Some(s.(ds := d, rs := Push(x, s.rs)))
      else if w.BInvert? then Some(s.(ds := Push(Inverse(x), d)))
      else if w.Fetch? then Some(s.(ds := Push(Load(w.bytes, s.mem, Address(x)), d)))
      else
        var y, d' := d.top, d.below;
        if w.Over? then Some(s.(ds := Push(y, s.ds)))
        else if w.Swap? then Some(s.(ds := Push(y, Push(x, d'))))
        else if w.BAnd? then Some(s.(ds := Push(Conj(y, x), d')))
        else if w.BOr? then Some(s.(ds := Push(Disj(y, x), d')))
        else if w.BLshift? then Some(s.(ds := Push(Lsh(y, x), d')))
        else if w.BRshift? then Some(s.(ds := Push(Rsh(y, x), d')))
        else if w.Store? then Some(State(d', s.rs, Save(w.bytes, s.mem, Address(x), y)))
        else Some(s.(ds := Push(y, Push(d'.top, Push(x, d'.below)))))
  }

  /** Run a text from its i-th word on. */
  function Run(ws: seq<BWord>, i: nat, s: State): Option<State>
    requires i <= |ws|
    decreases |ws| - i
  {
    if i == |ws| then Some(s)
    else
      var r := Perform(ws[i], s);
      if r.Some? then Run(ws, i + 1, r.value) else None
  }

  lemma Step(ws: seq<BWord>, i: nat, s: State, s': State)
    requires i < |ws| && Perform(ws[i], s) == Some(s')
    ensures Run(ws, i, s) == Run(ws, i + 1, s')
  {
    hide Perform;
  }

  // ----- what the generator prints -----

  /** The bytes accessed for a field: its width alone decides. */
  function UnitBytes(width: nat): nat {
    if width <= 8 then 1 else if width <= 16 then 2 else 4
  }

  /** All ones in the low bits. */
  function Mask(width: nat): Cell
    requires width < 32
  {
    Cell((1 << width) - 1)
  }

  /** ( shift addr -- val ) */
  function GetText(width: nat): seq<BWord>
    requires width < 32
  {
    [Fetch(UnitBytes(width)), Swap, BRshift, Num(Mask(width)), BAnd]
  }

  /** ( val shift addr -- ) */
  function SetText(width: nat): seq<BWord>
    requires width < 32
  {
    [Dup, ToR, Fetch(UnitBytes(width)),
     Over, Num(Mask(width)), Swap, BLshift, BInvert, BAnd,
     MinusRot, Swap, Num(Mask(width)), BAnd, Swap, BLshift, BOr, RFrom, Store(UnitBytes(width))]
  }

  // ----- their effect -----

  /** The field's bits read out of a unit. */
  function Extract(unit: Cell, shift: Cell, mask: Cell): Cell {
    Conj(Rsh(unit, shift), mask)
  }

  /** The unit with the field's bits replaced. */
  function Insert(unit: Cell, v: Cell, shift: Cell, mask: Cell): Cell {
    Disj(Conj(unit, Inverse(Lsh(mask, shift))), Lsh(Conj(v, mask), shift))
  }

  lemma StepDup(ws: seq<BWord>, i: nat, x: Cell, d: Stk, s: State)
    requires i < |ws| && ws[i] == Dup && s.ds == Push(x, d)
    ensures Run(ws, i, s) == Run(ws, i + 1, s.(ds := Push(x, s.ds)))
  {
    hide Run, Conj, Disj, Inverse, Lsh, Rsh, Load, Save, Address;
    Step(ws, i, s, s.(ds := Push(x, s.ds)));
  }

  lemma StepToR(ws: seq<BWord>, i: nat, x: Cell, d: Stk, s: State)
    requires i < |ws| && ws[i] == ToR && s.ds == Push(x, d)
    ensures Run(ws, i, s) == Run(ws, i + 1, s.(ds := d, rs := Push(x, s.rs)))
  {
    hide Run, Conj, Disj, Inverse, Lsh, Rsh, Load, Save, Address;
    Step(ws, i, s, s.(ds := d, rs := Push(x, s.rs)));
  }

  lemma StepInvert(ws: seq<BWord>, i: nat, x: Cell, d: Stk, s: State)
    requires i < |ws| && ws[i] == BInvert && s.ds == Push(x, d)
    ensures Run(ws, i, s) == Run(ws, i + 1, s.(ds := Push(Inverse(x), d)))
  {
    hide Run, Conj, Disj, Inverse, Lsh, Rsh, Load, Save, Address;
    Step(ws, i, s, s.(ds := Push(Inverse(x), d)));
  }

  lemma StepFetch(ws: seq<BWord>, i: nat, k: nat, x: Cell, d: Stk, s: State)
    requires i < |ws| && ws[i] == Fetch(k) && s.ds == Push(x, d)
    ensures Run(ws, i, s) == Run(ws, i + 1, s.(ds := Push(Load(k, s.mem, Address(x)), d)))
  {
    hide Run, Conj, Disj, Inverse, Lsh, Rsh, Load, Save, Address;
    Step(ws, i, s, s.(ds := Push(Load(k, s.mem, Address(x)), d)));
  }

  lemma StepNum(ws: seq<BWord>, i: nat, n: Cell, d: Stk, s: State)
    requires i < |ws| && ws[i] == Num(n) && s.ds == d
    ensures Run(ws, i, s) == Run(ws, i + 1, s.(ds := Push(n, d)))
  {
    hide Run, Conj, Disj, Inverse, Lsh, Rsh, Load, Save, Address;
    Step(ws, i, s, s.(ds := Push(n, d)));
  }

  lemma StepOver(ws: seq<BWord>, i: nat, x: Cell, y: Cell, d: Stk, s: State)
    requires i < |ws| && ws[i] == Over && s.ds == Push(x, Push(y, d))
    ensures Run(ws, i, s) == Run(ws, i + 1, s.(ds := Push(y, s.ds)))
  {
    hide Run, Conj, Disj, Inverse, Lsh, Rsh, Load, Save, Address;
    Step(ws, i, s, s.(ds := Push(y, s.ds)));
  }

  lemma StepSwap(ws: seq<BWord>, i: nat, x: Cell, y: Cell, d: Stk, s: State)
    requires i < |ws| && ws[i] == Swap && s.ds == Push(x, Push(y, d))
    ensures Run(ws, i, s) == Run(ws, i + 1, s.(ds := Push(y, Push(x, d))))
  {
    hide Run, Conj, Disj, Inverse, Lsh, Rsh, Load, Save, Address;
    Step(ws, i, s, s.(ds := Push(y, Push(x, d))));
  }

  lemma StepAnd(ws: seq<BWord>, i: nat, x: Cell, y: Cell, d: Stk, s: State)
    requires i < |ws| && ws[i] == BAnd && s.ds == Push(x, Push(y, d))
    ensures Run(ws, i, s) == Run(ws, i + 1, s.(ds := Push(Conj(y, x), d)))
  {
    hide Run, Conj, Disj, Inverse, Lsh, Rsh, Load, Save, Address;
    Step(ws, i, s, s.(ds := Push(Conj(y, x), d)));
  }

  lemma StepOr(ws: seq<BWord>, i: nat, x: Cell, y: Cell, d: Stk, s: State)
    requires i < |ws| && ws[i] == BOr && s.ds == Push(x, Push(y, d))
    ensures Run(ws, i, s) == Run(ws, i + 1, s.(ds := Push(Disj(y, x), d)))
  {
    hide Run, Conj, Disj, Inverse, Lsh, Rsh, Load, Save, Address;
    Step(ws, i, s, s.(ds := Push(Disj(y, x), d)));
  }

  lemma StepLsh(ws: seq<BWord>, i: nat, x: Cell, y: Cell, d: Stk, s: State)
    requires i < |ws| && ws[i] == BLshift && s.ds == Push(x, Push(y, d))
    ensures Run(ws, i, s) == Run(ws, i + 1, s.(ds := Push(Lsh(y, x), d)))
  {
    hide Run, Conj, Disj, Inverse, Lsh, Rsh, Load, Save, Address;
    Step(ws, i, s, s.(ds := Push(Lsh(y, x), d)));
  }

  lemma StepRsh(ws: seq<BWord>, i: nat, x: Cell, y: Cell, d: Stk, s: State)
    requires i < |ws| && ws[i] == BRshift && s.ds == Push(x, Push(y, d))
    ensures Run(ws, i, s) == Run(ws, i + 1, s.(ds := Push(Rsh(y, x), d)))
  {
    hide Run, Conj, Disj, Inverse, Lsh, Rsh, Load, Save, Address;
    Step(ws, i, s, s.(ds := Push(Rsh(y, x), d)));
  }

  lemma StepStore(ws: seq<BWord>, i: nat, k: nat, x: Cell, y: Cell, d: Stk, s: State)
    requires i < |ws| && ws[i] == Store(k) && s.ds == Push(x, Push(y, d))
    ensures Run(ws, i, s) == Run(ws, i + 1, State(d, s.rs, Save(k, s.mem, Address(x), y)))
  {
    hide Run, Conj, Disj, Inverse, Lsh, Rsh, Load, Save, Address;
    Step(ws, i, s, State(d, s.rs, Save(k, s.mem, Address(x), y)));
  }

  lemma StepRot(ws: seq<BWord>, i: nat, x: Cell, y: Cell, z: Cell, d: Stk, s: State)
    requires i < |ws| && ws[i] == MinusRot && s.ds == Push(x, Push(y, Push(z, d)))
    ensures Run(ws, i, s) == Run(ws, i + 1, s.(ds := Push(y, Push(z, Push(x, d)))))
  {
    hide Run, Conj, Disj, Inverse, Lsh, Rsh, Load, Save, Address;
    Step(ws, i, s, s.(ds := Push(y, Push(z, Push(x, d)))));
  }

  lemma StepRFrom(ws: seq<BWord>, i: nat, x: Cell, r: Stk, s: State)
    requires i < |ws| && ws[i] == RFrom && s.rs == Push(x, r)
    ensures Run(ws, i, s) == Run(ws, i + 1, s.(ds := Push(x, s.ds), rs := r))
  {
    hide Run, Conj, Disj, Inverse, Lsh, Rsh, Load, Save, Address;
    Step(ws, i, s, s.(ds := Push(x, s.ds), rs := r));
  }

  lemma GetWords(width: nat)
    requires width < 32
    ensures var ws, k, m := GetText(width), UnitBytes(width), Mask(width);
      |ws| == 5 && ws[0] == Fetch(k) && ws[1] == Swap && ws[2] == BRshift && ws[3] == Num(m) && ws[4] == BAnd
  {
    hide UnitBytes, Mask;
  }

  lemma RunGet(width: nat, shift: Cell, a: Cell, d: Stk, s: State)
    requires width < 32 && s.ds == Push(a, Push(shift, d))
    ensures var r := Extract(Load(UnitBytes(width), s.mem, Address(a)), shift, Mask(width));
      Run(GetText(width), 0, s) == Some(s.(ds := Push(r, d)))
  {
    var ws, k, m := GetText(width), UnitBytes(width), Mask(width);
    GetWords(width);
    hide GetText, Address, Load, Rsh, Mask, UnitBytes, Run, Conj, Perform;
    var u := Load(k, s.mem, Address(a));
    var f := Rsh(u, shift);
    StepFetch(ws, 0, k, a, Push(shift, d), s);
    StepSwap(ws, 1, u, shift, d, s.(ds := Push(u, Push(shift, d))));
    StepRsh(ws, 2, shift, u, d, s.(ds := Push(shift, Push(u, d))));
    StepNum(ws, 3, m, Push(f, d), s.(ds := Push(f, d)));
    StepAnd(ws, 4, m, f, d, s.(ds := Push(m, Push(f, d))));
    Done(ws, s.(ds := Push(Conj(f, m), d)));
  }

  lemma Done(ws: seq<BWord>, s: State)
    ensures Run(ws, |ws|, s) == Some(s)
  {
  }

  lemma SetWords(width: nat)
    requires width < 32
    ensures var ws, k, m := SetText(width), UnitBytes(width), Mask(width);
      |ws| == 18 && ws[0] == Dup && ws[1] == ToR && ws[2] == Fetch(k) && ws[3] == Over && ws[4] == Num(m)
      && ws[5] == Swap && ws[6] == BLshift && ws[7] == BInvert && ws[8] == BAnd
      && ws[9] == MinusRot && ws[10] == Swap && ws[11] == Num(m) && ws[12] == BAnd && ws[13] == Swap
      && ws[14] == BLshift && ws[15] == BOr && ws[16] == RFrom && ws[17] == Store(k)
  {
    hide UnitBytes, Mask;
  }

  /** Words 0 to 2: keep the address, fetch the unit. */
  lemma RunSetFetch(width: nat, shift: Cell, a: Cell, d: Stk, s: State)
    requires width < 32 && s.ds == Push(a, Push(shift, d))
    ensures Run(SetText(width), 0, s)
         == Run(SetText(width), 3, State(Push(Load(UnitBytes(width), s.mem, Address(a)), Push(shift, d)), Push(a, s.rs), s.mem))
  {
    var ws, k := SetText(width), UnitBytes(width);
    SetWords(width);
    hide Address, Load, Mask, UnitBytes, Run, Perform, SetText;
    var under := Push(shift, d);
    StepDup(ws, 0, a, under, s);
    StepToR(ws, 1, a, s.ds, s.(ds := Push(a, s.ds)));
    StepFetch(ws, 2, k, a, under, s.(rs := Push(a, s.rs)));
  }

  /** Words 3 to 8: clear the field's bits. */
  lemma RunSetClear(width: nat, shift: Cell, u: Cell, d: Stk, s: State)
    requires width < 32 && s.ds == Push(u, Push(shift, d))
    ensures Run(SetText(width), 3, s)
         == Run(SetText(width), 9, s.(ds := Push(Conj(u, Inverse(Lsh(Mask(width), shift))), Push(shift, d))))
  {
    var ws, m := SetText(width), Mask(width);
    SetWords(width);
    hide Lsh, Mask, Run, Conj, Inverse, Perform, SetText, UnitBytes;
    var l := Lsh(m, shift);
    StepOver(ws, 3, u, shift, d, s);
    StepNum(ws, 4, m, Push(shift, s.ds), s.(ds := Push(shift, s.ds)));
    StepSwap(ws, 5, m, shift, s.ds, s.(ds := Push(m, Push(shift, s.ds))));
    StepLsh(ws, 6, shift, m, s.ds, s.(ds := Push(shift, Push(m, s.ds))));
    StepInvert(ws, 7, l, s.ds, s.(ds := Push(l, s.ds)));
    StepAnd(ws, 8, Inverse(l), u, Push(shift, d), s.(ds := Push(Inverse(l), s.ds)));
  }

  /** Words 9 to 15: the new bits go into the hole. */
  lemma RunSetMerge(width: nat, v: Cell, shift: Cell, hole: Cell, d: Stk, s: State)
    requires width < 32 && s.ds == Push(hole, Push(shift, Push(v, d)))
    ensures Run(SetText(width), 9, s)
         == Run(SetText(width), 16, s.(ds := Push(Disj(hole, Lsh(Conj(v, Mask(width)), shift)), d)))
  {
    var ws, m := SetText(width), Mask(width);
    SetWords(width);
    hide Lsh, Mask, Run, Conj, Disj, Perform, SetText, UnitBytes;
    var h, bits := Push(hole, d), Conj(v, m);
    StepRot(ws, 9, hole, shift, v, d, s);
    StepSwap(ws, 10, shift, v, h, s.(ds := Push(shift, Push(v, h))));
    StepNum(ws, 11, m, Push(v, Push(shift, h)), s.(ds := Push(v, Push(shift, h))));
    StepAnd(ws, 12, m, v, Push(shift, h), s.(ds := Push(m, Push(v, Push(shift, h)))));
    StepSwap(ws, 13, bits, shift, h, s.(ds := Push(bits, Push(shift, h))));
    StepLsh(ws, 14, shift, bits, h, s.(ds := Push(shift, Push(bits, h))));
    StepOr(ws, 15, Lsh(bits, shift), hole, d, s.(ds := Push(Lsh(bits, shift), h)));
  }

  /** Words 16 and 17: store. */
  lemma RunSetStore(width: nat, x: Cell, a: Cell, d: Stk, rs: Stk, s: State)
    requires width < 32 && s.ds == Push(x, d) && s.rs == Push(a, rs)
    ensures Run(SetText(width), 16, s) == Some(State(d, rs, Save(UnitBytes(width), s.mem, Address(a), x)))
  {
    var ws, k := SetText(width), UnitBytes(width);
    SetWords(width);
    hide Address, Save, Mask, UnitBytes, Run, SetText, Perform;
    StepRFrom(ws, 16, a, rs, s);
    StepStore(ws, 17, k, a, x, d, State(Push(a, s.ds), rs, s.mem));
    Done(ws, State(d, rs, Save(k, s.mem, Address(a), x)));
  }

  lemma RunSet(width: nat, v: Cell, shift: Cell, a: Cell, d: Stk, s: State)
    requires width < 32 && s.ds == Push(a, Push(shift, Push(v, d)))
    ensures var k := UnitBytes(width);
      Run(SetText(width), 0, s)
      == Some(State(d, s.rs, Save(k, s.mem, Address(a), Insert(Load(k, s.mem, Address(a)), v, shift, Mask(width)))))
  {
    hide Address, Load, Save, Lsh, Mask, UnitBytes, Run, Conj, Disj, Inverse, SetText;
    var u := Load(UnitBytes(width), s.mem, Address(a));
    var hole := Conj(u, Inverse(Lsh(Mask(width), shift)));
    var t := State(Push(u, Push(shift, Push(v, d))), Push(a, s.rs), s.mem);
    var x := Insert(u, v, shift, Mask(width));
    RunSetFetch(width, shift, a, Push(v, d), s);
    RunSetClear(width, shift, u, Push(v, d), t);
    RunSetMerge(width, v, shift, hole, d, t.(ds := Push(hole, Push(shift, Push(v, d)))));
    RunSetStore(width, x, a, d, s.rs, t.(ds := Push(x, d)));
  }

  // ----- memory -----

  /** The bits of a cell that a unit keeps. */
  function UnitOnes(bytes: nat): Cell {
    Cell(if bytes == 1 then 0xFF else if bytes == 2 then 0xFFFF else 0xFFFF_FFFF)
  }

  lemma GluedByte(x: Cell)
    ensures Low(x) == Conj(x, UnitOnes(1))
  {
  }

  lemma GluedHalf(x: Cell)
    ensures Glue2(Low(Upper(x, 1)), Low(x)) == Conj(x, UnitOnes(2))
  {
    Halves(x.b);
  }

  lemma Halves(x: bv32)
    ensures (((x >> 8) & 0xFF) << 8) | (x & 0xFF) == x & 0xFFFF
  {
  }

  lemma GluedWord(x: Cell)
    ensures Glue4(Low(Upper(x, 3)), Low(Upper(x, 2)), Low(Upper(x, 1)), Low(x)) == Conj(x, UnitOnes(4))
  {
  }

  lemma LoadSaved(bytes: nat, mem: Bytes, a: int, x: Cell)
    requires bytes in {1, 2, 4}
    ensures Load(bytes, Save(bytes, mem, a, x), a) == Conj(x, UnitOnes(bytes))
  {
    GluedByte(x);
    GluedHalf(x);
    GluedWord(x);
    hide Low, Upper, Glue2, Glue4, Conj, UnitOnes;
  }

  /** Bytes outside the unit stay. */
  lemma SaveStays(bytes: nat, mem: Bytes, a: int, x: Cell, b: int)
    requires bytes in {1, 2, 4} && !(a <= b < a + bytes)
    ensures Byte(Save(bytes, mem, a, x), b) == Byte(mem, b)
  {
    hide Low, Upper;
  }

  lemma LowFits(p: Cell, q: Cell)
    requires Low(p) == p && Low(q) == q
    ensures Conj(p, UnitOnes(1)) == p
    ensures Conj(Glue2(p, q), UnitOnes(2)) == Glue2(p, q)
  {
  }

  lemma AllOnes(p: Cell)
    ensures Conj(p, UnitOnes(4)) == p
  {
  }

  lemma ByteLow(mem: Bytes, a: int)
    ensures Low(Byte(mem, a)) == Byte(mem, a)
  {
  }

  lemma LoadFits(bytes: nat, mem: Bytes, a: int)
    requires bytes in {1, 2, 4}
    ensures Conj(Load(bytes, mem, a), UnitOnes(bytes)) == Load(bytes, mem, a)
  {
    hide Byte, Low, Glue2, Glue4, Conj, UnitOnes;
    ByteLow(mem, a);
    ByteLow(mem, a + 1);
    LowFits(Byte(mem, a), Byte(mem, a + 1));
    AllOnes(Load(4, mem, a));
  }

  // ----- bits -----

  lemma RshStep(x: Cell, s: Cell)
    requires 0 < s.b < 32
    ensures Rsh(x, s) == Rsh(Rsh(x, Cell(s.b - 1)), Cell(1))
  {
  }

  lemma RshOne(x: Cell, y: Cell)
    ensures Rsh(Conj(x, y), Cell(1)) == Conj(Rsh(x, Cell(1)), Rsh(y, Cell(1)))
  {
  }

  lemma RshZero(x: Cell)
    ensures Rsh(x, Cell(0)) == x
  {
  }

  lemma {:induction false} RshConj(x: Cell, y: Cell, s: Cell)
    requires s.b < 32
    ensures Rsh(Conj(x, y), s) == Conj(Rsh(x, s), Rsh(y, s))
    decreases s.b
  {
    hide Rsh, Conj;
    if s.b == 0 {
      RshZero(x);
      RshZero(y);
      RshZero(Conj(x, y));
    } else {
      var t := Cell(s.b - 1);
      RshStep(x, s);
      RshStep(y, s);
      RshStep(Conj(x, y), s);
      RshConj(x, y, t);
      RshOne(Rsh(x, t), Rsh(y, t));
    }
  }

  lemma {:induction false} RshTwice(x: Cell, s: Cell, t: Cell)
    requires s.b < 32 && t.b < 32 - s.b
    ensures Rsh(Rsh(x, s), t) == Rsh(x, Cell(s.b + t.b))
    decreases t.b
  {
    hide Rsh;
    if t.b == 0 {
      RshZero(Rsh(x, s));
    } else {
      var t' := Cell(t.b - 1);
      RshStep(Rsh(x, s), t);
      RshTwice(x, s, t');
      RshStep(x, Cell(s.b + t.b));
      assert s.b + t.b - 1 == s.b + t'.b;
    }
  }

  /** The low w bits. */
  function Ones(w: bv32): Cell
    requires w < 32
  {
    Cell((1 << w) - 1)
  }

  lemma OnesBack(s: Cell, w: bv32)
    requires 0 < w < 32 && s.b < 32 && s.b + w <= 32
    ensures Rsh(Lsh(Ones(w), s), s) == Ones(w)
  {
  }

  lemma WithinBack(x: Cell, m: Cell, s: Cell)
    requires s.b < 32 && Rsh(Lsh(m, s), s) == m && Conj(x, m) == x
    ensures Rsh(Lsh(x, s), s) == x
  {
  }

  lemma OnesGone(w: bv32, k: Cell)
    requires 0 < w <= k.b < 32
    ensures Rsh(Ones(w), k) == Cell(0)
  {
  }

  lemma ClearBelow(y: Cell, m: Cell, s: Cell)
    requires s.b < 32 && Rsh(y, s) == Cell(0)
    ensures Conj(y, Lsh(m, s)) == Cell(0)
  {
  }

  lemma LshConj(x: Cell, m: Cell, s: Cell)
    requires s.b < 32
    ensures Conj(Lsh(Conj(x, m), s), Lsh(m, s)) == Lsh(Conj(x, m), s)
  {
  }

  /** Fields that lie apart share no bit. */
  lemma FieldsApart(s: Cell, w: bv32, s': Cell, w': bv32)
    requires 0 < w < 32 && 0 < w' < 32 && s.b < 32 && s'.b < 32 && s.b + w <= s'.b
    ensures Conj(Lsh(Ones(w), s), Lsh(Ones(w'), s')) == Cell(0)
  {
    hide Rsh, Lsh, Conj, Ones;
    var k := Cell(s'.b - s.b);
    OnesBack(s, w);
    RshTwice(Lsh(Ones(w), s), s, k);
    assert s.b + k.b == s'.b;
    OnesGone(w, k);
    ClearBelow(Lsh(Ones(w), s), Ones(w'), s');
  }

  lemma MasksApart(s: Cell, w: bv32, s': Cell, w': bv32)
    requires 0 < w < 32 && 0 < w' < 32 && s.b < 32 && s'.b < 32 && s.b + w <= 32 && s'.b + w' <= 32
    requires s.b + w <= s'.b || s'.b + w' <= s.b
    ensures Conj(Lsh(Ones(w), s), Lsh(Ones(w'), s')) == Cell(0)
  {
    hide Lsh, Conj, Ones;
    if s.b + w <= s'.b {
      FieldsApart(s, w, s', w');
    } else {
      FieldsApart(s', w', s, w);
      Commutes(Lsh(Ones(w), s), Lsh(Ones(w'), s'));
    }
  }

  lemma Commutes(x: Cell, y: Cell)
    ensures Conj(x, y) == Conj(y, x)
  {
  }

  /** Cells that agree on a field's bits have the same field. */
  lemma SameField(x: Cell, y: Cell, s: Cell, m: Cell)
    requires s.b < 32 && Rsh(Lsh(m, s), s) == m && Conj(x, Lsh(m, s)) == Conj(y, Lsh(m, s))
    ensures Extract(x, s, m) == Extract(y, s, m)
  {
    hide Rsh, Lsh, Conj;
    RshConj(x, Lsh(m, s), s);
    RshConj(y, Lsh(m, s), s);
  }

  // ----- a unit of 8, 16 or 32 bits -----

  /** The bits of a unit. */
  function UnitBits(bytes: nat): bv32 {
    if bytes == 1 then 8 else if bytes == 2 then 16 else 32
  }

  lemma FieldInUnit(s: Cell, w: bv32, n: nat)
    requires 0 < w < 32 && n in {1, 2, 4} && s.b < 32 && s.b + w <= UnitBits(n)
    ensures Conj(Lsh(Ones(w), s), UnitOnes(n)) == Lsh(Ones(w), s)
  {
  }

  /** The boolean part of storing: inside the field the new bits, outside it the
      old ones. */
  lemma Merged(u: Cell, l: Cell, f: Cell, unit: Cell)
    requires Conj(f, l) == f && Conj(l, unit) == l && Conj(u, unit) == u
    ensures var x := Conj(Disj(Conj(u, Inverse(l)), f), unit);
      Conj(x, l) == Conj(f, l) && Conj(x, Inverse(l)) == Conj(u, Inverse(l))
  {
  }

  lemma OutsideApart(x: Cell, u: Cell, l: Cell, k: Cell)
    requires Conj(x, Inverse(l)) == Conj(u, Inverse(l)) && Conj(l, k) == Cell(0)
    ensures Conj(x, k) == Conj(u, k)
  {
  }

  lemma ConjTwice(v: Cell, m: Cell)
    ensures Conj(Conj(v, m), m) == Conj(v, m)
  {
  }

  /** The unit a store leaves: the field holds the value cut to its width, and
      every bit outside the field is as before. */
  lemma Stored(u: Cell, v: Cell, s: Cell, w: bv32, n: nat)
    requires 0 < w < 32 && n in {1, 2, 4} && s.b < 32 && s.b + w <= UnitBits(n) && Conj(u, UnitOnes(n)) == u
    ensures var m := Ones(w);
      var x := Conj(Insert(u, v, s, m), UnitOnes(n));
      Extract(x, s, m) == Conj(v, m) && Conj(x, Inverse(Lsh(m, s))) == Conj(u, Inverse(Lsh(m, s)))
  {
    hide Rsh, Lsh, Conj, Disj, Inverse, Ones, UnitOnes;
    var m := Ones(w);
    var f := Lsh(Conj(v, m), s);
    OnesBack(s, w);
    FieldInUnit(s, w, n);
    LshConj(v, m, s);
    Merged(u, Lsh(m, s), f, UnitOnes(n));
    SameField(Conj(Insert(u, v, s, m), UnitOnes(n)), f, s, m);
    ConjTwice(v, m);
    WithinBack(Conj(v, m), m, s);
  }

  /** A field that reaches past its unit loses its top bits. */
  lemma Spilled(u: Cell, s: Cell, w: bv32, n: nat)
    requires 0 < w < 32 && n in {1, 2, 4} && s.b < 32 && s.b + w > UnitBits(n)
    ensures Extract(Conj(Insert(u, Ones(w), s, Ones(w)), UnitOnes(n)), s, Ones(w)) != Conj(Ones(w), Ones(w))
  {
  }

  // ----- set, then get -----

  /** A width as a bit count. */
  lemma MaskIsOnes(width: nat)
    requires width < 32
    ensures Mask(width) == Ones(width as bv32)
  {
  }

  /** The machine after the words that store v in the field. */
  function AfterSet(width: nat, v: Cell, shift: Cell, a: Cell, s: State): State
    requires width < 32
  {
    var r := Run(SetText(width), 0, s.(ds := Push(a, Push(shift, Push(v, s.ds)))));
    if r.Some? then r.value else s
  }

  /** What the words that load a field leave on the stack. */
  function Got(width: nat, shift: Cell, a: Cell, s: State): Option<Cell>
    requires width < 32
  {
    var r := Run(GetText(width), 0, s.(ds := Push(a, Push(shift, s.ds))));
    if r.Some? && r.value.ds.Push? then Some(r.value.ds.top) else None
  }

  lemma GotIs(width: nat, shift: Cell, a: Cell, s: State)
    requires width < 32
    ensures Got(width, shift, a, s) == Some(Extract(Load(UnitBytes(width), s.mem, Address(a)), shift, Mask(width)))
  {
    hide Run, Load, Address, Extract, Mask, UnitBytes, GetText;
    RunGet(width, shift, a, s.ds, s.(ds := Push(a, Push(shift, s.ds))));
  }

  /** Storing takes its three cells away and changes the one unit. */
  lemma SetIs(width: nat, v: Cell, shift: Cell, a: Cell, s: State)
    requires width < 32
    ensures var k, s' := UnitBytes(width), AfterSet(width, v, shift, a, s);
      s'.ds == s.ds && s'.rs == s.rs
      && Load(k, s'.mem, Address(a)) == Conj(Insert(Load(k, s.mem, Address(a)), v, shift, Mask(width)), UnitOnes(k))
      && forall b :: !(Address(a) <= b < Address(a) + k) ==> Byte(s'.mem, b) == Byte(s.mem, b)
  {
    hide Run, Load, Save, Address, Insert, Mask, SetText, Byte, Conj, UnitOnes;
    var k := UnitBytes(width);
    var x := Insert(Load(k, s.mem, Address(a)), v, shift, Mask(width));
    RunSet(width, v, shift, a, s.ds, s.(ds := Push(a, Push(shift, Push(v, s.ds)))));
    LoadSaved(k, s.mem, Address(a), x);
    forall b | !(Address(a) <= b < Address(a) + k)
      ensures Byte(Save(k, s.mem, Address(a), x), b) == Byte(s.mem, b)
    {
      SaveStays(k, s.mem, Address(a), x, b);
    }
  }

  /** Does the field lie in the unit that is accessed for it? */
  predicate Fits(width: nat, shift: Cell) {
    0 < width < 32 && shift.b < 32 && shift.b + (width as bv32) <= UnitBits(UnitBytes(width))
  }

  /** Setting a field and getting it gives the value modulo 2^width, and every
      other bit of the unit and every byte outside it is as before. */
  lemma SetThenGet(width: nat, v: Cell, shift: Cell, a: Cell, s: State)
    requires Fits(width, shift)
    ensures var k, m, s' := UnitBytes(width), Mask(width), AfterSet(width, v, shift, a, s);
      Got(width, shift, a, s') == Some(Conj(v, m))
      && Conj(Load(k, s'.mem, Address(a)), Inverse(Lsh(m, shift))) == Conj(Load(k, s.mem, Address(a)), Inverse(Lsh(m, shift)))
      && forall b :: !(Address(a) <= b < Address(a) + k) ==> Byte(s'.mem, b) == Byte(s.mem, b)
  {
    hide Run, Load, Address, Insert, Extract, Mask, Ones, Byte, Conj, UnitOnes, AfterSet, Got, Lsh, Inverse;
    var k, w := UnitBytes(width), width as bv32;
    var u := Load(k, s.mem, Address(a));
    var s' := AfterSet(width, v, shift, a, s);
    MaskIsOnes(width);
    SetIs(width, v, shift, a, s);
    GotIs(width, shift, a, s');
    LoadFits(k, s.mem, Address(a));
    Stored(u, v, shift, w, k);
  }

  /** Some value is lost exactly when the field reaches past its unit. */
  lemma ReadsBackExactly(width: nat, shift: Cell, a: Cell, s: State)
    requires 0 < width < 32 && shift.b < 32
    ensures (forall v :: Got(width, shift, a, AfterSet(width, v, shift, a, s)) == Some(Conj(v, Mask(width))))
       <==> Fits(width, shift)
  {
    hide Run, Load, Address, Insert, Extract, Mask, Ones, Conj, UnitOnes, AfterSet, Got, Lsh, Inverse;
    if Fits(width, shift) {
      forall v ensures Got(width, shift, a, AfterSet(width, v, shift, a, s)) == Some(Conj(v, Mask(width))) {
        SetThenGet(width, v, shift, a, s);
      }
    } else {
      var v, k := Mask(width), UnitBytes(width);
      MaskIsOnes(width);
      SetIs(width, v, shift, a, s);
      GotIs(width, shift, a, AfterSet(width, v, shift, a, s));
      Spilled(Load(k, s.mem, Address(a)), shift, width as bv32, k);
      assert Got(width, shift, a, AfterSet(width, v, shift, a, s)) != Some(Conj(v, Mask(width)));
    }
  }

  /** Another field of the unit, apart from this one, reads as before. */
  lemma OtherFieldKept(width: nat, v: Cell, shift: Cell, width': nat, shift': Cell, a: Cell, s: State)
    requires Fits(width, shift) && Fits(width', shift') && UnitBytes(width') == UnitBytes(width)
    requires width < 32 && width' < 32
    requires shift.b + (width as bv32) <= shift'.b || shift'.b + (width' as bv32) <= shift.b
    ensures Got(width', shift', a, AfterSet(width, v, shift, a, s)) == Got(width', shift', a, s)
  {
    hide Run, Load, Address, Insert, Extract, Mask, Ones, Byte, Conj, UnitOnes, AfterSet, Got, Lsh, Inverse, Rsh;
    hide Fits, UnitBytes;
    var k := UnitBytes(width);
    var s' := AfterSet(width, v, shift, a, s);
    SetThenGet(width, v, shift, a, s);
    GotIs(width', shift', a, s);
    GotIs(width', shift', a, s');
    FitsApart(width, shift, width', shift');
    FitsBack(width', shift');
    OutsideApart(Load(k, s'.mem, Address(a)), Load(k, s.mem, Address(a)), Lsh(Mask(width), shift), Lsh(Mask(width'), shift'));
    SameField(Load(k, s'.mem, Address(a)), Load(k, s.mem, Address(a)), shift', Mask(width'));
  }

  lemma FitsApart(width: nat, shift: Cell, width': nat, shift': Cell)
    requires Fits(width, shift) && Fits(width', shift')
    requires shift.b + (width as bv32) <= shift'.b || shift'.b + (width' as bv32) <= shift.b
    ensures Conj(Lsh(Mask(width), shift), Lsh(Mask(width'), shift')) == Cell(0)
  {
    hide Mask, Ones, Conj, Lsh, Rsh;
    FitsCell(width, shift);
    FitsCell(width', shift');
    MaskIsOnes(width);
    MaskIsOnes(width');
    hide Fits;
    MasksApart(shift, width as bv32, shift', width' as bv32);
  }

  lemma FitsCell(width: nat, shift: Cell)
    requires Fits(width, shift)
    ensures 0 < width < 32 && shift.b < 32 && 0 < width as bv32 < 32 && shift.b + (width as bv32) <= 32
  {
  }

  lemma FitsBack(width: nat, shift: Cell)
    requires Fits(width, shift)
    ensures width < 32 && shift.b < 32 && Rsh(Lsh(Mask(width), shift), shift) == Mask(width)
  {
    hide Mask, Ones, Lsh, Rsh;
    FitsCell(width, shift);
    MaskIsOnes(width);
    OnesBack(shift, width as bv32);
  }
}
