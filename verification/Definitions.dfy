/** Generated programs as the engine reads them: the dictionary grows with the
    text, each definition is tokenized and loaded. */
module Definitions {
  import opened Options
  import opened Cells
  import opened CTree
  import opened Forth
  import opened Emit
  import opened Supported
  import opened Simulation
  import opened Threaded
  import opened Interpreter
  import opened Reading
  import opened Printed
  import opened Acceptance
  import opened Loading
  import opened Stages

  // ----- the dictionary as the text goes on -----

  function PlaceEntries(nm: Names, places: seq<Cell>): seq<Entry> {
    if |places| == 0 then []
    else PlaceEntries(nm, places[..|places| - 1]) + [Entry(nm.place(places[|places| - 1]), Place(places[|places| - 1]))]
  }

  /** The first k variables of a function: fields, or words of their own. */
  function SlotEntries(nm: Names, f: FuncId, fn: Func, k: nat): seq<Entry> {
    if k == 0 then []
    else
      SlotEntries(nm, f, fn, k - 1)
      + (if fn.recursive then [Entry(nm.field(f, k - 1), Field(f, k - 1))]
         else if k <= |fn.statics| then [Entry(nm.place(fn.statics[k - 1]), Place(fn.statics[k - 1]))]
         else [])
  }

  /** What is defined for a function before its text is read: the variables at file
      scope since the last one, its own, the size of its frame, its name. */
  function Definition(nm: Names, f: FuncId, fn: Func): seq<Entry> {
    PlaceEntries(nm, nm.globals(f))
    + (if fn.recursive && !HasFrame(fn) then [] else SlotEntries(nm, f, fn, |fn.vars|))
    + (if HasFrame(fn) then [Entry(nm.size(f), FrameSize(f))] else [])
    + [Entry(nm.func(f), Do(f))]
  }

  /** The dictionary after all definitions before the k-th. */
  function Before(p: Program, nm: Names, k: nat): seq<Entry> {
    if k == 0 then [Entry("$frame", Frame)]
    else Before(p, nm, k - 1) + if k - 1 in p then Definition(nm, k - 1, p[k - 1]) else []
  }

  function DictAt(p: Program, nm: Names, f: FuncId): seq<Entry>
    requires f in p
  {
    Before(p, nm, f) + Definition(nm, f, p[f])
  }

  /** Entries under their own names, for functions no later than f. */
  ghost predicate Proper(p: Program, nm: Names, f: FuncId, dict: seq<Entry>) {
    forall i :: 0 <= i < |dict| ==>
      var w := dict[i].w;
      Defined(w) && dict[i].name == Spell(nm, T(w)) && (w.Do? ==> w.f in p && w.f <= f)
  }

  lemma ProperConcat(p: Program, nm: Names, f: FuncId, x: seq<Entry>, y: seq<Entry>)
    requires Proper(p, nm, f, x) && Proper(p, nm, f, y)
    ensures Proper(p, nm, f, x + y)
  {
  }

  lemma {:induction false} PlacesProper(p: Program, nm: Names, f: FuncId, places: seq<Cell>)
    ensures Proper(p, nm, f, PlaceEntries(nm, places))
  {
    if |places| > 0 {
      PlacesProper(p, nm, f, places[..|places| - 1]);
    }
  }

  lemma {:induction false} SlotsProper(p: Program, nm: Names, f: FuncId, g: FuncId, fn: Func, k: nat)
    ensures Proper(p, nm, f, SlotEntries(nm, g, fn, k))
  {
    if k > 0 {
      SlotsProper(p, nm, f, g, fn, k - 1);
    }
  }

  lemma DefinitionProper(p: Program, nm: Names, f: FuncId, g: FuncId, fn: Func)
    requires g in p && g <= f
    ensures Proper(p, nm, f, Definition(nm, g, fn))
  {
    hide HasFrame, PlaceEntries, SlotEntries;
    PlacesProper(p, nm, f, nm.globals(g));
    SlotsProper(p, nm, f, g, fn, |fn.vars|);
  }

  lemma {:induction false} BeforeProper(p: Program, nm: Names, f: FuncId, k: nat)
    requires k <= f + 1
    ensures Proper(p, nm, f, Before(p, nm, k))
  {
    hide Definition;
    if k > 0 {
      BeforeProper(p, nm, f, k - 1);
      if k - 1 in p {
        DefinitionProper(p, nm, f, k - 1, p[k - 1]);
        ProperConcat(p, nm, f, Before(p, nm, k - 1), Definition(nm, k - 1, p[k - 1]));
      }
    }
  }

  lemma DictProper(p: Program, nm: Names, f: FuncId)
    requires f in p
    ensures Proper(p, nm, f, DictAt(p, nm, f)) && OfProgram(DictAt(p, nm, f))
  {
    hide Definition, Before;
    BeforeProper(p, nm, f, f);
    DefinitionProper(p, nm, f, f, p[f]);
    ProperConcat(p, nm, f, Before(p, nm, f), Definition(nm, f, p[f]));
  }

  // ----- what the engine does with any program's text -----

  /** The code of a function, and what the sizes of its frame's fields have been
      read as. */
  datatype Loaded = Loaded(code: seq<Instr>, sizes: seq<Option<seq<Token>>>)

  function SizeWord(fn: Func, k: nat): Token
    requires k < |fn.vars|
  {
    T(Lit(Wrap(SizeOf(fn.vars[k]))))
  }

  /** The dictionary when the size of the k-th field is read. */
  function FieldDict(p: Program, nm: Names, f: FuncId, fn: Func, k: nat): seq<Entry> {
    Before(p, nm, f) + PlaceEntries(nm, nm.globals(f)) + SlotEntries(nm, f, fn, k)
  }

  function SizesRead(p: Program, voc: Vocabulary, nm: Names, f: FuncId, fn: Func, k: nat): seq<Option<seq<Token>>>
    requires k <= |fn.vars|
  {
    if k == 0 then []
    else SizesRead(p, voc, nm, f, fn, k - 1) + [Read(voc, nm, FieldDict(p, nm, f, fn, k - 1), SizeWord(fn, k - 1))]
  }

  lemma {:induction false} SizeReadAt(p: Program, voc: Vocabulary, nm: Names, f: FuncId, fn: Func, k: nat)
    requires k <= |fn.vars|
    ensures var s := SizesRead(p, voc, nm, f, fn, k);
      |s| == k && forall i :: 0 <= i < k ==> s[i] == Read(voc, nm, FieldDict(p, nm, f, fn, i), SizeWord(fn, i))
  {
    hide Read, FieldDict, SizeWord;
    if k > 0 {
      SizeReadAt(p, voc, nm, f, fn, k - 1);
    }
  }

  function OwnSizes(fn: Func, k: nat): (s: seq<Option<seq<Token>>>)
    requires k <= |fn.vars|
    ensures |s| == k && forall i :: 0 <= i < k ==> s[i] == Some([SizeWord(fn, i)])
  {
    if k == 0 then [] else OwnSizes(fn, k - 1) + [Some([SizeWord(fn, k - 1)])]
  }

  /** A function tokenized and loaded, from an empty control stack. */
  function Load1(p: Program, voc: Vocabulary, nm: Names, f: FuncId): Option<Loaded>
    requires ParamsFit(p) && f in p
  {
    var code := Through(voc, nm, DictAt(p, nm, f), Text(p, f));
    if code.None? then None
    else Some(Loaded(code.value, if HasFrame(p[f]) then SizesRead(p, voc, nm, f, p[f], |p[f].vars|) else []))
  }

  /** What its text and its fields stand for. */
  function OwnLoad(p: Program, f: FuncId): Loaded
    requires ParamsFit(p) && f in p
  {
    Loaded(Gen(EmitFunc(Ctx(f, p[f])), 0) + [IEnd], if HasFrame(p[f]) then OwnSizes(p[f], |p[f].vars|) else [])
  }

  ghost predicate SizesTrue(p: Program, voc: Vocabulary, nm: Names, f: FuncId, fn: Func) {
    forall k :: 0 <= k < |fn.vars| ==> ReadTrue(voc, nm, FieldDict(p, nm, f, fn, k), SizeWord(fn, k))
  }

  /** Every word of a function is read as printed, no branch is too long in
      memory, and no `then` follows a number that ends like an `else`. */
  ghost predicate Loadable1(p: Program, voc: Vocabulary, nm: Names, f: FuncId)
    requires ParamsFit(p) && f in p
  {
    && ReadsTrue(voc, nm, DictAt(p, nm, f), Text(p, f))
    && Clean(Mem, EmitFunc(Ctx(f, p[f])))
    && (HasFrame(p[f]) ==> SizesTrue(p, voc, nm, f, p[f]))
  }

  ghost predicate Loadable(p: Program, voc: Vocabulary, nm: Names) {
    ParamsFit(p) && forall f :: f in p ==> Loadable1(p, voc, nm, f)
  }

  lemma SizesExactly(p: Program, voc: Vocabulary, nm: Names, f: FuncId, fn: Func)
    ensures SizesRead(p, voc, nm, f, fn, |fn.vars|) == OwnSizes(fn, |fn.vars|) <==> SizesTrue(p, voc, nm, f, fn)
  {
    hide Read, FieldDict;
    SizeReadAt(p, voc, nm, f, fn, |fn.vars|);
    var x, y := SizesRead(p, voc, nm, f, fn, |fn.vars|), OwnSizes(fn, |fn.vars|);
    if x == y {
      forall k | 0 <= k < |fn.vars| ensures ReadTrue(voc, nm, FieldDict(p, nm, f, fn, k), SizeWord(fn, k)) {
        assert x[k] == y[k];
      }
    }
    if SizesTrue(p, voc, nm, f, fn) {
      forall k | 0 <= k < |fn.vars| ensures x[k] == y[k] {
        assert ReadTrue(voc, nm, FieldDict(p, nm, f, fn, k), SizeWord(fn, k));
      }
    }
  }

  lemma Load1Exactly(p: Program, voc: Vocabulary, nm: Names, f: FuncId)
    requires ParamsFit(p) && Standard(voc) && f in p
    ensures Load1(p, voc, nm, f) == Some(OwnLoad(p, f)) <==> Loadable1(p, voc, nm, f)
  {
    hide Through, EmitFunc, Flat, Gen, Clean, Standard, OfProgram, DictAt, SizesTrue, HasFrame, ReadsTrue;
    DictProper(p, nm, f);
    OwnExactly(voc, nm, DictAt(p, nm, f), EmitFunc(Ctx(f, p[f])));
    SizesExactly(p, voc, nm, f, p[f]);
  }

  /** The engine makes of every function of a program exactly what its text stands
      for if and only if the program is loadable. */
  lemma LoadsExactly(p: Program, voc: Vocabulary, nm: Names)
    requires ParamsFit(p) && Standard(voc)
    ensures (forall f :: f in p ==> Load1(p, voc, nm, f) == Some(OwnLoad(p, f))) <==> Loadable(p, voc, nm)
  {
    hide Load1, OwnLoad, Loadable1, Standard;
    forall f | f in p ensures Load1(p, voc, nm, f) == Some(OwnLoad(p, f)) <==> Loadable1(p, voc, nm, f) {
      Load1Exactly(p, voc, nm, f);
    }
  }

  /** Where no name is spelled like a control word, a function gets through if and
      only if each of its `for` statements has a condition, each of its words can
      be read, and the text as it is read fits with no forward offset negative. */
  lemma AcceptsExactly(p: Program, voc: Vocabulary, nm: Names, f: FuncId)
    requires ParamsFit(p) && f in p && Standard(voc) && Orderly(voc, nm, DictAt(p, nm, f))
    ensures var x := Reread(voc, nm, DictAt(p, nm, f), EmitFunc(Ctx(f, p[f])));
      Load1(p, voc, nm, f).Some?
      <==> ForsConditioned(p[f].body) && x.Some? && Fits(Mem, x.value, false) && Signs.Signed(x.value, 0)
  {
    hide Through, EmitFunc, ForsConditioned, Conditioned, Fits, Reread, Signs.Signed, DictAt, Standard, Orderly, Flat;
    ConditionedFunc(p, f);
    AcceptedExactly(voc, nm, DictAt(p, nm, f), EmitFunc(Ctx(f, p[f])));
  }

  /** What the engine puts into the dictionary, one definition after another. */
  ghost predicate Compiled(p: Program, voc: Vocabulary, nm: Names, im: Image) {
    ParamsFit(p) && im.Keys == p.Keys
    && forall f :: f in p ==> Load1(p, voc, nm, f).Some? && Load1(p, voc, nm, f).value.code == im[f]
  }

  lemma CompiledHolds(p: Program, voc: Vocabulary, nm: Names, im: Image)
    requires OkProgram(p) && Standard(voc) && Loadable(p, voc, nm) && Compiled(p, voc, nm, im)
    ensures Holds(Code(p), im)
  {
    hide Load1, OkProgram, EmitFunc, Gen, Clean, ReadsTrue, SizesTrue, HasFrame, Standard, Conditioned;
    forall f | f in p
      ensures Conditioned(Code(p)[f].frag) && im[f] == Gen(Code(p)[f].frag, 0) + [IEnd]
    {
      var fr := EmitFunc(Ctx(f, p[f]));
      assert Code(p)[f].frag == fr;
      Load1Exactly(p, voc, nm, f);
      CleanIs(Mem, fr, false);
    }
  }

  /** Supported and loadable programs compile. */
  lemma Compiles(p: Program, voc: Vocabulary, nm: Names) returns (im: Image)
    requires OkProgram(p) && Standard(voc) && Loadable(p, voc, nm)
    ensures Compiled(p, voc, nm, im) && Holds(Code(p), im)
  {
    hide Load1, OwnLoad, Loadable1, OkProgram, Standard, Holds, Code;
    LoadsExactly(p, voc, nm);
    im := map f | f in p :: Load1(p, voc, nm, f).value.code;
    CompiledHolds(p, voc, nm, im);
  }

  // ----- who calls whom -----

  /** Whatever the text is read as, a call leads to a definition no later than the
      caller's. */
  lemma CallsBack(p: Program, voc: Vocabulary, nm: Names, im: Image, f: FuncId, i: nat)
    requires Standard(voc) && Compiled(p, voc, nm, im) && f in p && i < |im[f]| && im[f][i].IWord? && im[f][i].w.Do?
    ensures im[f][i].w.f in p && im[f][i].w.f <= f
  {
    hide Through, Text, Standard, DictAt, HasFrame, ParamsFit, SizesRead;
    assert Load1(p, voc, nm, f).Some? && Load1(p, voc, nm, f).value.code == im[f];
    CallsKnown(voc, nm, DictAt(p, nm, f), Text(p, f), i);
    DictProper(p, nm, f);
  }

  lemma {:induction false} FlatCalls(known: set<FuncId>, fr: Frag, g: FuncId)
    requires Visible(known, fr) && T(Do(g)) in Flat(fr)
    ensures g in known
  {
    match fr
    case W(_) =>
    case Cat(a, b) => if T(Do(g)) in Flat(a) { FlatCalls(known, a, g); } else { FlatCalls(known, b, g); }
    case IfThen(t) => FlatCalls(known, t, g);
    case IfElse(t, e) => if T(Do(g)) in Flat(t) { FlatCalls(known, t, g); } else { FlatCalls(known, e, g); }
    case Loop(t, b) => if T(Do(g)) in Flat(t) { FlatCalls(known, t, g); } else { FlatCalls(known, b, g); }
    case Endless(b) => FlatCalls(known, b, g);
  }

  /** Does a function's code call the function itself? */
  ghost predicate CallsItself(im: Image, f: FuncId) {
    f in im && exists i :: 0 <= i < |im[f]| && im[f][i] == IWord(Do(f))
  }

  /** A supported function without the pragma does not. */
  lemma NoSelfCall(p: Program, voc: Vocabulary, nm: Names, im: Image, f: FuncId)
    requires OkProgram(p) && Standard(voc) && Loadable(p, voc, nm) && Compiled(p, voc, nm, im)
    requires f in p && !p[f].recursive
    ensures !CallsItself(im, f)
  {
    hide Gen, EmitFunc, Kinds, CodesOf, Standard, Loadable, Compiled, Flat, Holds, OkFunc, OkProgram, ParamsFit;
    CompiledHolds(p, voc, nm, im);
    ProgramFits(p);
    var fr := EmitFunc(Ctx(f, p[f]));
    HoldsCode(p, im, f);
    VisibleFunc(p, f);
    GenKinds(fr, 0);
    if CallsItself(im, f) {
      var i :| 0 <= i < |im[f]| && im[f][i] == IWord(Do(f));
      assert KindOf(Gen(fr, 0)[i]) == Kinds(CodesOf(Flat(fr)))[i];
      CodesWords(Flat(fr), i);
      FlatCalls(Seen(p, f), fr, f);
    }
  }

  lemma HoldsCode(p: Program, im: Image, f: FuncId)
    requires OkProgram(p) && ParamsFit(p) && Holds(Code(p), im) && f in p
    ensures im[f] == Gen(EmitFunc(Ctx(f, p[f])), 0) + [IEnd]
  {
    hide Gen, EmitFunc, Conditioned, OkProgram;
    assert Code(p)[f].frag == EmitFunc(Ctx(f, p[f]));
  }
}
