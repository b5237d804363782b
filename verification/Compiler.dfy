/** The whole compiler: a supported C program, generated as Forth text, compiled
    by the Forth engine and run by its inner interpreter. */
module Compiler {
  import opened Cells
  import opened Memory
  import opened CTree
  import opened Forth
  import opened Emit
  import opened CSemantics
  import opened Supported
  import opened Simulation
  import opened Threaded
  import opened Interpreter
  import opened Reading
  import opened Definitions
  import Reentry

  // ----- one call, from the first instruction of a word to its `;` -----

  /** A machine about to run word f, its arguments on the stack, in the state the
      C call starts from. */
  ghost predicate Starts(p: Program, frames: seq<Cell>, f: FuncId, vs: seq<Cell>, st: St, s: Stack, c: Config) {
    f in p && c.f == f && c.pc == 0 && c.m.mem == st.mem && c.m.heap == st.heap
    && Chain(c.m.mem, c.m.frame, frames) && c.m.ds == PushAll(s, vs)
  }

  /** An `exit`, or the end of the definition. */
  ghost predicate EndAt(im: Image, f: FuncId, pc: nat) {
    f in im && pc < |im[f]| && Ends(im[f][pc])
  }

  /** The machine is at the `;` that ends the call it was started for, in the
      state the C call ends in: the arguments replaced by the result, if there
      is one, the cells below untouched, the same memory and heap, and `$frame`
      as it was found. */
  ghost predicate Delivers(p: Program, im: Image, frames: seq<Cell>, r: Res<Cell>, s: Stack, c: Config, c': Config) {
    r.Val? && c.f in p && c'.f == c.f && c'.rs == c.rs && EndAt(im, c'.f, c'.pc)
    && c'.m.mem == r.st.mem && c'.m.heap == r.st.heap && c'.m.frame == c.m.frame
    && Chain(c'.m.mem, c'.m.frame, frames)
    && c'.m.ds == (if p[c.f].ret.Void? then s else Push(r.v, s))
  }

  /** The C call with fuel for loop turns and nested calls; to call a function
      under way that has no frame would be undefined. */
  function CallC(p: Program, al: Allocator, frames: seq<Cell>, f: FuncId, vs: seq<Cell>, st: St, fuel: nat): Res<Cell>
    requires f in p
  {
    Enters(p, al, frames, Acts({}, true), f, Val(vs, st), fuel + 1)
  }

  /** Whatever the C call does with some fuel, the machine does: it delivers the
      same result, or, if the fuel ran out, runs on for at least that many
      steps. */
  lemma CallSimulated(p: Program, voc: Vocabulary, nm: Names, al: Allocator, im: Image, frames: seq<Cell>, f: FuncId,
    vs: seq<Cell>, st: St, s: Stack, c: Config, fuel: nat) returns (n: nat)
    requires OkProgram(p) && Standard(voc) && Loadable(p, voc, nm) && Compiled(p, voc, nm, im)
    requires Starts(p, frames, f, vs, st, s, c)
    ensures var r := CallC(p, al, frames, f, vs, st, fuel);
      var c' := Steps(Code(p), al, im, c, n);
      !r.Undefined? ==> c'.Some? && if r.Val? then Delivers(p, im, frames, r, s, c, c'.value) else n >= fuel
  {
    hide Run, Interpreter.Step, Steps, Chain, Enters, OkProgram, Gen, Compiled, Exec, Holds, EmitFunc, Standard,
      Loadable;
    var d := Code(p);
    var r := CallC(p, al, frames, f, vs, st, fuel);
    CompiledHolds(p, voc, nm, im);
    SimEnter(p, al, frames, Acts({}, true), f, Val(vs, st), s, c.m, fuel);
    HoldsBody(d, im, f);
    n := Threads(d, al, im, d[f].frag, c, fuel);
    if r.Val? {
      ChainTop(c.m.mem, c.m.frame, frames);
      var m' := Run(d, al, d[f].frag, c.m, fuel).m;
      ChainTop(m'.mem, m'.frame, frames);
    }
  }

  lemma HoldsBody(d: Dict, im: Image, f: FuncId)
    requires Holds(d, im) && f in d
    ensures f in im && Conditioned(d[f].frag)
    ensures CodeAt(im, f, 0, Gen(d[f].frag, 0)) && InstrAt(im, f, Len(d[f].frag), IEnd)
  {
    hide Holds, CodeAt, InstrAt, Gen, Conditioned;
    BodyCode(d, im, f);
  }

  // ----- whole runs -----

  ghost predicate HaltsAt(d: Dict, al: Allocator, im: Image, c: Config, n: nat) {
    var c' := Steps(d, al, im, c, n);
    c'.Some? && Interpreter.Step(d, al, im, c'.value) == Halted
  }

  /** A machine that halts takes no further step. */
  lemma {:induction false} HaltsOnce(d: Dict, al: Allocator, im: Image, c: Config, n: nat, k: nat)
    requires HaltsAt(d, al, im, c, n) && Steps(d, al, im, c, k).Some?
    ensures k <= n
  {
    if k > n {
      StepsAdd(d, al, im, c, n, k - n);
    }
  }

  /** A run of a call that returns to nowhere. */
  ghost predicate WholeRun(p: Program, voc: Vocabulary, nm: Names, al: Allocator, im: Image, frames: seq<Cell>,
    f: FuncId, vs: seq<Cell>, st: St, s: Stack, c: Config) {
    OkProgram(p) && Standard(voc) && Loadable(p, voc, nm) && Compiled(p, voc, nm, im) &&
    Starts(p, frames, f, vs, st, s, c) && c.rs.RBot?
  }

  /** The machine halts after n steps, having delivered r. */
  ghost predicate EndsWith(p: Program, al: Allocator, im: Image, frames: seq<Cell>, r: Res<Cell>, s: Stack,
                           c: Config, n: nat)
    requires OkProgram(p)
  {
    HaltsAt(Code(p), al, im, c, n) && Delivers(p, im, frames, r, s, c, Steps(Code(p), al, im, c, n).value)
  }

  /** When the C call returns, the machine halts having delivered its result. */
  lemma ReturnsSame(p: Program, voc: Vocabulary, nm: Names, al: Allocator, im: Image, frames: seq<Cell>, f: FuncId,
    vs: seq<Cell>, st: St, s: Stack, c: Config, fuel: nat) returns (n: nat)
    requires WholeRun(p, voc, nm, al, im, frames, f, vs, st, s, c) && CallC(p, al, frames, f, vs, st, fuel).Val?
    ensures EndsWith(p, al, im, frames, CallC(p, al, frames, f, vs, st, fuel), s, c, n)
  {
    hide CallC, Steps, Compiled, OkProgram, Chain, Standard, Loadable;
    n := CallSimulated(p, voc, nm, al, im, frames, f, vs, st, s, c, fuel);
  }

  /** The machine halts exactly when the C call returns, and then both end in the
      same state; the C call has no undefined behaviour. */
  lemma RunsTogether(p: Program, voc: Vocabulary, nm: Names, al: Allocator, im: Image, frames: seq<Cell>, f: FuncId,
    vs: seq<Cell>, st: St, s: Stack, c: Config)
    requires WholeRun(p, voc, nm, al, im, frames, f, vs, st, s, c)
    requires forall fuel: nat :: !CallC(p, al, frames, f, vs, st, fuel).Undefined?
    ensures (exists n: nat :: HaltsAt(Code(p), al, im, c, n))
       <==> (exists fuel: nat :: CallC(p, al, frames, f, vs, st, fuel).Val?)
    ensures forall n: nat, fuel: nat ::
              HaltsAt(Code(p), al, im, c, n) && CallC(p, al, frames, f, vs, st, fuel).Val?
              ==> EndsWith(p, al, im, frames, CallC(p, al, frames, f, vs, st, fuel), s, c, n)
  {
    hide CallC, Compiled, OkProgram, Chain, HaltsAt, Delivers, Steps, Standard, Loadable;
    var d := Code(p);
    forall n: nat | HaltsAt(d, al, im, c, n) ensures CallC(p, al, frames, f, vs, st, n + 1).Val? {
      var n' := CallSimulated(p, voc, nm, al, im, frames, f, vs, st, s, c, n + 1);
      if !CallC(p, al, frames, f, vs, st, n + 1).Val? {
        HaltsOnce(d, al, im, c, n, n');
      }
    }
    forall fuel: nat | CallC(p, al, frames, f, vs, st, fuel).Val?
      ensures exists n: nat :: HaltsAt(d, al, im, c, n)
    {
      var n := ReturnsSame(p, voc, nm, al, im, frames, f, vs, st, s, c, fuel);
    }
    forall n: nat, fuel: nat | HaltsAt(d, al, im, c, n) && CallC(p, al, frames, f, vs, st, fuel).Val?
      ensures EndsWith(p, al, im, frames, CallC(p, al, frames, f, vs, st, fuel), s, c, n)
    {
      var n' := ReturnsSame(p, voc, nm, al, im, frames, f, vs, st, s, c, fuel);
      HaltSteps(d, al, im, c, n, n');
    }
  }

  lemma HaltSteps(d: Dict, al: Allocator, im: Image, c: Config, n: nat, n': nat)
    requires HaltsAt(d, al, im, c, n) && HaltsAt(d, al, im, c, n')
    ensures n == n'
  {
    hide Steps;
    HaltsOnce(d, al, im, c, n, n');
    HaltsOnce(d, al, im, c, n', n);
  }

  // ----- no activation shares its variables with another -----

  /** The call never comes back to a function under way that has no frame: with
      or without that taken as undefined, it is the same. */
  lemma CallNeverClashes(p: Program, al: Allocator, frames: seq<Cell>, f: FuncId, vs: seq<Cell>, st: St, fuel: nat)
    requires OkProgram(p) && f in p
    ensures CallC(p, al, frames, f, vs, st, fuel) == Enters(p, al, frames, Acts({}, false), f, Val(vs, st), fuel + 1)
  {
    hide Enter, Bind, Exec, Leave, OkS;
    var fn := p[f];
    if |vs| == fn.nparams && fn.nparams <= |fn.vars| {
      FirstEnter(p, al, frames, f, st);
      var enter := Enter(al, frames, Acts({}, true), f, fn, st);
      if enter.Val? {
        Reentry.BindSame(enter.v, enter.st, vs, fn.nparams);
        var bound := Bind(enter.v, enter.st, vs, fn.nparams);
        if bound.Val? {
          Reentry.ExecSame(p, al, enter.v, bound.st, fn.body, fuel);
          var r := Exec(p, al, enter.v, bound.st, fn.body, fuel);
          if r.Val? {
            Reentry.LeaveSame(enter.v, r.st);
          }
        }
      }
    }
  }

  lemma FirstEnter(p: Program, al: Allocator, frames: seq<Cell>, f: FuncId, st: St)
    requires OkProgram(p) && f in p
    ensures var r, l := Enter(al, frames, Acts({}, true), f, p[f], st), Enter(al, frames, Acts({}, false), f, p[f], st);
      if r.Val? then l == Val(Reentry.Lax(r.v), r.st) && Reentry.Ordered(p, r.v) && r.v.fn == p[f] else l == r
  {
    hide HasFrame, FrameBytes, Misses, Memory.Store32, OkFunc;
  }

  /** Each active function was called by one no earlier in the text, by itself only
      if its code says so. */
  ghost predicate Nested(p: Program, im: Image, f: FuncId, rs: Returns)
    decreases rs
  {
    f in p && (rs.RPush? ==> f <= rs.f && (f == rs.f ==> CallsItself(im, f)) && Nested(p, im, rs.f, rs.below))
  }

  /** How often a function is active. */
  function Activations(g: FuncId, f: FuncId, rs: Returns): nat
    decreases rs
  {
    (if f == g then 1 else 0) + if rs.RPush? then Activations(g, rs.f, rs.below) else 0
  }

  lemma StepNested(p: Program, voc: Vocabulary, nm: Names, al: Allocator, im: Image, d: Dict, c: Config)
    requires Standard(voc) && Compiled(p, voc, nm, im) && Nested(p, im, c.f, c.rs)
    ensures var s := Interpreter.Step(d, al, im, c); s.Go? ==> Nested(p, im, s.c.f, s.c.rs)
  {
    hide Perform, Compiled, Standard;
    var s := Interpreter.Step(d, al, im, c);
    if s.Go? && im[c.f][c.pc].IWord? && im[c.f][c.pc].w.Do? {
      CallsBack(p, voc, nm, im, c.f, c.pc);
      assert s.c.f == c.f ==> CallsItself(im, c.f);
    }
  }

  lemma {:induction false} StepsNested(p: Program, voc: Vocabulary, nm: Names, al: Allocator, im: Image, d: Dict,
                                       c: Config, n: nat)
    requires Standard(voc) && Compiled(p, voc, nm, im) && Nested(p, im, c.f, c.rs) && Steps(d, al, im, c, n).Some?
    ensures var c' := Steps(d, al, im, c, n).value; Nested(p, im, c'.f, c'.rs)
    decreases n
  {
    hide Interpreter.Step, Compiled, Nested, Standard;
    if n > 0 {
      StepNested(p, voc, nm, al, im, d, c);
      StepsNested(p, voc, nm, al, im, d, Interpreter.Step(d, al, im, c).c, n - 1);
    }
  }

  lemma {:induction false} OnceNested(p: Program, im: Image, g: FuncId, f: FuncId, rs: Returns)
    requires Nested(p, im, f, rs) && !CallsItself(im, g)
    ensures Activations(g, f, rs) <= if f <= g then 1 else 0
    decreases rs
  {
    hide CallsItself;
    if rs.RPush? {
      OnceNested(p, im, g, rs.f, rs.below);
    }
  }

  /** However a program the engine has compiled runs, whatever its text was read
      as, a function is active more than once only if its own code calls it. */
  lemma OnlySelfCalls(p: Program, voc: Vocabulary, nm: Names, al: Allocator, im: Image, d: Dict, c: Config, n: nat,
    g: FuncId)
    requires Standard(voc) && Compiled(p, voc, nm, im) && c.f in p && c.rs.RBot? && !CallsItself(im, g)
    requires Steps(d, al, im, c, n).Some?
    ensures var c' := Steps(d, al, im, c, n).value; Activations(g, c'.f, c'.rs) <= 1
  {
    hide Steps, Compiled, Activations, Standard, CallsItself;
    StepsNested(p, voc, nm, al, im, d, c, n);
    var c' := Steps(d, al, im, c, n).value;
    OnceNested(p, im, g, c'.f, c'.rs);
  }

  /** So a function of a supported program without the `recursive` pragma is never
      active twice: its static variables belong to one activation at a time. */
  lemma NeverTwice(p: Program, voc: Vocabulary, nm: Names, al: Allocator, im: Image, d: Dict, c: Config, n: nat,
    g: FuncId)
    requires OkProgram(p) && Standard(voc) && Loadable(p, voc, nm) && Compiled(p, voc, nm, im)
    requires c.f in p && c.rs.RBot? && g in p && !p[g].recursive && Steps(d, al, im, c, n).Some?
    ensures var c' := Steps(d, al, im, c, n).value; Activations(g, c'.f, c'.rs) <= 1
  {
    hide Steps, Compiled, Activations, Standard, CallsItself, Loadable, OkProgram;
    NoSelfCall(p, voc, nm, im, g);
    OnlySelfCalls(p, voc, nm, al, im, d, c, n, g);
  }
}
