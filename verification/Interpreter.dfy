/** The inner interpreter: threaded code run one instruction at a time does what
    structured execution of the text says. */
module Interpreter {
  import opened Options
  import opened Memory
  import opened CTree
  import opened Forth
  import opened Threaded
  import opened Patching
  import Stages

  type Image = map<FuncId, seq<Instr>>

  /** Return addresses. */
  datatype Returns = RBot | RPush(f: FuncId, pc: nat, below: Returns)

  datatype Config = Config(f: FuncId, pc: nat, rs: Returns, m: Mach)

  datatype Stepped = Go(c: Config) | Halted | Wrong

  function Step(d: Dict, al: Allocator, im: Image, c: Config): Stepped {
    if c.f !in im || c.pc >= |im[c.f]| then Wrong
    else
      match im[c.f][c.pc]
      case IBranch(t) => Go(c.(pc := t))
      case IBack(t) => Go(c.(pc := t))
      case IZBranch(t) => OnZero(c, t)
      case IZBack(t) => OnZero(c, t)
      case IResolve => Go(c.(pc := c.pc + 1))
      case IMark => Go(c.(pc := c.pc + 1))
      case IBad(_, _) => Wrong
      case IGarbled => Wrong
      case IEnd => Return(c)
      case IWord(w) =>
        if w.Do? then
          if w.f in im then Go(Config(w.f, 0, RPush(c.f, c.pc + 1, c.rs), c.m)) else Wrong
        else if w.Exit? then Return(c)
        else
          var m := Perform(d, al, w, c.m);
          if m.Some? then Go(c.(pc := c.pc + 1, m := m.value)) else Wrong
  }

  function OnZero(c: Config, t: nat): Stepped {
    if c.m.ds.Bot? then Wrong
    else Go(c.(pc := if c.m.ds.top == 0 then t else c.pc + 1, m := c.m.(ds := c.m.ds.below)))
  }

  function Return(c: Config): Stepped {
    if c.rs.RBot? then Halted else Go(Config(c.rs.f, c.rs.pc, c.rs.below, c.m))
  }

  /** `exit`, or the end of a definition. */
  predicate Ends(i: Instr) {
    i == IWord(Exit) || i == IEnd
  }

  /** The configuration after n steps, if the machine can take that many. */
  function Steps(d: Dict, al: Allocator, im: Image, c: Config, n: nat): Option<Config>
    decreases n
  {
    if n == 0 then Some(c)
    else
      var s := Step(d, al, im, c);
      if s.Go? then Steps(d, al, im, s.c, n - 1) else None
  }

  lemma {:induction false} StepsAdd(d: Dict, al: Allocator, im: Image, c: Config, n: nat, k: nat)
    requires Steps(d, al, im, c, n).Some?
    ensures Steps(d, al, im, c, n + k) == Steps(d, al, im, Steps(d, al, im, c, n).value, k)
    decreases n
  {
    if n > 0 {
      StepsAdd(d, al, im, Step(d, al, im, c).c, n - 1, k);
    }
  }

  /** The image holds every definition's threaded code, ended by `;`. */
  ghost predicate Holds(d: Dict, im: Image) {
    im.Keys == d.Keys &&
    forall f :: f in d ==> Conditioned(d[f].frag) && im[f] == Gen(d[f].frag, 0) + [IEnd]
  }

  ghost predicate CodeAt(im: Image, f: FuncId, base: nat, code: seq<Instr>) {
    f in im && base + |code| <= |im[f]| && im[f][base..base + |code|] == code
  }

  lemma CodeParts(im: Image, f: FuncId, base: nat, x: seq<Instr>, y: seq<Instr>)
    requires CodeAt(im, f, base, x + y)
    ensures CodeAt(im, f, base, x) && CodeAt(im, f, base + |x|, y)
  {
    var code := im[f];
    assert code[base..base + |x|] == (x + y)[..|x|] == x;
    assert code[base + |x|..base + |x| + |y|] == (x + y)[|x|..] == y;
  }

  /** The machine, started at a fragment, ends where structured execution says,
      or is still running after at least as many steps as the fuel. */
  ghost predicate Reaches(d: Dict, al: Allocator, im: Image, c: Config, end: nat, out: Out, fuel: nat, n: nat) {
    var r := Steps(d, al, im, c, n);
    r.Some? &&
    match out
    case Next(m) => r.value == c.(pc := end, m := m)
    case Left(m) =>
      r.value.f == c.f && r.value.rs == c.rs && r.value.m == m
      && c.f in im && r.value.pc < |im[c.f]| && Ends(im[c.f][r.value.pc])
    case Starved => n >= fuel
    case Stuck => Step(d, al, im, r.value) == Wrong
  }

  lemma ReachesNext(d: Dict, al: Allocator, im: Image, c: Config, end: nat, m: Mach, fuel: nat, n: nat)
    requires Reaches(d, al, im, c, end, Next(m), fuel, n)
    ensures Steps(d, al, im, c, n) == Some(c.(pc := end, m := m))
  {
  }

  lemma NextReached(d: Dict, al: Allocator, im: Image, c: Config, end: nat, m: Mach, fuel: nat, n: nat)
    requires Steps(d, al, im, c, n) == Some(c.(pc := end, m := m))
    ensures Reaches(d, al, im, c, end, Next(m), fuel, n)
  {
  }

  lemma ReachesEarly(d: Dict, al: Allocator, im: Image, c: Config, end: nat, end': nat, out: Out, fuel: nat, n: nat)
    requires Reaches(d, al, im, c, end, out, fuel, n) && !out.Next?
    ensures Reaches(d, al, im, c, end', out, fuel, n)
  {
    hide Step;
  }

  // ----- threaded code of each construct -----

  ghost predicate InstrAt(im: Image, f: FuncId, pc: nat, i: Instr) {
    f in im && pc < |im[f]| && im[f][pc] == i
  }

  lemma InstrOf(im: Image, f: FuncId, pc: nat, i: Instr)
    requires CodeAt(im, f, pc, [i])
    ensures InstrAt(im, f, pc, i)
  {
    assert im[f][pc] == im[f][pc..pc + 1][0];
  }

  lemma IfThenCode(im: Image, f: FuncId, p: nat, t: Frag)
    requires CodeAt(im, f, p, Gen(IfThen(t), p))
    ensures InstrAt(im, f, p, IZBranch(p + 2 + Len(t))) && CodeAt(im, f, p + 1, Gen(t, p + 1))
    ensures InstrAt(im, f, p + 1 + Len(t), IResolve)
  {
    Stages.IfThenShape(t, p);
    hide Gen, CodeAt, InstrAt, Join, Len;
    JoinParts(im, f, p, [IZBranch(p + 2 + Len(t))], Gen(t, p + 1), [IResolve], []);
    InstrOf(im, f, p, IZBranch(p + 2 + Len(t)));
    InstrOf(im, f, p + 1 + Len(t), IResolve);
  }

  lemma JoinParts(im: Image, f: FuncId, p: nat, w: seq<Instr>, x: seq<Instr>, y: seq<Instr>, z: seq<Instr>)
    requires CodeAt(im, f, p, Join(w, x, y, z))
    ensures CodeAt(im, f, p, w) && CodeAt(im, f, p + |w|, x)
    ensures CodeAt(im, f, p + |w| + |x|, y) && CodeAt(im, f, p + |w| + |x| + |y|, z)
  {
    hide CodeAt;
    CodeParts(im, f, p, w + x + y, z);
    CodeParts(im, f, p, w + x, y);
    CodeParts(im, f, p, w, x);
  }

  lemma CatCode(im: Image, f: FuncId, p: nat, a: Frag, b: Frag)
    requires CodeAt(im, f, p, Gen(Cat(a, b), p))
    ensures CodeAt(im, f, p, Gen(a, p)) && CodeAt(im, f, p + Len(a), Gen(b, p + Len(a)))
  {
    hide CodeAt, Len;
    CodeParts(im, f, p, Gen(a, p), Gen(b, p + Len(a)));
  }

  lemma IfElseCode(im: Image, f: FuncId, p: nat, t: Frag, e: Frag)
    requires CodeAt(im, f, p, Gen(IfElse(t, e), p))
    ensures var q := p + 1 + Len(t);
      InstrAt(im, f, p, IZBranch(q + 2)) && CodeAt(im, f, p + 1, Gen(t, p + 1))
      && InstrAt(im, f, q, IBranch(q + 3 + Len(e))) && CodeAt(im, f, q + 2, Gen(e, q + 2))
      && InstrAt(im, f, q + 2 + Len(e), IResolve)
  {
    hide Gen, CodeAt, InstrAt, Join, Len;
    var q := p + 1 + Len(t);
    var x, y := Gen(e, q + 2), [IBranch(q + 3 + Len(e)), IResolve];
    GenIfElse(t, e, p);
    JoinParts(im, f, p, [IZBranch(q + 2)], Gen(t, p + 1), y, x + [IResolve]);
    CodeParts(im, f, q + 2, x, [IResolve]);
    assert y == [IBranch(q + 3 + Len(e))] + [IResolve];
    CodeParts(im, f, q, [IBranch(q + 3 + Len(e))], [IResolve]);
    InstrOf(im, f, p, IZBranch(q + 2));
    InstrOf(im, f, q, IBranch(q + 3 + Len(e)));
    InstrOf(im, f, q + 2 + Len(e), IResolve);
  }

  lemma LoopParts(im: Image, f: FuncId, p: nat, test: Frag, body: Frag, q: nat)
    requires CodeAt(im, f, p, Gen(Loop(test, body), p)) && q == p + 1 + Len(test)
    ensures CodeAt(im, f, p, [IMark] + Gen(test, p + 1))
    ensures CodeAt(im, f, q, [IZBranch(q + 3 + Len(body))])
    ensures CodeAt(im, f, q + 1, Gen(body, q + 1))
    ensures CodeAt(im, f, q + 1 + Len(body), [IBack(p + 1), IResolve])
  {
    hide Gen, CodeAt, Join, Len;
    GenLoop(test, body, p);
    JoinParts(im, f, p, [IMark] + Gen(test, p + 1), [IZBranch(q + 3 + Len(body))], Gen(body, q + 1), [IBack(p + 1), IResolve]);
  }

  lemma {:induction false} LoopCodeAt(im: Image, f: FuncId, p: nat, test: Frag, body: Frag)
    requires CodeAt(im, f, p, Gen(Loop(test, body), p))
    ensures var q := p + 1 + Len(test);
      InstrAt(im, f, p, IMark) && CodeAt(im, f, p + 1, Gen(test, p + 1))
      && InstrAt(im, f, q, IZBranch(q + 3 + Len(body)))
      && CodeAt(im, f, q + 1, Gen(body, q + 1)) && InstrAt(im, f, q + 1 + Len(body), IBack(p + 1))
  {
    hide Gen, CodeAt, InstrAt, Join, Len;
    var q := p + 1 + Len(test);
    LoopParts(im, f, p, test, body, q);
    MarkFirst(im, f, p, Gen(test, p + 1));
    FirstOf(im, f, q + 1 + Len(body), IBack(p + 1), IResolve);
    InstrOf(im, f, q, IZBranch(q + 3 + Len(body)));
  }

  lemma MarkFirst(im: Image, f: FuncId, p: nat, code: seq<Instr>)
    requires CodeAt(im, f, p, [IMark] + code)
    ensures InstrAt(im, f, p, IMark) && CodeAt(im, f, p + 1, code)
  {
    CodeParts(im, f, p, [IMark], code);
    InstrOf(im, f, p, IMark);
  }

  lemma FirstOf(im: Image, f: FuncId, p: nat, i: Instr, j: Instr)
    requires CodeAt(im, f, p, [i, j])
    ensures InstrAt(im, f, p, i)
  {
    assert [i, j] == [i] + [j];
    CodeParts(im, f, p, [i], [j]);
    InstrOf(im, f, p, i);
  }

  // ----- one step -----

  lemma StepsOne(d: Dict, al: Allocator, im: Image, c: Config, n: nat, c1: Config, c2: Config)
    requires Steps(d, al, im, c, n) == Some(c1) && Step(d, al, im, c1) == Go(c2)
    ensures Steps(d, al, im, c, n + 1) == Some(c2)
  {
    hide Step;
    StepsAdd(d, al, im, c, n, 1);
    assert Steps(d, al, im, c2, 0) == Some(c2);
  }

  lemma StepBranch(d: Dict, al: Allocator, im: Image, c: Config, t: nat)
    requires InstrAt(im, c.f, c.pc, IBranch(t)) || InstrAt(im, c.f, c.pc, IBack(t))
    ensures Step(d, al, im, c) == Go(c.(pc := t))
  {
  }

  lemma StepMarker(d: Dict, al: Allocator, im: Image, c: Config, i: Instr)
    requires InstrAt(im, c.f, c.pc, i) && (i.IResolve? || i.IMark?)
    ensures Step(d, al, im, c) == Go(c.(pc := c.pc + 1))
  {
  }

  lemma StepZBranch(d: Dict, al: Allocator, im: Image, c: Config, t: nat)
    requires InstrAt(im, c.f, c.pc, IZBranch(t))
    ensures Step(d, al, im, c)
         == if c.m.ds.Bot? then Wrong
            else Go(c.(pc := if c.m.ds.top == 0 then t else c.pc + 1, m := c.m.(ds := c.m.ds.below)))
  {
  }

  // ----- the simulation -----

  /** Structured execution is what the threaded machine does. */
  lemma {:induction false} Threads(d: Dict, al: Allocator, im: Image, fr: Frag, c: Config, fuel: nat) returns (n: nat)
    requires Holds(d, im) && Conditioned(fr) && CodeAt(im, c.f, c.pc, Gen(fr, c.pc))
    ensures Reaches(d, al, im, c, c.pc + Len(fr), Run(d, al, fr, c.m, fuel), fuel, n)
    decreases fuel, fr, 1
  {
    hide Run, Step, Steps, CodeAt, Holds, Gen, Len, Reaches;
    match fr
    case Skip => n := ThreadsSkip(d, al, im, c, fuel);
    case W(w) => n := ThreadsWord(d, al, im, w, c, fuel);
    case Cat(a, b) => n := ThreadsCat(d, al, im, a, b, c, fuel);
    case IfThen(t) => n := ThreadsIfThen(d, al, im, t, c, fuel);
    case IfElse(t, e) => n := ThreadsIfElse(d, al, im, t, e, c, fuel);
    case Loop(_, _) => n := ThreadsLoop(d, al, im, fr, c, fuel);
  }

  lemma {:induction false} ThreadsCat(d: Dict, al: Allocator, im: Image, a: Frag, b: Frag, c: Config, fuel: nat)
    returns (n: nat)
    requires Holds(d, im) && Conditioned(a) && Conditioned(b) && CodeAt(im, c.f, c.pc, Gen(Cat(a, b), c.pc))
    ensures Reaches(d, al, im, c, c.pc + Len(Cat(a, b)), Run(d, al, Cat(a, b), c.m, fuel), fuel, n)
    decreases fuel, Cat(a, b), 0
  {
    hide Run, Step, Steps, CodeAt, Holds, Gen, Conditioned, Reaches;
    CatCode(im, c.f, c.pc, a, b);
    n := Threads(d, al, im, a, c, fuel);
    RunSeq(d, al, a, b, c.m, fuel);
    var r := Run(d, al, a, c.m, fuel);
    if r.Next? {
      ReachesNext(d, al, im, c, c.pc + Len(a), r.m, fuel, n);
      n := ThenThreads(d, al, im, c, n, b, c.(pc := c.pc + Len(a), m := r.m), fuel);
    } else {
      ReachesEarly(d, al, im, c, c.pc + Len(a), c.pc + Len(Cat(a, b)), r, fuel, n);
    }
  }

  lemma ThreadsSkip(d: Dict, al: Allocator, im: Image, c: Config, fuel: nat) returns (n: nat)
    ensures Reaches(d, al, im, c, c.pc + Len(Skip), Run(d, al, Skip, c.m, fuel), fuel, n)
  {
    hide Step;
    RunSkip(d, al, c.m, fuel);
    n := 0;
    assert Steps(d, al, im, c, 0) == Some(c);
  }

  /** n steps to c1, then a fragment. */
  lemma {:induction false} ThenThreads(d: Dict, al: Allocator, im: Image, c: Config, n: nat, fr: Frag, c1: Config, fuel: nat)
    returns (n': nat)
    requires Holds(d, im) && Conditioned(fr) && CodeAt(im, c1.f, c1.pc, Gen(fr, c1.pc))
    requires Steps(d, al, im, c, n) == Some(c1) && c1.f == c.f && c1.rs == c.rs
    ensures n' >= n
    ensures Reaches(d, al, im, c, c1.pc + Len(fr), Run(d, al, fr, c1.m, fuel), fuel, n')
    decreases fuel, fr, 2
  {
    hide Run, Step, Steps, CodeAt, Holds, Gen;
    var k := Threads(d, al, im, fr, c1, fuel);
    StepsAdd(d, al, im, c, n, k);
    n' := n + k;
  }

  lemma {:induction false} ThreadsWord(d: Dict, al: Allocator, im: Image, w: Word, c: Config, fuel: nat) returns (n: nat)
    requires Holds(d, im) && CodeAt(im, c.f, c.pc, Gen(W(w), c.pc))
    ensures Reaches(d, al, im, c, c.pc + Len(W(w)), Run(d, al, W(w), c.m, fuel), fuel, n)
    decreases fuel, W(w), 0
  {
    hide Perform, CodeAt, Conditioned;
    InstrOf(im, c.f, c.pc, IWord(w));
    if w.Do? && fuel > 0 && w.f in d {
      hide Run, Step, Steps, Reaches;
      n := ThreadsCall(d, al, im, w.f, c, fuel - 1);
    } else {
      n := ThreadsPlain(d, al, im, w, c, fuel);
    }
  }

  /** A word that makes no call. */
  lemma ThreadsPlain(d: Dict, al: Allocator, im: Image, w: Word, c: Config, fuel: nat) returns (n: nat)
    requires Holds(d, im) && InstrAt(im, c.f, c.pc, IWord(w)) && !(w.Do? && fuel > 0 && w.f in d)
    ensures Reaches(d, al, im, c, c.pc + 1, Run(d, al, W(w), c.m, fuel), fuel, n)
  {
    hide Perform, Conditioned, Gen;
    n := 0;
    assert Steps(d, al, im, c, 0) == Some(c);
    if !w.Do? && !w.Exit? && Perform(d, al, w, c.m).Some? {
      StepsOne(d, al, im, c, 0, c, c.(pc := c.pc + 1, m := Perform(d, al, w, c.m).value));
      n := 1;
    }
  }

  lemma {:induction false} ThreadsCall(d: Dict, al: Allocator, im: Image, f: FuncId, c: Config, fuel: nat) returns (n: nat)
    requires Holds(d, im) && f in d && InstrAt(im, c.f, c.pc, IWord(Do(f)))
    ensures Reaches(d, al, im, c, c.pc + 1, Run(d, al, W(Do(f)), c.m, fuel + 1), fuel + 1, n)
    decreases fuel
  {
    hide Run, Perform, Gen;
    var body, c1 := d[f].frag, Config(f, 0, RPush(c.f, c.pc + 1, c.rs), c.m);
    RunDo(d, al, f, c.m, fuel + 1);
    BodyCode(d, im, f);
    assert Steps(d, al, im, c, 0) == Some(c);
    StepsOne(d, al, im, c, 0, c, c1);
    var k := Threads(d, al, im, body, c1, fuel);
    StepsAdd(d, al, im, c, 1, k);
    n := 1 + k;
    var r := Run(d, al, body, c.m, fuel);
    if r.Next? || r.Left? {
      StepsOne(d, al, im, c, n, Steps(d, al, im, c1, k).value, c.(pc := c.pc + 1, m := r.m));
      n := n + 1;
    }
  }

  lemma BodyCode(d: Dict, im: Image, f: FuncId)
    requires Holds(d, im) && f in d
    ensures f in im && Conditioned(d[f].frag)
    ensures CodeAt(im, f, 0, Gen(d[f].frag, 0)) && InstrAt(im, f, Len(d[f].frag), IEnd)
  {
    hide Gen, Conditioned;
    var g := Gen(d[f].frag, 0);
    assert im[f][0..|im[f]|] == im[f] == g + [IEnd];
    CodeParts(im, f, 0, g, [IEnd]);
  }

  lemma {:induction false} ThreadsIfThen(d: Dict, al: Allocator, im: Image, t: Frag, c: Config, fuel: nat) returns (n: nat)
    requires Holds(d, im) && Conditioned(t) && CodeAt(im, c.f, c.pc, Gen(IfThen(t), c.pc))
    ensures Reaches(d, al, im, c, c.pc + Len(IfThen(t)), Run(d, al, IfThen(t), c.m, fuel), fuel, n)
    decreases fuel, IfThen(t), 0
  {
    hide Step, CodeAt, Gen, Holds, Conditioned, InstrAt, Run;
    IfThenCode(im, c.f, c.pc, t);
    StepZBranch(d, al, im, c, c.pc + 2 + Len(t));
    assert Steps(d, al, im, c, 0) == Some(c);
    if c.m.ds.Bot? {
      n := 0;
      EmptyStack(d, al, t, t, c.m, fuel);
    } else {
      var c1 := Step(d, al, im, c).c;
      RunIfThen(d, al, t, c.m, fuel);
      StepsOne(d, al, im, c, 0, c, c1);
      hide Steps, Reaches;
      if c.m.ds.top != 0 {
        n := ThenThreads(d, al, im, c, 1, t, c1, fuel);
        n := Resolved(d, al, im, c, c.pc + 1 + Len(t), Run(d, al, t, c1.m, fuel), fuel, n);
      } else {
        n := 1;
        NextReached(d, al, im, c, c.pc + Len(IfThen(t)), c1.m, fuel, n);
      }
    }
  }

  /** Text before a `b(>resolve)` goes on behind it. */
  lemma Resolved(d: Dict, al: Allocator, im: Image, c: Config, end: nat, out: Out, fuel: nat, n: nat) returns (n': nat)
    requires Reaches(d, al, im, c, end, out, fuel, n) && InstrAt(im, c.f, end, IResolve)
    ensures Reaches(d, al, im, c, end + 1, out, fuel, n')
  {
    hide Step, Steps, InstrAt;
    n' := n;
    if out.Next? {
      var c1 := c.(pc := end, m := out.m);
      StepMarker(d, al, im, c1, IResolve);
      StepsOne(d, al, im, c, n, c1, c1.(pc := end + 1));
      n' := n + 1;
    }
  }

  lemma {:induction false} ThreadsIfElse(d: Dict, al: Allocator, im: Image, t: Frag, e: Frag, c: Config, fuel: nat)
    returns (n: nat)
    requires Holds(d, im) && Conditioned(t) && Conditioned(e) && CodeAt(im, c.f, c.pc, Gen(IfElse(t, e), c.pc))
    ensures Reaches(d, al, im, c, c.pc + Len(IfElse(t, e)), Run(d, al, IfElse(t, e), c.m, fuel), fuel, n)
    decreases fuel, IfElse(t, e), 0, 1
  {
    hide Step, CodeAt, Gen, Holds, Conditioned, InstrAt, Run;
    var q := c.pc + 1 + Len(t);
    IfElseCode(im, c.f, c.pc, t, e);
    StepZBranch(d, al, im, c, q + 2);
    assert Steps(d, al, im, c, 0) == Some(c);
    if c.m.ds.Bot? {
      n := 0;
      EmptyStack(d, al, t, e, c.m, fuel);
    } else {
      RunIfElse(d, al, t, e, c.m, fuel);
      StepsOne(d, al, im, c, 0, c, Step(d, al, im, c).c);
      hide Steps, Reaches;
      n := ThreadsBranch(d, al, im, t, e, c, Step(d, al, im, c).c, fuel);
    }
  }

  lemma EmptyStack(d: Dict, al: Allocator, t: Frag, e: Frag, m: Mach, fuel: nat)
    requires m.ds.Bot?
    ensures Run(d, al, IfThen(t), m, fuel) == Run(d, al, IfElse(t, e), m, fuel) == Stuck
  {
    hide Perform;
  }

  /** One branch of `if ... else ... then`. */
  lemma {:induction false} ThreadsBranch(d: Dict, al: Allocator, im: Image, t: Frag, e: Frag, c: Config, c1: Config, fuel: nat)
    returns (n: nat)
    requires Holds(d, im) && Conditioned(t) && Conditioned(e) && CodeAt(im, c.f, c.pc, Gen(IfElse(t, e), c.pc))
    requires c.m.ds.Push? && Steps(d, al, im, c, 1) == Some(c1)
    requires c1 == c.(pc := if c.m.ds.top == 0 then c.pc + 3 + Len(t) else c.pc + 1, m := c.m.(ds := c.m.ds.below))
    ensures Reaches(d, al, im, c, c.pc + Len(IfElse(t, e)), Run(d, al, if c.m.ds.top != 0 then t else e, c1.m, fuel), fuel, n)
    decreases fuel, IfElse(t, e), 0, 0
  {
    hide Step, Steps, CodeAt, Gen, Holds, Conditioned, InstrAt, Run, Reaches;
    var q, end := c.pc + 1 + Len(t), c.pc + Len(IfElse(t, e));
    IfElseCode(im, c.f, c.pc, t, e);
    if c.m.ds.top == 0 {
      n := ThenThreads(d, al, im, c, 1, e, c1, fuel);
      n := Resolved(d, al, im, c, end - 1, Run(d, al, e, c1.m, fuel), fuel, n);
    } else {
      n := ThenThreads(d, al, im, c, 1, t, c1, fuel);
      var r := Run(d, al, t, c1.m, fuel);
      if r.Next? {
        ReachesNext(d, al, im, c, q, r.m, fuel, n);
        StepBranch(d, al, im, c.(pc := q, m := r.m), end);
        StepsOne(d, al, im, c, n, c.(pc := q, m := r.m), c.(pc := end, m := r.m));
        n := n + 1;
        NextReached(d, al, im, c, end, r.m, fuel, n);
      } else {
        ReachesEarly(d, al, im, c, q, end, r, fuel, n);
      }
    }
  }

  lemma {:induction false} ThreadsLoop(d: Dict, al: Allocator, im: Image, fr: Frag, c: Config, fuel: nat) returns (n: nat)
    requires Holds(d, im) && fr.Loop? && Conditioned(fr) && CodeAt(im, c.f, c.pc, Gen(fr, c.pc))
    ensures Reaches(d, al, im, c, c.pc + Len(fr), Run(d, al, fr, c.m, fuel), fuel, n)
    decreases fuel, fr, 0, 1
  {
    hide Run, Step, Steps, CodeAt, Gen, Holds, InstrAt, Len;
    var c1 := c.(pc := c.pc + 1);
    LoopCodeAt(im, c.f, c.pc, fr.test, fr.body);
    StepMarker(d, al, im, c, IMark);
    assert Steps(d, al, im, c, 0) == Some(c) by {
      NoSteps(d, al, im, c);
    }
    StepsOne(d, al, im, c, 0, c, c1);
    var k := LoopTurns(d, al, im, fr, c1, fuel);
    StepsAdd(d, al, im, c, 1, k);
    n := 1 + k;
  }

  lemma NoSteps(d: Dict, al: Allocator, im: Image, c: Config)
    ensures Steps(d, al, im, c, 0) == Some(c)
  {
  }

  /** A loop past its mark, which is where `repeat` leads back to. */
  lemma {:induction false} LoopTurns(d: Dict, al: Allocator, im: Image, fr: Frag, c: Config, fuel: nat) returns (n: nat)
    requires Holds(d, im) && fr.Loop? && Conditioned(fr) && c.pc > 0 && CodeAt(im, c.f, c.pc - 1, Gen(fr, c.pc - 1))
    ensures Reaches(d, al, im, c, c.pc - 1 + Len(fr), Run(d, al, fr, c.m, fuel), fuel, n)
    decreases fuel, fr, 0, 0
  {
    hide Run, Step, Steps, CodeAt, Gen, Holds, InstrAt;
    var q := c.pc + Len(fr.test);
    LoopCodeAt(im, c.f, c.pc - 1, fr.test, fr.body);
    RunLoop(d, al, fr.test, fr.body, c.m, fuel);
    n := Threads(d, al, im, fr.test, c, fuel);
    var r := Run(d, al, fr.test, c.m, fuel);
    if r.Next? {
      var c1 := c.(pc := q, m := r.m);
      StepZBranch(d, al, im, c1, c.pc - 1 + Len(fr));
      if r.m.ds.Push? {
        StepsOne(d, al, im, c, n, c1, Step(d, al, im, c1).c);
        n := n + 1;
        if r.m.ds.top != 0 {
          n := ThreadsTurn(d, al, im, fr, c, n, r.m.(ds := r.m.ds.below), fuel);
        }
      }
    }
  }

  /** The body of a loop and the turns after it. */
  lemma {:induction false} ThreadsTurn(d: Dict, al: Allocator, im: Image, fr: Frag, c: Config, n: nat, m: Mach, fuel: nat)
    returns (n': nat)
    requires Holds(d, im) && fr.Loop? && Conditioned(fr) && c.pc > 0 && CodeAt(im, c.f, c.pc - 1, Gen(fr, c.pc - 1))
    requires Steps(d, al, im, c, n) == Some(c.(pc := c.pc + Len(fr.test) + 1, m := m))
    ensures var r := Run(d, al, fr.body, m, fuel);
      Reaches(d, al, im, c, c.pc - 1 + Len(fr),
              if !r.Next? then r else if fuel == 0 then Starved else Run(d, al, fr, r.m, fuel - 1), fuel, n')
    decreases fuel, fr.body, 3
  {
    hide Run, Step, Steps, CodeAt, Gen, Holds, InstrAt;
    LoopCodeAt(im, c.f, c.pc - 1, fr.test, fr.body);
    n' := ThenThreads(d, al, im, c, n, fr.body, c.(pc := c.pc + Len(fr.test) + 1, m := m), fuel);
    var r := Run(d, al, fr.body, m, fuel);
    if r.Next? {
      var back := c.pc + Len(fr.test) + 1 + Len(fr.body);
      StepBranch(d, al, im, c.(pc := back, m := r.m), c.pc);
      StepsOne(d, al, im, c, n', c.(pc := back, m := r.m), c.(m := r.m));
      n' := n' + 1;
      if fuel > 0 {
        n' := AgainThreads(d, al, im, c, n', fr, c.(m := r.m), fuel - 1);
      }
    }
  }

  /** n steps, at least one of them, back to a loop's mark, then the loop on one
      unit of fuel less. */
  lemma {:induction false} AgainThreads(d: Dict, al: Allocator, im: Image, c: Config, n: nat, fr: Frag, c1: Config, fuel: nat)
    returns (n': nat)
    requires Holds(d, im) && fr.Loop? && Conditioned(fr) && c1.pc > 0 && CodeAt(im, c1.f, c1.pc - 1, Gen(fr, c1.pc - 1))
    requires Steps(d, al, im, c, n) == Some(c1) && c1.f == c.f && c1.rs == c.rs && n > 0
    ensures Reaches(d, al, im, c, c1.pc - 1 + Len(fr), Run(d, al, fr, c1.m, fuel), fuel + 1, n')
    decreases fuel, fr, 2
  {
    hide Run, Step, Steps, CodeAt, Holds, Gen;
    var k := LoopTurns(d, al, im, fr, c1, fuel);
    StepsAdd(d, al, im, c, n, k);
    n' := n + k;
  }
}
