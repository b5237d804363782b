/** Conditional inclusion: the `#if` machine, against the groups of sections it
    should choose from, and the cache of controlling expressions that lets a file
    be skipped. A file is taken line by line, after expansion of what the lines
    say into tokens has been given as a parameter. */
module CondInclude {
  import opened Options

  type Name = nat
  type Macros = map<Name, nat>

  /** The expression of an `#if`; `#ifdef` and `#ifndef` are `defined` tests. */
  type Cond = nat

  datatype Line =
    | Blank
    | Text(text: nat)
    | Define(name: Name, body: nat)
    | Undef(name: Name)
    | Include(file: nat)
    | If(c: Cond) | Elif(c: Cond) | Else | Endif

  /** What the lines mean: the value of a condition, the tokens of a line, and
      the tokens and macros an included file leaves. */
  datatype World = World(test: (Cond, Macros) -> bool, expand: (nat, Macros) -> seq<nat>,
                         included: (nat, Macros) -> (seq<nat>, Macros))

  /** A candidate for the controlling expression of the whole file, and whether
      no file had been included before it. */
  datatype Control = Control(c: Cond, clean: bool)

  datatype State = State(
    out: seq<nat>,                  // tokens emitted
    macros: Macros,
    tested: seq<(Cond, Macros)>,    // conditions evaluated, and when
    ifcount: nat,                   // open sections
    seenElse: map<nat, bool>,       // per level, whether its #else has been seen
    control: Option<Control>,
    recorded: Option<Control>,      // what the cache is given for this file
    atStart: bool,                  // only blank lines since the start, or an include
    included: bool,
    errors: nat)

  function SeenElse(st: State, level: nat): bool {
    level in st.seenElse && st.seenElse[level]
  }

  function Error(st: State): State {
    st.(errors := st.errors + 1)
  }

  /** A line that is neither blank nor a conditional directive. */
  function Plain(w: World, st: State, l: Line): State
    requires l.Text? || l.Define? || l.Undef? || l.Include?
  {
    match l
    case Text(t) => st.(out := st.out + w.expand(t, st.macros), atStart := false)
    case Define(n, b) => st.(macros := st.macros[n := b], atStart := false)
    case Undef(n) => st.(macros := st.macros - {n}, atStart := false)
    case Include(f) =>   // the file name is ended by a NUL, which looks like the start
      var (ts, ms) := w.included(f, st.macros);
      st.(out := st.out + ts, macros := ms, atStart := true, included := true)
  }

  /** The controlling expression is dropped when its own section goes on. */
  function DropControl(st: State): State {
    if st.ifcount == 1 then st.(control := None) else st
  }

  function MarkElse(st: State, level: nat): State {
    if SeenElse(st, level) then Error(st) else st.(seenElse := st.seenElse[level := true])
  }

  predicate AllBlank(lines: seq<Line>) {
    forall i :: 0 <= i < |lines| ==> lines[i].Blank?
  }

  function EndifDirective(st: State, rest: seq<Line>): State {
    var st1 := (if st.ifcount == 0 then Error(st) else st.(ifcount := st.ifcount - 1)).(atStart := false);
    if st1.control.None? || st1.ifcount > 0 then st1
    else st1.(recorded := if AllBlank(rest) then st1.control else st1.recorded, control := None)
  }

  /** Open a section. */
  function Enter(st: State, c: Cond): State {
    var docontrol := st.control.None? && st.ifcount == 0 && st.atStart;
    var n := st.ifcount + 1;
    st.(ifcount := n, seenElse := st.seenElse[n := false], tested := st.tested + [(c, st.macros)], atStart := false,
        control := if docontrol then Some(Control(c, !st.included)) else if n == 1 then None else st.control)
  }

  /** A state and the lines still to be read. */
  datatype At = At(st: State, rest: seq<Line>)

  function IfDirective(w: World, st: State, c: Cond, rest: seq<Line>): (r: At)
    ensures |r.rest| <= |rest|
    decreases |rest|, 1
  {
    var st1 := Enter(st, c);
    if w.test(c, st.macros) then At(st1, rest) else SkipIf(w, st1, rest, st1.ifcount, true)
  }

  /** Skip to where the current section goes on, or to its end if `stop` is
      false; `count` is the level of the line at hand. */
  function SkipIf(w: World, st: State, lines: seq<Line>, count: nat, stop: bool): (r: At)
    ensures |r.rest| <= |lines|
    decreases |lines|, 0
  {
    if |lines| == 0 then At(if count != st.ifcount then Error(st) else st, lines)
    else
      var rest := lines[1..];
      match lines[0]
      case If(_) => SkipIf(w, st.(seenElse := st.seenElse[count + 1 := false]), rest, count + 1, stop)
      case Else =>
        var st1 := MarkElse(st, count);
        if stop && count == st.ifcount then At(DropControl(st1), rest) else SkipIf(w, st1, rest, count, stop)
      case Elif(c) =>
        var st1 := if SeenElse(st, count) then Error(st) else st;
        if stop && count == st.ifcount then
          var st2 := DropControl(st1);
          IfDirective(w, st2.(ifcount := if st2.ifcount > 0 then st2.ifcount - 1 else 0, atStart := false), c, rest)
        else SkipIf(w, st1, rest, count, stop)
      case Endif =>
        if count == st.ifcount then At(EndifDirective(st, rest), rest)
        else SkipIf(w, st, rest, if count > 0 then count - 1 else 0, stop)
      case _ => SkipIf(w, st, rest, count, stop)
  }

  /** `#elif` and `#else` met while reading the group that was chosen. */
  function NextGroup(w: World, st: State, isElse: bool, rest: seq<Line>): (r: At)
    ensures |r.rest| <= |rest|
  {
    var st1 := if isElse then MarkElse(st, st.ifcount) else if SeenElse(st, st.ifcount) then Error(st) else st;
    var st2 := DropControl(st1).(atStart := false);
    if st2.ifcount == 0 then At(Error(st2), rest) else SkipIf(w, st2, rest, st2.ifcount, false)
  }

  /** Read one line, and whatever it skips. */
  function Turn(w: World, st: State, lines: seq<Line>): (r: At)
    requires |lines| > 0
    ensures |r.rest| < |lines|
  {
    var rest := lines[1..];
    match lines[0]
    case Blank => At(st, rest)
    case If(c) => IfDirective(w, st, c, rest)
    case Elif(_) => NextGroup(w, st, false, rest)
    case Else => NextGroup(w, st, true, rest)
    case Endif => At(EndifDirective(st, rest), rest)
    case _ => At(Plain(w, st, lines[0]), rest)
  }

  function Run(w: World, st: State, lines: seq<Line>): State
    decreases |lines|
  {
    if |lines| == 0 then st
    else
      var r := Turn(w, st, lines);
      Run(w, r.st, r.rest)
  }

  // ----- sections and their groups -----

  datatype Items = Nil | Cons(head: Item, tail: Items)

  datatype Item = Simple(l: Line) | Section(c: Cond, first: Items, more: Groups)

  /** What follows the first group of a section. */
  datatype Groups = NoMore | ElseGroup(items: Items) | ElifGroup(c: Cond, items: Items, more: Groups)

  /** Simple items are not conditional directives. */
  predicate WellFormed(items: Items) {
    items.Nil? || (ItemWellFormed(items.head) && WellFormed(items.tail))
  }

  predicate ItemWellFormed(i: Item) {
    match i
    case Simple(l) => l.Blank? || l.Text? || l.Define? || l.Undef? || l.Include?
    case Section(_, first, more) => WellFormed(first) && GroupsWellFormed(more)
  }

  predicate GroupsWellFormed(g: Groups) {
    match g
    case NoMore => true
    case ElseGroup(items) => WellFormed(items)
    case ElifGroup(_, items, more) => WellFormed(items) && GroupsWellFormed(more)
  }

  function Flat(items: Items): seq<Line> {
    if items.Nil? then [] else FlatItem(items.head) + Flat(items.tail)
  }

  function FlatItem(i: Item): seq<Line> {
    match i
    case Simple(l) => [l]
    case Section(c, first, more) => [If(c)] + (Flat(first) + FlatGroups(more))
  }

  function FlatGroups(g: Groups): seq<Line> {
    match g
    case NoMore => [Endif]
    case ElseGroup(items) => [Else] + (Flat(items) + [Endif])
    case ElifGroup(c, items, more) => [Elif(c)] + (Flat(items) + FlatGroups(more))
  }

  function Size(items: Items): nat {
    if items.Nil? then 0 else 1 + SizeItem(items.head) + Size(items.tail)
  }

  function SizeItem(i: Item): nat {
    if i.Simple? then 0 else 1 + Size(i.first) + SizeGroups(i.more)
  }

  function SizeGroups(g: Groups): nat {
    match g
    case NoMore => 0
    case ElseGroup(items) => 1 + Size(items)
    case ElifGroup(_, items, more) => 1 + Size(items) + SizeGroups(more)
  }

  /** What processing shows: the tokens, the macros, and which conditions were
      evaluated with which macros. */
  datatype View = View(out: seq<nat>, macros: Macros, tested: seq<(Cond, Macros)>)

  function Seen(st: State): View {
    View(st.out, st.macros, st.tested)
  }

  /** Each section is replaced by its first group whose condition is true, or by
      its `#else` group; no condition after the first true one is evaluated. */
  function Read(w: World, v: View, items: Items): View
    decreases items
  {
    if items.Nil? then v else Read(w, ReadItem(w, v, items.head), items.tail)
  }

  function ReadItem(w: World, v: View, i: Item): View
    decreases i
  {
    match i
    case Simple(l) =>
      (match l
       case Text(t) => v.(out := v.out + w.expand(t, v.macros))
       case Define(n, b) => v.(macros := v.macros[n := b])
       case Undef(n) => v.(macros := v.macros - {n})
       case Include(f) =>
         var (ts, ms) := w.included(f, v.macros);
         v.(out := v.out + ts, macros := ms)
       case _ => v)
    case Section(c, first, more) =>
      var v' := v.(tested := v.tested + [(c, v.macros)]);
      if w.test(c, v.macros) then Read(w, v', first) else ReadGroups(w, v', more)
  }

  function ReadGroups(w: World, v: View, g: Groups): View
    decreases g
  {
    match g
    case NoMore => v
    case ElseGroup(items) => Read(w, v, items)
    case ElifGroup(c, items, more) =>
      var v' := v.(tested := v.tested + [(c, v.macros)]);
      if w.test(c, v.macros) then Read(w, v', items) else ReadGroups(w, v', more)
  }

  // ----- skipping keeps everything but the #else marks of deeper levels -----

  predicate SameBut(st: State, st': State, level: nat) {
    st' == st.(seenElse := st'.seenElse) && forall j: nat :: j <= level ==> SeenElse(st', j) == SeenElse(st, j)
  }

  /** The `#else` or `#elif` of a group, its items, and what follows them. */
  function Head(g: Groups): Line
    requires !g.NoMore?
  {
    if g.ElseGroup? then Else else Elif(g.c)
  }

  function After(g: Groups): Groups
    requires !g.NoMore?
  {
    if g.ElseGroup? then NoMore else g.more
  }

  lemma Unfold(g: Groups, rest: seq<Line>)
    ensures g.NoMore? ==> FlatGroups(g) + rest == [Endif] + rest
    ensures !g.NoMore? ==> FlatGroups(g) + rest == [Head(g)] + (Flat(g.items) + (FlatGroups(After(g)) + rest))
  {
    hide Flat;
    if !g.NoMore? {
      Regroup([Head(g)], Flat(g.items), FlatGroups(After(g)), rest);
    }
  }

  lemma Regroup<T>(a: seq<T>, b: seq<T>, c: seq<T>, d: seq<T>)
    ensures (a + (b + c)) + d == a + (b + (c + d))
  {
  }

  lemma Rest(l: Line, rest: seq<Line>)
    ensures ([l] + rest)[0] == l && ([l] + rest)[1..] == rest
  {
  }

  /** Skipping over whole items. */
  lemma {:induction false} SkipItems(w: World, st: State, items: Items, rest: seq<Line>, count: nat, stop: bool)
    returns (st': State)
    requires WellFormed(items) && count >= st.ifcount
    ensures SkipIf(w, st, Flat(items) + rest, count, stop) == SkipIf(w, st', rest, count, stop)
    ensures SameBut(st, st', count)
    decreases items
  {
    st' := st;
    if items.Nil? {
      assert Flat(items) + rest == rest;
    } else {
      var more := Flat(items.tail) + rest;
      assert Flat(items) + rest == FlatItem(items.head) + more;
      hide SkipIf;
      st' := SkipItem(w, st, items.head, more, count, stop);
      st' := SkipItems(w, st', items.tail, rest, count, stop);
    }
  }

  lemma {:induction false} SkipItem(w: World, st: State, i: Item, rest: seq<Line>, count: nat, stop: bool)
    returns (st': State)
    requires ItemWellFormed(i) && count >= st.ifcount
    ensures SkipIf(w, st, FlatItem(i) + rest, count, stop) == SkipIf(w, st', rest, count, stop)
    ensures SameBut(st, st', count)
    decreases i
  {
    if i.Simple? {
      st' := st;
      assert ([i.l] + rest)[1..] == rest;
    } else {
      var tail := Flat(i.first) + (FlatGroups(i.more) + rest);
      assert FlatItem(i) + rest == [If(i.c)] + tail;
      assert ([If(i.c)] + tail)[1..] == tail;
      st' := st.(seenElse := st.seenElse[count + 1 := false]);
      assert SkipIf(w, st, FlatItem(i) + rest, count, stop) == SkipIf(w, st', tail, count + 1, stop);
      hide SkipIf;
      st' := SkipItems(w, st', i.first, FlatGroups(i.more) + rest, count + 1, stop);
      st' := SkipGroups(w, st', i.more, rest, count + 1, stop);
    }
  }

  /** Skipping over the groups of a nested section. */
  lemma {:induction false} SkipGroups(w: World, st: State, g: Groups, rest: seq<Line>, count: nat, stop: bool)
    returns (st': State)
    requires GroupsWellFormed(g) && count > st.ifcount && !SeenElse(st, count)
    ensures SkipIf(w, st, FlatGroups(g) + rest, count, stop) == SkipIf(w, st', rest, count - 1, stop)
    ensures SameBut(st, st', count - 1)
    decreases g
  {
    hide FlatGroups, Flat, EndifDirective, IfDirective;
    Unfold(g, rest);
    if g.NoMore? {
      st' := st;
      Rest(Endif, rest);
    } else {
      var tail := FlatGroups(After(g)) + rest;
      Rest(Head(g), Flat(g.items) + tail);
      st' := if g.ElseGroup? then MarkElse(st, count) else st;
      assert SkipIf(w, st, FlatGroups(g) + rest, count, stop) == SkipIf(w, st', Flat(g.items) + tail, count, stop);
      st' := SkipItems(w, st', g.items, tail, count, stop);
      if g.ElifGroup? {
        st' := SkipGroups(w, st', g.more, rest, count, stop);
      } else {
        Unfold(NoMore, rest);
        Rest(Endif, rest);
      }
    }
  }

  /** Skipping what is left of a section to its `#endif`. */
  lemma {:induction false} SkipRest(w: World, st: State, g: Groups, rest: seq<Line>) returns (st': State)
    requires GroupsWellFormed(g) && (SeenElse(st, st.ifcount) ==> g.NoMore?)
    ensures SkipIf(w, st, FlatGroups(g) + rest, st.ifcount, false) == At(EndifDirective(st', rest), rest)
    ensures st.ifcount > 0 ==> SameBut(st, st', st.ifcount - 1)
    decreases SizeGroups(g)
  {
    hide FlatGroups, Flat, EndifDirective, IfDirective;
    var n := st.ifcount;
    Unfold(g, rest);
    if g.NoMore? {
      st' := st;
      Rest(Endif, rest);
    } else {
      var tail := FlatGroups(After(g)) + rest;
      Rest(Head(g), Flat(g.items) + tail);
      st' := if g.ElseGroup? then MarkElse(st, n) else st;
      assert SkipIf(w, st, FlatGroups(g) + rest, n, false) == SkipIf(w, st', Flat(g.items) + tail, n, false);
      st' := SkipItems(w, st', g.items, tail, n, false);
      st' := SkipRest(w, st', After(g), rest);
    }
  }

  // ----- the machine picks the groups -----

  /** How the section that was open in `st`, and the groups after the one read,
      leave the controlling expression of the file: at the top level it is
      recorded if it is still there, no other group follows, and nothing but
      blank lines comes after the section. */
  predicate Leaves(st: State, g: Groups, rest: seq<Line>, st': State) {
    && !st'.atStart
    && st'.control == (if st.ifcount == 1 then None else st.control)
    && st'.recorded ==
       if st.ifcount == 1 && st.control.Some? && g.NoMore? && AllBlank(rest) then st.control else st.recorded
  }

  /** The same for a whole section read from `st`. */
  predicate Passed(st: State, c: Cond, g: Groups, rest: seq<Line>, st': State) {
    && !st'.atStart
    && st'.control == (if st.ifcount == 0 then None else st.control)
    && st'.recorded ==
       if st.ifcount == 0 && st.control.None? && st.atStart && g.NoMore? && AllBlank(rest)
       then Some(Control(c, !st.included)) else st.recorded
  }

  /** Some item of the list itself, not of a section in it, includes a file. */
  predicate HasInclude(items: Items) {
    items.Cons? && ((items.head.Simple? && items.head.l.Include?) || HasInclude(items.tail))
  }

  /** The section has been left: one level fewer, nothing else. */
  predicate Closed(st: State, st': State) {
    st.ifcount > 0 && st'.ifcount == st.ifcount - 1 && st'.errors == st.errors
    && forall j: nat :: j < st.ifcount ==> SeenElse(st', j) == SeenElse(st, j)
  }

  predicate Kept(st: State, st': State) {
    st'.ifcount == st.ifcount && st'.errors == st.errors
    && forall j: nat :: j <= st.ifcount ==> SeenElse(st', j) == SeenElse(st, j)
  }

  lemma EndifCloses(st: State, rest: seq<Line>)
    requires st.ifcount > 0
    ensures Closed(st, EndifDirective(st, rest)) && Seen(EndifDirective(st, rest)) == Seen(st)
    ensures Leaves(st, NoMore, rest, EndifDirective(st, rest))
  {
  }

  lemma RunTurn(w: World, st: State, l: Line, rest: seq<Line>)
    ensures var r := Turn(w, st, [l] + rest); Run(w, st, [l] + rest) == Run(w, r.st, r.rest)
  {
    hide Turn;
  }

  /** From the end of the chosen group to past the `#endif`. */
  lemma {:induction false} RunTail(w: World, st: State, g: Groups, rest: seq<Line>) returns (st': State)
    requires GroupsWellFormed(g) && st.ifcount > 0 && (SeenElse(st, st.ifcount) ==> g.NoMore?)
    ensures Run(w, st, FlatGroups(g) + rest) == Run(w, st', rest)
    ensures Closed(st, st') && Seen(st') == Seen(st) && Leaves(st, g, rest, st')
  {
    hide Run, SkipIf, EndifDirective, FlatGroups, Flat;
    Unfold(g, rest);
    if g.NoMore? {
      RunTurn(w, st, Endif, rest);
      Rest(Endif, rest);
      st' := EndifDirective(st, rest);
      EndifCloses(st, rest);
    } else {
      var tail := FlatGroups(After(g)) + rest;
      RunTurn(w, st, Head(g), Flat(g.items) + tail);
      Rest(Head(g), Flat(g.items) + tail);
      st' := DropControl(if g.ElseGroup? then MarkElse(st, st.ifcount) else st).(atStart := false);
      assert Turn(w, st, [Head(g)] + (Flat(g.items) + tail)) == SkipIf(w, st', Flat(g.items) + tail, st.ifcount, false);
      st' := FinishTail(w, st', g, rest);
    }
  }

  /** Skipping from the body of a later group to past the `#endif`. */
  lemma FinishTail(w: World, st: State, g: Groups, rest: seq<Line>) returns (st': State)
    requires GroupsWellFormed(g) && !g.NoMore? && st.ifcount > 0 && (SeenElse(st, st.ifcount) ==> g.ElseGroup?)
    requires st.ifcount == 1 ==> st.control.None?
    ensures SkipIf(w, st, Flat(g.items) + (FlatGroups(After(g)) + rest), st.ifcount, false) == At(st', rest)
    ensures Closed(st, st') && Seen(st') == Seen(st) && Leaves(st, g, rest, st')
  {
    hide SkipIf, EndifDirective, FlatGroups, Flat;
    st' := SkipItems(w, st, g.items, FlatGroups(After(g)) + rest, st.ifcount, false);
    st' := SkipRest(w, st', After(g), rest);
    EndifCloses(st', rest);
    st' := EndifDirective(st', rest);
  }

  /** Reading items line by line does what the groups say. */
  lemma {:induction false} RunItems(w: World, st: State, items: Items, rest: seq<Line>) returns (st': State)
    requires WellFormed(items)
    ensures Run(w, st, Flat(items) + rest) == Run(w, st', rest)
    ensures Seen(st') == Read(w, Seen(st), items) && Kept(st, st')
    ensures st.ifcount > 0 ==> st'.control == st.control && st'.recorded == st.recorded
    decreases Size(items), 0
  {
    if items.Nil? {
      st' := st;
      assert Flat(items) + rest == rest;
    } else {
      hide Run;
      assert Flat(items) + rest == FlatItem(items.head) + (Flat(items.tail) + rest);
      st' := RunItem(w, st, items.head, Flat(items.tail) + rest);
      st' := RunItems(w, st', items.tail, rest);
    }
  }

  lemma {:induction false} RunItem(w: World, st: State, i: Item, rest: seq<Line>) returns (st': State)
    requires ItemWellFormed(i)
    ensures Run(w, st, FlatItem(i) + rest) == Run(w, st', rest)
    ensures Seen(st') == ReadItem(w, Seen(st), i) && Kept(st, st')
    ensures i.Section? ==> Passed(st, i.c, i.more, rest, st')
    ensures st.ifcount > 0 ==> st'.control == st.control && st'.recorded == st.recorded
    decreases SizeItem(i), 0
  {
    hide Run, IfDirective;
    if i.Simple? {
      RunTurn(w, st, i.l, rest);
      assert ([i.l] + rest)[1..] == rest;
      st' := Turn(w, st, [i.l] + rest).st;
    } else {
      var tail := Flat(i.first) + (FlatGroups(i.more) + rest);
      assert FlatItem(i) + rest == [If(i.c)] + tail;
      assert ([If(i.c)] + tail)[1..] == tail;
      RunTurn(w, st, If(i.c), tail);
      st' := RunSection(w, st, i.c, i.first, i.more, rest);
    }
  }

  /** A section from just after its `#if`, or from an `#elif` that is tried. */
  lemma {:induction false} RunSection(w: World, st: State, c: Cond, first: Items, more: Groups, rest: seq<Line>)
    returns (st': State)
    requires WellFormed(first) && GroupsWellFormed(more)
    ensures var r := IfDirective(w, st, c, Flat(first) + (FlatGroups(more) + rest));
      Run(w, r.st, r.rest) == Run(w, st', rest)
    ensures Seen(st') == ReadGroups(w, Seen(st), ElifGroup(c, first, more)) && Kept(st, st')
    ensures Passed(st, c, more, rest, st')
    decreases Size(first) + SizeGroups(more), 1
  {
    hide Run, SkipIf;
    var st1 := Enter(st, c);
    var tail := FlatGroups(more) + rest;
    if w.test(c, st.macros) {
      st' := RunItems(w, st1, first, tail);
      st' := RunTail(w, st', more, rest);
    } else {
      st' := SkipItems(w, st1, first, tail, st1.ifcount, true);
      st' := Choose(w, st', more, rest);
    }
  }

  /** No group has been true yet: try the next one. */
  lemma {:induction false} Choose(w: World, st: State, g: Groups, rest: seq<Line>) returns (st': State)
    requires GroupsWellFormed(g) && st.ifcount > 0 && !SeenElse(st, st.ifcount)
    ensures var r := SkipIf(w, st, FlatGroups(g) + rest, st.ifcount, true); Run(w, r.st, r.rest) == Run(w, st', rest)
    ensures Seen(st') == ReadGroups(w, Seen(st), g) && Closed(st, st')
    ensures Leaves(st, g, rest, st')
    decreases SizeGroups(g), 0
  {
    hide Run, SkipIf, EndifDirective, FlatGroups, Flat;
    Unfold(g, rest);
    ChooseStep(w, st, g, rest);
    if g.NoMore? {
      st' := EndifDirective(st, rest);
      EndifCloses(st, rest);
    } else if g.ElseGroup? {
      st' := DropControl(MarkElse(st, st.ifcount));
      st' := RunItems(w, st', g.items, FlatGroups(NoMore) + rest);
      st' := RunTail(w, st', NoMore, rest);
    } else {
      st' := DropControl(st).(ifcount := st.ifcount - 1, atStart := false);
      st' := RunSection(w, st', g.c, g.items, g.more, rest);
    }
  }

  lemma ChooseStep(w: World, st: State, g: Groups, rest: seq<Line>)
    requires GroupsWellFormed(g) && st.ifcount > 0 && !SeenElse(st, st.ifcount)
    ensures SkipIf(w, st, FlatGroups(g) + rest, st.ifcount, true)
      == (match g
          case NoMore => At(EndifDirective(st, rest), rest)
          case ElseGroup(items) => At(DropControl(MarkElse(st, st.ifcount)), Flat(items) + (FlatGroups(NoMore) + rest))
          case ElifGroup(c, items, more) =>
            IfDirective(w, DropControl(st).(ifcount := st.ifcount - 1, atStart := false), c,
              Flat(items) + (FlatGroups(more) + rest)))
  {
    hide FlatGroups, Flat, EndifDirective, IfDirective;
    Unfold(g, rest);
    if g.NoMore? {
      Rest(Endif, rest);
    } else {
      Rest(Head(g), Flat(g.items) + (FlatGroups(After(g)) + rest));
    }
  }

  /** For every well-nested sequence of lines the machine emits the first true
      group of each section, or its `#else` group, evaluates no later condition,
      reports no error, and ends at the level it started from. */
  lemma RunsGroups(w: World, st: State, items: Items)
    requires WellFormed(items)
    ensures var st' := Run(w, st, Flat(items));
      Seen(st') == Read(w, Seen(st), items) && st'.ifcount == st.ifcount && st'.errors == st.errors
  {
    hide Turn;
    var st' := RunItems(w, st, items, []);
    assert Flat(items) + [] == Flat(items);
  }

  // ----- the cache of controlling expressions -----

  function Fresh(macros: Macros): State {
    State([], macros, [], 0, map[0 := false], None, None, true, false, 0)
  }

  /** From inside the section the file is taken to be wrapped in: no `#elif` or
      `#else` of its own, and only blank lines after its `#endif`. */
  predicate Wrapped(lines: seq<Line>, level: nat) {
    |lines| > 0 &&
    match lines[0]
    case If(_) => Wrapped(lines[1..], level + 1)
    case Elif(_) => level != 1 && Wrapped(lines[1..], level)
    case Else => level != 1 && Wrapped(lines[1..], level)
    case Endif => if level <= 1 then AllBlank(lines[1..]) else Wrapped(lines[1..], level - 1)
    case _ => Wrapped(lines[1..], level)
  }

  /** Nothing but blank lines outside one section with the condition `c`. */
  predicate Guarded(lines: seq<Line>, c: Cond) {
    |lines| > 0 && if lines[0].Blank? then Guarded(lines[1..], c) else lines[0] == If(c) && Wrapped(lines[1..], 1)
  }

  /** No clean candidate is left, and none can be found any more. */
  predicate Hopeless(st: State) {
    && (st.control.Some? ==> !st.control.value.clean)
    && (st.recorded.Some? ==> !st.recorded.value.clean)
    && (st.atStart ==> st.included)
  }

  /** In the section that may turn out to wrap the file. */
  predicate Within(c: Cond, st: State) {
    st.control == Some(Control(c, true)) && st.recorded.None? && st.ifcount > 0 && (st.atStart ==> st.included)
  }

  /** What reading on from within the section can come to. */
  predicate Comes(c: Cond, r: At, lines: seq<Line>, level: nat) {
    || Hopeless(r.st)
    || (Within(c, r.st) && (Wrapped(r.rest, r.st.ifcount) ==> Wrapped(lines, level)))
    || (r.st.recorded == Some(Control(c, true)) && AllBlank(r.rest) && Wrapped(lines, level))
  }

  lemma {:induction false} SkipIfHopeless(w: World, st: State, lines: seq<Line>, level: nat, stop: bool)
    requires Hopeless(st)
    ensures Hopeless(SkipIf(w, st, lines, level, stop).st)
    decreases |lines|, 0
  {
    hide IfDirective;
    if |lines| > 0 {
      var rest := lines[1..];
      var l := lines[0];
      if l.If? {
        SkipIfHopeless(w, st.(seenElse := st.seenElse[level + 1 := false]), rest, level + 1, stop);
      } else if l.Else? {
        SkipIfHopeless(w, MarkElse(st, level), rest, level, stop);
      } else if l.Elif? {
        var st1 := if SeenElse(st, level) then Error(st) else st;
        if stop && level == st.ifcount {
          var st2 := DropControl(st1);
          IfHopeless(w, st2.(ifcount := if st2.ifcount > 0 then st2.ifcount - 1 else 0, atStart := false), l.c, rest);
        } else {
          SkipIfHopeless(w, st1, rest, level, stop);
        }
      } else if !l.Endif? {
        SkipIfHopeless(w, st, rest, level, stop);
      } else if level != st.ifcount {
        SkipIfHopeless(w, st, rest, if level > 0 then level - 1 else 0, stop);
      }
    }
  }

  lemma {:induction false} IfHopeless(w: World, st: State, c: Cond, rest: seq<Line>)
    requires Hopeless(st)
    ensures Hopeless(IfDirective(w, st, c, rest).st)
    decreases |rest|, 1
  {
    hide SkipIf;
    var st1 := Enter(st, c);
    assert Hopeless(st1);
    SkipIfHopeless(w, st1, rest, st1.ifcount, true);
  }

  lemma TurnHopeless(w: World, st: State, lines: seq<Line>)
    requires |lines| > 0 && Hopeless(st)
    ensures Hopeless(Turn(w, st, lines).st)
  {
    hide SkipIf, IfDirective;
    var rest := lines[1..];
    match lines[0]
    case If(c) => IfHopeless(w, st, c, rest);
    case Elif(_) => NextHopeless(w, st, false, rest);
    case Else => NextHopeless(w, st, true, rest);
    case _ =>
  }

  lemma NextHopeless(w: World, st: State, isElse: bool, rest: seq<Line>)
    requires Hopeless(st) || (st.recorded.None? && (st.ifcount == 1 || st.control.None?))
    ensures Hopeless(NextGroup(w, st, isElse, rest).st)
  {
    hide SkipIf;
    var st1 := if isElse then MarkElse(st, st.ifcount) else if SeenElse(st, st.ifcount) then Error(st) else st;
    var st2 := DropControl(st1).(atStart := false);
    SkipIfHopeless(w, st2, rest, st2.ifcount, false);
  }

  lemma {:induction false} RunHopeless(w: World, st: State, lines: seq<Line>)
    requires Hopeless(st)
    ensures Hopeless(Run(w, st, lines))
    decreases |lines|
  {
    hide Turn, Hopeless;
    if |lines| > 0 {
      TurnHopeless(w, st, lines);
      var r := Turn(w, st, lines);
      RunHopeless(w, r.st, r.rest);
    }
  }

  lemma {:induction false} SkipIfComes(w: World, st: State, lines: seq<Line>, level: nat, stop: bool, c: Cond)
    requires Within(c, st) && level >= st.ifcount && (stop || st.ifcount > 1)
    ensures Comes(c, SkipIf(w, st, lines, level, stop), lines, level)
    decreases |lines|, 2
  {
    if |lines| > 0 {
      var rest := lines[1..];
      var l := lines[0];
      if l.If? {
        SkipIfComes(w, st.(seenElse := st.seenElse[level + 1 := false]), rest, level + 1, stop, c);
      } else if l.Else? {
        if !(stop && level == st.ifcount) { SkipIfComes(w, MarkElse(st, level), rest, level, stop, c); }
      } else if l.Elif? {
        SkipElifComes(w, st, lines, level, stop, c);
      } else if !l.Endif? {
        SkipIfComes(w, st, rest, level, stop, c);
      } else if level > st.ifcount {
        SkipIfComes(w, st, rest, level - 1, stop, c);
      }
    }
  }

  lemma {:induction false} SkipElifComes(w: World, st: State, lines: seq<Line>, level: nat, stop: bool, c: Cond)
    requires Within(c, st) && level >= st.ifcount && (stop || st.ifcount > 1) && |lines| > 0 && lines[0].Elif?
    ensures Comes(c, SkipIf(w, st, lines, level, stop), lines, level)
    decreases |lines|, 1
  {
    hide IfDirective;
    var rest := lines[1..];
    var st1 := if SeenElse(st, level) then Error(st) else st;
    if stop && level == st.ifcount {
      var st2 := DropControl(st1).(ifcount := st.ifcount - 1, atStart := false);
      if st.ifcount == 1 { IfHopeless(w, st2, lines[0].c, rest); } else { IfComes(w, st2, lines[0].c, rest, c); }
    } else {
      SkipIfComes(w, st1, rest, level, stop, c);
    }
  }

  lemma {:induction false} IfComes(w: World, st: State, d: Cond, rest: seq<Line>, c: Cond)
    requires Within(c, st)
    ensures Comes(c, IfDirective(w, st, d, rest), rest, st.ifcount + 1)
    decreases |rest|, 3
  {
    hide SkipIf;
    var st1 := Enter(st, d);
    SkipIfComes(w, st1, rest, st1.ifcount, true, c);
  }

  lemma TurnComes(w: World, st: State, lines: seq<Line>, c: Cond)
    requires |lines| > 0 && Within(c, st)
    ensures Comes(c, Turn(w, st, lines), lines, st.ifcount)
  {
    hide SkipIf, IfDirective;
    var rest := lines[1..];
    match lines[0]
    case If(d) => IfComes(w, st, d, rest, c);
    case Elif(_) => NextComes(w, st, false, rest, c);
    case Else => NextComes(w, st, true, rest, c);
    case _ =>
  }

  lemma NextComes(w: World, st: State, isElse: bool, rest: seq<Line>, c: Cond)
    requires Within(c, st)
    ensures var r := NextGroup(w, st, isElse, rest);
      if st.ifcount == 1 then Hopeless(r.st) else Comes(c, r, rest, st.ifcount)
  {
    hide SkipIf;
    if st.ifcount == 1 {
      NextHopeless(w, st, isElse, rest);
    } else {
      var st1 := if isElse then MarkElse(st, st.ifcount) else if SeenElse(st, st.ifcount) then Error(st) else st;
      SkipIfComes(w, st1.(atStart := false), rest, st.ifcount, false, c);
    }
  }

  lemma {:induction false} RunBlank(w: World, st: State, lines: seq<Line>)
    requires AllBlank(lines)
    ensures Run(w, st, lines) == st
    decreases |lines|
  {
    if |lines| > 0 {
      RunBlank(w, st, lines[1..]);
    }
  }

  lemma {:induction false} RunComes(w: World, st: State, lines: seq<Line>, c: Cond, d: Cond)
    requires Within(c, st) && Run(w, st, lines).recorded == Some(Control(d, true))
    ensures d == c && Wrapped(lines, st.ifcount)
    decreases |lines|
  {
    if |lines| > 0 {
      hide Turn, Wrapped;
      TurnComes(w, st, lines, c);
      var r := Turn(w, st, lines);
      if Hopeless(r.st) {
        RunHopeless(w, r.st, r.rest);
      } else if Within(c, r.st) {
        RunComes(w, r.st, r.rest, c, d);
      } else {
        RunBlank(w, r.st, r.rest);
      }
    }
  }

  /** A recorded controlling expression with no file included before it does
      stand around the whole file. */
  lemma {:induction false} RecordedGuards(w: World, st: State, lines: seq<Line>, c: Cond)
    requires st == Fresh(st.macros)
    requires Run(w, st, lines).recorded == Some(Control(c, true))
    ensures Guarded(lines, c)
    decreases |lines|
  {
    if |lines| > 0 {
      hide SkipIf, Wrapped;
      var rest := lines[1..];
      if lines[0].Blank? {
        RecordedGuards(w, st, rest, c);
      } else if lines[0].If? {
        var d := lines[0].c;
        var st1 := Enter(st, d);
        if w.test(d, st.macros) {
          RunComes(w, st1, rest, d, c);
        } else {
          SkipIfComes(w, st1, rest, 1, true, d);
          var r := SkipIf(w, st1, rest, 1, true);
          if Hopeless(r.st) {
            RunHopeless(w, r.st, r.rest);
          } else if Within(d, r.st) {
            RunComes(w, r.st, r.rest, d, c);
          } else {
            RunBlank(w, r.st, r.rest);
          }
        }
      } else {
        if lines[0].Else? || lines[0].Elif? { NextHopeless(w, st, lines[0].Else?, rest); }
        var r := Turn(w, st, lines);
        RunHopeless(w, r.st, r.rest);
      }
    }
  }

  lemma {:induction false} SkipWrapped(w: World, st: State, lines: seq<Line>, level: nat)
    requires st.ifcount == 1 && level >= 1 && Wrapped(lines, level)
    ensures var r := SkipIf(w, st, lines, level, true); Seen(r.st) == Seen(st) && AllBlank(r.rest)
    decreases |lines|
  {
    var rest := lines[1..];
    match lines[0]
    case If(_) => SkipWrapped(w, st.(seenElse := st.seenElse[level + 1 := false]), rest, level + 1);
    case Else => SkipWrapped(w, MarkElse(st, level), rest, level);
    case Elif(_) => SkipWrapped(w, if SeenElse(st, level) then Error(st) else st, rest, level);
    case Endif => if level > 1 { SkipWrapped(w, st, rest, level - 1); }
    case _ => SkipWrapped(w, st, rest, level);
  }

  /** A guarded file whose condition is false shows nothing but the test. */
  lemma {:induction false} GuardedShowsNothing(w: World, st: State, lines: seq<Line>, c: Cond)
    requires st == Fresh(st.macros) && Guarded(lines, c) && !w.test(c, st.macros)
    ensures Seen(Run(w, st, lines)) == View([], st.macros, [(c, st.macros)])
    decreases |lines|
  {
    hide SkipIf, Wrapped;
    var rest := lines[1..];
    if lines[0].Blank? {
      GuardedShowsNothing(w, st, rest, c);
    } else {
      var st1 := Enter(st, c);
      SkipWrapped(w, st1, rest, 1);
      var r := SkipIf(w, st1, rest, 1, true);
      RunBlank(w, r.st, r.rest);
    }
  }

  /** `check_control` is right: if reading the file with some macros recorded
      `c`, and no file had been included before, then with any macros that make
      `c` false reading it again would only test `c`, once, as the check did. */
  lemma CacheIsSound(w: World, lines: seq<Line>, before: Macros, now: Macros, c: Cond)
    requires Run(w, Fresh(before), lines).recorded == Some(Control(c, true)) && !w.test(c, now)
    ensures Seen(Run(w, Fresh(now), lines)) == View([], now, [(c, now)])
  {
    hide Run, Guarded;
    RecordedGuards(w, Fresh(before), lines, c);
    GuardedShowsNothing(w, Fresh(now), lines, c);
  }

  // ----- what the cache is given -----

  /** The controlling expression of a file, from its text alone: that of a
      section with one group which only blank lines follow, if it comes first, or
      first after an inclusion; only in the first case is the candidate clean. */
  function Guard(items: Items, clean: bool, start: bool): Option<Control> {
    if items.Nil? then None
    else
      match items.head
      case Simple(l) => Guard(items.tail, clean && !l.Include?, l.Include? || (l.Blank? && start))
      case Section(c, _, more) =>
        if start && more.NoMore? && AllBlank(Flat(items.tail)) then Some(Control(c, clean))
        else Guard(items.tail, clean, false)
  }

  lemma {:induction false} RunGuard(w: World, st: State, items: Items, clean: bool)
    requires WellFormed(items) && st.ifcount == 0 && st.control.None? && st.recorded.None?
    requires st.atStart ==> clean == !st.included
    ensures Run(w, st, Flat(items)).recorded == Guard(items, clean, st.atStart)
    decreases items, 0
  {
    if items.Cons? {
      hide Run, Turn;
      var rest := Flat(items.tail);
      if items.head.Simple? {
        var l := items.head.l;
        RunTurn(w, st, l, rest);
        RunGuardSimple(w, st, l, rest, items.tail, clean);
      } else {
        var st' := RunItem(w, st, items.head, rest);
        if AllBlank(rest) && st'.recorded.Some? {
          RunBlank(w, st', rest);
        } else {
          RunGuard(w, st', items.tail, clean);
        }
      }
    }
  }

  lemma RunGuardSimple(w: World, st: State, l: Line, rest: seq<Line>, tail: Items, clean: bool)
    requires ItemWellFormed(Simple(l)) && WellFormed(tail) && rest == Flat(tail)
    requires st.ifcount == 0 && st.control.None? && st.recorded.None? && (st.atStart ==> clean == !st.included)
    ensures var r := Turn(w, st, [l] + rest);
      Run(w, r.st, r.rest).recorded == Guard(tail, clean && !l.Include?, l.Include? || (l.Blank? && st.atStart))
    decreases tail, 1
  {
    hide Run, Guard, Flat;
    assert ([l] + rest)[1..] == rest;
    RunGuard(w, Turn(w, st, [l] + rest).st, tail, clean && !l.Include?);
  }

  /** Whatever the world and the macros, reading a well-nested file records the
      guard that can be read off its text. */
  lemma RecordsGuard(w: World, macros: Macros, items: Items)
    requires WellFormed(items)
    ensures Run(w, Fresh(macros), Flat(items)).recorded == Guard(items, true, true)
  {
    RunGuard(w, Fresh(macros), items, true);
  }

  lemma {:induction false} GuardClean(items: Items, clean: bool, start: bool)
    requires Guard(items, clean, start).Some?
    ensures Guard(items, clean, start).value.clean <==> clean && !HasInclude(items)
    decreases items
  {
    match items.head
    case Simple(l) => GuardClean(items.tail, clean && !l.Include?, l.Include? || (l.Blank? && start));
    case Section(c, _, more) =>
      if start && more.NoMore? && AllBlank(Flat(items.tail)) {
        BlankNoInclude(items.tail);
      } else {
        GuardClean(items.tail, clean, false);
      }
  }

  lemma {:induction false} BlankNoInclude(items: Items)
    requires AllBlank(Flat(items))
    ensures !HasInclude(items)
    decreases items
  {
    if items.Cons? {
      var a, b := FlatItem(items.head), Flat(items.tail);
      assert a[0] == (a + b)[0];
      assert forall i :: 0 <= i < |b| ==> b[i] == (a + b)[|a| + i];
      BlankNoInclude(items.tail);
    }
  }

  // Without the cleanness the cache is wrong, and only then.

  lemma {:induction false} IncludesShow(w: World, v: View, items: Items)
    requires forall f, ms :: |w.included(f, ms).0| > 0
    ensures |Read(w, v, items).out| >= |v.out| + if HasInclude(items) then 1 else 0
    decreases Size(items), 0
  {
    if items.Cons? {
      hide ReadGroups;
      var v' := ReadItem(w, v, items.head);
      if items.head.Section? {
        SameSize(items.head);
        IncludesShowGroups(w, v, ElifGroup(items.head.c, items.head.first, items.head.more));
        SectionIsGroups(w, v, items.head);
      }
      IncludesShow(w, v', items.tail);
    }
  }

  lemma SameSize(i: Item)
    requires i.Section?
    ensures SizeItem(i) == SizeGroups(ElifGroup(i.c, i.first, i.more))
  {
  }

  lemma SectionIsGroups(w: World, v: View, i: Item)
    requires i.Section?
    ensures ReadItem(w, v, i) == ReadGroups(w, v, ElifGroup(i.c, i.first, i.more))
  {
  }

  lemma {:induction false} IncludesShowGroups(w: World, v: View, g: Groups)
    requires forall f, ms :: |w.included(f, ms).0| > 0
    ensures |ReadGroups(w, v, g).out| >= |v.out|
    decreases SizeGroups(g), 0
  {
    match g
    case NoMore =>
    case ElseGroup(items) => IncludesShow(w, v, items);
    case ElifGroup(c, items, more) =>
      var v' := v.(tested := v.tested + [(c, v.macros)]);
      IncludesShow(w, v', items);
      IncludesShowGroups(w, v', more);
  }

  /** Skipping by a recorded expression is right, in every world and for every
      macros that make it false, exactly when the file includes none of its own
      at the top level: the file name is ended in place by the character that
      marks the start of the file, so a section after it passes for the first. */
  lemma CacheIsSoundExactly(w: World, items: Items, before: Macros, ctl: Control)
    requires WellFormed(items) && Run(w, Fresh(before), Flat(items)).recorded == Some(ctl)
    ensures ctl.clean <==> !HasInclude(items)
    ensures !HasInclude(items) <==>
      forall w': World, now: Macros :: !w'.test(ctl.c, now) ==>
        Seen(Run(w', Fresh(now), Flat(items))) == View([], now, [(ctl.c, now)])
  {
    hide Run, Read, Flat, HasInclude, Guarded, WellFormed, Guard;
    RecordsGuard(w, before, items);
    GuardClean(items, true, true);
    var skip := World((_, _) => false, (_, _) => [], (_, ms) => ([0], ms));
    if HasInclude(items) {
      var now: Macros := map[];
      ReadsOut(skip, now, items);
      assert Seen(Run(skip, Fresh(now), Flat(items))).out != [];
      assert !skip.test(ctl.c, now);
    }
    if ctl.clean {
      assert ctl == Control(ctl.c, true);
      forall w': World, now: Macros | !w'.test(ctl.c, now)
        ensures Seen(Run(w', Fresh(now), Flat(items))) == View([], now, [(ctl.c, now)])
      {
        RecordedGuards(w, Fresh(before), Flat(items), ctl.c);
        GuardedShowsNothing(w', Fresh(now), Flat(items), ctl.c);
      }
    }
  }

  lemma ReadsOut(w: World, now: Macros, items: Items)
    requires WellFormed(items) && HasInclude(items) && forall f, ms :: |w.included(f, ms).0| > 0
    ensures Seen(Run(w, Fresh(now), Flat(items))).out != []
  {
    hide Run, Read, HasInclude;
    RunsGroups(w, Fresh(now), items);
    IncludesShow(w, View([], now, []), items);
  }
}
