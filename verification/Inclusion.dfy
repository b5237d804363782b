/** Files that include files. A full reading opens every file that is named; the
    preprocessor's reading keeps one cache of controlling expressions over all of
    them, at every depth, and does not open a file its expression says is empty. */
module Inclusion {
  import opened Options
  import opened CondInclude

  type Files = map<nat, seq<Line>>
  type Controls = map<nat, Control>

  /** The line after an inclusion: its file has added tokens and changed macros. */
  function Join(st: State, out: seq<nat>, macros: Macros): State {
    st.(out := st.out + out, macros := macros, atStart := true, included := true)
  }

  /** Reading that opens every file, with at most `depth` files open inside this
      one; nothing if that is not enough. A file that is not there adds nothing. */
  function Full(w: World, files: Files, depth: nat, st: State, lines: seq<Line>): Option<State>
    decreases depth, |lines|
  {
    if |lines| == 0 then Some(st)
    else if !lines[0].Include? then
      var r := Turn(w, st, lines);
      Full(w, files, depth, r.st, r.rest)
    else if lines[0].file !in files then Full(w, files, depth, Join(st, [], st.macros), lines[1..])
    else if depth == 0 then None
    else
      match Full(w, files, depth - 1, Fresh(st.macros), files[lines[0].file])
      case None => None
      case Some(i) => Full(w, files, depth, Join(st, i.out, i.macros), lines[1..])
  }

  /** What a reading leaves: its state, and the cache. */
  datatype Left = Left(st: State, controls: Controls)

  /** The file's own expression is cached when the file has been read. */
  function Record(controls: Controls, f: nat, st: State): Controls {
    if st.recorded.Some? then controls[f := st.recorded.value] else controls
  }

  /** Reading that looks into the cache before it opens a file. */
  function Cached(w: World, files: Files, depth: nat, controls: Controls, st: State, lines: seq<Line>): Option<Left>
    decreases depth, |lines|
  {
    if |lines| == 0 then Some(Left(st, controls))
    else if !lines[0].Include? then
      var r := Turn(w, st, lines);
      Cached(w, files, depth, controls, r.st, r.rest)
    else
      var f := lines[0].file;
      if (f in controls && !w.test(controls[f].c, st.macros)) || f !in files then
        Cached(w, files, depth, controls, Join(st, [], st.macros), lines[1..])
      else if depth == 0 then None
      else
        match Cached(w, files, depth - 1, controls, Fresh(st.macros), files[f])
        case None => None
        case Some(i) =>
          Cached(w, files, depth, Record(i.controls, f, i.st), Join(st, i.st.out, i.st.macros), lines[1..])
  }

  // ----- a full reading is the reading of one file in some world -----

  /** The world in which an included file is what a full reading makes of it. */
  function Deep(w: World, files: Files, depth: nat): World {
    w.(included := (f, ms) =>
      if f !in files || depth == 0 then ([], ms)
      else
        match Full(w, files, depth - 1, Fresh(ms), files[f])
        case None => ([], ms)
        case Some(i) => (i.out, i.macros))
  }

  /** Every file the lines include has a number below `n`. */
  predicate Below(lines: seq<Line>, n: nat) {
    forall i :: 0 <= i < |lines| && lines[i].Include? ==> lines[i].file < n
  }

  /** Nothing but an inclusion asks what a file holds. */
  lemma {:induction false} SkipSame(w: World, v: World, st: State, lines: seq<Line>, count: nat, stop: bool, n: nat)
    requires v.test == w.test
    ensures var r := SkipIf(w, st, lines, count, stop);
      r == SkipIf(v, st, lines, count, stop) && (Below(lines, n) ==> Below(r.rest, n))
    decreases |lines|, 0
  {
    if |lines| > 0 {
      hide IfDirective, EndifDirective;
      var rest := lines[1..];
      var l := lines[0];
      var check := if SeenElse(st, count) then Error(st) else st;
      var stops := stop && count == st.ifcount;
      if l.If? {
        SkipSame(w, v, st.(seenElse := st.seenElse[count + 1 := false]), rest, count + 1, stop, n);
      } else if l.Else? && !stops {
        SkipSame(w, v, MarkElse(st, count), rest, count, stop, n);
      } else if l.Elif? && stops {
        var st2 := DropControl(check);
        IfSame(w, v, st2.(ifcount := if st2.ifcount > 0 then st2.ifcount - 1 else 0, atStart := false), l.c, rest, n);
      } else if l.Elif? {
        SkipSame(w, v, check, rest, count, stop, n);
      } else if l.Endif? && count != st.ifcount {
        SkipSame(w, v, st, rest, if count > 0 then count - 1 else 0, stop, n);
      } else if !l.Else? && !l.Endif? {
        SkipSame(w, v, st, rest, count, stop, n);
      }
    }
  }

  lemma {:induction false} IfSame(w: World, v: World, st: State, c: Cond, rest: seq<Line>, n: nat)
    requires v.test == w.test
    ensures var r := IfDirective(w, st, c, rest);
      r == IfDirective(v, st, c, rest) && (Below(rest, n) ==> Below(r.rest, n))
    decreases |rest|, 1
  {
    hide SkipIf;
    var st1 := Enter(st, c);
    SkipSame(w, v, st1, rest, st1.ifcount, true, n);
  }

  lemma TurnSame(w: World, v: World, st: State, lines: seq<Line>, n: nat)
    requires v.test == w.test && v.expand == w.expand && |lines| > 0 && !lines[0].Include?
    ensures var r := Turn(w, st, lines); r == Turn(v, st, lines) && (Below(lines, n) ==> Below(r.rest, n))
  {
    hide SkipIf, IfDirective, EndifDirective;
    var rest := lines[1..];
    match lines[0]
    case If(c) => IfSame(w, v, st, c, rest, n);
    case Elif(_) =>
      var st2 := DropControl(if SeenElse(st, st.ifcount) then Error(st) else st).(atStart := false);
      SkipSame(w, v, st2, rest, st2.ifcount, false, n);
    case Else =>
      var st2 := DropControl(MarkElse(st, st.ifcount)).(atStart := false);
      SkipSame(w, v, st2, rest, st2.ifcount, false, n);
    case _ =>
  }

  lemma {:induction false} FullIsRun(w: World, files: Files, depth: nat, st: State, lines: seq<Line>)
    requires Full(w, files, depth, st, lines).Some?
    ensures Full(w, files, depth, st, lines).value == Run(Deep(w, files, depth), st, lines)
    decreases |lines|
  {
    if |lines| > 0 {
      hide SkipIf, IfDirective, EndifDirective, NextGroup;
      var v := Deep(w, files, depth);
      if !lines[0].Include? {
        hide Turn;
        TurnSame(w, v, st, lines, 0);
        var r := Turn(w, st, lines);
        FullIsRun(w, files, depth, r.st, r.rest);
      } else {
        FullIsRun(w, files, depth, Turn(v, st, lines).st, lines[1..]);
      }
    }
  }

  /** More room changes nothing. */
  lemma {:induction false} FullDeeper(w: World, files: Files, depth: nat, st: State, lines: seq<Line>)
    requires Full(w, files, depth, st, lines).Some?
    ensures Full(w, files, depth + 1, st, lines) == Full(w, files, depth, st, lines)
    decreases depth, |lines|
  {
    hide Turn;
    if |lines| > 0 {
      if !lines[0].Include? {
        var r := Turn(w, st, lines);
        FullDeeper(w, files, depth, r.st, r.rest);
      } else if lines[0].file !in files {
        FullDeeper(w, files, depth, Join(st, [], st.macros), lines[1..]);
      } else {
        FullDeeper(w, files, depth - 1, Fresh(st.macros), files[lines[0].file]);
        var i := Full(w, files, depth - 1, Fresh(st.macros), files[lines[0].file]).value;
        FullDeeper(w, files, depth, Join(st, i.out, i.macros), lines[1..]);
      }
    }
  }

  // ----- a guarded file opens nothing -----

  lemma {:induction false} FullBlank(w: World, files: Files, depth: nat, st: State, lines: seq<Line>)
    requires AllBlank(lines)
    ensures Full(w, files, depth, st, lines) == Some(st)
    decreases |lines|
  {
    if |lines| > 0 {
      FullBlank(w, files, depth, st, lines[1..]);
    }
  }

  lemma {:induction false} FullGuarded(w: World, files: Files, depth: nat, st: State, lines: seq<Line>, c: Cond)
    requires st == Fresh(st.macros) && Guarded(lines, c) && !w.test(c, st.macros)
    ensures Full(w, files, depth, st, lines).Some?
    ensures var r := Full(w, files, depth, st, lines).value; r.out == [] && r.macros == st.macros
    decreases |lines|
  {
    hide SkipIf, Wrapped;
    var rest := lines[1..];
    if lines[0].Blank? {
      FullGuarded(w, files, depth, st, rest, c);
    } else {
      var st1 := Enter(st, c);
      SkipWrapped(w, st1, rest, 1);
      var r := SkipIf(w, st1, rest, 1, true);
      FullBlank(w, files, depth, r.st, r.rest);
    }
  }

  // ----- the cache is right at every depth -----

  /** Reading the file never leaves an expression that is not clean. */
  ghost predicate NeverLate(lines: seq<Line>) {
    forall w: World, macros: Macros :: CleanOnly(Run(w, Fresh(macros), lines))
  }

  predicate CleanOnly(st: State) {
    st.recorded.Some? ==> st.recorded.value.clean
  }

  /** For a well-nested file this can be read off its text. */
  lemma NeverLateExactly(items: Items)
    requires WellFormed(items)
    ensures NeverLate(Flat(items)) <==> (Guard(items, true, true).Some? ==> Guard(items, true, true).value.clean)
  {
    hide Run, Fresh;
    forall w: World, macros: Macros
      ensures Run(w, Fresh(macros), Flat(items)).recorded == Guard(items, true, true)
    {
      RecordsGuard(w, macros, items);
    }
    var w := World((_, _) => false, (_, _) => [], (_, ms) => ([], ms));
    assert Run(w, Fresh(map[]), Flat(items)).recorded == Guard(items, true, true);
  }

  ghost predicate Steady(files: Files) {
    forall f :: f in files ==> NeverLate(files[f])
  }

  /** Every cached expression stands around its file. */
  predicate Sound(files: Files, controls: Controls) {
    forall f :: f in controls ==> f in files && Guarded(files[f], controls[f].c)
  }

  lemma RecordSound(w: World, files: Files, depth: nat, controls: Controls, f: nat, macros: Macros)
    requires f in files && NeverLate(files[f]) && Sound(files, controls)
    requires Full(w, files, depth, Fresh(macros), files[f]).Some?
    ensures Sound(files, Record(controls, f, Full(w, files, depth, Fresh(macros), files[f]).value))
  {
    hide Run, Full, Guarded;
    var v := Deep(w, files, depth);
    FullIsRun(w, files, depth, Fresh(macros), files[f]);
    var st := Run(v, Fresh(macros), files[f]);
    assert CleanOnly(st);
    if st.recorded.Some? {
      assert st.recorded == Some(Control(st.recorded.value.c, true));
            RecordedGuards(v, Fresh(macros), files[f], st.recorded.value.c);
    }
  }

  /** What the cached reading comes to, a full reading comes to with one file
      more open: a file is opened at worst to find that it is skipped. */
  lemma {:induction false} CachedIsFull(w: World, files: Files, depth: nat, controls: Controls, st: State,
    lines: seq<Line>)
    requires Steady(files) && Sound(files, controls)
    requires Cached(w, files, depth, controls, st, lines).Some?
    ensures var r := Cached(w, files, depth, controls, st, lines).value;
      Full(w, files, depth + 1, st, lines) == Some(r.st) && Sound(files, r.controls)
    decreases depth, |lines|
  {
    hide Turn, Guarded, NeverLate;
    if |lines| > 0 {
      if !lines[0].Include? {
        var r := Turn(w, st, lines);
        CachedIsFull(w, files, depth, controls, r.st, r.rest);
      } else {
        var f := lines[0].file;
        if f in controls && !w.test(controls[f].c, st.macros) {
          FullGuarded(w, files, depth, Fresh(st.macros), files[f], controls[f].c);
          CachedIsFull(w, files, depth, controls, Join(st, [], st.macros), lines[1..]);
        } else if f !in files {
          CachedIsFull(w, files, depth, controls, Join(st, [], st.macros), lines[1..]);
        } else {
          CachedIsFull(w, files, depth - 1, controls, Fresh(st.macros), files[f]);
          var i := Cached(w, files, depth - 1, controls, Fresh(st.macros), files[f]).value;
          RecordSound(w, files, depth, i.controls, f, st.macros);
          CachedIsFull(w, files, depth, Record(i.controls, f, i.st), Join(st, i.st.out, i.st.macros), lines[1..]);
        }
      }
    }
  }

  /** And wherever a full reading comes to an end, so does the cached one. */
  lemma {:induction false} FullIsCached(w: World, files: Files, depth: nat, controls: Controls, st: State,
    lines: seq<Line>)
    requires Steady(files) && Sound(files, controls)
    requires Full(w, files, depth, st, lines).Some?
    ensures Cached(w, files, depth, controls, st, lines).Some?
    decreases depth, |lines|
  {
    hide Turn, Guarded, NeverLate;
    if |lines| > 0 {
      if !lines[0].Include? {
        var r := Turn(w, st, lines);
        FullIsCached(w, files, depth, controls, r.st, r.rest);
      } else {
        var f := lines[0].file;
        if f in controls && !w.test(controls[f].c, st.macros) {
          FullGuarded(w, files, depth - 1, Fresh(st.macros), files[f], controls[f].c);
          FullIsCached(w, files, depth, controls, Join(st, [], st.macros), lines[1..]);
        } else if f !in files {
          FullIsCached(w, files, depth, controls, Join(st, [], st.macros), lines[1..]);
        } else {
          var at := Fresh(st.macros);
          FullIsCached(w, files, depth - 1, controls, at, files[f]);
          CachedIsFull(w, files, depth - 1, controls, at, files[f]);
          FullDeeper(w, files, depth - 1, at, files[f]);
          var i := Cached(w, files, depth - 1, controls, at, files[f]).value;
          RecordSound(w, files, depth, i.controls, f, st.macros);
          FullIsCached(w, files, depth, Record(i.controls, f, i.st), Join(st, i.st.out, i.st.macros), lines[1..]);
        }
      }
    }
  }

  /** The cached reading of any lines, over files that never record a late
      expression, agrees with the full one: same end, same tokens and macros, and
      the full one is the standard's reading of the groups, with what each
      included file holds found in the same way. */
  lemma SharedCache(w: World, files: Files, depth: nat, macros: Macros, items: Items)
    requires Steady(files) && WellFormed(items)
    requires Cached(w, files, depth, map[], Fresh(macros), Flat(items)).Some?
    ensures var st := Cached(w, files, depth, map[], Fresh(macros), Flat(items)).value.st;
      Seen(st) == Read(Deep(w, files, depth + 1), View([], macros, []), items) && st.ifcount == 0 && st.errors == 0
  {
    hide Run, Read, Full, Cached, Steady, Flat;
    CachedIsFull(w, files, depth, map[], Fresh(macros), Flat(items));
    FullIsRun(w, files, depth + 1, Fresh(macros), Flat(items));
    RunsGroups(Deep(w, files, depth + 1), Fresh(macros), items);
  }

  // ----- and only for such files -----

  /** The two readings agree. */
  predicate Agree(w: World, files: Files, depth: nat, macros: Macros, lines: seq<Line>) {
    var full := Full(w, files, depth, Fresh(macros), lines);
    full.Some? ==>
      var cached := Cached(w, files, depth, map[], Fresh(macros), lines);
      cached.Some? && cached.value.st == full.value
  }

  /** The file `f` with the text `lines`, among files that are not late. */
  ghost predicate Among(files: Files, f: nat, lines: seq<Line>) {
    f in files && files[f] == lines && forall g :: g in files && g != f ==> NeverLate(files[g])
  }

  /** Above every file the lines include. */
  function Above(lines: seq<Line>): (n: nat)
    ensures Below(lines, n)
  {
    if lines == [] then 0
    else
      var n := Above(lines[1..]);
      assert forall i :: 0 < i < |lines| ==> lines[i] == lines[1..][i - 1];
      if lines[0].Include? && lines[0].file >= n then lines[0].file + 1 else n
  }

  /** No condition holds, and every line and every file has one token. */
  const Flood := World((_, _) => false, (_, _) => [0], (_, ms) => ([0], ms))

  function OneLine(n: nat): (files: Files)
    ensures forall g: nat :: (g in files <==> g < n) && (g in files ==> files[g] == [Text(0)])
  {
    if n == 0 then map[] else OneLine(n - 1)[n - 1 := [Text(0)]]
  }

  lemma {:induction false} FullIsFlood(files: Files, n: nat, st: State, lines: seq<Line>)
    requires Below(lines, n) && forall g :: 0 <= g < n ==> g in files && files[g] == [Text(0)]
    ensures Full(Flood, files, 1, st, lines) == Some(Run(Flood, st, lines))
    ensures Cached(Flood, files, 1, map[], st, lines) == Some(Left(Run(Flood, st, lines), map[]))
    decreases |lines|
  {
    if |lines| > 0 {
      hide SkipIf, IfDirective, EndifDirective, NextGroup;
      if lines[0].Include? {
        var g := lines[0].file;
        OneLineReads(files, st.macros, g);
        assert Turn(Flood, st, lines) == At(Join(st, [0], st.macros), lines[1..]);
        FullIsFlood(files, n, Join(st, [0], st.macros), lines[1..]);
      } else {
        hide Turn;
        TurnSame(Flood, Flood, st, lines, n);
        var r := Turn(Flood, st, lines);
        FullIsFlood(files, n, r.st, r.rest);
      }
    }
  }

  lemma OneLineReads(files: Files, macros: Macros, g: nat)
    requires g in files && files[g] == [Text(0)]
    ensures var one := Fresh(macros).(out := [0], atStart := false);
      && Full(Flood, files, 0, Fresh(macros), files[g]) == Some(one)
      && Cached(Flood, files, 0, map[], Fresh(macros), files[g]) == Some(Left(one, map[]))
  {
    var r := Turn(Flood, Fresh(macros), [Text(0)]);
    assert r == At(Fresh(macros).(out := [0], atStart := false), []);
  }

  lemma OneLineNeverLate()
    ensures NeverLate([Text(0)])
  {
    forall w: World, macros: Macros
      ensures CleanOnly(Run(w, Fresh(macros), [Text(0)]))
    {
      var r := Turn(w, Fresh(macros), [Text(0)]);
      assert Run(w, Fresh(macros), [Text(0)]) == r.st;
    }
  }

  /** A file that is late, included twice among files of one line each: the second
      time its own inclusions are lost. */
  lemma LateLoses(items: Items, f: nat, files: Files)
    requires WellFormed(items) && Guard(items, true, true).Some? && !Guard(items, true, true).value.clean
    requires f == Above(Flat(items)) && files == OneLine(f)[f := Flat(items)]
    ensures !Agree(Flood, files, 2, map[], [Include(f), Include(f)])
  {
    hide Run, Turn, Read, Flat, HasInclude, Guard, Above;
    var text, none: Macros := Flat(items), map[];
    FullIsFlood(files, f, Fresh(none), text);
    RecordsGuard(Flood, none, items);
    GuardClean(items, true, true);
    ReadsOut(Flood, none, items);
    var x := Run(Flood, Fresh(none), text);
    FullIsFlood(files, f, Fresh(x.macros), text);
    ReadsOut(Flood, x.macros, items);
    var y := Run(Flood, Fresh(x.macros), text);
    var main := [Include(f), Include(f)];
    assert main[1..] == [Include(f)] && [Include(f)][1..] == [];
    var st1 := Join(Fresh(none), x.out, x.macros);
    var st2 := Join(st1, y.out, y.macros);
    assert Full(Flood, files, 2, st1, [Include(f)]) == Full(Flood, files, 2, st2, []) == Some(st2);
    assert Full(Flood, files, 2, Fresh(none), main) == Some(st2);
    var controls := Record(map[], f, x);
    var st3 := Join(st1, [], st1.macros);
    assert Cached(Flood, files, 2, controls, st1, [Include(f)])
        == Cached(Flood, files, 2, controls, st3, []) == Some(Left(st3, controls));
    assert Cached(Flood, files, 2, map[], Fresh(none), main) == Some(Left(st3, controls));
    assert |st2.out| > |st3.out|;
  }

  /** One cache for every depth of inclusion is right exactly for the files whose
      recorded expression is always clean: with any other file in their place,
      some set of files is read differently. */
  lemma SharedCacheExactly(items: Items)
    requires WellFormed(items)
    ensures (Guard(items, true, true).Some? ==> Guard(items, true, true).value.clean) <==>
      forall w: World, files: Files, f: nat, depth: nat, macros: Macros, lines: seq<Line> ::
        Among(files, f, Flat(items)) ==> Agree(w, files, depth, macros, lines)
  {
    hide Run, Read, Flat, Full, Cached, NeverLate, Guard, Agree, Fresh;
    NeverLateExactly(items);
    if NeverLate(Flat(items)) {
      forall w: World, files: Files, f: nat, depth: nat, macros: Macros, lines: seq<Line>
        | Among(files, f, Flat(items))
        ensures Agree(w, files, depth, macros, lines)
      {
        SteadyAgrees(w, files, depth, macros, lines);
      }
    } else {
      var f := Above(Flat(items));
      var files := OneLine(f)[f := Flat(items)];
      OneLineNeverLate();
      LateLoses(items, f, files);
      assert Among(files, f, Flat(items));
    }
  }

  lemma SteadyAgrees(w: World, files: Files, depth: nat, macros: Macros, lines: seq<Line>)
    requires Steady(files)
    ensures Agree(w, files, depth, macros, lines)
  {
    hide Full, Cached, Steady;
    if Full(w, files, depth, Fresh(macros), lines).Some? {
      FullIsCached(w, files, depth, map[], Fresh(macros), lines);
      CachedIsFull(w, files, depth, map[], Fresh(macros), lines);
      FullDeeper(w, files, depth, Fresh(macros), lines);
    }
  }
}
