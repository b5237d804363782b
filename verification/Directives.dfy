/** The directives of conditional inclusion as they run: one open file, whose
    cursor, level counter and marks each directive moves in place, and the cache
    of controlling expressions kept over all files. Every method does what the
    function of the same name in `CondInclude` says. */
module Directives {
  import opened Options
  import opened CondInclude
  import opened Inclusion
  import C = CondInclude
  import I = Inclusion

  lemma SkipStep(w: World, st: State, l: Line, rest: seq<Line>, count: nat, stop: bool)
    ensures var stops := stop && count == st.ifcount;
      var mark := C.MarkElse(st, count);
      var check := if SeenElse(st, count) then Error(st) else st;
      C.SkipIf(w, st, [l] + rest, count, stop) ==
        if l.If? then C.SkipIf(w, st.(seenElse := st.seenElse[count + 1 := false]), rest, count + 1, stop)
        else if l.Else? && stops then At(C.DropControl(mark), rest)
        else if l.Else? then C.SkipIf(w, mark, rest, count, stop)
        else if l.Elif? && stops then
          var st' := C.DropControl(check);
          C.IfDirective(w, st'.(ifcount := if st'.ifcount > 0 then st'.ifcount - 1 else 0, atStart := false), l.c, rest)
        else if l.Elif? then C.SkipIf(w, check, rest, count, stop)
        else if l.Endif? && count == st.ifcount then At(C.EndifDirective(st, rest), rest)
        else C.SkipIf(w, st, rest, if l.Endif? && count > 0 then count - 1 else count, stop)
  {
    hide C.IfDirective, C.EndifDirective;
    Rest(l, rest);
  }

  class Cpp {
    const w: World
    const lines: seq<Line>
    var pos: nat
    var out: seq<nat>
    var macros: Macros
    var tested: seq<(Cond, Macros)>
    var ifcount: nat
    var seenElse: map<nat, bool>
    var control: Option<Control>
    var recorded: Option<Control>
    var atStart: bool
    var included: bool
    var errors: nat

    ghost function Now(): State
      reads this
    {
      State(out, macros, tested, ifcount, seenElse, control, recorded, atStart, included, errors)
    }

    ghost function Here(): At
      requires pos <= |lines|
      reads this
    {
      At(Now(), lines[pos..])
    }

    /** Open a file. */
    constructor (w: World, lines: seq<Line>, macros: Macros)
      ensures this.w == w && this.lines == lines && pos == 0 && Now() == Fresh(macros)
    {
      this.w, this.lines, this.macros := w, lines, macros;
      pos, out, tested, ifcount, seenElse := 0, [], [], 0, map[0 := false];
      control, recorded, atStart, included, errors := None, None, true, false, 0;
    }

    method TestIfExpr(c: Cond) returns (value: bool)
      modifies this`tested
      ensures value == w.test(c, macros) && tested == old(tested) + [(c, macros)]
    {
      tested := tested + [(c, macros)];
      value := w.test(c, macros);
    }

    method MarkElse(level: nat)
      modifies this`errors, this`seenElse
      ensures Now() == C.MarkElse(old(Now()), level)
    {
      if level in seenElse && seenElse[level] {
        errors := errors + 1;
      } else {
        seenElse := seenElse[level := true];
      }
    }

    method CheckElif(level: nat)
      modifies this`errors
      ensures Now() == if SeenElse(old(Now()), level) then Error(old(Now())) else old(Now())
    {
      if level in seenElse && seenElse[level] {
        errors := errors + 1;
      }
    }

    method DropControl()
      modifies this`control
      ensures Now() == C.DropControl(old(Now()))
    {
      if ifcount == 1 {
        control := None;
      }
    }

    method IfDirective(c: Cond)
      requires pos <= |lines|
      modifies this
      ensures pos <= |lines| && pos >= old(pos)
      ensures Here() == C.IfDirective(w, old(Now()), c, lines[old(pos)..])
      decreases |lines| - pos, 1
    {
      var docontrol := control.None? && ifcount == 0 && atStart;
      ifcount := ifcount + 1;
      seenElse := seenElse[ifcount := false];
      atStart := false;
      if docontrol {
        control := Some(Control(c, !included));
      } else if ifcount == 1 {
        control := None;
      }
      var value := TestIfExpr(c);
      if !value {
        SkipIf(true);
      }
    }

    /** The `#elif` of the section being skipped: try it in place of its `#if`. */
    method TryElif(c: Cond)
      requires pos <= |lines|
      modifies this
      ensures pos <= |lines| && pos >= old(pos)
      ensures var st := C.DropControl(old(Now()));
        Here() == C.IfDirective(w, st.(ifcount := if st.ifcount > 0 then st.ifcount - 1 else 0, atStart := false), c,
                                lines[old(pos)..])
      decreases |lines| - pos, 2
    {
      hide C.IfDirective;
      DropControl();
      ifcount := if ifcount > 0 then ifcount - 1 else 0;
      atStart := false;
      IfDirective(c);
    }

    /** Skip raw lines, counting levels, to where the section goes on. */
    method SkipIf(stopAtElse: bool)
      requires pos <= |lines|
      modifies this
      ensures pos <= |lines| && pos >= old(pos)
      ensures Here() == C.SkipIf(w, old(Now()), lines[old(pos)..], old(ifcount), stopAtElse)
      decreases |lines| - pos, 0
    {
      hide C.IfDirective, C.EndifDirective, C.MarkElse, C.DropControl, SeenElse;
      var count := ifcount;
      while pos < |lines|
        invariant old(pos) <= pos <= |lines| && ifcount == old(ifcount)
        invariant C.SkipIf(w, Now(), lines[pos..], count, stopAtElse)
               == C.SkipIf(w, old(Now()), lines[old(pos)..], old(ifcount), stopAtElse)
        decreases |lines| - pos
      {
        var l := lines[pos];
        assert lines[pos..] == [l] + lines[pos + 1..];
        SkipStep(w, Now(), l, lines[pos + 1..], count, stopAtElse);
        hide C.SkipIf;
        pos := pos + 1;
        if l.If? {
          count := count + 1;
          seenElse := seenElse[count := false];
        } else if l.Else? {
          MarkElse(count);
          if stopAtElse && count == ifcount {
            DropControl();
            return;
          }
        } else if l.Elif? {
          CheckElif(count);
          if stopAtElse && count == ifcount {
            TryElif(l.c);
            return;
          }
        } else if l.Endif? {
          if count == ifcount {
            EndifDirective();
            return;
          }
          count := if count > 0 then count - 1 else 0;
        }
      }
      if count != ifcount {
        errors := errors + 1;
      }
    }

    method ElifDirective()
      requires pos <= |lines|
      modifies this
      ensures pos <= |lines| && pos >= old(pos)
      ensures Here() == NextGroup(w, old(Now()), false, lines[old(pos)..])
    {
      CheckElif(ifcount);
      DropControl();
      atStart := false;
      if ifcount == 0 {
        errors := errors + 1;
      } else {
        SkipIf(false);
      }
    }

    method ElseDirective()
      requires pos <= |lines|
      modifies this
      ensures pos <= |lines| && pos >= old(pos)
      ensures Here() == NextGroup(w, old(Now()), true, lines[old(pos)..])
    {
      MarkElse(ifcount);
      DropControl();
      atStart := false;
      if ifcount == 0 {
        errors := errors + 1;
      } else {
        SkipIf(false);
      }
    }

    method EndifDirective()
      requires pos <= |lines|
      modifies this
      ensures pos == old(pos) && Now() == C.EndifDirective(old(Now()), lines[pos..])
    {
      if ifcount == 0 {
        errors := errors + 1;
      } else {
        ifcount := ifcount - 1;
      }
      atStart := false;
      if control.None? || ifcount > 0 {
        return;
      }
      var p := pos;
      while p < |lines| && lines[p].Blank?
        invariant pos <= p <= |lines|
        invariant forall i :: pos <= i < p ==> lines[i].Blank?
      {
        p := p + 1;
      }
      assert forall i :: 0 <= i < |lines[pos..]| ==> lines[pos..][i] == lines[pos + i];
      assert p == |lines| <==> AllBlank(lines[pos..]) by {
        if p < |lines| { assert !lines[pos..][p - pos].Blank?; }
      }
      if p == |lines| {
        recorded := control;
      }
      control := None;
    }

    /** One line that is neither blank nor a conditional directive nor an inclusion. */
    method Read(l: Line)
      requires l.Text? || l.Define? || l.Undef?
      modifies this`out, this`macros, this`atStart
      ensures Now() == Plain(w, old(Now()), l)
    {
      atStart := false;
      match l
      case Text(t) => out := out + w.expand(t, macros);
      case Define(n, b) => macros := macros[n := b];
      case Undef(n) => macros := macros - {n};
    }

    /** Go on after an inclusion. */
    method Join(tokens: seq<nat>, after: Macros)
      modifies this`out, this`macros, this`atStart, this`included
      ensures Now() == I.Join(old(Now()), tokens, after)
    {
      out, macros, atStart, included := out + tokens, after, true, true;
    }

    /** One line, and what it skips. */
    method Turn()
      requires pos < |lines| && !lines[pos].Include?
      modifies this
      ensures old(pos) < pos <= |lines| && Here() == C.Turn(w, old(Now()), lines[old(pos)..])
    {
      hide C.IfDirective, C.SkipIf, C.EndifDirective, C.NextGroup;
      var l := lines[pos];
      assert lines[pos..][1..] == lines[pos + 1..];
      pos := pos + 1;
      if l.If? {
        IfDirective(l.c);
      } else if l.Elif? {
        ElifDirective();
      } else if l.Else? {
        ElseDirective();
      } else if l.Endif? {
        EndifDirective();
      } else if !l.Blank? {
        Read(l);
      }
    }
  }

  class Includer {
    const w: World
    const files: Files
    var controls: Controls

    constructor (w: World, files: Files)
      ensures this.w == w && this.files == files && controls == map[]
    {
      this.w, this.files, controls := w, files, map[];
    }

    /** Is the file wrapped by an expression that is false this time? If so, and
        the cache is sound, all that reading it would do is to find that out. */
    method CheckControl(f: nat, macros: Macros) returns (skip: bool)
      ensures skip == (f in controls && !w.test(controls[f].c, macros))
      ensures skip && Sound(files, controls) ==>
        f in files && Seen(Run(w, Fresh(macros), files[f])) == View([], macros, [(controls[f].c, macros)])
    {
      hide Run;
      skip := f in controls && !w.test(controls[f].c, macros);
      if skip && Sound(files, controls) {
        GuardedShowsNothing(w, Fresh(macros), files[f], controls[f].c);
      }
    }

    /** Read what is left of an open file, and the files it includes. */
    method ReadFile(file: Cpp, depth: nat) returns (ok: bool)
      requires file.w == w && file.pos <= |file.lines|
      modifies this, file
      ensures var r := Cached(w, files, depth, old(controls), old(file.Now()), file.lines[old(file.pos)..]);
        ok == r.Some? && (ok ==> r.value == I.Left(file.Now(), controls))
      decreases depth
    {
      hide C.Turn, C.Run, I.Full, Sound, Fresh, I.Join, AllBlank, C.Guarded;
      ok := true;
      while file.pos < |file.lines|
        invariant file.pos <= |file.lines|
        invariant Cached(w, files, depth, controls, file.Now(), file.lines[file.pos..])
               == Cached(w, files, depth, old(controls), old(file.Now()), file.lines[old(file.pos)..])
        decreases |file.lines| - file.pos
      {
        var l := file.lines[file.pos];
        if !l.Include? {
          file.Turn();
        } else {
          assert file.lines[file.pos..][1..] == file.lines[file.pos + 1..];
          file.pos := file.pos + 1;
          var skip := CheckControl(l.file, file.macros);
          if skip || l.file !in files {
            file.Join([], file.macros);
          } else if depth == 0 {
            return false;
          } else {
            var inner := new Cpp(w, files[l.file], file.macros);
            assert inner.lines[inner.pos..] == files[l.file];
            ok := ReadFile(inner, depth - 1);
            if !ok { return; }
            if inner.recorded.Some? {
              controls := controls[l.file := inner.recorded.value];
            }
            file.Join(inner.out, inner.macros);
          }
        }
      }
    }

    /** Open a file and read it with all it includes: if no more than `depth` files
        are open inside it, the tokens and the macros are those of a reading that
        opens every file, and the cache stays sound for the next one. */
    method Open(f: nat, macros: Macros, depth: nat) returns (r: Option<(seq<nat>, Macros)>)
      requires f in files && Steady(files) && Sound(files, controls)
      modifies this
      ensures r.Some? ==> Sound(files, controls) && Full(w, files, depth + 1, Fresh(macros), files[f]).Some?
      ensures r.Some? ==>
        var st := Full(w, files, depth + 1, Fresh(macros), files[f]).value; r.value == (st.out, st.macros)
      ensures Full(w, files, depth, Fresh(macros), files[f]).Some? ==> r.Some?
    {
      hide Full, Cached, NeverLate, Guarded;
      var skip := CheckControl(f, macros);
      if skip {
        FullGuarded(w, files, depth + 1, Fresh(macros), files[f], controls[f].c);
        return Some(([], macros));
      }
      ghost var before := controls;
      var file := new Cpp(w, files[f], macros);
      assert file.lines[file.pos..] == files[f];
      var ok := ReadFile(file, depth);
      if Full(w, files, depth, Fresh(macros), files[f]).Some? {
        FullIsCached(w, files, depth, before, Fresh(macros), files[f]);
      }
      if !ok { return None; }
      CachedIsFull(w, files, depth, before, Fresh(macros), files[f]);
      RecordSound(w, files, depth + 1, controls, f, macros);
      if file.recorded.Some? {
        controls := controls[f := file.recorded.value];
      }
      r := Some((file.out, file.macros));
    }
  }
}
