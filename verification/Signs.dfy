/** Which texts the tokenizer stores without a branch the wrong way: an offset of
    more than 32767 bytes keeps its low 16 bits only, whose sign may differ. */
module Signs {
  import opened Options
  import opened Forth
  import opened Threaded
  import opened Patching
  import opened Loading

  /** An offset that stays positive in 16 bits. */
  predicate Positive16(n: nat) {
    n % 0x1_0000 <= FORWARD
  }

  /** How far behind the end of a text the offset of the pending branch is, if it
      was d bytes behind its start. */
  function Reach(fr: Frag, d: nat): nat {
    match fr
    case Cat(a, b) => Reach(b, Reach(a, d))
    case IfThen(t) => if EndsFake(t) then Reach(t, 2) + 1 else d + Bytes(Tok, fr)
    case IfElse(_, e) => if EndsFake(e) then Reach(e, 3) + 1 else d + Bytes(Tok, fr)
    case _ => d + Bytes(Tok, fr)
  }

  /** Every forward offset stored for the text stays positive, that of the branch
      pending around it included if a `then` closes it. */
  predicate Signed(fr: Frag, d: nat) {
    match fr
    case Cat(a, b) => Signed(a, d) && Signed(b, Reach(a, d))
    case IfThen(t) =>
      Signed(t, 2) && Positive16(if EndsFake(t) then d + Bytes(Tok, fr) else Reach(t, 2) + 1)
    case IfElse(t, e) =>
      Signed(t, 2) && Positive16(Reach(t, 2) + 4) && Signed(e, 3)
      && Positive16(if EndsFake(e) then d + Bytes(Tok, fr) else Reach(e, 3) + 1)
    case Loop(test, body) => Signed(test, 0) && Signed(body, 2) && Positive16(Reach(body, 2) + 4)
    case _ => true
  }

  lemma {:induction false} ReachPlain(fr: Frag, d: nat)
    requires !Spoils(fr)
    ensures Reach(fr, d) == d + Bytes(Tok, fr)
  {
    if fr.Cat? {
      ReachPlain(fr.a, d);
      ReachPlain(fr.b, d + Bytes(Tok, fr.a));
    }
  }

  /** Clean text has no long branch at all. */
  lemma {:induction false} CleanSigned(fr: Frag, d: nat)
    requires Clean(Tok, fr)
    ensures Signed(fr, d)
  {
    hide Bytes;
    match fr
    case Cat(a, b) => CleanSigned(a, d); CleanSigned(b, Reach(a, d));
    case IfThen(t) => CleanSigned(t, 2); CleanIs(Tok, t, true); ReachPlain(t, 2);
    case IfElse(t, e) =>
      CleanSigned(t, 2);
      CleanSigned(e, 3);
      CleanIs(Tok, t, true);
      CleanIs(Tok, e, true);
      ReachPlain(t, 2);
      ReachPlain(e, 3);
    case Loop(test, body) =>
      CleanSigned(test, 0);
      CleanSigned(body, 2);
      CleanIs(Tok, body, true);
      ReachPlain(body, 2);
    case _ =>
  }

  // ----- the tokenizer -----

  /** The branch pending on top has not been patched, its offset d bytes back. */
  ghost predicate Head(c: Compiling, d: nat) {
    c.ctl != [] && c.ctl[0].Orig? ==> Unpatched(c, c.ctl[0]) && c.fbrk == c.ctl[0].brk + d
  }

  ghost predicate Unpatched(c: Compiling, e: Ctl) {
    e.at < |c.code| && (c.code[e.at].IBranch? || c.code[e.at].IZBranch?)
  }

  ghost predicate Signing(fr: Frag, c: Compiling, c': Compiling, d: nat) {
    Head(c', Reach(fr, d)) && (Sound(c'.code) <==> Sound(c.code) && Signed(fr, d))
  }

  lemma SoundLay(code: seq<Instr>, i: Instr)
    ensures Sound(code + [i]) <==> Sound(code) && RightWay(i)
  {
    if Sound(code + [i]) {
      assert forall j :: 0 <= j < |code| ==> code[j] == (code + [i])[j];
      assert (code + [i])[|code|] == i;
    }
  }

  lemma SoundPatch(c: Compiling, e: Ctl)
    requires e.Orig? && Unpatched(c, e) && c.fbrk >= e.brk
    ensures Sound(Patch(c, e).code) <==> Sound(c.code) && Positive16(c.fbrk - e.brk)
  {
    var code, p := Patch(c, e).code, Patched(c.code[e.at], e, |c.code|, c.fbrk);
    assert RightWay(p) <==> Positive16(c.fbrk - e.brk);
    assert RightWay(c.code[e.at]);
    assert code[e.at] == p;
    if Sound(code) {
      assert forall j :: 0 <= j < |c.code| && j != e.at ==> c.code[j] == code[j];
    }
  }

  /** From any point, under any pending branch. */
  lemma {:induction false} Signs(fr: Frag, c: Compiling, d: nat)
    requires Conditioned(fr) && Pending(c) && Head(c, d) && (Spoils(fr) ==> c.ctl != [] && c.ctl[0].Orig?)
    ensures var r := CompileText(Tok, c, Flat(fr)); r.Some? ==> Signing(fr, c, r.value, d)
    decreases fr, 1
  {
    hide Signing;
    match fr
    case Skip => SkipSigns(c, d);
    case W(w) => WordSigns(w, c, d);
    case Cat(a, b) => CatSigns(a, b, c, d);
    case IfThen(t) => IfThenSigns(t, c, d);
    case IfElse(t, e) => IfElseSigns(t, e, c, d);
    case Loop(test, body) => LoopSigns(test, body, c, d);
  }

  lemma SkipSigns(c: Compiling, d: nat)
    requires Head(c, d)
    ensures var r := CompileText(Tok, c, Flat(Skip)); r == Some(c) && Signing(Skip, c, c, d)
  {
  }

  lemma WordSigns(w: Word, c: Compiling, d: nat)
    requires Head(c, d)
    ensures var r := CompileText(Tok, c, Flat(W(w))); r.Some? && Signing(W(w), c, r.value, d)
  {
    hide CompileText, Size, Sound;
    CompileLast(Tok, c, [], T(w));
    assert [] + [T(w)] == [T(w)];
    CompileNone(Tok, Some(c));
    SoundLay(c.code, IWord(w));
  }

  lemma {:induction false} CatSigns(a: Frag, b: Frag, c: Compiling, d: nat)
    requires Conditioned(Cat(a, b)) && Pending(c) && Head(c, d)
    requires Spoils(Cat(a, b)) ==> c.ctl != [] && c.ctl[0].Orig?
    ensures var r := CompileText(Tok, c, Flat(Cat(a, b))); r.Some? ==> Signing(Cat(a, b), c, r.value, d)
    decreases Cat(a, b), 0
  {
    hide CompileText, Sound;
    CompileConcat(Tok, c, Flat(a), Flat(b));
    Compiles(Tok, a, c);
    Signs(a, c, d);
    var r := CompileText(Tok, c, Flat(a));
    if r.Some? {
      StillPending(Tok, a, c, r.value);
      TopStays(a, c, r.value);
      Signs(b, r.value, Reach(a, d));
    }
  }

  lemma TopStays(fr: Frag, c: Compiling, c': Compiling)
    requires Grown(Tok, fr, c, c')
    ensures c.ctl != [] && c.ctl[0].Orig? ==> c'.ctl != [] && c'.ctl[0].Orig?
  {
    hide Gen, Clean, Spoils, EndsFake, Len, Bytes, Closes, Short;
  }

  /** Closing the structure opened after c, or the one around it. */
  lemma CloseSigns(c: Compiling, c': Compiling, r: nat, d: nat, fake: bool)
    requires Inside(c, c') && Head(c', r) && Head(c, d) && Pending(c)
    requires fake ==> c.ctl != [] && c.ctl[0].Orig?
    requires c'.fbrk >= c.fbrk
    ensures var c2 := Close(Tok, c', fake);
      Head(c2, if fake then r + 1 else d + (c2.fbrk - c.fbrk)) && c2.fbrk == c'.fbrk + 1
      && (Sound(c2.code) <==> Sound(c'.code) && Positive16(if fake then d + (c2.fbrk - c.fbrk) else r + 1))
  {
    hide Sound, Patched;
    var e := if fake then c'.ctl[1] else c'.ctl[0];
    var c1 := Lay(Tok, c', IResolve);
    SoundLay(c'.code, IResolve);
    if c.ctl != [] {
      assert c'.ctl[1] == c.ctl[0];
      assert c'.code[c.ctl[0].at] == c'.code[..|c.code|][c.ctl[0].at];
    }
    SoundPatch(c1, e);
  }

  lemma {:induction false} IfThenSigns(t: Frag, c: Compiling, d: nat)
    requires Conditioned(t) && Pending(c) && Head(c, d) && (EndsFake(t) ==> c.ctl != [] && c.ctl[0].Orig?)
    ensures var r := CompileText(Tok, c, Flat(IfThen(t))); r.Some? ==> Signing(IfThen(t), c, r.value, d)
    decreases IfThen(t), 0
  {
    hide CompileText, CompileToken, Grown, Sound, EndsFake, Bytes, Reach, Signed;
    var c1 := Open(Tok, c);
    OpenInside(Tok, c);
    Compiles(Tok, t, c1);
    var r := CompileText(Tok, c1, Flat(t));
    assert Flat(IfThen(t)) == ([TIf] + Flat(t)) + [TThen];
    CompileLast(Tok, c, [TIf] + Flat(t), TThen);
    CompileFirst(Tok, c, TIf, Flat(t));
    TokenOpens(Tok, c);
    OpenSigns(c);
    if r.Some? {
      Signs(t, c1, 2);
      InsideGrows(Tok, t, c, c1, r.value);
      LastIs(Tok, t, c, r.value);
      ThenCloses(Tok, r.value, EndsFake(t));
      CloseSigns(c, r.value, Reach(t, 2), d, EndsFake(t));
      IfThenSigned(t, d);
    }
  }

  lemma OpenSigns(c: Compiling)
    ensures Head(Open(Tok, c), 2) && (Sound(Open(Tok, c).code) <==> Sound(c.code))
  {
    hide Sound;
    SoundLay(c.code, IZBranch(0));
  }

  lemma {:induction false} IfThenSigned(t: Frag, d: nat)
    ensures Bytes(Tok, IfThen(t)) == 4 + Bytes(Tok, t)
    ensures Reach(IfThen(t), d) == if EndsFake(t) then Reach(t, 2) + 1 else d + Bytes(Tok, IfThen(t))
    ensures Signed(IfThen(t), d)
         == (Signed(t, 2) && Positive16(if EndsFake(t) then d + Bytes(Tok, IfThen(t)) else Reach(t, 2) + 1))
  {
    hide EndsFake, Positive16;
  }

  lemma {:induction false} IfElseSigns(t: Frag, e: Frag, c: Compiling, d: nat)
    requires Conditioned(t) && Conditioned(e) && Pending(c) && Head(c, d)
    requires EndsFake(e) ==> c.ctl != [] && c.ctl[0].Orig?
    ensures var r := CompileText(Tok, c, Flat(IfElse(t, e))); r.Some? ==> Signing(IfElse(t, e), c, r.value, d)
    decreases IfElse(t, e), 0
  {
    hide CompileText, CompileToken, Grown, Sound, EndsFake, Bytes, Flat, Reach, Signed;
    FlatIfElse(t, e);
    CompilesUpToElse(Tok, t, c);
    CompileLast(Tok, c, [TIf] + Flat(t) + [TElse] + Flat(e), TThen);
    CompileConcat(Tok, c, [TIf] + Flat(t) + [TElse], Flat(e));
    var r := CompileText(Tok, c, [TIf] + Flat(t) + [TElse]);
    OpenSigns(c);
    if r.Some? {
      var c2 := CompileText(Tok, Open(Tok, c), Flat(t)).value;
      Signs(t, Open(Tok, c), 2);
      ElseSigns(c, c2, Reach(t, 2));
      LastIs(Tok, t, c, c2);
      ElseArmSigns(t, e, c, c2, d);
    }
  }

  /** From `else` to `then`. */
  lemma {:induction false} ElseArmSigns(t: Frag, e: Frag, c: Compiling, c2: Compiling, d: nat)
    requires Conditioned(e) && Pending(c) && Head(c, d) && (EndsFake(e) ==> c.ctl != [] && c.ctl[0].Orig?)
    requires Inside(c, c2) && Inside(c, Elsed(Tok, c2)) && Pending(Elsed(Tok, c2)) && Head(Elsed(Tok, c2), 3)
    requires c2.fbrk == c.fbrk + Opening(Tok) + Bytes(Tok, t)
    requires Sound(Elsed(Tok, c2).code) <==> Sound(c.code) && Signed(t, 2) && Positive16(Reach(t, 2) + 4)
    ensures var r4 := CompileText(Tok, Elsed(Tok, c2), Flat(e));
      var r := After(Tok, r4, TThen);
      r.Some? ==> Signing(IfElse(t, e), c, r.value, d)
    decreases e, 2
  {
    hide CompileText, CompileToken, Grown, Sound, EndsFake, Bytes, Flat, Reach, Signed;
    var c3 := Elsed(Tok, c2);
    Compiles(Tok, e, c3);
    Signs(e, c3, 3);
    var r4 := CompileText(Tok, c3, Flat(e));
    if r4.Some? {
      InsideGrows(Tok, e, c, c3, r4.value);
      LastSinceElse(Tok, e, c2, r4.value);
      ThenCloses(Tok, r4.value, EndsFake(e));
      CloseSigns(c, r4.value, Reach(e, 3), d, EndsFake(e));
      IfElseSigned(t, e, d);
    }
  }

  lemma ElseSigns(c: Compiling, c2: Compiling, r: nat)
    requires Inside(c, c2) && Head(c2, r)
    ensures Head(Elsed(Tok, c2), 3)
    ensures Sound(Elsed(Tok, c2).code) <==> Sound(c2.code) && Positive16(r + 4)
  {
    hide Sound, Patched;
    var c1 := Lay(Tok, Lay(Tok, c2, IBranch(0)), IResolve);
    SoundLay(c2.code, IBranch(0));
    SoundLay(c2.code + [IBranch(0)], IResolve);
    SoundPatch(c1, c2.ctl[0]);
  }

  lemma {:induction false} IfElseSigned(t: Frag, e: Frag, d: nat)
    ensures Bytes(Tok, IfElse(t, e)) == 8 + Bytes(Tok, t) + Bytes(Tok, e)
    ensures Reach(IfElse(t, e), d) == if EndsFake(e) then Reach(e, 3) + 1 else d + Bytes(Tok, IfElse(t, e))
    ensures Signed(IfElse(t, e), d)
         == (Signed(t, 2) && Positive16(Reach(t, 2) + 4) && Signed(e, 3)
             && Positive16(if EndsFake(e) then d + Bytes(Tok, IfElse(t, e)) else Reach(e, 3) + 1))
  {
    hide EndsFake, Positive16;
  }

  lemma {:induction false} LoopSigns(test: Frag, body: Frag, c: Compiling, d: nat)
    requires Conditioned(test) && Conditioned(body) && Pending(c) && Head(c, d)
    ensures var r := CompileText(Tok, c, Flat(Loop(test, body))); r.Some? ==> Signing(Loop(test, body), c, r.value, d)
    decreases Loop(test, body), 0
  {
    hide CompileText, CompileToken, Grown, Sound, EndsFake, Bytes, Flat, Reach, Signed, Begun;
    FlatLoop(test, body);
    var ts := [TBegin] + Flat(test) + [TWhile] + Flat(body);
    CompilesUpToRepeat(Tok, test, body, c);
    CompileLast(Tok, c, ts, TRepeat);
    var r := CompileText(Tok, c, ts);
    if r.Some? {
      var c2 := CompileText(Tok, Begun(Tok, c), Flat(test)).value;
      RepeatIs(Tok, test, body, c, c2, r.value);
      if !Spoils(test) && BackBytes(Tok, test, body) <= BACKWARD {
        BegunSigns(c);
        Signs(test, Begun(Tok, c), 0);
        OpenSigns(c2);
        Signs(body, Open(Tok, c2), 2);
        LoopBody(test, body, c, c2, r.value);
        LoopSizes(Tok, test, body, c, c2, r.value);
        LoopKeeps(test, body, c, c2, r.value);
        RepeatSigns(c, c2, r.value, Reach(body, 2), d);
        LoopSigned(test, body, d);
      }
    }
  }

  lemma BegunSigns(c: Compiling)
    ensures Head(Begun(Tok, c), 0) && Pending(Begun(Tok, c)) && (Sound(Begun(Tok, c).code) <==> Sound(c.code))
  {
    hide Sound;
    SoundLay(c.code, IMark);
  }

  /** The body is tokenized from where `while` leaves the tokenizer. */
  lemma {:induction false} LoopBody(test: Frag, body: Frag, c: Compiling, c2: Compiling, c4: Compiling)
    requires CompileText(Tok, Begun(Tok, c), Flat(test)) == Some(c2)
    requires CompileText(Tok, c, [TBegin] + Flat(test) + [TWhile] + Flat(body)) == Some(c4)
    ensures CompileText(Tok, Open(Tok, c2), Flat(body)) == Some(c4)
  {
    hide CompileText, CompileToken, Begun, Open;
    CompileConcat(Tok, c, [TBegin] + Flat(test) + [TWhile], Flat(body));
    CompileLast(Tok, c, [TBegin] + Flat(test), TWhile);
    CompileFirst(Tok, c, TBegin, Flat(test));
    TokenOpens(Tok, c);
    TokenOpens(Tok, c2);
  }

  lemma LoopKeeps(test: Frag, body: Frag, c: Compiling, c2: Compiling, c4: Compiling)
    requires Grown(Tok, test, Begun(Tok, c), c2) && !Spoils(test) && Inside(c2, c4)
    ensures |c2.code| >= |c.code| && c4.code[..|c.code|] == c.code
  {
    hide Gen, Clean, EndsFake, Len, Bytes, Spoils, Sized;
    PlainMark(Tok, test, c, c2);
    assert c4.code[..|c.code|] == c4.code[..|c2.code|][..|c.code|];
  }

  lemma RepeatSigns(c: Compiling, c2: Compiling, c4: Compiling, r: nat, d: nat)
    requires Inside(c2, c4) && Head(c4, r) && Head(c, d) && Pending(c) && |c4.ctl| >= 2 && c4.ctl[2..] == c.ctl
    requires |c2.code| >= |c.code| && c4.code[..|c.code|] == c.code && c4.fbrk >= c.fbrk
    ensures var c5 := Repeated(Tok, c4);
      Head(c5, d + (c5.fbrk - c.fbrk)) && c5.fbrk == c4.fbrk + 4
      && (Sound(c5.code) <==> Sound(c4.code) && Positive16(r + 4))
  {
    hide Sound, Patched;
    var back := IBack(c4.ctl[1].at + 1);
    SoundLay(c4.code, back);
    SoundLay(c4.code + [back], IResolve);
    SoundPatch(Lay(Tok, Lay(Tok, c4, back), IResolve), c4.ctl[0]);
    if c.ctl != [] {
      assert c4.code[c.ctl[0].at] == c4.code[..|c.code|][c.ctl[0].at];
    }
  }

  lemma {:induction false} LoopSigned(test: Frag, body: Frag, d: nat)
    ensures Bytes(Tok, Loop(test, body)) == 8 + Bytes(Tok, test) + Bytes(Tok, body)
    ensures Reach(Loop(test, body), d) == d + Bytes(Tok, Loop(test, body))
    ensures Signed(Loop(test, body), d) == (Signed(test, 0) && Signed(body, 2) && Positive16(Reach(body, 2) + 4))
  {
  }
}
