/** A printed definition all the way: read word by word, tokenized and loaded. */
module Printed {
  import opened Options
  import opened CTree
  import opened Forth
  import opened Threaded
  import opened Loading
  import opened Reading
  import Signs
  import Stages

  /** The code the engine ends up with for a printed text. */
  function Through(voc: Vocabulary, nm: Names, dict: seq<Entry>, ts: seq<Token>): Option<seq<Instr>> {
    var read := ReadAll(voc, nm, dict, ts);
    if read.Some? then Engine(read.value) else None
  }

  // ----- own code comes from text read as it was printed -----

  /** A word of the engine is read as itself or as a name of the program; any
      other as one token. */
  lemma ReadShape(voc: Vocabulary, nm: Names, dict: seq<Entry>, t: Token)
    requires Standard(voc) && OfProgram(dict) && Read(voc, nm, dict, t).Some?
    ensures var r := Read(voc, nm, dict, t).value;
      r == [t] || (Built(t) && r != [] && r[0].T? && Defined(r[0].w)) || (!Built(t) && |r| == 1)
  {
    hide Find, ParseNumber, Spell, Coded;
    FoundDefined(dict, Spell(nm, t));
    if Built(t) { PrintedKnown(voc, nm, t); }
  }

  lemma FirstKind(t: Token, rest: seq<Token>)
    ensures CodesOf([t] + rest) == Codes(t) + CodesOf(rest)
  {
    assert ([t] + rest)[1..] == rest;
  }

  /** If the first instruction a printed token should make stands where it
      should, the token has been read as printed. */
  lemma FirstRead(voc: Vocabulary, nm: Names, dict: seq<Entry>, t: Token, r: seq<Token>)
    requires Standard(voc) && OfProgram(dict) && Read(voc, nm, dict, t) == Some(r)
    requires r != [] && Codes(r[0]) != [] && Codes(t) != []
    requires var k, l := KindOf(Codes(r[0])[0]), KindOf(Codes(t)[0]); k == l || (k == KForward && l == KBack)
    ensures r == [t]
  {
    hide Read, Standard, OfProgram;
    ReadShape(voc, nm, dict, t);
  }

  lemma ReadSome(voc: Vocabulary, nm: Names, dict: seq<Entry>, t: Token)
    ensures Read(voc, nm, dict, t).Some? ==> Read(voc, nm, dict, t).value != []
  {
    hide Find, ParseNumber, Spell;
  }

  lemma {:induction false} ReadBack(voc: Vocabulary, nm: Names, dict: seq<Entry>, ts: seq<Token>)
    requires Standard(voc) && OfProgram(dict)
    requires var r := ReadAll(voc, nm, dict, ts);
      r.Some? && Stages.SameBut(Kinds(CodesOf(r.value)), Kinds(CodesOf(ts)))
    ensures ReadsTrue(voc, nm, dict, ts)
    decreases |ts|
  {
    hide Read, Standard, OfProgram, KindOf, Codes;
    if |ts| > 0 {
      var r, rest := Read(voc, nm, dict, ts[0]).value, ReadAll(voc, nm, dict, ts[1..]).value;
      ReadSome(voc, nm, dict, ts[0]);
      assert r + rest == [r[0]] + (r[1..] + rest);
      FirstKind(r[0], r[1..] + rest);
      CodesSome(r[0]);
      CodesSome(ts[0]);
      assert CodesOf(ts) == Codes(ts[0]) + CodesOf(ts[1..]);
      assert Kinds(CodesOf(r + rest))[0] == KindOf(Codes(r[0])[0]);
      assert Kinds(CodesOf(ts))[0] == KindOf(Codes(ts[0])[0]);
      FirstRead(voc, nm, dict, ts[0], r);
      assert r[1..] + rest == rest;
      DropSame(Codes(ts[0]), CodesOf(rest), CodesOf(ts[1..]));
      ReadBack(voc, nm, dict, ts[1..]);
      forall i | 0 <= i < |ts| ensures ReadTrue(voc, nm, dict, ts[i]) {
        if i > 0 {
          assert ReadTrue(voc, nm, dict, ts[1..][i - 1]);
        }
      }
    }
  }

  lemma CodesSome(t: Token)
    ensures Codes(t) != []
  {
  }

  lemma DropSame(x: seq<Instr>, y: seq<Instr>, z: seq<Instr>)
    requires Stages.SameBut(Kinds(x + y), Kinds(x + z))
    ensures Stages.SameBut(Kinds(y), Kinds(z))
  {
    hide KindOf;
    forall i | 0 <= i < |y|
      ensures Kinds(y)[i] == Kinds(z)[i] || (Kinds(y)[i] == KForward && Kinds(z)[i] == KBack)
    {
      assert Kinds(x + y)[|x| + i] == Kinds(y)[i];
      assert Kinds(x + z)[|x| + i] == Kinds(z)[i];
    }
  }

  /** A printed definition comes out as its own code exactly when every word of it
      is read as printed and it is clean in memory. */
  lemma OwnExactly(voc: Vocabulary, nm: Names, dict: seq<Entry>, fr: Frag)
    requires Standard(voc) && OfProgram(dict)
    ensures Through(voc, nm, dict, Flat(fr) + [TSemi]) == Some(Gen(fr, 0) + [IEnd])
       <==> ReadsTrue(voc, nm, dict, Flat(fr) + [TSemi]) && Clean(Mem, fr)
  {
    hide Engine, Clean, Gen, Flat, Standard, OfProgram, ReadAll, ReadsTrue;
    var ts := Flat(fr) + [TSemi];
    Stages.EngineExactly(fr);
    if Through(voc, nm, dict, ts) == Some(Gen(fr, 0) + [IEnd]) {
      Stages.OwnCodeTells(ReadAll(voc, nm, dict, ts).value, fr);
      ReadBack(voc, nm, dict, ts);
    }
    if ReadsTrue(voc, nm, dict, ts) {
      TrueIsAll(voc, nm, dict, ts);
    }
  }

  // ----- words of the code are words of the text as read -----

  lemma {:induction false} CodesWords(ts: seq<Token>, i: nat)
    requires i < |CodesOf(ts)| && CodesOf(ts)[i].IWord?
    ensures T(CodesOf(ts)[i].w) in ts
  {
    var n := |Codes(ts[0])|;
    if i >= n {
      CodesWords(ts[1..], i - n);
    }
  }

  lemma EngineWords(ts: seq<Token>, i: nat)
    requires Engine(ts).Some? && i < |Engine(ts).value| && Engine(ts).value[i].IWord?
    ensures T(Engine(ts).value[i].w) in ts
  {
    hide CompileText, Load, CodesOf;
    var out, code := Tokenize(ts).value, Engine(ts).value;
    TextKinds(START, ts);
    LoadKinds(START, out);
    assert Like(Kinds(CodesOf(ts))[i], out[i]);
    assert Like(LoadedKinds(out)[i], code[i]);
    CodesWords(ts, i);
  }

  lemma {:induction false} ReadWords(voc: Vocabulary, nm: Names, dict: seq<Entry>, ts: seq<Token>, f: FuncId)
    requires Standard(voc) && ReadAll(voc, nm, dict, ts).Some? && T(Do(f)) in ReadAll(voc, nm, dict, ts).value
    ensures exists i :: 0 <= i < |dict| && dict[i].w == Do(f)
  {
    hide Read, Standard;
    var r, rest := Read(voc, nm, dict, ts[0]).value, ReadAll(voc, nm, dict, ts[1..]).value;
    if T(Do(f)) in r {
      ReadWord(voc, nm, dict, ts[0], f);
    } else {
      ReadWords(voc, nm, dict, ts[1..], f);
    }
  }

  lemma ReadWord(voc: Vocabulary, nm: Names, dict: seq<Entry>, t: Token, f: FuncId)
    requires Standard(voc) && Read(voc, nm, dict, t).Some? && T(Do(f)) in Read(voc, nm, dict, t).value
    ensures exists i :: 0 <= i < |dict| && dict[i].w == Do(f)
  {
    hide Find, ParseNumber, Spell;
    FindIn(dict, Spell(nm, t));
    FindIn(dict, "$frame");
  }

  lemma {:induction false} FindIn(dict: seq<Entry>, s: string)
    ensures Find(dict, s).Some? ==> exists i :: 0 <= i < |dict| && dict[i].w == Find(dict, s).value
  {
    if |dict| > 0 && Lower(dict[|dict| - 1].name) != Lower(s) {
      FindIn(dict[..|dict| - 1], s);
      if Find(dict, s).Some? {
        var i :| 0 <= i < |dict| - 1 && dict[..|dict| - 1][i].w == Find(dict, s).value;
        assert dict[i].w == Find(dict, s).value;
      }
    }
  }

  /** Compiled code calls only functions that were in the dictionary when its
      text was read, itself included. */
  lemma CallsKnown(voc: Vocabulary, nm: Names, dict: seq<Entry>, ts: seq<Token>, i: nat)
    requires Standard(voc) && Through(voc, nm, dict, ts).Some?
    requires var code := Through(voc, nm, dict, ts).value; i < |code| && code[i].IWord? && code[i].w.Do?
    ensures exists j :: 0 <= j < |dict| && dict[j].w == Through(voc, nm, dict, ts).value[i].w
  {
    hide Engine, ReadAll, Standard;
    var read := ReadAll(voc, nm, dict, ts).value;
    EngineWords(read, i);
    ReadWords(voc, nm, dict, ts, Engine(read).value[i].w.f);
  }

  // ----- text whose control words are read as printed -----

  /** No name of the program, and no number, is spelled like a control word or the
      name of the frame pointer. */
  ghost predicate Plainly(voc: Vocabulary, nm: Names, s: string) {
    Lower(s) != Lower("$frame") && (voc(Lower(s)).Own? ==> voc(Lower(s)).t.T? && voc(Lower(s)).t.w != ToFrame)
  }

  ghost predicate Orderly(voc: Vocabulary, nm: Names, dict: seq<Entry>) {
    && (forall w: Word :: (Defined(w) && w != Frame) || w.Lit? ==> Plainly(voc, nm, Spell(nm, T(w))))
    && (forall i :: 0 <= i < |dict| ==> Defined(dict[i].w) && dict[i].name == Spell(nm, T(dict[i].w)))
    && Find(dict, "$frame") == Some(Frame)
  }

  /** The text with its words as they are read; none if one cannot be read. */
  function Reread(voc: Vocabulary, nm: Names, dict: seq<Entry>, fr: Frag): Option<Frag> {
    match fr
    case Skip => Some(Skip)
    case W(w) =>
      var r := Read(voc, nm, dict, T(w));
      if r.Some? && |r.value| == 1 && r.value[0].T? then Some(W(r.value[0].w)) else None
    case Cat(a, b) =>
      var x, y := Reread(voc, nm, dict, a), Reread(voc, nm, dict, b);
      if x.Some? && y.Some? then Some(Cat(x.value, y.value)) else None
    case IfThen(t) =>
      var x := Reread(voc, nm, dict, t);
      if x.Some? then Some(IfThen(x.value)) else None
    case IfElse(t, e) =>
      var x, y := Reread(voc, nm, dict, t), Reread(voc, nm, dict, e);
      if x.Some? && y.Some? then Some(IfElse(x.value, y.value)) else None
    case Loop(test, body) =>
      var x, y := Reread(voc, nm, dict, test), Reread(voc, nm, dict, body);
      if x.Some? && y.Some? then Some(Loop(x.value, y.value)) else None
    case Endless(body) =>
      var x := Reread(voc, nm, dict, body);
      if x.Some? then Some(Endless(x.value)) else None
  }

  lemma {:induction false} RereadConditioned(voc: Vocabulary, nm: Names, dict: seq<Entry>, fr: Frag)
    requires Reread(voc, nm, dict, fr).Some?
    ensures Conditioned(Reread(voc, nm, dict, fr).value) <==> Conditioned(fr)
  {
    hide Read;
    match fr
    case Cat(a, b) => RereadConditioned(voc, nm, dict, a); RereadConditioned(voc, nm, dict, b);
    case IfThen(t) => RereadConditioned(voc, nm, dict, t);
    case IfElse(t, e) => RereadConditioned(voc, nm, dict, t); RereadConditioned(voc, nm, dict, e);
    case Loop(t, b) => RereadConditioned(voc, nm, dict, t); RereadConditioned(voc, nm, dict, b);
    case _ =>
  }

  lemma {:induction false} ReadAllConcat(voc: Vocabulary, nm: Names, dict: seq<Entry>, x: seq<Token>, y: seq<Token>)
    ensures var a, b, c := ReadAll(voc, nm, dict, x), ReadAll(voc, nm, dict, y), ReadAll(voc, nm, dict, x + y);
      c == if a.Some? && b.Some? then Some(a.value + b.value) else None
  {
    hide Read;
    if |x| == 0 {
      assert x + y == y;
      var b := ReadAll(voc, nm, dict, y);
      if b.Some? {
        assert [] + b.value == b.value;
      }
    } else {
      assert (x + y)[1..] == x[1..] + y;
      ReadAllConcat(voc, nm, dict, x[1..], y);
      var r, a, b := Read(voc, nm, dict, x[0]), ReadAll(voc, nm, dict, x[1..]), ReadAll(voc, nm, dict, y);
      if r.Some? && a.Some? && b.Some? {
        assert (r.value + a.value) + b.value == r.value + (a.value + b.value);
      }
    }
  }

  lemma {:induction false} FoundNamed(voc: Vocabulary, nm: Names, dict: seq<Entry>, s: string)
    requires forall i :: 0 <= i < |dict| ==> Defined(dict[i].w) && dict[i].name == Spell(nm, T(dict[i].w))
    ensures var e := Find(dict, s); e.Some? ==> Defined(e.value) && Lower(Spell(nm, T(e.value))) == Lower(s)
  {
    hide Spell;
    if |dict| > 0 {
      FoundNamed(voc, nm, dict[..|dict| - 1], s);
    }
  }

  lemma NotFrame(nm: Names, t: Token)
    requires Built(t) && (t.T? ==> t.w == ToFrame)
    ensures Lower(Spell(nm, t)) != Lower("$frame")
  {
    if t == TRepeat {
      assert Lower("repeat")[0] == 'r';
      assert Lower("$frame")[0] == '$';
    }
  }

  lemma ControlReads(voc: Vocabulary, nm: Names, dict: seq<Entry>, t: Token)
    requires Standard(voc) && Orderly(voc, nm, dict) && Built(t) && (t.T? ==> t.w == ToFrame)
    ensures ReadTrue(voc, nm, dict, t)
  {
    hide Find, Lower;
    var e := Find(dict, Spell(nm, t));
    NotFrame(nm, t);
    FoundNamed(voc, nm, dict, Spell(nm, t));
    PrintedKnown(voc, nm, t);
    if e.Some? {
      PlainEntry(voc, nm, dict, e.value);
      assert false;
    }
  }

  lemma PlainEntry(voc: Vocabulary, nm: Names, dict: seq<Entry>, w: Word)
    requires Orderly(voc, nm, dict) && Defined(w)
    ensures if w == Frame then Spell(nm, T(w)) == "$frame" else Plainly(voc, nm, Spell(nm, T(w)))
  {
  }

  lemma WordReads(voc: Vocabulary, nm: Names, dict: seq<Entry>, w: Word)
    requires Standard(voc) && Orderly(voc, nm, dict)
    ensures var r := Read(voc, nm, dict, T(w)); r.Some? ==> |r.value| == 1 && r.value[0].T?
  {
    hide Lower, ParseNumber, Find, Spell, Standard, Orderly, Plainly;
    if w == ToFrame {
      ControlReads(voc, nm, dict, T(w));
    } else if Built(T(w)) {
      PrintedKnown(voc, nm, T(w));
    } else {
      NameReads(voc, nm, dict, w);
    }
  }

  lemma NameReads(voc: Vocabulary, nm: Names, dict: seq<Entry>, w: Word)
    requires Orderly(voc, nm, dict) && !Built(T(w))
    ensures var r := Read(voc, nm, dict, T(w)); r.Some? ==> |r.value| == 1 && r.value[0].T?
  {
    hide Lower, ParseNumber, Find;
    if w == Frame {
      assert Spell(nm, T(w)) == "$frame";
    } else {
      assert Plainly(voc, nm, Spell(nm, T(w)));
    }
  }

  lemma {:induction false} ReadFlat(voc: Vocabulary, nm: Names, dict: seq<Entry>, fr: Frag)
    requires Standard(voc) && Orderly(voc, nm, dict)
    ensures var x := Reread(voc, nm, dict, fr);
      ReadAll(voc, nm, dict, Flat(fr)) == if x.Some? then Some(Flat(x.value)) else None
  {
    hide Read, Standard, Orderly, ReadAll;
    match fr
    case Skip => ReadAllNone(voc, nm, dict);
    case W(w) =>
      WordReads(voc, nm, dict, w);
      ReadAllOne(voc, nm, dict, T(w));
      var r := Read(voc, nm, dict, T(w));
      assert Flat(W(w)) == [T(w)];
      if r.Some? {
        assert r.value == [T(r.value[0].w)];
      }
    case Cat(a, b) =>
      ReadFlat(voc, nm, dict, a);
      ReadFlat(voc, nm, dict, b);
      ReadAllConcat(voc, nm, dict, Flat(a), Flat(b));
    case IfThen(t) => ReadFlat(voc, nm, dict, t); ReadAround(voc, nm, dict, TIf, Flat(t), TThen);
    case IfElse(t, e) =>
      ReadFlat(voc, nm, dict, t);
      ReadFlat(voc, nm, dict, e);
      ReadTwo(voc, nm, dict, TIf, Flat(t), TElse, Flat(e), TThen);
    case Loop(test, body) =>
      ReadFlat(voc, nm, dict, test);
      ReadFlat(voc, nm, dict, body);
      ReadTwo(voc, nm, dict, TBegin, Flat(test), TWhile, Flat(body), TRepeat);
    case Endless(body) => ReadFlat(voc, nm, dict, body); ReadAround(voc, nm, dict, TBegin, Flat(body), TRepeat);
  }

  lemma ReadAllNone(voc: Vocabulary, nm: Names, dict: seq<Entry>)
    ensures ReadAll(voc, nm, dict, []) == Some([])
  {
  }

  lemma ReadAllOne(voc: Vocabulary, nm: Names, dict: seq<Entry>, t: Token)
    ensures ReadAll(voc, nm, dict, [t]) == Read(voc, nm, dict, t)
  {
    hide Read;
    var r := Read(voc, nm, dict, t);
    assert [t][1..] == [];
    if r.Some? {
      assert r.value + [] == r.value;
    }
  }

  lemma ReadAround(voc: Vocabulary, nm: Names, dict: seq<Entry>, t: Token, ts: seq<Token>, u: Token)
    requires Standard(voc) && Orderly(voc, nm, dict) && Built(t) && Built(u) && !t.T? && !u.T?
    ensures var x := ReadAll(voc, nm, dict, ts);
      ReadAll(voc, nm, dict, [t] + ts + [u]) == if x.Some? then Some([t] + x.value + [u]) else None
  {
    hide Read, Standard, Orderly, ReadAll;
    ControlReads(voc, nm, dict, t);
    ControlReads(voc, nm, dict, u);
    ReadAllOne(voc, nm, dict, t);
    ReadAllOne(voc, nm, dict, u);
    ReadAllConcat(voc, nm, dict, [t] + ts, [u]);
    ReadAllConcat(voc, nm, dict, [t], ts);
  }

  lemma ReadTwo(voc: Vocabulary, nm: Names, dict: seq<Entry>, t: Token, ts: seq<Token>, u: Token, us: seq<Token>, v: Token)
    requires Standard(voc) && Orderly(voc, nm, dict)
    requires Built(t) && Built(u) && Built(v) && !t.T? && !u.T? && !v.T?
    ensures var x, y := ReadAll(voc, nm, dict, ts), ReadAll(voc, nm, dict, us);
      ReadAll(voc, nm, dict, [t] + ts + [u] + us + [v])
      == if x.Some? && y.Some? then Some([t] + x.value + [u] + y.value + [v]) else None
  {
    hide Read, Standard, Orderly, ReadAll;
    ReadAround(voc, nm, dict, t, ts, u);
    ControlReads(voc, nm, dict, v);
    ReadAllOne(voc, nm, dict, v);
    ReadAllConcat(voc, nm, dict, [t] + ts + [u] + us, [v]);
    ReadAllConcat(voc, nm, dict, [t] + ts + [u], us);
  }

  /** Where no name is spelled like a control word, a printed definition gets
      through exactly when every word can be read, it has no unconditional loop,
      and the text as it is read fits in memory with no forward offset negative. */
  lemma AcceptedExactly(voc: Vocabulary, nm: Names, dict: seq<Entry>, fr: Frag)
    requires Standard(voc) && Orderly(voc, nm, dict)
    ensures var x := Reread(voc, nm, dict, fr);
      Through(voc, nm, dict, Flat(fr) + [TSemi]).Some?
      <==> x.Some? && Conditioned(fr) && Fits(Mem, x.value, false) && Signs.Signed(x.value, 0)
  {
    hide Engine, Standard, Orderly, ReadAll, Reread, Fits, Signs.Signed, Conditioned, Read;
    ReadFlat(voc, nm, dict, fr);
    ControlReads(voc, nm, dict, TSemi);
    ReadAllOne(voc, nm, dict, TSemi);
    ReadAllConcat(voc, nm, dict, Flat(fr), [TSemi]);
    var x := Reread(voc, nm, dict, fr);
    if x.Some? {
      RereadConditioned(voc, nm, dict, fr);
      Stages.EngineExactly(x.value);
    }
  }

  // ----- names that keep out of each other's way -----

  /** Names are all different, whatever the case of their letters, and none is a
      word the generator relies on. */
  ghost predicate Tidy(voc: Vocabulary, dict: seq<Entry>) {
    && (forall i, j :: 0 <= i < j < |dict| ==> Lower(dict[i].name) != Lower(dict[j].name))
    && (forall i :: 0 <= i < |dict| ==> !voc(Lower(dict[i].name)).Own?)
  }

  lemma {:induction false} TidyFinds(voc: Vocabulary, dict: seq<Entry>, i: nat)
    requires Tidy(voc, dict) && i < |dict|
    ensures Find(dict, dict[i].name) == Some(dict[i].w)
  {
    if i < |dict| - 1 {
      assert Lower(dict[i].name) != Lower(dict[|dict| - 1].name);
      TidyFinds(voc, dict[..|dict| - 1], i);
    }
  }

  lemma {:induction false} TidyMisses(voc: Vocabulary, dict: seq<Entry>, s: string)
    requires Tidy(voc, dict) && voc(Lower(s)).Own?
    ensures Find(dict, s) == None
  {
    if |dict| > 0 {
      TidyMisses(voc, dict[..|dict| - 1], s);
    }
  }

  /** Among tidy names, every word of the engine and every name in the dictionary
      is read as printed. */
  lemma TidyReads(voc: Vocabulary, nm: Names, dict: seq<Entry>, t: Token)
    requires Standard(voc) && Tidy(voc, dict) && Entry("$frame", Frame) in dict
    requires Built(t) || (Defined(t.w) && Entry(Spell(nm, t), t.w) in dict)
    ensures ReadTrue(voc, nm, dict, t)
  {
    hide Find, Lower, Tidy;
    var k :| 0 <= k < |dict| && dict[k] == Entry("$frame", Frame);
    TidyFinds(voc, dict, k);
    if Built(t) {
      PrintedKnown(voc, nm, t);
      TidyMisses(voc, dict, Spell(nm, t));
    } else {
      var i :| 0 <= i < |dict| && dict[i] == Entry(Spell(nm, t), t.w);
      TidyFinds(voc, dict, i);
    }
  }
}
