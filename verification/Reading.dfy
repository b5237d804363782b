/** What the tokenizer takes a printed word for: a name of the program, newest
    first and ignoring case; else a word of the engine; else a number. */
module Reading {
  import opened Options
  import opened Cells
  import opened CTree
  import opened Forth
  import Threaded

  // ----- how words are spelled -----

  /** The names the generator prints for functions, for variables outside frames
      by their places, for the slots and sizes of frames; and the variables it
      defines at file scope before a function. */
  datatype Names = Names(
    func: FuncId -> string, place: Cell -> string, field: (FuncId, nat) -> string, size: FuncId -> string,
    globals: FuncId -> seq<Cell>)

  function Digit(d: nat): char
    requires d < 16
  {
    if d < 10 then ('0' as int + d) as char else ('A' as int + d - 10) as char
  }

  function HexNat(n: nat): (s: string)
    ensures |s| > 0
  {
    if n < 16 then [Digit(n)] else HexNat(n / 16) + [Digit(n % 16)]
  }

  /** A number in hexadecimal, as it is printed. */
  function Hex(n: Cell): string {
    if n < 0 then "-" + HexNat(0 - n) else HexNat(n)
  }

  function PrimName(p: Prim): string {
    match p
    case PAdd => "+" case PSub => "-" case PMul => "*" case PDiv => "/" case PMod => "mod"
    case PAnd => "and" case POr => "or" case PXor => "xor" case PInvert => "invert" case PNegate => "negate"
    case PLshift => "lshift" case PRshiftA => ">>a"
    case PLt => "<" case PGt => ">" case PLe => "<=" case PGe => ">=" case PEq => "=" case PNe => "<>"
    case PZeroNe => "0<>" case PZeroEq => "0="
    case PDup => "dup" case PDrop => "drop" case PSwap => "swap" case PTuck => "tuck"
    case PLFetch => "l@" case PLStore => "l!" case PCFetch => "c@" case PCStore => "c!"
    case PAlloc => "alloc-mem" case PFree => "free-mem"
  }

  /** A token as it is printed; `to` takes the next word, `$frame`, itself. */
  function Spell(nm: Names, t: Token): string {
    match t
    case T(w) =>
      (match w
       case Lit(n) => Hex(n)
       case Place(a) => nm.place(a)
       case Op(p) => PrimName(p)
       case Frame => "$frame"
       case ToFrame => "to"
       case Field(f, slot) => nm.field(f, slot)
       case FrameSize(f) => nm.size(f)
       case Do(f) => nm.func(f)
       case Exit => "exit")
    case TIf => "if"
    case TElse => "else"
    case TThen => "then"
    case TBegin => "begin"
    case TWhile => "while"
    case TRepeat => "repeat"
    case TSemi => ";"
  }

  /** Words the engine brings along. */
  predicate Built(t: Token) {
    t.T? ==> t.w.Op? || t.w.ToFrame? || t.w.Exit? || (t.w.Lit? && -1 <= t.w.n <= 3)
  }

  /** Words the program defines. */
  predicate Defined(w: Word) {
    w.Place? || w.Frame? || w.Field? || w.FrameSize? || w.Do?
  }

  // ----- the engine's vocabulary -----

  /** A word of the engine that the generator prints; another one, which the
      tokenizer may refuse for want of an FCode; or none. */
  datatype Meaning = Own(t: Token) | Foreign | Unknown

  /** The engine's words, in small letters. */
  type Vocabulary = string -> Meaning

  function LowerChar(c: char): char {
    if 'A' <= c <= 'Z' then (c as int + 32) as char else c
  }

  function Lower(s: string): (l: string)
    ensures |l| == |s| && forall i :: 0 <= i < |s| ==> l[i] == LowerChar(s[i])
  {
    seq(|s|, i requires 0 <= i < |s| => LowerChar(s[i]))
  }

  /** The words of the engine's tables that a generated file can hold: what the
      engine does at them, and their FCodes. */
  const STACK_WORDS: seq<(string, Token, nat)> := [
    ("dup", T(Op(PDup)), 0x47), ("tuck", T(Op(PTuck)), 0x4C), ("drop", T(Op(PDrop)), 0x46),
    ("swap", T(Op(PSwap)), 0x49), ("c@", T(Op(PCFetch)), 0x71), ("c!", T(Op(PCStore)), 0x75),
    ("l@", T(Op(PLFetch)), 0x6E), ("l!", T(Op(PLStore)), 0x73), ("alloc-mem", T(Op(PAlloc)), 0x8B),
    ("free-mem", T(Op(PFree)), 0x8C), ("exit", T(Exit), 0x33)
  ]
  const ARITHMETIC_WORDS: seq<(string, Token, nat)> := [
    ("+", T(Op(PAdd)), 0x1E), ("-", T(Op(PSub)), 0x1F), ("*", T(Op(PMul)), 0x20), ("/", T(Op(PDiv)), 0x21),
    ("mod", T(Op(PMod)), 0x22), ("negate", T(Op(PNegate)), 0x2C), ("lshift", T(Op(PLshift)), 0x27),
    (">>a", T(Op(PRshiftA)), 0x29), ("and", T(Op(PAnd)), 0x23), ("or", T(Op(POr)), 0x24),
    ("xor", T(Op(PXor)), 0x25), ("invert", T(Op(PInvert)), 0x26)
  ]
  const COMPARISON_WORDS: seq<(string, Token, nat)> := [
    ("<", T(Op(PLt)), 0x3A), ("<>", T(Op(PNe)), 0x3D), ("=", T(Op(PEq)), 0x3C), (">", T(Op(PGt)), 0x3B),
    ("0<>", T(Op(PZeroNe)), 0x35), ("0=", T(Op(PZeroEq)), 0x34), (">=", T(Op(PGe)), 0x42), ("<=", T(Op(PLe)), 0x43)
  ]
  const CONSTANT_WORDS: seq<(string, Token, nat)> := [
    ("-1", T(Lit(-1)), 0xA4), ("0", T(Lit(0)), 0xA5), ("1", T(Lit(1)), 0xA6), ("2", T(Lit(2)), 0xA7),
    ("3", T(Lit(3)), 0xA8)
  ]

  /** Those that compile, and have no FCode themselves. */
  const COMPILING_WORDS: seq<(string, Token)> := [
    ("if", TIf), ("else", TElse), ("then", TThen), ("begin", TBegin), ("while", TWhile), ("repeat", TRepeat),
    (";", TSemi), ("to", T(ToFrame))
  ]

  predicate Coded(s: string, t: Token, code: nat) {
    (s, t, code) in STACK_WORDS || (s, t, code) in ARITHMETIC_WORDS || (s, t, code) in COMPARISON_WORDS
    || (s, t, code) in CONSTANT_WORDS
  }

  /** An engine with these words, and `cd`. Machines may add words of their own. */
  ghost predicate Standard(voc: Vocabulary) {
    && (forall s: string, t: Token, code: nat :: Coded(s, t, code) ==> voc(s) == Own(t))
    && (forall s: string, t: Token :: (s, t) in COMPILING_WORDS ==> voc(s) == Own(t))
    && (forall s: string :: voc(s).Own? ==> Built(voc(s).t))
    && voc("cd") == Foreign
  }

  lemma CdIsForeign(voc: Vocabulary)
    requires Standard(voc)
    ensures voc("cd") == Foreign
  {
    hide Coded;
  }

  predicate Small(s: string) {
    forall i :: 0 <= i < |s| ==> !('A' <= s[i] <= 'Z')
  }

  lemma LowerSmall(s: string)
    requires Small(s)
    ensures Lower(s) == s
  {
  }

  /** The one byte that the tokenizer makes of a word of the engine. */
  function CodeOf(t: Token): nat
    requires Built(t) && t.T? && !t.w.ToFrame?
  {
    Threaded.Encoding(Threaded.Tok, (w: Word) => 0x800, Threaded.IWord(t.w), 0)[0]
  }

  lemma PrimCode(p: Prim)
    ensures CodeOf(T(Op(p))) == Threaded.FCode(p)
  {
  }

  lemma StackListed(p: Prim)
    requires p in {PDup, PTuck, PDrop, PSwap, PCFetch, PCStore, PLFetch, PLStore, PAlloc, PFree}
    ensures (PrimName(p), T(Op(p)), Threaded.FCode(p)) in STACK_WORDS && Small(PrimName(p))
  {
  }

  lemma ArithmeticListed(p: Prim)
    requires p in {PAdd, PSub, PMul, PDiv, PMod, PNegate, PLshift, PRshiftA, PAnd, POr, PXor, PInvert}
    ensures (PrimName(p), T(Op(p)), Threaded.FCode(p)) in ARITHMETIC_WORDS && Small(PrimName(p))
  {
  }

  lemma ComparisonListed(p: Prim)
    requires p in {PLt, PNe, PEq, PGt, PZeroNe, PZeroEq, PGe, PLe}
    ensures (PrimName(p), T(Op(p)), Threaded.FCode(p)) in COMPARISON_WORDS && Small(PrimName(p))
  {
  }

  lemma PrimListed(p: Prim)
    ensures Coded(PrimName(p), T(Op(p)), CodeOf(T(Op(p)))) && Small(PrimName(p))
  {
    hide PrimName, Small, CodeOf, Threaded.FCode;
    PrimCode(p);
    if p in {PDup, PTuck, PDrop, PSwap, PCFetch, PCStore, PLFetch, PLStore, PAlloc, PFree} {
      StackListed(p);
    } else if p in {PLt, PNe, PEq, PGt, PZeroNe, PZeroEq, PGe, PLe} {
      ComparisonListed(p);
    } else {
      ArithmeticListed(p);
    }
  }

  lemma SmallNumberListed(n: Cell)
    requires -1 <= n <= 3
    ensures Coded(Hex(n), T(Lit(n)), CodeOf(T(Lit(n)))) && Small(Hex(n))
  {
    assert Hex(n)
        == if n == -1 then "-1" else if n == 0 then "0" else if n == 1 then "1" else if n == 2 then "2" else "3";
  }

  lemma ControlListed(nm: Names, t: Token)
    requires Built(t) && (t.T? ==> t.w.ToFrame?)
    ensures (Spell(nm, t), t) in COMPILING_WORDS && Small(Spell(nm, t))
  {
  }

  /** Every word the generator takes for one of the engine's is in the engine's
      tables; there it is what the generator means by it, and it has the FCode that
      is compiled. */
  lemma SpelledTrue(nm: Names, t: Token)
    requires Built(t)
    ensures if t.T? && !t.w.ToFrame? then Coded(Lower(Spell(nm, t)), t, CodeOf(t))
            else (Lower(Spell(nm, t)), t) in COMPILING_WORDS
  {
    hide Lower, Coded, Small, Hex, CodeOf;
    if t.T? && t.w.Op? {
      PrimListed(t.w.p);
    } else if t.T? && t.w.Lit? {
      SmallNumberListed(t.w.n);
    } else if t.T? && t.w.Exit? {
      ExitListed();
    } else {
      ControlListed(nm, t);
    }
    LowerSmall(Spell(nm, t));
  }

  lemma ExitListed()
    ensures Coded("exit", T(Exit), CodeOf(T(Exit))) && Small("exit")
  {
  }

  lemma PrintedKnown(voc: Vocabulary, nm: Names, t: Token)
    requires Standard(voc) && Built(t)
    ensures voc(Lower(Spell(nm, t))) == Own(t)
  {
    hide Lower, Spell, Coded, CodeOf;
    SpelledTrue(nm, t);
  }

  // ----- the dictionary -----

  datatype Entry = Entry(name: string, w: Word)

  /** The newest entry of that name. */
  function Find(dict: seq<Entry>, s: string): Option<Word> {
    if |dict| == 0 then None
    else if Lower(dict[|dict| - 1].name) == Lower(s) then Some(dict[|dict| - 1].w)
    else Find(dict[..|dict| - 1], s)
  }

  // ----- numbers -----

  function DigitOf(c: char): Option<nat> {
    if '0' <= c <= '9' then Some(c as int - '0' as int)
    else if 'A' <= c <= 'F' then Some(c as int - 'A' as int + 10)
    else if 'a' <= c <= 'f' then Some(c as int - 'a' as int + 10)
    else None
  }

  function Digits(s: string, sum: Cell): Option<Cell> {
    if |s| == 0 then Some(sum)
    else
      var d := DigitOf(s[0]);
      if d.None? then None else Digits(s[1..], Wrap(sum * 16 + d.value))
  }

  function ParseNumber(s: string): Option<Cell> {
    if |s| > 0 && s[0] == '-' then
      var n := Digits(s[1..], 0);
      if n.Some? then Some(Wrap(0 - n.value)) else None
    else Digits(s, 0)
  }

  // ----- reading -----

  /** What a printed token is read as. None: an unknown word, one without an
      FCode, or one of the engine's words that does something else altogether. */
  function Read(voc: Vocabulary, nm: Names, dict: seq<Entry>, t: Token): Option<seq<Token>> {
    var s := Spell(nm, t);
    var e := Find(dict, s);
    var frame := Find(dict, "$frame");
    if e.Some? then
      if t != T(ToFrame) then Some([T(e.value)])
      else if frame.Some? then Some([T(e.value), T(frame.value)]) else None
    else
      match voc(Lower(s))
      case Own(t') =>
        if t' != T(ToFrame) then Some([t'])
        else if t == t' && frame == Some(Frame) then Some([t]) else None
      case Foreign => None
      case Unknown =>
        var n := ParseNumber(s);
        if n.Some? then Some([T(Lit(n.value))]) else None
  }

  function ReadAll(voc: Vocabulary, nm: Names, dict: seq<Entry>, ts: seq<Token>): Option<seq<Token>> {
    if |ts| == 0 then Some([])
    else
      var r, rest := Read(voc, nm, dict, ts[0]), ReadAll(voc, nm, dict, ts[1..]);
      if r.Some? && rest.Some? then Some(r.value + rest.value) else None
  }

  predicate ReadTrue(voc: Vocabulary, nm: Names, dict: seq<Entry>, t: Token) {
    Read(voc, nm, dict, t) == Some([t])
  }

  /** Every word is read as what it was printed for. */
  ghost predicate ReadsTrue(voc: Vocabulary, nm: Names, dict: seq<Entry>, ts: seq<Token>) {
    forall i :: 0 <= i < |ts| ==> ReadTrue(voc, nm, dict, ts[i])
  }

  lemma {:induction false} TrueIsAll(voc: Vocabulary, nm: Names, dict: seq<Entry>, ts: seq<Token>)
    requires ReadsTrue(voc, nm, dict, ts)
    ensures ReadAll(voc, nm, dict, ts) == Some(ts)
  {
    hide Read;
    if |ts| > 0 {
      assert ReadTrue(voc, nm, dict, ts[0]);
      forall i | 0 <= i < |ts[1..]| ensures ReadTrue(voc, nm, dict, ts[1..][i]) {
        assert ts[1..][i] == ts[i + 1];
      }
      TrueIsAll(voc, nm, dict, ts[1..]);
      assert [ts[0]] + ts[1..] == ts;
    }
  }

  // ----- numbers are read as printed -----

  lemma DigitBack(d: nat)
    requires d < 16
    ensures DigitOf(Digit(d)) == Some(d)
  {
  }

  lemma {:induction false} DigitsAppend(s: string, c: char, sum: Cell)
    ensures Digits(s + [c], sum)
         == (var x := Digits(s, sum); if x.None? then None else Digits([c], x.value))
  {
    hide DigitOf;
    if |s| == 0 {
      assert s + [c] == [c];
    } else {
      assert (s + [c])[1..] == s[1..] + [c];
      var d := DigitOf(s[0]);
      if d.Some? {
        DigitsAppend(s[1..], c, Wrap(sum * 16 + d.value));
      }
    }
  }

  lemma OneDigit(d: nat, sum: Cell)
    requires d < 16
    ensures Digits([Digit(d)], sum) == Some(Wrap(sum * 16 + d))
  {
    hide DigitOf, Digit;
    DigitBack(d);
    assert [Digit(d)][1..] == [];
  }

  lemma {:induction false} HexBack(n: nat)
    ensures Digits(HexNat(n), 0) == Some(Wrap(n))
  {
    hide Digits, Digit;
    if n < 16 {
      OneDigit(n, 0);
    } else {
      HexBack(n / 16);
      DigitsAppend(HexNat(n / 16), Digit(n % 16), 0);
      OneDigit(n % 16, Wrap(n / 16));
      WrapScaled(n / 16, n % 16);
    }
  }

  lemma WrapScaled(q: nat, r: nat)
    ensures Wrap(Wrap(q) * 16 + r) == Wrap(q * 16 + r)
  {
    var k := (q - Wrap(q)) / MODULUS;
    assert Wrap(q) == q - k * MODULUS;
    WrapOfCongruent(Wrap(q) * 16 + r, q * 16 + r, 0 - 16 * k);
  }

  lemma FirstDigit(n: nat)
    ensures HexNat(n)[0] != '-'
  {
    if n >= 16 {
      FirstDigit(n / 16);
    }
  }

  /** Every number, read back from its digits, is itself. */
  lemma NumberBack(n: Cell)
    ensures ParseNumber(Hex(n)) == Some(n)
  {
    hide Digits, HexNat;
    if n < 0 {
      HexBack(0 - n);
      assert Hex(n)[1..] == HexNat(0 - n);
    } else {
      HexBack(n);
      FirstDigit(n);
    }
  }

  /** Words of the program are no engine words. */
  ghost predicate OfProgram(dict: seq<Entry>) {
    forall i :: 0 <= i < |dict| ==> Defined(dict[i].w)
  }

  lemma FoundDefined(dict: seq<Entry>, s: string)
    requires OfProgram(dict)
    ensures Find(dict, s).Some? ==> Defined(Find(dict, s).value)
  {
    if |dict| > 0 {
      FoundDefined(dict[..|dict| - 1], s);
    }
  }

  /** A printed number is read as that number exactly when no name of the program
      is spelled like it and no other word of the engine. */
  lemma NumberReadsTrue(voc: Vocabulary, nm: Names, dict: seq<Entry>, n: Cell)
    requires OfProgram(dict)
    ensures ReadTrue(voc, nm, dict, T(Lit(n)))
       <==> Find(dict, Hex(n)).None? && (voc(Lower(Hex(n))) == Unknown || voc(Lower(Hex(n))) == Own(T(Lit(n))))
  {
    hide Find, ParseNumber, Hex;
    FoundDefined(dict, Hex(n));
    NumberBack(n);
  }

  /** A name of the program is read as what it names exactly when no newer name is
      spelled the same. */
  lemma NameReadsTrue(voc: Vocabulary, nm: Names, dict: seq<Entry>, w: Word)
    requires Defined(w) && Standard(voc)
    ensures ReadTrue(voc, nm, dict, T(w)) <==> Find(dict, Spell(nm, T(w))) == Some(w)
  {
    hide Find, ParseNumber, Spell;
  }
}
