/** The expression parser: precedence climbing with a stop level, against the
    grammar of operators, precedence and associativity it is meant to accept. */
module ExprParser {
  datatype Op =
    | Star | Slash | Percent | Plus | Minus | LShift | RShift
    | Less | Greater | LessEq | GreaterEq | Equal | NotEq
    | And | Xor | Or | AndAnd | OrOr
    | Set | MulEq | DivEq | ModEq | PlusEq | MinusEq | LShiftEq | RShiftEq | AndEq | XorEq | OrEq
    | Comma

  datatype Prefix = Neg | Pos | Deref | Addr | Not | Compl

  /** A primary that is one token: a name, or a number with its signedness. */
  datatype Atom = Name(id: nat) | Number(v: int, signed: bool)

  datatype Tok = Item(a: Atom) | Binary(op: Op) | Bang | Tilde | Quest | Colon | LPar | RPar | Other

  /** Parentheses leave a node, so a tree determines its text. */
  datatype Tree =
    | Leaf(a: Atom)
    | Paren(inner: Tree)
    | Pre(u: Prefix, x: Tree)
    | Bin(op: Op, l: Tree, r: Tree)
    | Cond(c: Tree, t: Tree, e: Tree)

  function Prec(op: Op): nat {
    match op
    case Star => 13 case Slash => 13 case Percent => 13
    case Plus => 12 case Minus => 12
    case LShift => 11 case RShift => 11
    case Less => 10 case Greater => 10 case LessEq => 10 case GreaterEq => 10
    case Equal => 9 case NotEq => 9
    case And => 8
    case Xor => 7
    case Or => 6
    case AndAnd => 5
    case OrOr => 4
    case Comma => 1
    case _ => 2
  }

  const COND_PREC := 3

  /** Assignments group to the right, everything else to the left. */
  predicate LeftAssoc(op: Op) {
    Prec(op) != 2
  }

  function PrefixTok(u: Prefix): Tok {
    match u
    case Neg => Binary(Minus)
    case Pos => Binary(Plus)
    case Deref => Binary(Star)
    case Addr => Binary(And)
    case Not => Bang
    case Compl => Tilde
  }

  predicate IsPrefix(t: Tok) {
    t.Bang? || t.Tilde? || (t.Binary? && t.op in {Minus, Plus, Star, And})
  }

  /** The prefix operator a token stands for in front of an operand. */
  function PrefixOf(t: Tok): (u: Prefix)
    requires IsPrefix(t)
    ensures PrefixTok(u) == t
  {
    if t.Bang? then Not
    else if t.Tilde? then Compl
    else if t.op == Minus then Neg
    else if t.op == Plus then Pos
    else if t.op == Star then Deref
    else Addr
  }

  /** Precedence of the operator at the head of the input, 0 if it is none. */
  function Peek(ts: seq<Tok>): nat {
    if |ts| == 0 then 0
    else if ts[0].Binary? then Prec(ts[0].op)
    else if ts[0].Quest? then COND_PREC
    else 0
  }

  // ----- the grammar -----

  /** How tightly the outermost construct of a tree binds. */
  function Level(e: Tree): nat {
    match e
    case Leaf(_) => 14
    case Paren(_) => 14
    case Pre(_, _) => 14
    case Bin(op, _, _) => Prec(op)
    case Cond(_, _, _) => COND_PREC
  }

  /** Parentheses stand wherever precedence or associativity needs them. */
  predicate Shaped(e: Tree) {
    match e
    case Leaf(_) => true
    case Paren(x) => Shaped(x)
    case Pre(_, x) => Shaped(x) && Level(x) == 14
    case Bin(op, l, r) =>
      Shaped(l) && Shaped(r) && Level(l) >= LeftLevel(op) && Level(r) >= RightLevel(op)
    case Cond(c, t, x) => Shaped(c) && Shaped(t) && Shaped(x) && Level(c) > COND_PREC && Level(x) >= COND_PREC
  }

  function LeftLevel(op: Op): nat {
    if LeftAssoc(op) then Prec(op) else Prec(op) + 1
  }

  function RightLevel(op: Op): nat {
    if LeftAssoc(op) then Prec(op) + 1 else Prec(op)
  }

  /** The tokens of a tree. */
  function Yield(e: Tree): (ts: seq<Tok>)
    ensures |ts| > 0
  {
    match e
    case Leaf(a) => [Item(a)]
    case Paren(x) => [LPar] + Yield(x) + [RPar]
    case Pre(u, x) => [PrefixTok(u)] + Yield(x)
    case Bin(op, l, r) => Yield(l) + [Binary(op)] + Yield(r)
    case Cond(c, t, x) => Yield(c) + [Quest] + Yield(t) + [Colon] + Yield(x)
  }

  // ----- what the parser computes -----

  datatype Parsed = Fail | Done(e: Tree, rest: seq<Tok>)

  /** An operand: a name or number, a parenthesized expression, or a prefix
      operator and its operand. */
  function Cast(ts: seq<Tok>): (r: Parsed)
    ensures r.Done? ==> |r.rest| < |ts|
    decreases |ts|, 0
  {
    if |ts| == 0 then Fail
    else if ts[0].Item? then Done(Leaf(ts[0].a), ts[1..])
    else if IsPrefix(ts[0]) then
      var r := Cast(ts[1..]);
      if r.Done? then Done(Pre(PrefixOf(ts[0]), r.e), r.rest) else Fail
    else if ts[0].LPar? then
      var r := Parse(0, ts[1..]);
      if r.Done? && |r.rest| > 0 && r.rest[0].RPar? then Done(Paren(r.e), r.rest[1..]) else Fail
    else Fail
  }

  function Parse(stop: nat, ts: seq<Tok>): (r: Parsed)
    ensures r.Done? ==> |r.rest| < |ts|
    decreases |ts|, 1
  {
    var c := Cast(ts);
    if c.Done? then Climb(c.e, stop, c.rest) else Fail
  }

  /** Extend e by operators that bind tighter than the stop level. */
  function Climb(e: Tree, stop: nat, ts: seq<Tok>): (r: Parsed)
    ensures r.Done? ==> |r.rest| <= |ts|
    decreases |ts|, 2
  {
    if Peek(ts) <= stop then Done(e, ts)
    else if ts[0].Quest? then
      var t := Parse(0, ts[1..]);
      if t.Fail? || |t.rest| == 0 || !t.rest[0].Colon? then Fail
      else
        var x := Parse(2, t.rest[1..]);
        if x.Done? then Climb(Cond(e, t.e, x.e), stop, x.rest) else Fail
    else
      var op := ts[0].op;
      var c := Cast(ts[1..]);
      if c.Fail? then Fail
      else if Peek(c.rest) <= Prec(op) && LeftAssoc(op) then Climb(Bin(op, e, c.e), stop, c.rest)
      else
        var r := Climb(c.e, RightStop(op), c.rest);
        if r.Done? then Climb(Bin(op, e, r.e), stop, r.rest) else Fail
  }

  /** The stop level for the right operand. */
  function RightStop(op: Op): nat {
    if LeftAssoc(op) then Prec(op) else Prec(op) - 1
  }

  /** The shortcut for a left-associative operator changes nothing. */
  lemma ClimbOperator(e: Tree, stop: nat, ts: seq<Tok>)
    requires Peek(ts) > stop && ts[0].Binary?
    ensures var op := ts[0].op;
      var r := Parse(RightStop(op), ts[1..]);
      Climb(e, stop, ts) == if r.Done? then Climb(Bin(op, e, r.e), stop, r.rest) else Fail
  {
  }

  // ----- soundness: what the parser returns has the grammar's shape -----

  /** The loosest operator that may follow e without binding into it. */
  function Bound(e: Tree): nat {
    match e
    case Bin(op, _, _) => RightStop(op)
    case Cond(_, _, _) => 2
    case _ => 14
  }

  lemma {:induction false} CastSound(ts: seq<Tok>)
    requires Cast(ts).Done?
    ensures var r := Cast(ts); Shaped(r.e) && Level(r.e) == 14 && Bound(r.e) == 14 && ts == Yield(r.e) + r.rest
    decreases |ts|, 0
  {
    if ts[0].LPar? {
      ParseSound(0, ts[1..]);
    } else if IsPrefix(ts[0]) {
      CastSound(ts[1..]);
      assert ts == [ts[0]] + ts[1..];
    }
  }

  lemma {:induction false} ParseSound(stop: nat, ts: seq<Tok>)
    requires stop < 14 && Parse(stop, ts).Done?
    ensures var r := Parse(stop, ts);
      Shaped(r.e) && Level(r.e) > stop && Peek(r.rest) <= stop && Peek(r.rest) <= Bound(r.e) && ts == Yield(r.e) + r.rest
    decreases |ts|, 1
  {
    hide Shaped, Cast;
    CastSound(ts);
    var c := Cast(ts);
    PeekBound(c.rest);
    ClimbSound(c.e, stop, c.rest);
    assert Yield(c.e) + c.rest == ts;
  }

  lemma PeekBound(ts: seq<Tok>)
    ensures Peek(ts) <= 13
  {
  }

  lemma {:induction false} ClimbSound(e: Tree, stop: nat, ts: seq<Tok>)
    requires stop < 14 && Climb(e, stop, ts).Done?
    requires Shaped(e) && Level(e) > stop && Peek(ts) <= Bound(e)
    ensures var r := Climb(e, stop, ts);
      Shaped(r.e) && Level(r.e) > stop && Peek(r.rest) <= stop && Peek(r.rest) <= Bound(r.e)
      && Yield(e) + ts == Yield(r.e) + r.rest
    decreases |ts|, 2
  {
    if Peek(ts) <= stop {
    } else if ts[0].Quest? {
      ClimbCondSound(e, stop, ts);
    } else {
      ClimbBinSound(e, stop, ts);
    }
  }

  lemma {:induction false} ClimbBinSound(e: Tree, stop: nat, ts: seq<Tok>)
    requires stop < 14 && Climb(e, stop, ts).Done? && Peek(ts) > stop && ts[0].Binary?
    requires Shaped(e) && Level(e) > stop && Peek(ts) <= Bound(e)
    ensures var r := Climb(e, stop, ts);
      Shaped(r.e) && Level(r.e) > stop && Peek(r.rest) <= stop && Peek(r.rest) <= Bound(r.e)
      && Yield(e) + ts == Yield(r.e) + r.rest
    decreases |ts|, 1
  {
    hide Cast, Parse, Climb, Yield, Shaped;
    var op := ts[0].op;
    ClimbOperator(e, stop, ts);
    var r := Parse(RightStop(op), ts[1..]);
    ParseSound(RightStop(op), ts[1..]);
    ShapedBin(op, e, r.e);
    ClimbSound(Bin(op, e, r.e), stop, r.rest);
    YieldBin(op, e, r.e, r.rest);
    assert ts == [Binary(op)] + ts[1..];
  }

  lemma ShapedBin(op: Op, l: Tree, r: Tree)
    requires Shaped(l) && Shaped(r) && Level(l) >= LeftLevel(op) && Level(r) >= RightLevel(op)
    ensures Shaped(Bin(op, l, r))
  {
  }

  lemma YieldBin(op: Op, l: Tree, r: Tree, rest: seq<Tok>)
    ensures Yield(Bin(op, l, r)) + rest == Yield(l) + ([Binary(op)] + (Yield(r) + rest))
  {
    var yl, yr := Yield(l), Yield(r);
    assert Yield(Bin(op, l, r)) == yl + [Binary(op)] + yr;
    hide Yield;
    assert (yl + [Binary(op)] + yr) + rest == yl + ([Binary(op)] + (yr + rest));
  }

  lemma {:induction false} ClimbCondSound(e: Tree, stop: nat, ts: seq<Tok>)
    requires stop < 14 && Climb(e, stop, ts).Done? && Peek(ts) > stop && ts[0].Quest?
    requires Shaped(e) && Level(e) > stop && Peek(ts) <= Bound(e)
    ensures var r := Climb(e, stop, ts);
      Shaped(r.e) && Level(r.e) > stop && Peek(r.rest) <= stop && Peek(r.rest) <= Bound(r.e)
      && Yield(e) + ts == Yield(r.e) + r.rest
    decreases |ts|, 1
  {
    hide Cast, Parse, Climb, Yield, Shaped;
    ClimbCond(e, stop, ts);
    var t := Parse(0, ts[1..]);
    var x := Parse(2, t.rest[1..]);
    ParseSound(0, ts[1..]);
    ParseSound(2, t.rest[1..]);
    var b := Cond(e, t.e, x.e);
    ShapedCond(e, t.e, x.e);
    ClimbSound(b, stop, x.rest);
    YieldCond(e, t.e, x.e, x.rest);
    assert t.rest == [Colon] + t.rest[1..];
    assert ts == [Quest] + ts[1..];
  }

  lemma ClimbCond(e: Tree, stop: nat, ts: seq<Tok>)
    requires Peek(ts) > stop && ts[0].Quest? && Climb(e, stop, ts).Done?
    ensures var t := Parse(0, ts[1..]);
      t.Done? && |t.rest| > 0 && t.rest[0].Colon?
      && (var x := Parse(2, t.rest[1..]);
          x.Done? && Climb(e, stop, ts) == Climb(Cond(e, t.e, x.e), stop, x.rest))
  {
    hide Parse;
  }

  lemma ShapedCond(c: Tree, t: Tree, x: Tree)
    requires Shaped(c) && Shaped(t) && Shaped(x) && Level(c) > COND_PREC && Level(x) >= COND_PREC
    ensures Shaped(Cond(c, t, x))
  {
  }

  lemma YieldCond(c: Tree, t: Tree, x: Tree, rest: seq<Tok>)
    ensures Yield(Cond(c, t, x)) + rest == Yield(c) + ([Quest] + (Yield(t) + ([Colon] + (Yield(x) + rest))))
  {
    var yc, yt, yx := Yield(c), Yield(t), Yield(x);
    assert Yield(Cond(c, t, x)) == yc + [Quest] + yt + [Colon] + yx;
    hide Yield;
    assert (yc + [Quest] + yt + [Colon] + yx) + rest == yc + ([Quest] + (yt + ([Colon] + (yx + rest))));
  }

  // ----- completeness: every shaped tree is parsed back -----

  /** Reading the tokens of e brings the parser to the point where it holds e. */
  lemma {:induction false} Reaches(e: Tree, stop: nat, rest: seq<Tok>)
    requires Shaped(e) && stop < Level(e) && Peek(rest) <= Bound(e)
    ensures Parse(stop, Yield(e) + rest) == Climb(e, stop, rest)
    decreases e, 1
  {
    hide Parse, Climb, Yield, Shaped;
    match e
    case Leaf(_) => ReachesOperand(e, stop, rest);
    case Paren(_) => ReachesOperand(e, stop, rest);
    case Pre(_, _) => ReachesOperand(e, stop, rest);
    case Bin(_, _, _) => ReachesBin(e, stop, rest);
    case Cond(_, _, _) => ReachesCond(e, stop, rest);
  }

  lemma {:induction false} ReachesOperand(e: Tree, stop: nat, rest: seq<Tok>)
    requires !e.Bin? && !e.Cond? && Shaped(e)
    ensures Parse(stop, Yield(e) + rest) == Climb(e, stop, rest)
    decreases e, 0
  {
    hide Climb;
    match e
    case Leaf(_) => assert (Yield(e) + rest)[1..] == rest;
    case Paren(x) => ReachesParen(x, rest);
    case Pre(u, x) => ReachesPre(u, x, rest);
  }

  lemma {:induction false} ReachesParen(x: Tree, rest: seq<Tok>)
    requires Shaped(x)
    ensures Cast(Yield(Paren(x)) + rest) == Done(Paren(x), rest)
    decreases x, 2
  {
    var ts := Yield(Paren(x)) + rest;
    assert ts[1..] == Yield(x) + ([RPar] + rest);
    assert ([RPar] + rest)[1..] == rest;
    hide Yield, Parse, Climb;
    Reaches(x, 0, [RPar] + rest);
    ClimbStops(x, 0, [RPar] + rest);
  }

  lemma {:induction false} ReachesPre(u: Prefix, x: Tree, rest: seq<Tok>)
    requires Shaped(x) && Level(x) == 14
    ensures Cast(Yield(Pre(u, x)) + rest) == Done(Pre(u, x), rest)
    decreases x, 2
  {
    var ts := Yield(Pre(u, x)) + rest;
    assert ts[1..] == Yield(x) + rest;
    hide Yield, Parse, Climb;
    Tight(x);
    PeekBound(rest);
    Reaches(x, 13, rest);
    ClimbStops(x, 13, rest);
    OperandAlone(x, Yield(x) + rest, rest);
  }

  lemma Tight(x: Tree)
    requires Level(x) == 14
    ensures Bound(x) == 14
  {
  }

  /** Nothing binds tighter than a prefix operator. */
  lemma OperandAlone(e: Tree, ts: seq<Tok>, rest: seq<Tok>)
    requires Parse(13, ts) == Done(e, rest)
    ensures Cast(ts) == Done(e, rest)
  {
    PeekBound(Cast(ts).rest);
  }

  lemma {:induction false} ReachesBin(e: Tree, stop: nat, rest: seq<Tok>)
    requires e.Bin? && Shaped(e) && stop < Level(e) && Peek(rest) <= Bound(e)
    ensures Parse(stop, Yield(e) + rest) == Climb(e, stop, rest)
    decreases e, 0
  {
    var op, l, r := e.op, e.l, e.r;
    var ts := [Binary(op)] + (Yield(r) + rest);
    YieldBin(op, l, r, rest);
    assert ts[1..] == Yield(r) + rest;
    hide Parse, Yield, Climb;
    Reaches(l, stop, ts);
    ClimbOperator(l, stop, ts);
    Reaches(r, RightStop(op), rest);
    ClimbStops(r, RightStop(op), rest);
  }

  lemma ClimbStops(e: Tree, stop: nat, ts: seq<Tok>)
    requires Peek(ts) <= stop
    ensures Climb(e, stop, ts) == Done(e, ts)
  {
  }

  lemma {:induction false} ReachesCond(e: Tree, stop: nat, rest: seq<Tok>)
    requires e.Cond? && Shaped(e) && stop < Level(e) && Peek(rest) <= Bound(e)
    ensures Parse(stop, Yield(e) + rest) == Climb(e, stop, rest)
    decreases e, 0
  {
    var c, t, x := e.c, e.t, e.e;
    var xs := [Colon] + (Yield(x) + rest);
    var ts := [Quest] + (Yield(t) + xs);
    YieldCond(c, t, x, rest);
    assert ts[1..] == Yield(t) + xs;
    assert xs[1..] == Yield(x) + rest;
    hide Parse, Yield;
    Reaches(c, stop, ts);
    Reaches(t, 0, xs);
    Reaches(x, 2, rest);
  }

  /** The parser reads back every shaped tree and stops after its tokens. */
  lemma ParsesBack(e: Tree, stop: nat, rest: seq<Tok>)
    requires Shaped(e) && stop < Level(e) && Peek(rest) <= stop
    ensures Parse(stop, Yield(e) + rest) == Done(e, rest)
  {
    Reaches(e, stop, rest);
  }

  /** The parser returns a tree exactly when it is the shaped tree the tokens
      spell up to a point where nothing binds tighter than the stop level. */
  lemma ParsesExactly(stop: nat, ts: seq<Tok>, e: Tree, rest: seq<Tok>)
    requires stop < 14
    ensures Parse(stop, ts) == Done(e, rest)
       <==> (Shaped(e) && stop < Level(e) && Peek(rest) <= stop && ts == Yield(e) + rest)
  {
    hide Parse, Yield, Shaped;
    if Parse(stop, ts) == Done(e, rest) {
      ParseSound(stop, ts);
    }
    if Shaped(e) && stop < Level(e) && Peek(rest) <= stop && ts == Yield(e) + rest {
      ParsesBack(e, stop, rest);
    }
  }

  // ----- the printer -----

  function Strip(e: Tree): Tree {
    match e
    case Leaf(_) => e
    case Paren(x) => Strip(x)
    case Pre(u, x) => Pre(u, Strip(x))
    case Bin(op, l, r) => Bin(op, Strip(l), Strip(r))
    case Cond(c, t, x) => Cond(Strip(c), Strip(t), Strip(x))
  }

  /** Add parentheses to a bare tree where its place asks for a higher level. */
  function Place(e: Tree, least: nat): Tree
    decreases e, 1
  {
    if Level(e) < least then Paren(Print(e)) else Print(e)
  }

  function Print(e: Tree): Tree
    decreases e, 0
  {
    match e
    case Leaf(_) => e
    case Paren(x) => Print(x)
    case Pre(u, x) => Pre(u, Place(x, 14))
    case Bin(op, l, r) => Bin(op, Place(l, LeftLevel(op)), Place(r, RightLevel(op)))
    case Cond(c, t, x) => Cond(Place(c, COND_PREC + 1), Print(t), Place(x, COND_PREC))
  }

  predicate Bare(e: Tree) {
    match e
    case Leaf(_) => true
    case Paren(_) => false
    case Pre(_, x) => Bare(x)
    case Bin(_, l, r) => Bare(l) && Bare(r)
    case Cond(c, t, x) => Bare(c) && Bare(t) && Bare(x)
  }

  lemma {:induction false} PrintShaped(e: Tree)
    requires Bare(e)
    ensures Shaped(Print(e)) && Level(Print(e)) == Level(e) && Strip(Print(e)) == e
  {
    match e
    case Leaf(_) =>
    case Pre(_, x) => PrintShaped(x);
    case Bin(_, l, r) => PrintShaped(l); PrintShaped(r);
    case Cond(c, t, x) => PrintShaped(c); PrintShaped(t); PrintShaped(x);
  }

  /** Printing a tree and parsing the text gives the tree back, up to the
      parentheses, and consumes exactly that text. */
  lemma RoundTrip(e: Tree, rest: seq<Tok>)
    requires Bare(e) && Peek(rest) == 0
    ensures var r := Parse(0, Yield(Print(e)) + rest);
      r.Done? && Strip(r.e) == e && r.rest == rest
  {
    hide Parse, Yield, Shaped, Print, Strip;
    PrintShaped(e);
    ParsesBack(Print(e), 0, rest);
  }

  /** No shorter text parses to the same tree. */
  lemma {:induction false} PlaceShortest(e: Tree, least: nat)
    requires Shaped(e) && Level(e) >= least
    ensures |Yield(Place(Strip(e), least))| <= |Yield(e)|
    decreases e
  {
    match e
    case Leaf(_) =>
    case Paren(x) => PlaceShortest(x, 0);
    case Pre(_, x) => PlaceShortest(x, 14);
    case Bin(op, l, r) => PlaceShortest(l, LeftLevel(op)); PlaceShortest(r, RightLevel(op));
    case Cond(c, t, x) => PlaceShortest(c, COND_PREC + 1); PlaceShortest(t, 0); PlaceShortest(x, COND_PREC);
  }

  lemma PrintIsShortest(ts: seq<Tok>, e: Tree)
    requires Bare(e) && Parse(0, ts).Done? && Parse(0, ts).rest == [] && Strip(Parse(0, ts).e) == e
    ensures |Yield(Print(e))| <= |ts|
  {
    hide Parse, Yield, Shaped;
    ParseSound(0, ts);
    PlaceShortest(Parse(0, ts).e, 0);
  }

  // ----- the parser as it runs -----

  datatype Maybe = Nothing | Just(e: Tree)

  ghost predicate Agrees(r: Maybe, rest: seq<Tok>, p: Parsed) {
    if p.Done? then r == Just(p.e) && rest == p.rest else r == Nothing
  }

  /** A cursor over the tokens. A syntax error ends the parse. */
  class Parser {
    const toks: seq<Tok>
    var pos: nat

    constructor (toks: seq<Tok>)
      ensures this.toks == toks && Valid() && Rest() == toks
    {
      this.toks := toks;
      pos := 0;
    }

    ghost predicate Valid()
      reads this
    {
      pos <= |toks|
    }

    ghost function Rest(): seq<Tok>
      reads this
      requires Valid()
    {
      toks[pos..]
    }

    /** Consume the next token if it is the one given. */
    method Scan(t: Tok) returns (ok: bool)
      requires Valid()
      modifies this
      ensures Valid() && ok == (|old(Rest())| > 0 && old(Rest())[0] == t)
      ensures Rest() == if ok then old(Rest())[1..] else old(Rest())
    {
      ok := pos < |toks| && toks[pos] == t;
      if ok {
        pos := pos + 1;
      }
    }

    method PeekOpPrec() returns (p: nat)
      requires Valid()
      ensures p == Peek(Rest())
    {
      p := 0;
      if pos < |toks| {
        match toks[pos] {
          case Binary(op) => p := Prec(op);
          case Quest => p := COND_PREC;
          case _ =>
        }
      }
    }

    method CastExpr() returns (r: Maybe)
      requires Valid()
      modifies this
      ensures Valid() && Agrees(r, Rest(), Cast(old(Rest())))
      decreases |toks| - pos, 0
    {
      r := Nothing;
      if pos < |toks| && toks[pos].Item? {
        r := Just(Leaf(toks[pos].a));
        pos := pos + 1;
      } else if pos < |toks| && IsPrefix(toks[pos]) {
        var u := PrefixOf(toks[pos]);
        pos := pos + 1;
        var arg := CastExpr();
        if arg.Just? {
          r := Just(Pre(u, arg.e));
        }
      } else if pos < |toks| && toks[pos].LPar? {
        pos := pos + 1;
        var inner := Expression(0);
        if inner.Just? {
          var ok := Scan(RPar);
          if ok {
            r := Just(Paren(inner.e));
          }
        }
      }
    }

    /** A primary extended by operators: `stop` is 0 for an expression, 1 for an
        assignment expression, 2 for a conditional expression. */
    method Expression(stop: nat) returns (r: Maybe)
      requires Valid()
      modifies this
      ensures Valid() && Agrees(r, Rest(), Parse(stop, old(Rest())))
      decreases |toks| - pos, 1
    {
      r := CastExpr();
      if r.Just? {
        r := FExpr(r.e, stop);
      }
    }

    /** The loop: while the next operator binds tighter than the stop level,
        take it with its right operand into e. */
    method FExpr(e0: Tree, stop: nat) returns (r: Maybe)
      requires Valid()
      modifies this
      ensures Valid() && Agrees(r, Rest(), Climb(e0, stop, old(Rest())))
      decreases |toks| - pos, 2
    {
      var e := e0;
      while true
        invariant Valid() && |toks| - pos <= |toks| - old(pos)
        invariant Climb(e, stop, Rest()) == Climb(e0, stop, old(Rest()))
        decreases |toks| - pos
      {
        var prec := PeekOpPrec();
        if prec <= stop {
          return Just(e);
        }
        var operator := toks[pos];
        ghost var here := Rest();
        pos := pos + 1;
        assert Rest() == here[1..];
        if operator.Quest? {
          var t := Expression(0);
          if t.Nothing? {
            return Nothing;
          }
          var ok := Scan(Colon);
          if !ok {
            return Nothing;
          }
          var x := Expression(2);
          if x.Nothing? {
            return Nothing;
          }
          e := Cond(e, t.e, x.e);
        } else {
          var op := operator.op;
          var c := CastExpr();
          if c.Nothing? {
            return Nothing;
          }
          var next := PeekOpPrec();
          if next <= prec && LeftAssoc(op) {
            e := Bin(op, e, c.e);
          } else {
            var right := FExpr(c.e, if LeftAssoc(op) then prec else prec - 1);
            if right.Nothing? {
              return Nothing;
            }
            e := Bin(op, e, right.e);
          }
        }
      }
    }
  }
}
