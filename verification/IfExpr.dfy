/** The evaluator of `#if` expressions: one layer per precedence level, values
    computed while reading. It agrees with parsing the same tokens by precedence
    climbing and evaluating the tree. */
module IfExpr {
  import opened Cells
  import opened ExprParser

  /** A value of type long, which is taken to have 32 bits, and whether it came
      from signed operands. */
  datatype Ret = Ret(val: Cell, signed: bool)

  /** What the host makes of an operation its C leaves undefined: a shift by a
      negative or too large amount, or the quotient of the least integer by -1. */
  type Host = (Op, Cell, Cell) -> Cell

  datatype Out = Err | Val(r: Ret, rest: seq<Tok>)

  // ----- operators on values -----

  predicate Shared(op: Op) {
    Prec(op) > COND_PREC
  }

  function Divide(h: Host, op: Op, a: Ret, b: Ret): Cell
    requires op == Slash || op == Percent
  {
    if b.val == 0 || a.val == 0 then a.val
    else if !(a.signed && b.signed) then
      Wrap(if op == Slash then Bits(a.val) / Bits(b.val) else Bits(a.val) % Bits(b.val))
    else if a.val == -HALF && b.val == -1 then h(op, a.val, b.val)
    else
      var q := TruncDiv(a.val, b.val);
      Wrap(if op == Slash then q else a.val - b.val * q)
  }

  function Shift(h: Host, op: Op, a: Ret, n: Cell): Cell
    requires op == LShift || op == RShift
  {
    if !(0 <= n < 32) then h(op, a.val, n)
    else if op == LShift then Wrap(a.val * Pow2(n))
    else Wrap((if a.signed then a.val else Bits(a.val)) / Pow2(n))
  }

  function Compare(op: Op, x: int, y: int): bool {
    match op
    case Less => x < y
    case LessEq => x <= y
    case Greater => x > y
    case _ => x >= y
  }

  function Apply(h: Host, op: Op, a: Ret, b: Ret): Ret
    requires Shared(op)
  {
    var both := a.signed && b.signed;
    match op
    case Star => Ret(Wrap(a.val * b.val), both)
    case Slash => Ret(Divide(h, op, a, b), both)
    case Percent => Ret(Divide(h, op, a, b), both)
    case Plus => Ret(Wrap(a.val + b.val), both)
    case Minus => Ret(Wrap(a.val - b.val), both)
    case LShift => Ret(Shift(h, op, a, b.val), a.signed)
    case RShift => Ret(Shift(h, op, a, b.val), a.signed)
    case Equal => Ret(Flag(a.val == b.val), true)
    case NotEq => Ret(Flag(a.val != b.val), true)
    case And => Ret(BitwiseCell(BAnd, a.val, b.val), both)
    case Xor => Ret(BitwiseCell(BXor, a.val, b.val), both)
    case Or => Ret(BitwiseCell(BOr, a.val, b.val), both)
    case AndAnd => Ret(Flag(a.val != 0 && b.val != 0), both)
    case OrOr => Ret(Flag(a.val != 0 || b.val != 0), both)
    case _ => Ret(Flag(if both then Compare(op, a.val, b.val) else Compare(op, Bits(a.val), Bits(b.val))), true)
  }

  function ApplyPrefix(u: Prefix, a: Ret): Ret {
    match u
    case Neg => a.(val := Wrap(0 - a.val))
    case Not => a.(val := Flag(a.val == 0))
    case _ => a.(val := Wrap(-1 - a.val))
  }

  /** A name still there after macro expansion counts as zero. */
  function AtomValue(a: Atom): Ret {
    match a
    case Name(_) => Ret(0, true)
    case Number(v, signed) => Ret(Wrap(v), signed)
  }

  // ----- the meaning of a tree -----

  predicate Evaluable(e: Tree) {
    match e
    case Leaf(_) => true
    case Paren(x) => Evaluable(x)
    case Pre(u, x) => u in {Neg, Not, Compl} && Evaluable(x)
    case Bin(op, l, r) => Shared(op) && Evaluable(l) && Evaluable(r)
    case Cond(c, t, x) => Evaluable(c) && Evaluable(t) && Evaluable(x)
  }

  function Eval(h: Host, e: Tree): Ret
    requires Evaluable(e)
  {
    match e
    case Leaf(a) => AtomValue(a)
    case Paren(x) => Eval(h, x)
    case Pre(u, x) => ApplyPrefix(u, Eval(h, x))
    case Bin(op, l, r) => Apply(h, op, Eval(h, l), Eval(h, r))
    case Cond(c, t, x) => if Eval(h, c).val != 0 then Eval(h, t) else Eval(h, x)
  }

  // ----- the layers -----

  /** Prefix operators and primaries. */
  function Unary(h: Host, ts: seq<Tok>): (o: Out)
    ensures o.Val? ==> |o.rest| < |ts|
    decreases |ts|, 0
  {
    if |ts| == 0 then Err
    else if IsPrefix(ts[0]) && PrefixOf(ts[0]) in {Neg, Not, Compl} then
      var o := Unary(h, ts[1..]);
      if o.Val? then Val(ApplyPrefix(PrefixOf(ts[0]), o.r), o.rest) else Err
    else if ts[0].Item? then Val(AtomValue(ts[0].a), ts[1..])
    else if ts[0].LPar? then
      var o := Conditional(h, ts[1..]);
      if o.Val? && |o.rest| > 0 && o.rest[0].RPar? then Val(o.r, o.rest[1..]) else Err
    else Err
  }

  /** Binary operators of precedence k over the layer above; 14 is Unary. */
  function Layer(h: Host, k: nat, ts: seq<Tok>): (o: Out)
    requires COND_PREC < k <= 14
    ensures o.Val? ==> |o.rest| < |ts|
    decreases |ts|, 15 - k
  {
    if k == 14 then Unary(h, ts)
    else
      var o := Layer(h, k + 1, ts);
      if o.Val? then More(h, k, o.r, o.rest) else Err
  }

  /** The loop of one layer. */
  function More(h: Host, k: nat, a: Ret, ts: seq<Tok>): (o: Out)
    requires COND_PREC < k < 14
    ensures o.Val? ==> |o.rest| <= |ts|
    decreases |ts|, 15
  {
    if Peek(ts) != k then Val(a, ts)
    else
      var o := Layer(h, k + 1, ts[1..]);
      if o.Val? then More(h, k, Apply(h, ts[0].op, a, o.r), o.rest) else Err
  }

  /** Both arms are evaluated, whichever is taken. */
  function Conditional(h: Host, ts: seq<Tok>): (o: Out)
    ensures o.Val? ==> |o.rest| < |ts|
    decreases |ts|, 16
  {
    var c := Layer(h, COND_PREC + 1, ts);
    if c.Err? || |c.rest| == 0 || !c.rest[0].Quest? then c
    else
      var t := Conditional(h, c.rest[1..]);
      if t.Err? || |t.rest| == 0 || !t.rest[0].Colon? then Err
      else
        var x := Conditional(h, t.rest[1..]);
        if x.Val? then Val(if c.r.val != 0 then t.r else x.r, x.rest) else Err
  }

  // ----- agreement with parse-then-evaluate -----

  /** Tokens without assignments and commas. */
  ghost predicate SharedToks(ts: seq<Tok>) {
    forall i :: 0 <= i < |ts| && ts[i].Binary? ==> Shared(ts[i].op)
  }

  /** Evaluate what was parsed. */
  function Meaning(h: Host, p: Parsed): Out {
    if p.Done? && Evaluable(p.e) then Val(Eval(h, p.e), p.rest) else Err
  }

  /** Climbing to a lower stop level goes through every higher one. */
  lemma {:induction false} ClimbInStages(e: Tree, stop: nat, stop': nat, ts: seq<Tok>)
    requires stop' <= stop
    ensures Climb(e, stop', ts)
         == (var r := Climb(e, stop, ts); if r.Done? then Climb(r.e, stop', r.rest) else Fail)
    decreases |ts|
  {
    if Peek(ts) > stop {
      hide Cast, Parse, Climb;
      if ts[0].Quest? {
        ClimbQuest(e, stop, ts);
        ClimbQuest(e, stop', ts);
        var t := Parse(0, ts[1..]);
        if t.Done? && |t.rest| > 0 && t.rest[0].Colon? {
          var x := Parse(2, t.rest[1..]);
          if x.Done? {
            ClimbInStages(Cond(e, t.e, x.e), stop, stop', x.rest);
          }
        }
      } else {
        ClimbOperator(e, stop, ts);
        ClimbOperator(e, stop', ts);
        var op := ts[0].op;
        var r := Parse(RightStop(op), ts[1..]);
        if r.Done? {
          ClimbInStages(Bin(op, e, r.e), stop, stop', r.rest);
        }
      }
    }
  }

  lemma ClimbQuest(e: Tree, stop: nat, ts: seq<Tok>)
    requires Peek(ts) > stop && ts[0].Quest?
    ensures var t := Parse(0, ts[1..]);
      Climb(e, stop, ts)
      == if t.Fail? || |t.rest| == 0 || !t.rest[0].Colon? then Fail
         else var x := Parse(2, t.rest[1..]);
           if x.Done? then Climb(Cond(e, t.e, x.e), stop, x.rest) else Fail
  {
    hide Parse, Cast;
  }

  /** What is left after parsing is a suffix. */
  lemma Suffix(stop: nat, ts: seq<Tok>)
    requires SharedToks(ts) && stop < 14 && Parse(stop, ts).Done?
    ensures SharedToks(Parse(stop, ts).rest)
  {
    hide Parse, Yield, Shaped;
    ParseSound(stop, ts);
    var r := Parse(stop, ts);
    assert ts == Yield(r.e) + r.rest;
    forall i | 0 <= i < |r.rest| && r.rest[i].Binary? ensures Shared(r.rest[i].op) {
      assert r.rest[i] == ts[|Yield(r.e)| + i];
    }
  }

  /** Climbing keeps what it started from inside the result. */
  lemma {:induction false} ClimbKeeps(e: Tree, stop: nat, ts: seq<Tok>)
    requires !Evaluable(e)
    ensures var r := Climb(e, stop, ts); r.Done? ==> !Evaluable(r.e)
    decreases |ts|
  {
    if Peek(ts) > stop {
      hide Cast, Parse, Climb;
      if ts[0].Quest? {
        ClimbQuest(e, stop, ts);
        var t := Parse(0, ts[1..]);
        if t.Done? && |t.rest| > 0 && t.rest[0].Colon? {
          var x := Parse(2, t.rest[1..]);
          if x.Done? {
            ClimbKeeps(Cond(e, t.e, x.e), stop, x.rest);
          }
        }
      } else {
        ClimbOperator(e, stop, ts);
        var r := Parse(RightStop(ts[0].op), ts[1..]);
        if r.Done? {
          ClimbKeeps(Bin(ts[0].op, e, r.e), stop, r.rest);
        }
      }
    }
  }

  lemma {:induction false} UnaryAgrees(h: Host, ts: seq<Tok>)
    requires SharedToks(ts)
    ensures Unary(h, ts) == Meaning(h, Cast(ts))
    decreases |ts|, 0
  {
    if |ts| > 0 {
      TailShared(ts);
      if IsPrefix(ts[0]) {
        UnaryAgrees(h, ts[1..]);
      } else if ts[0].LPar? {
        ConditionalAgrees(h, ts[1..]);
        NoLooser(ts[1..]);
      }
    }
  }

  lemma TailShared(ts: seq<Tok>)
    requires SharedToks(ts) && |ts| > 0
    ensures SharedToks(ts[1..])
  {
    forall i | 0 <= i < |ts[1..]| && ts[1..][i].Binary? ensures Shared(ts[1..][i].op) {
      assert ts[1..][i] == ts[i + 1];
    }
  }

  /** Without assignments and commas, an expression is a conditional expression. */
  lemma NoLooser(ts: seq<Tok>)
    requires SharedToks(ts)
    ensures Parse(0, ts) == Parse(2, ts)
  {
    hide Climb, Cast, Yield, Shaped;
    var c := Cast(ts);
    if c.Done? {
      ClimbInStages(c.e, 2, 0, c.rest);
      var r := Climb(c.e, 2, c.rest);
      if r.Done? {
        Suffix(2, ts);
        ParseSound(2, ts);
        NothingLooser(r.e, r.rest);
      }
    }
  }

  lemma NothingLooser(e: Tree, ts: seq<Tok>)
    requires SharedToks(ts) && Peek(ts) <= 2
    ensures Climb(e, 0, ts) == Done(e, ts)
  {
  }

  /** A layer reads what climbing down to its precedence reads. */
  lemma {:induction false} LayerAgrees(h: Host, k: nat, ts: seq<Tok>)
    requires SharedToks(ts) && COND_PREC < k <= 14
    ensures Layer(h, k, ts) == Meaning(h, Parse(k - 1, ts))
    decreases |ts|, 15 - k
  {
    hide Climb, Cast, Yield, Shaped, Eval, Evaluable, More, Parse, Unary;
    if k == 14 {
      UnaryAgrees(h, ts);
      TopLevel(ts);
    } else {
      LayerAgrees(h, k + 1, ts);
      ParseInStages(k, k - 1, ts);
      var r := Parse(k, ts);
      if r.Done? {
        Suffix(k, ts);
        ParseSound(k, ts);
        if Evaluable(r.e) {
          MoreAgrees(h, k, r.e, r.rest);
        } else {
          ClimbKeeps(r.e, k - 1, r.rest);
        }
      }
    }
  }

  lemma TopLevel(ts: seq<Tok>)
    ensures Parse(13, ts) == Cast(ts)
  {
    hide Cast;
    var c := Cast(ts);
    if c.Done? {
      PeekBound(c.rest);
      ClimbStops(c.e, 13, c.rest);
    }
  }

  lemma ParseInStages(stop: nat, stop': nat, ts: seq<Tok>)
    requires stop' <= stop
    ensures Parse(stop', ts)
         == (var r := Parse(stop, ts); if r.Done? then Climb(r.e, stop', r.rest) else Fail)
  {
    hide Climb, Cast;
    var c := Cast(ts);
    if c.Done? {
      ClimbInStages(c.e, stop, stop', c.rest);
    }
  }

  lemma {:induction false} MoreAgrees(h: Host, k: nat, e: Tree, ts: seq<Tok>)
    requires SharedToks(ts) && COND_PREC < k < 14 && Evaluable(e) && Peek(ts) <= k
    ensures More(h, k, Eval(h, e), ts) == Meaning(h, Climb(e, k - 1, ts))
    decreases |ts|, 15
  {
    if Peek(ts) == k {
      hide Cast, Parse, Climb, Layer, Yield, Shaped, Apply;
      var op := ts[0].op;
      TailShared(ts);
      ClimbOperator(e, k - 1, ts);
      LayerAgrees(h, k + 1, ts[1..]);
      var r := Parse(k, ts[1..]);
      if r.Done? {
        Suffix(k, ts[1..]);
        ParseSound(k, ts[1..]);
        if Evaluable(r.e) {
          MoreAgrees(h, k, Bin(op, e, r.e), r.rest);
        } else {
          ClimbKeeps(Bin(op, e, r.e), k - 1, r.rest);
        }
      }
    } else {
      ClimbStops(e, k - 1, ts);
    }
  }

  /** On every string of the shared operators, the layered evaluator gives the
      value and signedness of the tree the expression parser builds and stops at
      the same token; it fails exactly when there is no such tree, or it holds a
      prefix operator that `#if` does not have. */
  lemma {:induction false} ConditionalAgrees(h: Host, ts: seq<Tok>)
    requires SharedToks(ts)
    ensures Conditional(h, ts) == Meaning(h, Parse(2, ts))
    decreases |ts|, 16
  {
    hide Climb, Cast, Yield, Shaped, Layer, Parse;
    LayerAgrees(h, 4, ts);
    ParseInStages(3, 2, ts);
    var c := Parse(3, ts);
    if c.Done? {
      Suffix(3, ts);
      ParseSound(3, ts);
      if |c.rest| > 0 && c.rest[0].Quest? {
        ArmsAgree(h, c.e, c.rest);
      } else {
        ClimbStops(c.e, 2, c.rest);
      }
    }
  }

  /** The arms of a conditional whose condition has been read. */
  lemma {:induction false} ArmsAgree(h: Host, e: Tree, ts: seq<Tok>)
    requires SharedToks(ts) && |ts| > 0 && ts[0].Quest?
    ensures var t := Conditional(h, ts[1..]);
      Meaning(h, Climb(e, 2, ts))
      == if !Evaluable(e) || t.Err? || |t.rest| == 0 || !t.rest[0].Colon? then Err
         else var x := Conditional(h, t.rest[1..]);
           if x.Val? then Val(if Eval(h, e).val != 0 then t.r else x.r, x.rest) else Err
    decreases |ts|, 15
  {
    hide Climb, Cast, Yield, Shaped, Conditional, Parse;
    TailShared(ts);
    NoLooser(ts[1..]);
    ConditionalAgrees(h, ts[1..]);
    ClimbQuest(e, 2, ts);
    var t := Parse(0, ts[1..]);
    if t.Done? && |t.rest| > 0 && t.rest[0].Colon? {
      Suffix(0, ts[1..]);
      TailShared(t.rest);
      ConditionalAgrees(h, t.rest[1..]);
      var x := Parse(2, t.rest[1..]);
      if x.Done? {
        ParseSound(2, t.rest[1..]);
        ClimbStops(Cond(e, t.e, x.e), 2, x.rest);
      }
    }
  }

  // ----- the evaluator as it runs -----

  /** Directive text: tokens with white space among them. */
  datatype Node = White | Solid(t: Tok)

  function Squeeze(ns: seq<Node>): seq<Tok> {
    if |ns| == 0 then []
    else if ns[0].White? then Squeeze(ns[1..])
    else [ns[0].t] + Squeeze(ns[1..])
  }

  /** A result variable, passed by reference and overwritten. */
  class RetVar {
    var val: Cell
    var signed: bool

    constructor ()
    {
      val, signed := 0, true;
    }

    function Get(): Ret
      reads this
    {
      Ret(val, signed)
    }

    method Put(r: Ret)
      modifies this
      ensures Get() == r
    {
      val, signed := r.val, r.signed;
    }
  }

  class Evaluator {
    const h: Host
    const buf: seq<Node>
    var pos: nat

    constructor (h: Host, buf: seq<Node>)
      ensures Valid() && this.h == h && this.buf == buf && Rest() == Squeeze(buf)
    {
      this.h := h;
      this.buf := buf;
      pos := 0;
    }

    ghost predicate Valid()
      reads this
    {
      pos <= |buf|
    }

    ghost function Rest(): seq<Tok>
      reads this
      requires Valid()
    {
      Squeeze(buf[pos..])
    }

    /** What a method that reads an expression promises. */
    twostate predicate Reads(ok: bool, ret: RetVar, o: Out)
      reads this, ret
    {
      Valid() && pos >= old(pos)
      && (ok <==> o.Val?) && (ok ==> ret.Get() == o.r && Rest() == o.rest && pos > old(pos))
    }

    method SkipWhite()
      requires Valid()
      modifies this
      ensures Valid() && Rest() == old(Rest()) && pos >= old(pos)
      ensures pos < |buf| ==> buf[pos].Solid? && Rest() == [buf[pos].t] + Squeeze(buf[pos + 1..])
      ensures pos == |buf| ==> Rest() == []
    {
      while pos < |buf| && buf[pos].White?
        invariant Valid() && Rest() == old(Rest()) && pos >= old(pos)
      {
        assert buf[pos..][1..] == buf[pos + 1..];
        pos := pos + 1;
      }
      if pos < |buf| {
        assert buf[pos..][1..] == buf[pos + 1..];
      }
    }

    /** Step over the next token if it is the one given. */
    method Expect(t: Tok) returns (ok: bool)
      requires Valid()
      modifies this
      ensures Valid() && pos >= old(pos) && ok == (|old(Rest())| > 0 && old(Rest())[0] == t)
      ensures Rest() == if ok then old(Rest())[1..] else old(Rest())
      ensures ok ==> pos > old(pos)
    {
      SkipWhite();
      ok := pos < |buf| && buf[pos].t == t;
      if ok {
        pos := pos + 1;
      }
    }

    method EvalUnary(ret: RetVar) returns (ok: bool)
      requires Valid()
      modifies this, ret
      ensures Reads(ok, ret, Unary(h, old(Rest())))
      decreases |buf| - pos, 0
    {
      SkipWhite();
      ret.signed := true;
      if pos == |buf| {
        return false;
      }
      var t := buf[pos].t;
      assert Rest()[1..] == Squeeze(buf[pos + 1..]);
      if IsPrefix(t) && PrefixOf(t) in {Neg, Not, Compl} {
        pos := pos + 1;
        ok := EvalUnary(ret);
        if ok {
          ret.Put(ApplyPrefix(PrefixOf(t), ret.Get()));
        }
      } else if t.Item? {
        pos := pos + 1;
        ret.Put(AtomValue(t.a));
        ok := true;
      } else if t.LPar? {
        pos := pos + 1;
        ok := EvalConditional(ret);
        if ok {
          ok := Expect(RPar);
        }
      } else {
        ok := false;
      }
    }

    /** The functions multiplicative to logical_or differ in the operators they
        take, those of one precedence k, and in the function for the operands. */
    method EvalLayer(k: nat, ret: RetVar) returns (ok: bool)
      requires Valid() && COND_PREC < k <= 14
      modifies this, ret
      ensures Reads(ok, ret, Layer(h, k, old(Rest())))
      decreases |buf| - pos, 15 - k
    {
      if k == 14 {
        ok := EvalUnary(ret);
      } else {
        ok := EvalLayer(k + 1, ret);
        if ok {
          ok := EvalMore(k, ret);
        }
      }
    }

    /** The loop of such a function, after its first operand. */
    method EvalMore(k: nat, ret: RetVar) returns (ok: bool)
      requires Valid() && COND_PREC < k < 14
      modifies this, ret
      ensures Valid() && pos >= old(pos)
      ensures var o := More(h, k, old(ret.Get()), old(Rest()));
        (ok <==> o.Val?) && (ok ==> ret.Get() == o.r && Rest() == o.rest)
      decreases |buf| - pos, 15
    {
      hide Apply, Layer;
      var e2 := new RetVar();
      while true
        invariant Valid() && pos >= old(pos) && fresh(e2)
        invariant More(h, k, ret.Get(), Rest()) == More(h, k, old(ret.Get()), old(Rest()))
        decreases |buf| - pos
      {
        SkipWhite();
        if pos == |buf| || Peek([buf[pos].t]) != k {
          return true;
        }
        var op := buf[pos].t.op;
        assert Rest()[1..] == Squeeze(buf[pos + 1..]) && Peek(Rest()) == k;
        pos := pos + 1;
        ok := EvalLayer(k + 1, e2);
        if !ok {
          return;
        }
        ret.Put(Apply(h, op, ret.Get(), e2.Get()));
      }
    }

    method EvalConditional(ret: RetVar) returns (ok: bool)
      requires Valid()
      modifies this, ret
      ensures Reads(ok, ret, Conditional(h, old(Rest())))
      decreases |buf| - pos, 16
    {
      ok := EvalLayer(COND_PREC + 1, ret);
      if !ok {
        return;
      }
      var question := Expect(Quest);
      if !question {
        return;
      }
      var e1 := new RetVar();
      var e2 := new RetVar();
      ok := EvalConditional(e1);
      if !ok {
        return;
      }
      ok := Expect(Colon);
      if !ok {
        return;
      }
      ok := EvalConditional(e2);
      if ok {
        if ret.val != 0 {
          ret.Put(e1.Get());
        } else {
          ret.Put(e2.Get());
        }
      }
    }
  }
}
