/** The grammar of expressions in section 6.3 of ISO/IEC 9899:1990, one predicate a
    nonterminal, each with its own operators; and that the parser accepts it. */
module Grammar {
  import opened ExprParser

  // ----- derivations: a tree and the tokens derived from the nonterminal -----

  ghost predicate Primary(strict: bool, e: Tree, ts: seq<Tok>)
    decreases e, 0
  {
    match e
    case Leaf(a) => ts == [Item(a)]
    case Paren(x) => |ts| >= 2 && ts[0] == LPar && ts[|ts| - 1] == RPar && Expression(strict, x, ts[1..|ts| - 1])
    case _ => false
  }

  /** The operators a unary expression can begin with. */
  predicate UnaryOperator(u: Prefix, t: Tok) {
    || (t == Binary(And) && u == Addr) || (t == Binary(Star) && u == Deref)
    || (t == Binary(Plus) && u == Pos) || (t == Binary(Minus) && u == Neg)
    || (t == Tilde && u == Compl) || (t == Bang && u == Not)
  }

  /** A cast expression, of which casts are left out. */
  ghost predicate CastExpression(strict: bool, e: Tree, ts: seq<Tok>)
    decreases e, 1
  {
    || Primary(strict, e, ts)
    || (e.Pre? && |ts| > 0 && UnaryOperator(e.u, ts[0]) && CastExpression(strict, e.x, ts[1..]))
  }

  ghost predicate Multiplicative(strict: bool, e: Tree, ts: seq<Tok>)
    decreases e, 2
  {
    || CastExpression(strict, e, ts)
    || (e.Bin? && e.op in {Star, Slash, Percent} && exists a: seq<Tok>, b: seq<Tok> ::
          ts == a + [Binary(e.op)] + b && Multiplicative(strict, e.l, a) && CastExpression(strict, e.r, b))
  }

  ghost predicate Additive(strict: bool, e: Tree, ts: seq<Tok>)
    decreases e, 3
  {
    || Multiplicative(strict, e, ts)
    || (e.Bin? && e.op in {Plus, Minus} && exists a: seq<Tok>, b: seq<Tok> ::
          ts == a + [Binary(e.op)] + b && Additive(strict, e.l, a) && Multiplicative(strict, e.r, b))
  }

  ghost predicate ShiftExpression(strict: bool, e: Tree, ts: seq<Tok>)
    decreases e, 4
  {
    || Additive(strict, e, ts)
    || (e.Bin? && e.op in {LShift, RShift} && exists a: seq<Tok>, b: seq<Tok> ::
          ts == a + [Binary(e.op)] + b && ShiftExpression(strict, e.l, a) && Additive(strict, e.r, b))
  }

  ghost predicate Relational(strict: bool, e: Tree, ts: seq<Tok>)
    decreases e, 5
  {
    || ShiftExpression(strict, e, ts)
    || (e.Bin? && e.op in {Less, Greater, LessEq, GreaterEq} && exists a: seq<Tok>, b: seq<Tok> ::
          ts == a + [Binary(e.op)] + b && Relational(strict, e.l, a) && ShiftExpression(strict, e.r, b))
  }

  ghost predicate Equality(strict: bool, e: Tree, ts: seq<Tok>)
    decreases e, 6
  {
    || Relational(strict, e, ts)
    || (e.Bin? && e.op in {Equal, NotEq} && exists a: seq<Tok>, b: seq<Tok> ::
          ts == a + [Binary(e.op)] + b && Equality(strict, e.l, a) && Relational(strict, e.r, b))
  }

  ghost predicate AndExpression(strict: bool, e: Tree, ts: seq<Tok>)
    decreases e, 7
  {
    || Equality(strict, e, ts)
    || (e.Bin? && e.op in {And} && exists a: seq<Tok>, b: seq<Tok> ::
          ts == a + [Binary(e.op)] + b && AndExpression(strict, e.l, a) && Equality(strict, e.r, b))
  }

  ghost predicate ExclusiveOr(strict: bool, e: Tree, ts: seq<Tok>)
    decreases e, 8
  {
    || AndExpression(strict, e, ts)
    || (e.Bin? && e.op in {Xor} && exists a: seq<Tok>, b: seq<Tok> ::
          ts == a + [Binary(e.op)] + b && ExclusiveOr(strict, e.l, a) && AndExpression(strict, e.r, b))
  }

  ghost predicate InclusiveOr(strict: bool, e: Tree, ts: seq<Tok>)
    decreases e, 9
  {
    || ExclusiveOr(strict, e, ts)
    || (e.Bin? && e.op in {Or} && exists a: seq<Tok>, b: seq<Tok> ::
          ts == a + [Binary(e.op)] + b && InclusiveOr(strict, e.l, a) && ExclusiveOr(strict, e.r, b))
  }

  ghost predicate LogicalAnd(strict: bool, e: Tree, ts: seq<Tok>)
    decreases e, 10
  {
    || InclusiveOr(strict, e, ts)
    || (e.Bin? && e.op in {AndAnd} && exists a: seq<Tok>, b: seq<Tok> ::
          ts == a + [Binary(e.op)] + b && LogicalAnd(strict, e.l, a) && InclusiveOr(strict, e.r, b))
  }

  ghost predicate LogicalOr(strict: bool, e: Tree, ts: seq<Tok>)
    decreases e, 11
  {
    || LogicalAnd(strict, e, ts)
    || (e.Bin? && e.op in {OrOr} && exists a: seq<Tok>, b: seq<Tok> ::
          ts == a + [Binary(e.op)] + b && LogicalOr(strict, e.l, a) && LogicalAnd(strict, e.r, b))
  }

  ghost predicate Conditional(strict: bool, e: Tree, ts: seq<Tok>)
    decreases e, 12
  {
    || LogicalOr(strict, e, ts)
    || (e.Cond? && exists a: seq<Tok>, b: seq<Tok>, c: seq<Tok> ::
          ts == a + [Quest] + b + [Colon] + c
          && LogicalOr(strict, e.c, a) && Expression(strict, e.t, b) && Conditional(strict, e.e, c))
  }

  predicate AssignmentOperator(op: Op) {
    op in {Set, MulEq, DivEq, ModEq, PlusEq, MinusEq, LShiftEq, RShiftEq, AndEq, XorEq, OrEq}
  }

  /** The standard wants a unary expression on the left of an assignment; the
      parser takes any conditional expression there. */
  ghost predicate Assignment(strict: bool, e: Tree, ts: seq<Tok>)
    decreases e, 13
  {
    || Conditional(strict, e, ts)
    || (e.Bin?
        && AssignmentOperator(e.op)
        && exists a: seq<Tok>, b: seq<Tok> ::
          ts == a + [Binary(e.op)] + b
          && (if strict then CastExpression(strict, e.l, a) else Conditional(strict, e.l, a))
          && Assignment(strict, e.r, b))
  }

  ghost predicate Expression(strict: bool, e: Tree, ts: seq<Tok>)
    decreases e, 14
  {
    || Assignment(strict, e, ts)
    || (e.Bin? && e.op in {Comma} && exists a: seq<Tok>, b: seq<Tok> ::
          ts == a + [Binary(e.op)] + b && Expression(strict, e.l, a) && Assignment(strict, e.r, b))
  }

  // ----- the shapes the parser is specified by derive the same -----

  /** Every assignment in the tree has an operand without operators at its left. */
  predicate UnaryLeft(e: Tree) {
    match e
    case Leaf(_) => true
    case Paren(x) => UnaryLeft(x)
    case Pre(_, x) => UnaryLeft(x)
    case Bin(op, l, r) =>
      && UnaryLeft(l) && UnaryLeft(r)
      && (AssignmentOperator(op) ==>
            !l.Bin? && !l.Cond?)
    case Cond(c, t, x) => UnaryLeft(c) && UnaryLeft(t) && UnaryLeft(x)
  }

  ghost predicate At(strict: bool, least: nat, e: Tree, ts: seq<Tok>) {
    Shaped(e) && Level(e) >= least && (strict ==> UnaryLeft(e)) && ts == Yield(e)
  }

  /** An operator splits the tokens of a shaped tree in one way. */
  lemma BinSplits(strict: bool, left: nat, right: nat, e: Tree, ts: seq<Tok>)
    requires e.Bin? && LeftLevel(e.op) == left && RightLevel(e.op) == right
    ensures (exists a: seq<Tok>, b: seq<Tok> ::
               ts == a + [Binary(e.op)] + b
               && At(strict, left, e.l, a) && At(strict, right, e.r, b))
       <==> Shaped(e) && (strict ==> UnaryLeft(e.l) && UnaryLeft(e.r)) && ts == Yield(e)
  {
    var a, b := Yield(e.l), Yield(e.r);
    if Shaped(e) && (strict ==> UnaryLeft(e.l) && UnaryLeft(e.r)) && ts == Yield(e) {
      assert ts == a + [Binary(e.op)] + b;
      assert At(strict, left, e.l, a) && At(strict, right, e.r, b);
    }
  }

  /** One level and the next differ by the operators of that level. */
  lemma Exactly(strict: bool, k: nat, e: Tree, ts: seq<Tok>)
    ensures At(strict, k, e, ts) <==> At(strict, k + 1, e, ts) || (At(strict, k, e, ts) && Level(e) == k)
    ensures e.Bin? && Level(e) == k && k != 2 && k >= 1 ==>
      (At(strict, k, e, ts) <==> Shaped(e) && (strict ==> UnaryLeft(e.l) && UnaryLeft(e.r)) && ts == Yield(e))
  {
    hide Yield, Shaped;
  }

  lemma {:induction false} PrimaryIs(strict: bool, e: Tree, ts: seq<Tok>)
    ensures Primary(strict, e, ts) <==> (e.Leaf? || e.Paren?) && At(strict, 14, e, ts)
    decreases e, 0
  {
    if e.Paren? {
      if |ts| >= 2 {
        ExpressionIs(strict, e.inner, ts[1..|ts| - 1]);
        assert ts[0] == LPar && ts[|ts| - 1] == RPar ==> ts == [LPar] + ts[1..|ts| - 1] + [RPar];
      }
      var y := Yield(e.inner);
      assert ([LPar] + y + [RPar])[1..|y| + 1] == y;
    }
  }

  lemma {:induction false} CastIs(strict: bool, e: Tree, ts: seq<Tok>)
    ensures CastExpression(strict, e, ts) <==> At(strict, 14, e, ts)
    decreases e, 1
  {
    hide Primary;
    PrimaryIs(strict, e, ts);
    if e.Pre? && |ts| > 0 {
      CastIs(strict, e.x, ts[1..]);
      assert ts == [ts[0]] + ts[1..];
      assert ([PrefixTok(e.u)] + Yield(e.x))[1..] == Yield(e.x);
    }
  }

  lemma {:induction false} MultiplicativeIs(strict: bool, e: Tree, ts: seq<Tok>)
    ensures Multiplicative(strict, e, ts) <==> At(strict, 13, e, ts)
    decreases e, 2
  {
    hide CastExpression, At;
    CastIs(strict, e, ts);
    if e.Bin? && e.op in {Star, Slash, Percent} {
      forall a: seq<Tok> ensures Multiplicative(strict, e.l, a) <==> At(strict, 13, e.l, a) {
        MultiplicativeIs(strict, e.l, a);
      }
      forall b: seq<Tok> ensures CastExpression(strict, e.r, b) <==> At(strict, 14, e.r, b) {
        CastIs(strict, e.r, b);
      }
      BinSplits(strict, 13, 14, e, ts);
    }
    Exactly(strict, 13, e, ts);
  }

  lemma {:induction false} AdditiveIs(strict: bool, e: Tree, ts: seq<Tok>)
    ensures Additive(strict, e, ts) <==> At(strict, 12, e, ts)
    decreases e, 3
  {
    hide Multiplicative, At;
    MultiplicativeIs(strict, e, ts);
    if e.Bin? && e.op in {Plus, Minus} {
      forall a: seq<Tok> ensures Additive(strict, e.l, a) <==> At(strict, 12, e.l, a) {
        AdditiveIs(strict, e.l, a);
      }
      forall b: seq<Tok> ensures Multiplicative(strict, e.r, b) <==> At(strict, 13, e.r, b) {
        MultiplicativeIs(strict, e.r, b);
      }
      BinSplits(strict, 12, 13, e, ts);
    }
    Exactly(strict, 12, e, ts);
  }

  lemma {:induction false} ShiftExpressionIs(strict: bool, e: Tree, ts: seq<Tok>)
    ensures ShiftExpression(strict, e, ts) <==> At(strict, 11, e, ts)
    decreases e, 4
  {
    hide Additive, At;
    AdditiveIs(strict, e, ts);
    if e.Bin? && e.op in {LShift, RShift} {
      forall a: seq<Tok> ensures ShiftExpression(strict, e.l, a) <==> At(strict, 11, e.l, a) {
        ShiftExpressionIs(strict, e.l, a);
      }
      forall b: seq<Tok> ensures Additive(strict, e.r, b) <==> At(strict, 12, e.r, b) {
        AdditiveIs(strict, e.r, b);
      }
      BinSplits(strict, 11, 12, e, ts);
    }
    Exactly(strict, 11, e, ts);
  }

  lemma {:induction false} RelationalIs(strict: bool, e: Tree, ts: seq<Tok>)
    ensures Relational(strict, e, ts) <==> At(strict, 10, e, ts)
    decreases e, 5
  {
    hide ShiftExpression, At;
    ShiftExpressionIs(strict, e, ts);
    if e.Bin? && e.op in {Less, Greater, LessEq, GreaterEq} {
      forall a: seq<Tok> ensures Relational(strict, e.l, a) <==> At(strict, 10, e.l, a) {
        RelationalIs(strict, e.l, a);
      }
      forall b: seq<Tok> ensures ShiftExpression(strict, e.r, b) <==> At(strict, 11, e.r, b) {
        ShiftExpressionIs(strict, e.r, b);
      }
      BinSplits(strict, 10, 11, e, ts);
    }
    Exactly(strict, 10, e, ts);
  }

  lemma {:induction false} EqualityIs(strict: bool, e: Tree, ts: seq<Tok>)
    ensures Equality(strict, e, ts) <==> At(strict, 9, e, ts)
    decreases e, 6
  {
    hide Relational, At;
    RelationalIs(strict, e, ts);
    if e.Bin? && e.op in {Equal, NotEq} {
      forall a: seq<Tok> ensures Equality(strict, e.l, a) <==> At(strict, 9, e.l, a) {
        EqualityIs(strict, e.l, a);
      }
      forall b: seq<Tok> ensures Relational(strict, e.r, b) <==> At(strict, 10, e.r, b) {
        RelationalIs(strict, e.r, b);
      }
      BinSplits(strict, 9, 10, e, ts);
    }
    Exactly(strict, 9, e, ts);
  }

  lemma {:induction false} AndExpressionIs(strict: bool, e: Tree, ts: seq<Tok>)
    ensures AndExpression(strict, e, ts) <==> At(strict, 8, e, ts)
    decreases e, 7
  {
    hide Equality, At;
    EqualityIs(strict, e, ts);
    if e.Bin? && e.op in {And} {
      forall a: seq<Tok> ensures AndExpression(strict, e.l, a) <==> At(strict, 8, e.l, a) {
        AndExpressionIs(strict, e.l, a);
      }
      forall b: seq<Tok> ensures Equality(strict, e.r, b) <==> At(strict, 9, e.r, b) {
        EqualityIs(strict, e.r, b);
      }
      BinSplits(strict, 8, 9, e, ts);
    }
    Exactly(strict, 8, e, ts);
  }

  lemma {:induction false} ExclusiveOrIs(strict: bool, e: Tree, ts: seq<Tok>)
    ensures ExclusiveOr(strict, e, ts) <==> At(strict, 7, e, ts)
    decreases e, 8
  {
    hide AndExpression, At;
    AndExpressionIs(strict, e, ts);
    if e.Bin? && e.op in {Xor} {
      forall a: seq<Tok> ensures ExclusiveOr(strict, e.l, a) <==> At(strict, 7, e.l, a) {
        ExclusiveOrIs(strict, e.l, a);
      }
      forall b: seq<Tok> ensures AndExpression(strict, e.r, b) <==> At(strict, 8, e.r, b) {
        AndExpressionIs(strict, e.r, b);
      }
      BinSplits(strict, 7, 8, e, ts);
    }
    Exactly(strict, 7, e, ts);
  }

  lemma {:induction false} InclusiveOrIs(strict: bool, e: Tree, ts: seq<Tok>)
    ensures InclusiveOr(strict, e, ts) <==> At(strict, 6, e, ts)
    decreases e, 9
  {
    hide ExclusiveOr, At;
    ExclusiveOrIs(strict, e, ts);
    if e.Bin? && e.op in {Or} {
      forall a: seq<Tok> ensures InclusiveOr(strict, e.l, a) <==> At(strict, 6, e.l, a) {
        InclusiveOrIs(strict, e.l, a);
      }
      forall b: seq<Tok> ensures ExclusiveOr(strict, e.r, b) <==> At(strict, 7, e.r, b) {
        ExclusiveOrIs(strict, e.r, b);
      }
      BinSplits(strict, 6, 7, e, ts);
    }
    Exactly(strict, 6, e, ts);
  }

  lemma {:induction false} LogicalAndIs(strict: bool, e: Tree, ts: seq<Tok>)
    ensures LogicalAnd(strict, e, ts) <==> At(strict, 5, e, ts)
    decreases e, 10
  {
    hide InclusiveOr, At;
    InclusiveOrIs(strict, e, ts);
    if e.Bin? && e.op in {AndAnd} {
      forall a: seq<Tok> ensures LogicalAnd(strict, e.l, a) <==> At(strict, 5, e.l, a) {
        LogicalAndIs(strict, e.l, a);
      }
      forall b: seq<Tok> ensures InclusiveOr(strict, e.r, b) <==> At(strict, 6, e.r, b) {
        InclusiveOrIs(strict, e.r, b);
      }
      BinSplits(strict, 5, 6, e, ts);
    }
    Exactly(strict, 5, e, ts);
  }

  lemma {:induction false} LogicalOrIs(strict: bool, e: Tree, ts: seq<Tok>)
    ensures LogicalOr(strict, e, ts) <==> At(strict, 4, e, ts)
    decreases e, 11
  {
    hide LogicalAnd, At;
    LogicalAndIs(strict, e, ts);
    if e.Bin? && e.op in {OrOr} {
      forall a: seq<Tok> ensures LogicalOr(strict, e.l, a) <==> At(strict, 4, e.l, a) {
        LogicalOrIs(strict, e.l, a);
      }
      forall b: seq<Tok> ensures LogicalAnd(strict, e.r, b) <==> At(strict, 5, e.r, b) {
        LogicalAndIs(strict, e.r, b);
      }
      BinSplits(strict, 4, 5, e, ts);
    }
    Exactly(strict, 4, e, ts);
  }

  lemma {:induction false} ConditionalIs(strict: bool, e: Tree, ts: seq<Tok>)
    ensures Conditional(strict, e, ts) <==> At(strict, 3, e, ts)
    decreases e, 12
  {
    hide LogicalOr, Expression, At;
    LogicalOrIs(strict, e, ts);
    if e.Cond? {
      forall a: seq<Tok> ensures LogicalOr(strict, e.c, a) <==> At(strict, 4, e.c, a) {
        LogicalOrIs(strict, e.c, a);
      }
      forall b: seq<Tok> ensures Expression(strict, e.t, b) <==> At(strict, 1, e.t, b) {
        ExpressionIs(strict, e.t, b);
      }
      forall c: seq<Tok> ensures Conditional(strict, e.e, c) <==> At(strict, 3, e.e, c) {
        ConditionalIs(strict, e.e, c);
      }
      CondSplits(strict, e, ts);
    }
    NotConditional(strict, e, ts);
  }

  lemma NotConditional(strict: bool, e: Tree, ts: seq<Tok>)
    ensures At(strict, 3, e, ts) <==> At(strict, 4, e, ts) || (e.Cond? && At(strict, 3, e, ts))
  {
    hide Yield, Shaped;
  }

  lemma CondSplits(strict: bool, e: Tree, ts: seq<Tok>)
    requires e.Cond?
    ensures (exists a: seq<Tok>, b: seq<Tok>, c: seq<Tok> ::
               ts == a + [Quest] + b + [Colon] + c
               && At(strict, 4, e.c, a) && At(strict, 1, e.t, b) && At(strict, 3, e.e, c))
       <==> At(strict, 3, e, ts)
  {
    var a, b, c := Yield(e.c), Yield(e.t), Yield(e.e);
    if At(strict, 3, e, ts) {
      assert ts == a + [Quest] + b + [Colon] + c;
      assert At(strict, 4, e.c, a) && At(strict, 1, e.t, b) && At(strict, 3, e.e, c);
    }
  }

  lemma Assigning(strict: bool, e: Tree, ts: seq<Tok>)
    ensures At(strict, 2, e, ts) <==> At(strict, 3, e, ts) || (At(strict, 2, e, ts) && Level(e) == 2)
    ensures e.Bin? && Level(e) == 2 ==>
      (At(strict, 2, e, ts) <==>
         Shaped(e) && (strict ==> UnaryLeft(e.l) && UnaryLeft(e.r) && !e.l.Bin? && !e.l.Cond?) && ts == Yield(e))
  {
    hide Yield;
  }

  lemma OperandAt(strict: bool, e: Tree, ts: seq<Tok>)
    ensures At(strict, 14, e, ts) <==> At(strict, 3, e, ts) && !e.Bin? && !e.Cond?
  {
    hide Yield, Shaped;
  }

  lemma {:induction false} AssignmentIs(strict: bool, e: Tree, ts: seq<Tok>)
    ensures Assignment(strict, e, ts) <==> At(strict, 2, e, ts)
    decreases e, 13
  {
    hide Conditional, CastExpression, At;
    ConditionalIs(strict, e, ts);
    if e.Bin? && AssignmentOperator(e.op) {
      forall a: seq<Tok>
        ensures CastExpression(strict, e.l, a) <==> At(strict, 3, e.l, a) && !e.l.Bin? && !e.l.Cond?
        ensures Conditional(strict, e.l, a) <==> At(strict, 3, e.l, a)
      {
        CastIs(strict, e.l, a);
        OperandAt(strict, e.l, a);
        ConditionalIs(strict, e.l, a);
      }
      forall b: seq<Tok> ensures Assignment(strict, e.r, b) <==> At(strict, 2, e.r, b) {
        AssignmentIs(strict, e.r, b);
      }
      BinSplits(strict, 3, 2, e, ts);
    }
    Assigning(strict, e, ts);
  }

  lemma {:induction false} ExpressionIs(strict: bool, e: Tree, ts: seq<Tok>)
    ensures Expression(strict, e, ts) <==> At(strict, 1, e, ts)
    decreases e, 14
  {
    hide Assignment;
    AssignmentIs(strict, e, ts);
    if e.Bin? && e.op in {Comma} {
      forall a: seq<Tok> ensures Expression(strict, e.l, a) <==> At(strict, 1, e.l, a) {
        ExpressionIs(strict, e.l, a);
      }
      forall b: seq<Tok> ensures Assignment(strict, e.r, b) <==> At(strict, 2, e.r, b) {
        AssignmentIs(strict, e.r, b);
      }
      BinSplits(strict, 1, 2, e, ts);
    }
  }

  // ----- the parser accepts the grammar -----

  /** What an expression parsed with no stop level can be followed by. */
  predicate Ends(rest: seq<Tok>) {
    rest == [] || !(rest[0].Binary? || rest[0].Quest?)
  }

  lemma Follows(rest: seq<Tok>)
    ensures Peek(rest) <= 0 <==> Ends(rest)
    ensures Peek(rest) <= 1 <==> Ends(rest) || rest[0] == Binary(Comma)
    ensures Peek(rest) <= 2
       <==> Ends(rest) || rest[0] == Binary(Comma) || (rest[0].Binary? && AssignmentOperator(rest[0].op))
  {
  }

  lemma TakenFrom(ts: seq<Tok>, y: seq<Tok>, rest: seq<Tok>)
    ensures ts == y + rest <==> |rest| <= |ts| && ts[|ts| - |rest|..] == rest && ts[..|ts| - |rest|] == y
  {
    if |rest| <= |ts| { assert ts == ts[..|ts| - |rest|] + ts[|ts| - |rest|..]; }
    assert (y + rest)[|y|..] == rest && (y + rest)[..|y|] == y;
  }

  /** The parser returns a tree exactly when the grammar derives the tokens it took
      as that tree, and no operator comes next; assignments apart, the grammar is
      the standard's. */
  lemma ParsesGrammar(ts: seq<Tok>, e: Tree, rest: seq<Tok>)
    ensures Parse(0, ts) == Done(e, rest)
       <==> Ends(rest) && |rest| <= |ts| && ts[|ts| - |rest|..] == rest
            && Expression(false, e, ts[..|ts| - |rest|])
  {
    Follows(rest);
    hide Parse, Expression, Shaped, Yield, Peek, Ends, AssignmentOperator, Level;
    ParsesExactly(0, ts, e, rest);
    TakenFrom(ts, Yield(e), rest);
    if |rest| <= |ts| {
      ExpressionIs(false, e, ts[..|ts| - |rest|]);
    }
  }

  /** The same for what the caller asks with a stop level: an assignment
      expression, and a conditional expression. */
  lemma ParsesAssignment(ts: seq<Tok>, e: Tree, rest: seq<Tok>)
    ensures Parse(1, ts) == Done(e, rest)
       <==> (Ends(rest) || rest[0] == Binary(Comma)) && |rest| <= |ts| && ts[|ts| - |rest|..] == rest
            && Assignment(false, e, ts[..|ts| - |rest|])
  {
    Follows(rest);
    hide Parse, Assignment, Shaped, Yield, Peek, Ends, AssignmentOperator, Level;
    ParsesExactly(1, ts, e, rest);
    TakenFrom(ts, Yield(e), rest);
    if |rest| <= |ts| {
      AssignmentIs(false, e, ts[..|ts| - |rest|]);
    }
  }

  lemma ParsesConditional(ts: seq<Tok>, e: Tree, rest: seq<Tok>)
    ensures Parse(2, ts) == Done(e, rest)
       <==> (Ends(rest) || rest[0] == Binary(Comma) || (rest[0].Binary? && AssignmentOperator(rest[0].op)))
            && |rest| <= |ts| && ts[|ts| - |rest|..] == rest && Conditional(false, e, ts[..|ts| - |rest|])
  {
    Follows(rest);
    hide Parse, Conditional, Shaped, Yield, Peek, Ends, AssignmentOperator, Level;
    ParsesExactly(2, ts, e, rest);
    TakenFrom(ts, Yield(e), rest);
    if |rest| <= |ts| {
      ConditionalIs(false, e, ts[..|ts| - |rest|]);
    }
  }

  /** A tree the parser returns is the standard's for its tokens exactly when no
      assignment in it has an operator at the top of its left operand. */
  lemma StandardExactly(ts: seq<Tok>, e: Tree)
    requires Parse(0, ts) == Done(e, [])
    ensures Expression(true, e, ts) <==> UnaryLeft(e)
  {
    hide Parse, Expression, Shaped, Yield;
    ParsesExactly(0, ts, e, []);
    ExpressionIs(true, e, ts);
    assert Yield(e) + [] == Yield(e);
  }
}
