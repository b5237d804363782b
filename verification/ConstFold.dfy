/** Constant subtrees are evaluated by the compiler instead of being compiled.
    This is that evaluator, wrong turns included, and exactly when its answer is
    the C value. */
module ConstFold {
  import opened Cells
  import opened CTree

  /** A folded value; no output because the compiler stopped; or a 0 or 1 that
      depends on where the compiler's own heap put the two operands. */
  datatype Folded = Known(v: Cell) | Stopped | ByAddress

  /** Does the code generator treat the expression as an integer constant? */
  predicate IsIntExpr(e: Expr) {
    match e
    case IntLit(_) => true
    case Unary(_, x) => IsIntExpr(x)
    case Binary(_, l, r) => IsIntExpr(l) && IsIntExpr(r)
    case Logic(_, l, r) => IsIntExpr(l) && IsIntExpr(r)
    case Comma(l, r) => IsIntExpr(l) && IsIntExpr(r)
    case Cond(c, a, b) => IsIntExpr(c) && IsIntExpr(a) && IsIntExpr(b)
    case Cast(_, x) => IsIntExpr(x)
    case _ => false
  }

  /** The product the Integer library computes: the magnitude of the left
      operand times the right one, negated once more if the signs differ. */
  function LibMul(a: Cell, b: Cell): Cell {
    var r := Wrap(Abs(a) * b);
    if (a < 0) != (b < 0) then Wrap(0 - r) else r
  }

  /** The library's remainder: of the magnitudes, with the divisor's sign. */
  function LibRem(a: Cell, b: Cell): Cell
    requires b != 0
  {
    var r := Abs(a) % Abs(b);
    if b < 0 then Wrap(0 - r) else Wrap(r)
  }

  /** One binary operator on folded operands of the given types. */
  function FoldBinary(op: BinOp, lt: Type, a: Cell, b: Cell): Folded {
    match op
    case Mul => Known(LibMul(a, b))
    case Div => if b == 0 then Stopped else Known(Wrap(TruncDiv(a, b)))
    case Mod => if b == 0 then Stopped else Known(LibRem(a, b))
    case Add =>
      if Pointing(lt) then Known(Wrap(a + LibMul(b, Wrap(SizeOf(Pointee(lt))))))
      else Known(Wrap(a + b))
    case Sub =>
      if Pointing(lt) then Known(Wrap(a - LibMul(b, Wrap(SizeOf(Pointee(lt))))))
      else Known(Wrap(a - b))
    case Shl => Known(if b < 1 then a else Wrap(a * Pow2(b)))
    case Shr => Known(if b < 1 then a else Wrap(a / Pow2(b)))
    case Lt => Known(Flag(a < b))
    case Gt => ByAddress
    case Le => ByAddress
    case Ge => ByAddress
    case Eq => Known(0)   // the addresses of two distinct Integers
    case Ne => Known(1)
    case Band => Known(BitwiseCell(BAnd, a, b))
    case Bxor => Known(BitwiseCell(BXor, a, b))
    case Bor => Known(BitwiseCell(BOr, a, b))
  }

  /** What two evaluated operands have come to when they are not both known. */
  function Worse(x: Folded, y: Folded): Folded {
    if x.Stopped? || y.Stopped? then Stopped else ByAddress
  }

  /** The value the compiler computes for a constant expression. */
  function Fold(e: Expr): Folded {
    match e
    case IntLit(v) => Known(v)
    case Unary(op, x) =>
      var a := Fold(x);
      if a.Known? then Known(UnaryOp(op, a.v)) else a
    case Binary(op, l, r) => 
      var a, b := Fold(l), Fold(r);
      if a.Known? && b.Known? then FoldBinary(op, TypeOf(l), a.v, b.v) else Worse(a, b)
    case Logic(conj, l, r) =>
      var a, b := Fold(l), Fold(r);
      if a.Known? && b.Known? then
        Known(Flag(if conj then a.v != 0 && b.v != 0 else a.v != 0 || b.v != 0))
      else Worse(a, b)
    case Comma(_, _) => Stopped
    case Cond(c, a, b) =>   // the condition itself, or the arm for "true"
      var t := Fold(c);
      if !t.Known? || t.v != 0 then t else Fold(a)
    case Cast(t, x) =>
      var a := Fold(x);
      if a.Known? && t.UChar? then
        var low := a.v % 256;   // an 8-bit Integer, sign-extended when widened
        Known(if low < 128 then low else low - 256)
      else a
    case _ => Stopped
  }

  function FoldValue(e: Expr): Cell {
    if Fold(e).Known? then Fold(e).v else 0
  }

  // ----- when one operator is folded correctly -----

  /** The operands on which the compiler's operator and C's agree. */
  predicate FoldsRight(op: BinOp, a: Cell, b: Cell) {
    match op
    case Mul => b >= 0 || 2 * (a * b) % MODULUS == 0
    case Div => (a < 0) == (b < 0) || (b != 0 && Abs(a) % Abs(b) == 0)
    case Mod => (a < 0) == (b < 0) || (b != 0 && (Abs(a) % Abs(b) == 0 || 2 * (Abs(a) % Abs(b)) == Abs(b)))
    case Gt => false
    case Le => false
    case Ge => false
    case Eq => a != b
    case Ne => a != b
    case _ => true
  }

  lemma LibMulIsProduct(a: Cell, b: Cell)
    ensures LibMul(a, b) == if b >= 0 then Wrap(a * b) else Wrap(-(a * b))
  {
    var r := Abs(a) * b;
    var k := (Wrap(r) - r) / MODULUS;
    assert Wrap(r) == r + k * MODULUS;
    WrapOfCongruent(0 - Wrap(r), -r, -k);
    if a < 0 {
      assert Abs(a) * b == -(a * b);
    }
    if a == 0 {
      assert a * b == 0;
    }
  }

  /** Negating a product changes it unless twice the product is a multiple of 2^32. */
  lemma NegatedProduct(p: int)
    ensures Wrap(-p) == Wrap(p) <==> 2 * p % MODULUS == 0
  {
    var q, r := p / MODULUS, p % MODULUS;
    assert p == q * MODULUS + r;
    if r == 0 {
      WrapOfCongruent(p, 0, q);
      WrapOfCongruent(-p, 0, -q);
      assert 2 * p == (2 * q) * MODULUS;
      ModUnique(2 * p, MODULUS, 2 * q, 0);
    } else {
      assert -p == (-q - 1) * MODULUS + (MODULUS - r);
      ModUnique(-p, MODULUS, -q - 1, MODULUS - r);
      if 2 * r < MODULUS {
        ModUnique(2 * p, MODULUS, 2 * q, 2 * r);
      } else {
        ModUnique(2 * p, MODULUS, 2 * q + 1, 2 * r - MODULUS);
      }
    }
  }

  /** The floored quotient in terms of the magnitudes. */
  lemma FloorDivOfMagnitudes(a: int, b: int)
    requires b != 0
    ensures var q: int, r: int := Abs(a) / Abs(b), Abs(a) % Abs(b);
            FloorDiv(a, b) == if (a < 0) == (b < 0) || a == 0 then q else if r == 0 then -q else -q - 1
  {
    NegativeQuotient(Abs(a), Abs(b));
    if a == 0 {
      ModUnique(0, Abs(b), 0, 0);
    }
  }

  lemma MulOfSigns(y: int, q: int)
    ensures (-y) * q == -(y * q) && y * (-q) == -(y * q) && (-y) * (-q) == y * q
    ensures y * (-q - 1) == -(y * q) - y && (-y) * (-q - 1) == y * q + y
  {
  }

  /** The floored remainder in terms of the magnitudes. */
  lemma FloorModOfMagnitudes(a: int, b: int)
    requires b != 0
    ensures var y: int, r: int := Abs(b), Abs(a) % Abs(b);
            FloorMod(a, b) == if (a < 0) == (b < 0) || a == 0 || r == 0 then (if b < 0 then -r else r)
                              else if b < 0 then r - y else y - r
  {
    var y: int, q: int, r: int := Abs(b), Abs(a) / Abs(b), Abs(a) % Abs(b);
    FloorDivOfMagnitudes(a, b);
    MulOfSigns(y, q);
    var p := y * q;
    assert Abs(a) == p + r;
    if a == 0 {
      ModUnique(0, y, 0, 0);
    }
  }

  /** The library's remainder is the floored one exactly when the signs agree or
      the magnitude's remainder is nothing or half the divisor. */
  lemma LibRemIsFloored(a: Cell, b: Cell)
    requires b != 0
    ensures LibRem(a, b) == Wrap(FloorMod(a, b))
       <==> ((a < 0) == (b < 0) || Abs(a) % Abs(b) == 0 || 2 * (Abs(a) % Abs(b)) == Abs(b))
  {
    FloorModOfMagnitudes(a, b);
  }

  lemma ShiftByNone(a: Cell)
    ensures a * Pow2(0) == a && a / Pow2(0) == a
  {
  }

  /** For every operator and all operands on which C defines it: the compiler's
      result is the C value exactly when FoldsRight holds. */
  lemma FoldBinaryExact(op: BinOp, a: Cell, b: Cell)
    requires Arith(op, a, b).Some?
    ensures FoldBinary(op, Int, a, b) == Known(Arith(op, a, b).value) <==> FoldsRight(op, a, b)
  {
    match op
    case Mul => LibMulIsProduct(a, b); NegatedProduct(a * b);
    case Div =>
      TruncMeetsFloor(a, b);
    case Mod => LibRemIsFloored(a, b);
    case Shl => ShiftByNone(a);
    case Shr => ShiftByNone(a);
    case _ =>
  }

  /** A constant `?:` folds to its condition when that is not zero and to the
      first arm otherwise, so it is right exactly when that is the arm C takes. */
  lemma FoldCondExact(c: Expr, a: Expr, b: Expr)
    requires Fold(c).Known? && Fold(a).Known? && Fold(b).Known?
    ensures var taken := if Fold(c).v != 0 then Fold(a) else Fold(b);
      Fold(Cond(c, a, b)) == taken <==> taken == if Fold(c).v != 0 then Fold(c) else Fold(a)
  {
  }

  /** A condition on a constant expression, checked node by node on the values
      the compiler itself computes, under which folding gives the C value. */
  predicate FoldOk(e: Expr) {
    Fold(e).Known? &&
    match e
    case IntLit(_) => true
    case Unary(_, x) => FoldOk(x)
    case Binary(op, l, r) =>
      FoldOk(l) && FoldOk(r) &&
      if (op == Add || op == Sub) && Pointing(TypeOf(l)) then
        !Pointing(TypeOf(r)) && SizeOf(Pointee(TypeOf(l))) < HALF
      else FoldsRight(op, Fold(l).v, Fold(r).v)
    case Logic(_, l, r) => FoldOk(l) && FoldOk(r)
    case Cond(c, a, b) =>
      FoldOk(c) && FoldOk(a) && FoldOk(b)
      && if Fold(c).v != 0 then Fold(a) == Fold(c) else Fold(b) == Fold(a)
    case Cast(t, x) => FoldOk(x) && (t.UChar? ==> Fold(x).v % 256 < 128)
    case _ => false
  }

  /** Scaling by an element size is folded correctly. */
  lemma LibMulScales(b: Cell, size: nat)
    requires size < HALF
    ensures LibMul(b, Wrap(size)) == Wrap(b * size)
  {
    LibMulIsProduct(b, Wrap(size));
  }

  /** Under FoldOk a binary node folds to what C computes, when C computes
      anything. */
  lemma FoldBinaryOk(op: BinOp, l: Expr, r: Expr)
    requires FoldOk(Binary(op, l, r))
    ensures var z := Operate(op, TypeOf(l), TypeOf(r), Fold(l).v, Fold(r).v);
            z.Some? ==> Fold(Binary(op, l, r)) == Known(z.value)
  {
    hide Wrap, LibMul, LibRem, Arith, BitwiseCell, Pow2, TruncDiv;
    var a, b, lt := Fold(l).v, Fold(r).v, TypeOf(l);
    assert Fold(Binary(op, l, r)) == FoldBinary(op, lt, a, b);
    if (op == Add || op == Sub) && Pointing(lt) {
      var size := SizeOf(Pointee(lt));
      LibMulScales(b, size);
      WrapAdd(a, b * size);
      WrapSub(a, b * size);
    } else if Arith(op, a, b).Some? {
      FoldBinaryExact(op, a, b);
      SameWithoutPointers(op, lt, a, b);
    }
  }

  lemma SameWithoutPointers(op: BinOp, lt: Type, a: Cell, b: Cell)
    requires !((op == Add || op == Sub) && Pointing(lt))
    ensures FoldBinary(op, lt, a, b) == FoldBinary(op, Int, a, b)
  {
    hide Wrap, LibMul, LibRem, BitwiseCell, Pow2, TruncDiv;
  }

  lemma WrapSub(x: int, y: int)
    ensures Wrap(x - Wrap(y)) == Wrap(x - y)
  {
    var j := (Wrap(y) - y) / MODULUS;
    assert Wrap(y) == y + j * MODULUS;
    WrapOfCongruent(x - Wrap(y), x - y, -j);
  }
}
