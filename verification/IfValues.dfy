/** What the operators of `#if` compute: on signed operands the value the compiler
    gives the same operator, on unsigned ones arithmetic modulo 2^32. */
module IfValues {
  import opened Options
  import opened Cells
  import opened ExprParser
  import opened IfExpr
  import C = CTree

  /** The operator of C expressions, for those that do not divide. */
  function OfC(op: Op): Option<C.BinOp> {
    match op
    case Star => Some(C.Mul)
    case Plus => Some(C.Add)
    case Minus => Some(C.Sub)
    case LShift => Some(C.Shl)
    case RShift => Some(C.Shr)
    case Less => Some(C.Lt)
    case Greater => Some(C.Gt)
    case LessEq => Some(C.Le)
    case GreaterEq => Some(C.Ge)
    case Equal => Some(C.Eq)
    case NotEq => Some(C.Ne)
    case And => Some(C.Band)
    case Xor => Some(C.Bxor)
    case Or => Some(C.Bor)
    case _ => None
  }

  /** On signed operands `#if` computes what the compiled expression does. */
  lemma SignedIsC(h: Host, op: Op, x: Cell, y: Cell)
    requires OfC(op).Some? && C.Arith(OfC(op).value, x, y).Some?
    ensures Apply(h, op, Ret(x, true), Ret(y, true)) == Ret(C.Arith(OfC(op).value, x, y).value, true)
  {
    hide Wrap, BitwiseCell, Pow2, Flag;
  }

  lemma QuotientBounds(m: nat, n: nat, q: nat, r: nat)
    requires n > 0 && m == n * q + r
    ensures q <= m && (n >= 2 ==> 2 * q <= m)
  {
    if q > 0 {
      MulAtLeast(n, q);
      if n >= 2 {
        MulAtLeast(n - 1, q);
        assert n * q == (n - 1) * q + q;
      }
    }
  }

  /** The quotient of magnitudes. */
  lemma Magnitudes(m: nat, n: nat)
    requires n > 0
    ensures m == n * (m / n) + m % n && 0 <= m / n <= m && (n >= 2 ==> 2 * (m / n) <= m)
  {
    QuotientBounds(m, n, m / n, m % n);
  }

  lemma SignMul(y: int, q: int)
    ensures y * q == if y < 0 then -(Abs(y) * q) else Abs(y) * q
    ensures y * (-q) == -(y * q)
  {
  }

  lemma TruncLaw(x: int, y: int)
    requires y != 0
    ensures var t := TruncDiv(x, y);
      Abs(t) <= Abs(x) && (Abs(y) >= 2 ==> 2 * Abs(t) <= Abs(x))
    ensures var r := x - y * TruncDiv(x, y); Abs(r) < Abs(y) && (r == 0 || (r < 0) == (x < 0))
  {
    var q := Abs(x) / Abs(y);
    Magnitudes(Abs(x), Abs(y));
    SignMul(y, q);
  }

  /** Quotient and remainder on signed operands round toward zero; dividing by
      zero leaves the left operand, with a warning. */
  lemma SignedDivides(h: Host, x: Cell, y: Cell)
    ensures var q, r := Apply(h, Slash, Ret(x, true), Ret(y, true)), Apply(h, Percent, Ret(x, true), Ret(y, true));
      && q.signed && r.signed
      && (y == 0 ==> q.val == x && r.val == x)
      && (y != 0 && !(x == -HALF && y == -1) ==>
        x == q.val * y + r.val && Abs(r.val) < Abs(y) && (r.val == 0 || (r.val < 0) == (x < 0)))
  {
    hide TruncDiv, Divide, Abs, Wrap;
    if y != 0 && x != 0 && !(x == -HALF && y == -1) {
      TruncLaw(x, y);
      TruncFits(x, y);
      DivideSigned(h, x, y);
    } else if y == 0 || x == 0 {
      DivideZero(h, x, y);
    }
  }

  lemma TruncFits(x: Cell, y: Cell)
    requires y != 0 && !(x == -HALF && y == -1)
    ensures var t := TruncDiv(x, y); Wrap(t) == t && Wrap(x - y * t) == x - y * t
  {
    TruncLaw(x, y);
    hide TruncDiv;
    assert -HALF <= TruncDiv(x, y) < HALF;
  }

  lemma DivideSigned(h: Host, x: Cell, y: Cell)
    requires y != 0 && x != 0 && !(x == -HALF && y == -1)
    ensures var t := TruncDiv(x, y);
      Divide(h, Slash, Ret(x, true), Ret(y, true)) == Wrap(t) &&
      Divide(h, Percent, Ret(x, true), Ret(y, true)) == Wrap(x - y * t)
  {
    hide TruncDiv, Wrap;
  }

  lemma DivideZero(h: Host, x: Cell, y: Cell)
    requires y == 0 || x == 0
    ensures Divide(h, Slash, Ret(x, true), Ret(y, true)) == x == Divide(h, Percent, Ret(x, true), Ret(y, true))
    ensures Abs(0) == 0 && (y != 0 ==> Abs(y) > 0)
  {
  }

  /** The operation on unsigned values, before it is reduced. */
  function Unreduced(op: Op, m: int, n: int): int
    requires op in {Star, Plus, Minus}
  {
    if op == Star then m * n else if op == Plus then m + n else m - n
  }

  /** With an unsigned operand: arithmetic modulo 2^32, and an unsigned result. */
  lemma UnsignedIsModular(h: Host, op: Op, a: Ret, b: Ret)
    requires !(a.signed && b.signed) && op in {Star, Plus, Minus}
    ensures var r := Apply(h, op, a, b);
      !r.signed && Bits(r.val) == Unreduced(op, Bits(a.val), Bits(b.val)) % MODULUS
  {
    hide Bits, Wrap;
    var i := Turns(a.val);
    var j := Turns(b.val);
    CongruentOp(op, Bits(a.val), i, Bits(b.val), j);
    BitsOfWrap(Unreduced(op, Bits(a.val), Bits(b.val)));
  }

  lemma CongruentOp(op: Op, m: int, i: int, n: int, j: int)
    requires op in {Star, Plus, Minus}
    ensures Wrap(Unreduced(op, m + i * MODULUS, n + j * MODULUS)) == Wrap(Unreduced(op, m, n))
  {
    hide Wrap;
    if op == Star {
      Distribute(m, i, n, j);
      WrapOfCongruent((m + i * MODULUS) * (n + j * MODULUS), m * n, m * j + i * n + i * j * MODULUS);
    } else if op == Plus {
      WrapOfCongruent((m + i * MODULUS) + (n + j * MODULUS), m + n, i + j);
    } else {
      WrapOfCongruent((m + i * MODULUS) - (n + j * MODULUS), m - n, i - j);
    }
  }

  lemma Turns(x: Cell) returns (i: int)
    ensures x == Bits(x) + i * MODULUS
  {
    i := (x - Bits(x)) / MODULUS;
  }

  lemma BitsOfWrap(x: int)
    ensures Bits(Wrap(x)) == x % MODULUS
  {
  }

  /** The same for division; by zero it leaves the left operand. */
  lemma UnsignedDivides(h: Host, a: Ret, b: Ret)
    requires !(a.signed && b.signed)
    ensures var q, r := Apply(h, Slash, a, b), Apply(h, Percent, a, b);
      && !q.signed && !r.signed
      && (b.val == 0 ==> q.val == a.val && r.val == a.val)
      && (b.val != 0 ==> Bits(q.val) == Bits(a.val) / Bits(b.val) && Bits(r.val) == Bits(a.val) % Bits(b.val))
  {
    if b.val != 0 {
      assert Bits(b.val) != 0;
      Magnitudes(Bits(a.val), Bits(b.val));
      BitsOfWrap(Bits(a.val) / Bits(b.val));
      BitsOfWrap(Bits(a.val) % Bits(b.val));
      ModUnique(0, Bits(b.val), 0, 0);
    }
  }

  lemma Distribute(m: int, i: int, n: int, j: int)
    ensures (m + i * MODULUS) * (n + j * MODULUS) == m * n + (m * j + i * n + i * j * MODULUS) * MODULUS
  {
  }

  /** With an unsigned operand: comparisons by the unsigned order. The result of a
      comparison is signed. */
  lemma UnsignedOrder(h: Host, op: Op, a: Ret, b: Ret)
    requires !(a.signed && b.signed) && op in {Less, LessEq, Greater, GreaterEq, Equal, NotEq}
    ensures var m, n := Bits(a.val), Bits(b.val);
      Apply(h, op, a, b) == Ret(Flag(match op
                                     case Less => m < n
                                     case LessEq => m < n || m == n
                                     case Greater => n < m
                                     case GreaterEq => n < m || m == n
                                     case Equal => m == n
                                     case _ => m != n), true)
  {
  }

  /** Shifts go by the left operand alone; on an unsigned one zeros come in. */
  lemma UnsignedShifts(h: Host, a: Ret, b: Ret)
    requires !a.signed && 0 <= b.val < 32
    ensures var l, r := Apply(h, LShift, a, b), Apply(h, RShift, a, b);
      && !l.signed && Bits(l.val) == (Bits(a.val) * Pow2(b.val)) % MODULUS
      && !r.signed && Bits(r.val) == Bits(a.val) / Pow2(b.val)
  {
    hide Bits, Pow2, Wrap;
    var i := Turns(a.val);
    var m, p := Bits(a.val), Pow2(b.val);
    Scaled(m, i, p);
    BitsOfWrap(m * p);
    Magnitudes(m, p);
    BitsOfWrap(m / p);
    SmallMod(m / p);
  }

  lemma SmallMod(x: int)
    requires 0 <= x < MODULUS
    ensures x % MODULUS == x
  {
  }

  lemma Scaled(m: int, i: int, p: int)
    ensures Wrap((m + i * MODULUS) * p) == Wrap(m * p)
  {
    assert (m + i * MODULUS) * p == m * p + (i * p) * MODULUS;
    WrapOfCongruent((m + i * MODULUS) * p, m * p, i * p);
  }

  lemma CellBits(op: BitOp, a: Cell, b: Cell)
    ensures Bits(BitwiseCell(op, a, b)) == Bitwise(op, Bits(a), Bits(b), 32)
  {
    hide Bitwise, Pow2;
    PowFull();
    BitsOfWrap(Bitwise(op, Bits(a), Bits(b), 32));
  }

  /** Bit by bit, whatever the operands. */
  lemma BitsAreC(h: Host, op: Op, a: Ret, b: Ret, i: nat)
    requires op in {And, Or, Xor} && i < 32
    ensures Apply(h, op, a, b).signed == (a.signed && b.signed)
    ensures Bits(Apply(h, op, a, b).val) / Pow2(i) % 2
         == Mixed(if op == And then BAnd else if op == Or then BOr else BXor,
                  Bits(a.val) / Pow2(i) % 2, Bits(b.val) / Pow2(i) % 2)
  {
    hide Bitwise, Pow2, Bits, BitwiseCell, Mixed;
    var bop := if op == And then BAnd else if op == Or then BOr else BXor;
    CellBits(bop, a.val, b.val);
    BitwiseBit(bop, Bits(a.val), Bits(b.val), 32, i);
  }

  lemma PowFull()
    ensures Pow2(32) == MODULUS
  {
    assert Pow2(8) == 256;
    assert Pow2(16) == 65536 by { assert Pow2(12) == 4096; }
    assert Pow2(24) == 0x100_0000 by { assert Pow2(20) == 0x10_0000; }
    assert Pow2(28) == 0x1000_0000;
  }

  /** `&&` and `||` by whether the operands are zero; the sign of the result is
      not that of `int` but the operands'. */
  lemma Connectives(h: Host, a: Ret, b: Ret)
    ensures Apply(h, AndAnd, a, b) == Ret(if Bits(a.val) == 0 || Bits(b.val) == 0 then 0 else 1, a.signed && b.signed)
    ensures Apply(h, OrOr, a, b) == Ret(if Bits(a.val) == 0 && Bits(b.val) == 0 then 0 else 1, a.signed && b.signed)
  {
  }

  /** Prefix operators: those of C on a signed operand, modulo 2^32 on any. */
  lemma PrefixIsC(a: Ret)
    ensures var neg, compl, not := ApplyPrefix(Neg, a), ApplyPrefix(Compl, a), ApplyPrefix(Not, a);
      && neg.signed == compl.signed == not.signed == a.signed
      && neg.val == C.UnaryOp(C.UnOp.Neg, a.val) && compl.val == C.UnaryOp(C.UnOp.Compl, a.val)
      && not.val == C.UnaryOp(C.UnOp.Not, a.val)
      && Bits(neg.val) == (MODULUS - Bits(a.val)) % MODULUS && Bits(compl.val) == MODULUS - 1 - Bits(a.val)
      && not.val == if Bits(a.val) == 0 then 1 else 0
  {
    var i := Turns(a.val);
    WrapOfCongruent(0 - a.val, MODULUS - Bits(a.val), -i - 1);
    WrapOfCongruent(-1 - a.val, MODULUS - 1 - Bits(a.val), -i - 1);
  }

  /** A name left over is zero; a number is its value, modulo 2^32. */
  lemma AtomIsC(a: Atom)
    ensures var r := AtomValue(a);
      if a.Name? then r == Ret(0, true) else r.signed == a.signed && Bits(r.val) == a.v % MODULUS
  {
  }
}
