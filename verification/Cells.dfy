/** 32-bit two's-complement cells: the machine words of the generated Forth and
    the `int`/pointer values of the C it comes from. */
module Cells {

  const MODULUS: int := 0x1_0000_0000
  const HALF: int := 0x8000_0000

  /** A Forth cell, read as the signed number the engine computes with. */
  type Cell = x: int | -HALF <= x < HALF

  /** Any integer reduced to 32 bits, as a signed cell. */
  function Wrap(x: int): (c: Cell)
    ensures c % MODULUS == x % MODULUS
    ensures -HALF <= x < HALF ==> c == x
  {
    var r := x % MODULUS;
    if r < HALF then r else r - MODULUS
  }

  /** The unsigned reading of a cell. */
  function Bits(c: Cell): (n: nat)
    ensures n < MODULUS && Wrap(n) == c
  {
    c % MODULUS
  }

  lemma WrapOfCongruent(x: int, y: int, k: int)
    requires x == y + k * MODULUS
    ensures Wrap(x) == Wrap(y)
  {
    assert x % MODULUS == y % MODULUS;
  }

  lemma WrapAdd(x: int, y: int)
    ensures Wrap(Wrap(x) + y) == Wrap(x + y)
    ensures Wrap(x + Wrap(y)) == Wrap(x + y)
  {
    var k := (Wrap(x) - x) / MODULUS;
    assert Wrap(x) == x + k * MODULUS;
    WrapOfCongruent(Wrap(x) + y, x + y, k);
    var j := (Wrap(y) - y) / MODULUS;
    assert Wrap(y) == y + j * MODULUS;
    WrapOfCongruent(x + Wrap(y), x + y, j);
  }

  lemma WrapMul(x: int, y: int)
    ensures Wrap(Wrap(x) * y) == Wrap(x * y)
  {
    var k := (Wrap(x) - x) / MODULUS;
    assert Wrap(x) == x + k * MODULUS;
    assert Wrap(x) * y == x * y + (k * y) * MODULUS;
    WrapOfCongruent(Wrap(x) * y, x * y, k * y);
  }

  function Pow2(n: nat): (p: nat)
    ensures p > 0
  {
    if n == 0 then 1 else 2 * Pow2(n - 1)
  }

  // ----- bitwise operators -----

  datatype BitOp = BAnd | BOr | BXor

  /** One bit of a bitwise operator. */
  function Bit(op: BitOp, p: int, q: int): (r: int)
    ensures r == 0 || r == 1
  {
    match op
    case BAnd => if p == 1 && q == 1 then 1 else 0
    case BOr => if p == 1 || q == 1 then 1 else 0
    case BXor => if p != q then 1 else 0
  }

  /** A bitwise operator on the low n bits of two numbers. */
  function Bitwise(op: BitOp, a: nat, b: nat, n: nat): (r: nat)
    ensures r < Pow2(n)
  {
    if n == 0 then 0 else 2 * Bitwise(op, a / 2, b / 2, n - 1) + Bit(op, a % 2, b % 2)
  }

  function BitwiseCell(op: BitOp, a: Cell, b: Cell): Cell {
    Wrap(Bitwise(op, Bits(a), Bits(b), 32))
  }

  lemma HalveDiv(a: nat, p: nat)
    requires p > 0
    ensures a / (2 * p) == (a / 2) / p
  {
    var q, r := (a / 2) / p, (a / 2) % p;
    assert a / 2 == q * p + r;
    assert a == q * (2 * p) + (2 * r + a % 2);
    ModUnique(a, 2 * p, q, 2 * r + a % 2);
  }

  /** The operators on single bits, by arithmetic alone. */
  function Mixed(op: BitOp, x: int, y: int): int {
    match op
    case BAnd => x * y
    case BOr => x + y - x * y
    case BXor => (x + y) % 2
  }

  lemma BitMixed(op: BitOp, x: int, y: int)
    requires 0 <= x < 2 && 0 <= y < 2
    ensures Bit(op, x, y) == Mixed(op, x, y)
  {
  }

  /** Bit i of the result, from bit i of the operands. */
  lemma {:induction false} BitwiseBit(op: BitOp, a: nat, b: nat, n: nat, i: nat)
    requires i < n
    ensures Bitwise(op, a, b, n) / Pow2(i) % 2 == Mixed(op, a / Pow2(i) % 2, b / Pow2(i) % 2)
  {
    if i == 0 {
      assert Pow2(0) == 1;
      BitMixed(op, a % 2, b % 2);
    } else {
      hide Mixed;
      BitwiseBit(op, a / 2, b / 2, n - 1, i - 1);
      HalveDiv(a, Pow2(i - 1));
      HalveDiv(b, Pow2(i - 1));
      HalveDiv(Bitwise(op, a, b, n), Pow2(i - 1));
    }
  }

  /** Masking with 2^k - 1 keeps the low k bits. */
  lemma {:induction false} MaskIsMod(a: nat, k: nat, n: nat)
    requires k <= n
    ensures Bitwise(BAnd, a, Pow2(k) - 1, n) == a % Pow2(k)
  {
    if n == 0 {
      assert Pow2(k) == 1;
    } else if k == 0 {
      assert Pow2(0) == 1;
      AndZero(a, n);
    } else {
      MaskIsMod(a / 2, k - 1, n - 1);
      assert (Pow2(k) - 1) / 2 == Pow2(k - 1) - 1;
      assert (Pow2(k) - 1) % 2 == 1;
      HalveMod(a, Pow2(k - 1));
    }
  }

  lemma {:induction false} AndZero(a: nat, n: nat)
    ensures Bitwise(BAnd, a, 0, n) == 0
  {
    if n > 0 {
      AndZero(a / 2, n - 1);
    }
  }

  lemma HalveMod(a: nat, p: nat)
    requires p > 0
    ensures a % (2 * p) == 2 * ((a / 2) % p) + a % 2
  {
    var q := (a / 2) / p;
    var r := (a / 2) % p;
    assert a / 2 == q * p + r;
    assert a == q * (2 * p) + (2 * r + a % 2) by {
      assert a == 2 * (a / 2) + a % 2;
    }
    ModUnique(a, 2 * p, q, 2 * r + a % 2);
  }

  /** The quotient and remainder of a division are unique. */
  lemma ModUnique(a: int, m: int, q: int, r: int)
    requires m > 0 && 0 <= r < m && a == q * m + r
    ensures a % m == r && a / m == q
  {
    var q', r' := a / m, a % m;
    assert a == m * q' + r';
    var d := q - q';
    assert d * m == r' - r by {
      assert d * m == q * m - q' * m;
    }
    if d >= 1 {
      MulAtLeast(d, m);
    } else if d <= -1 {
      MulAtLeast(-d, m);
    }
  }

  lemma MulAtLeast(k: int, m: int)
    requires k >= 1 && m > 0
    ensures k * m >= m
  {
  }

  // ----- floored division -----

  /** Quotient rounded toward minus infinity. */
  function FloorDiv(x: int, y: int): int
    requires y != 0
  {
    if y > 0 then x / y else (-x) / (-y)
  }

  /** The remainder that goes with FloorDiv; it has the divisor's sign. */
  function FloorMod(x: int, y: int): int
    requires y != 0
  {
    x - y * FloorDiv(x, y)
  }

  /** Quotient rounded toward zero. */
  function TruncDiv(x: int, y: int): int
    requires y != 0
  {
    var q := Abs(x) / Abs(y);
    if (x < 0) == (y < 0) then q else -q
  }

  function Abs(x: int): nat {
    if x < 0 then -x else x
  }

  /** Rounding toward zero and toward minus infinity agree exactly when the
      signs agree or the division is exact. */
  lemma TruncMeetsFloor(x: int, y: int)
    requires y != 0
    ensures TruncDiv(x, y) == FloorDiv(x, y)
       <==> ((x < 0) == (y < 0) || Abs(x) % Abs(y) == 0)
    ensures 0 <= TruncDiv(x, y) - FloorDiv(x, y) <= 1
  {
    NegativeQuotient(Abs(x), Abs(y));
    if x == 0 {
      ModUnique(0, Abs(y), 0, 0);
    }
  }

  /** Dividing -a by b rounds away from zero unless it is exact. */
  lemma NegativeQuotient(a: int, b: int)
    requires a >= 0 && b > 0
    ensures (-a) / b == if a % b == 0 then -(a / b) else -(a / b) - 1
  {
    var q, r := a / b, a % b;
    assert a == b * q + r;
    if r == 0 {
      assert -a == (-q) * b;
      ModUnique(-a, b, -q, 0);
    } else {
      assert -a == (-q - 1) * b + (b - r);
      ModUnique(-a, b, -q - 1, b - r);
    }
  }

  /** The truth value of a C comparison. */
  function Flag(b: bool): Cell {
    if b then 1 else 0
  }
}
