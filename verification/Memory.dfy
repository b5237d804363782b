/** Byte memory addressed by cells, and the heap behind alloc-mem and free-mem. */
module Memory {
  import opened Cells

  type Byte = b: int | 0 <= b < 256

  type Mem = map<Cell, Byte>

  function At(m: Mem, a: Cell): Byte {
    if a in m then m[a] else 0
  }

  /** The address i units above a. */
  function Above(a: Cell, i: int): Cell {
    Wrap(a + i)
  }

  function Store8(m: Mem, a: Cell, v: int): Mem {
    m[a := v % 256]
  }

  /** The four bytes at an address, most significant first. */
  function Fetch32(m: Mem, a: Cell): Cell {
    Wrap(At(m, a) * 0x100_0000 + At(m, Above(a, 1)) * 0x1_0000
         + At(m, Above(a, 2)) * 0x100 + At(m, Above(a, 3)))
  }

  function Store32(m: Mem, a: Cell, v: Cell): Mem {
    var n := Bits(v);
    Store8(Store8(Store8(Store8(m, a, n / 0x100_0000),
                         Above(a, 1), n / 0x1_0000),
                  Above(a, 2), n / 0x100),
           Above(a, 3), n)
  }

  /** The n addresses from a on. */
  function Range(a: Cell, n: nat): set<Cell> {
    set i | 0 <= i < n :: Above(a, i)
  }

  lemma AboveInjective(a: Cell, i: int, j: int)
    requires 0 <= i < j < MODULUS
    ensures Above(a, i) != Above(a, j)
  {
    var q, q' := (a + i) / MODULUS, (a + j) / MODULUS;
    assert (a + j) % MODULUS - (a + i) % MODULUS == j - i - (q' - q) * MODULUS;
  }

  lemma Digits(n: nat)
    requires n < MODULUS
    ensures n / 0x100_0000 % 256 * 0x100_0000 + n / 0x1_0000 % 256 * 0x1_0000 + n / 0x100 % 256 * 0x100 + n % 256 == n
  {
    assert n / 0x1_0000 == n / 0x100 / 0x100;
    assert n / 0x100_0000 == n / 0x1_0000 / 0x100;
  }

  lemma FetchStored(m: Mem, a: Cell, v: Cell)
    ensures Fetch32(Store32(m, a, v), a) == v
  {
    assert Above(a, 0) == a;
    AboveInjective(a, 0, 1);
    AboveInjective(a, 0, 2);
    AboveInjective(a, 0, 3);
    AboveInjective(a, 1, 2);
    AboveInjective(a, 1, 3);
    AboveInjective(a, 2, 3);
    Digits(Bits(v));
  }

  /** Two memories agree at every address outside the range. */
  ghost predicate SameOutside(m: Mem, m': Mem, a: Cell, n: nat) {
    forall x :: x !in Range(a, n) ==> At(m', x) == At(m, x)
  }

  lemma StoresStayInRange(m: Mem, a: Cell, v: Cell)
    ensures SameOutside(m, Store32(m, a, v), a, 4)
    ensures SameOutside(m, Store8(m, a, v), a, 1)
  {
    assert Above(a, 0) == a;
    assert Range(a, 4) >= {Above(a, 0), Above(a, 1), Above(a, 2), Above(a, 3)};
    assert Range(a, 1) >= {Above(a, 0)};
  }

  /** A store leaves the cells it does not overlap as they were. */
  lemma FetchElsewhere(m: Mem, m': Mem, a: Cell, n: nat, b: Cell)
    requires SameOutside(m, m', a, n)
    requires Range(a, n) !! Range(b, 4)
    ensures Fetch32(m', b) == Fetch32(m, b)
  {
    assert Above(b, 0) == b;
    assert Range(b, 4) >= {Above(b, 0), Above(b, 1), Above(b, 2), Above(b, 3)};
  }

  /** The blocks handed out and not yet freed, with their sizes. */
  type Heap = map<Cell, nat>

  /** Where the allocator puts a block of the given size; 0 when it has no room. */
  type Allocator = (Heap, nat) -> Cell
}
