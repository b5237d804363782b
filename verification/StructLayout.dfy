/** Struct layout by a running count of the bits left up to the next alignment
    boundary, against layout by rounding up; and the Forth `field` words printed
    from the recorded paddings. Sizes and alignments are in bits, as are offsets;
    recorded paddings are in addressable units. */
module StructLayout {
  import opened Options

  /** What layout needs to know of a member that is not a bitfield. */
  datatype Shape = Shape(size: nat, align: nat)

  predicate PowerOfTwo(n: nat) {
    n == 1 || (n > 1 && n % 2 == 0 && PowerOfTwo(n / 2))
  }

  /** Members as the type layer makes them: sizes are positive multiples of the
      alignment, alignments are powers of two and multiples of the unit. */
  predicate Sensible(ms: seq<Shape>, unit: nat) {
    unit > 0 && Aligned(ms)
    && forall k :: 0 <= k < |ms| ==>
         PowerOfTwo(ms[k].align) && ms[k].size > 0
         && ms[k].size % ms[k].align == 0 && ms[k].align % unit == 0
  }

  // ----- layout by rounding up -----

  predicate Aligned(ms: seq<Shape>) {
    forall k :: 0 <= k < |ms| ==> ms[k].align > 0
  }

  function RoundUp(x: nat, a: nat): nat
    requires a > 0
  {
    (x + a - 1) / a * a
  }

  /** End of the first k members. */
  function End(ms: seq<Shape>, k: nat): nat
    requires k <= |ms| && Aligned(ms)
    decreases k, 0
  {
    if k == 0 then 0 else Start(ms, k - 1) + ms[k - 1].size
  }

  function Start(ms: seq<Shape>, k: nat): nat
    requires k < |ms| && Aligned(ms)
    decreases k, 1
  {
    RoundUp(End(ms, k), ms[k].align)
  }

  function MaxAlign(ms: seq<Shape>): nat {
    if |ms| == 0 then 0
    else
      var m := MaxAlign(ms[..|ms| - 1]);
      if ms[|ms| - 1].align > m then ms[|ms| - 1].align else m
  }

  function Total(ms: seq<Shape>): nat
    requires |ms| > 0 && Aligned(ms)
    requires MaxAlign(ms) > 0
  {
    RoundUp(End(ms, |ms|), MaxAlign(ms))
  }

  // ----- arithmetic -----

  /** The least multiple of a from x on. */
  lemma RoundUpLeast(x: nat, a: nat)
    requires a > 0
    ensures x <= RoundUp(x, a) < x + a && RoundUp(x, a) % a == 0
    ensures forall y :: x <= y && y % a == 0 ==> RoundUp(x, a) <= y
  {
    var q := (x + a - 1) / a;
    assert (q * a) % a == 0 by {
      Multiple(q, a);
    }
    forall y | x <= y && y % a == 0 ensures q * a <= y {
      var j := y / a;
      if j < q {
        assert j * a <= (q - 1) * a by {
          MulMono(j, q - 1, a);
        }
      } else {
        MulMono(q, j, a);
      }
    }
  }

  lemma Multiple(q: int, a: nat)
    requires a > 0
    ensures (q * a) % a == 0
  {
    var r := (q * a) % a;
    var k := (q * a) / a;
    assert (q - k) * a == r;
    if q - k > 0 {
      MulMono(1, q - k, a);
    } else if q - k < 0 {
      MulMono(q - k, -1, a);
    }
  }

  lemma MulMono(x: int, y: int, a: nat)
    requires x <= y
    ensures x * a <= y * a
  {
  }

  lemma SumMultiple(x: int, y: int, a: nat)
    requires a > 0 && x % a == 0 && y % a == 0
    ensures (x + y) % a == 0 && (x - y) % a == 0
  {
    var p, q := x / a, y / a;
    assert x + y == (p + q) * a && x - y == (p - q) * a;
    Multiple(p + q, a);
    Multiple(p - q, a);
  }

  lemma Times(n: int, x: int, a: nat)
    requires a > 0 && x % a == 0
    ensures (n * x) % a == 0
  {
    var q := x / a;
    assert n * x == (n * q) * a by {
      assert x == q * a;
    }
    Multiple(n * q, a);
  }

  lemma Through(x: int, b: nat, a: nat)
    requires a > 0 && b > 0 && x % b == 0 && b % a == 0
    ensures x % a == 0
  {
    var p, q := x / b, b / a;
    assert x == (p * q) * a by {
      assert x == p * b && b == q * a;
    }
    Multiple(p * q, a);
  }

  /** A multiple of a that x reaches by adding less than a is x rounded up. */
  lemma RoundUpIs(x: nat, d: nat, a: nat)
    requires a > 0 && d < a && (x + d) % a == 0
    ensures x + d == RoundUp(x, a)
  {
    RoundUpLeast(x, a);
    var r := RoundUp(x, a);
    SumMultiple(x + d, r, a);
    NoSmallMultiple(x + d - r, a);
  }

  lemma NoSmallMultiple(z: int, a: nat)
    requires a > 0 && z % a == 0 && 0 <= z < a
    ensures z == 0
  {
  }

  lemma {:induction false} PowersDivide(a: nat, b: nat)
    requires PowerOfTwo(a) && PowerOfTwo(b) && a <= b
    ensures b % a == 0
    decreases b
  {
    if a == 1 {
    } else if b == a {
    } else {
      PowersDivide(a / 2, b / 2);
      var k := (b / 2) / (a / 2);
      assert b == k * a by {
        assert b / 2 == k * (a / 2);
      }
      Multiple(k, a);
    }
  }

  /** The struct's alignment is a multiple of every member's. */
  lemma {:induction false} MaxAlignDivides(ms: seq<Shape>, unit: nat)
    requires Sensible(ms, unit) && |ms| > 0
    ensures MaxAlign(ms) > 0 && PowerOfTwo(MaxAlign(ms)) && MaxAlign(ms) % unit == 0
    ensures forall k :: 0 <= k < |ms| ==> ms[k].align <= MaxAlign(ms) && MaxAlign(ms) % ms[k].align == 0
  {
    var n := |ms| - 1;
    if n > 0 {
      MaxAlignDivides(ms[..n], unit);
    }
    forall k | 0 <= k < |ms| ensures ms[k].align <= MaxAlign(ms) && MaxAlign(ms) % ms[k].align == 0 {
      if k < n {
        assert ms[..n][k] == ms[k];
      }
      PowersDivide(ms[k].align, MaxAlign(ms));
    }
  }

  // ----- what the layout promises -----

  /** Members lie in order without overlap, each on the least multiple of its
      alignment past the one before. */
  lemma MembersApart(ms: seq<Shape>, unit: nat, k: nat)
    requires Sensible(ms, unit) && k < |ms|
    ensures End(ms, k) <= Start(ms, k) && Start(ms, k) % ms[k].align == 0
    ensures Start(ms, k) + ms[k].size == End(ms, k + 1)
    ensures forall y :: End(ms, k) <= y && y % ms[k].align == 0 ==> Start(ms, k) <= y
  {
    RoundUpLeast(End(ms, k), ms[k].align);
  }

  lemma {:induction false} LaterMembers(ms: seq<Shape>, unit: nat, j: nat, k: nat)
    requires Sensible(ms, unit) && j < k < |ms|
    ensures Start(ms, j) + ms[j].size <= Start(ms, k)
    decreases k
  {
    MembersApart(ms, unit, j);
    MembersApart(ms, unit, k);
    if j < k - 1 {
      LaterMembers(ms, unit, j, k - 1);
      MembersApart(ms, unit, k - 1);
    }
  }

  /** In an array of the struct, every member of every element is aligned. */
  lemma ArrayElementsAligned(ms: seq<Shape>, unit: nat, n: nat, k: nat)
    requires Sensible(ms, unit) && k < |ms|
    ensures MaxAlign(ms) > 0 && Total(ms) % MaxAlign(ms) == 0
    ensures (n * Total(ms) + Start(ms, k)) % ms[k].align == 0
  {
    MaxAlignDivides(ms, unit);
    RoundUpLeast(End(ms, |ms|), MaxAlign(ms));
    MembersApart(ms, unit, k);
    Through(Total(ms), MaxAlign(ms), ms[k].align);
    Times(n, Total(ms), ms[k].align);
    SumMultiple(n * Total(ms), Start(ms, k), ms[k].align);
  }

  // ----- one step of the running count -----

  /** `pad` bits are left before the next boundary of the whole struct. */
  predicate Counting(pos: nat, pad: nat, salign: nat) {
    salign > 0 && pad <= salign && (pos + pad) % salign == 0
  }

  /** Where the running count puts a member aligned to a: past the padding if
      the alignment is larger than what is left, else past the odd part of it. */
  function Skip(pad: nat, a: nat): nat
    requires a > 0
  {
    if a > pad then pad else if a != pad then pad % a else 0
  }

  /** Skipping leads to the position rounded up. */
  lemma SkipRounds(pos: nat, pad: nat, salign: nat, a: nat)
    requires Counting(pos, pad, salign) && a > 0 && a <= salign && salign % a == 0
    ensures pos + Skip(pad, a) == RoundUp(pos, a)
  {
    Through(pos + pad, salign, a);
    hide RoundUp;
    if a > pad {
      RoundUpIs(pos, pad, a);
    } else {
      SkipOdd(pos, pad, a);
      if a == pad {
        SumMultiple(pos + pad, pad, a);
        RoundUpIs(pos, 0, a);
      }
    }
  }

  lemma SkipOdd(pos: nat, pad: nat, a: nat)
    requires 0 < a <= pad && (pos + pad) % a == 0
    ensures pos + pad % a == RoundUp(pos, a)
  {
    hide RoundUp;
    var q := pad / a;
    Multiple(q, a);
    assert pos + pad % a == pos + pad - q * a;
    SumMultiple(pos + pad, q * a, a);
    RoundUpIs(pos, pad % a, a);
  }

  // ----- the size routine as it runs -----

  class Member {
    const shape: Shape
    var offset: Option<nat>
    var pad: Option<nat>

    constructor (shape: Shape)
      ensures this.shape == shape && offset == None && pad == None
    {
      this.shape := shape;
      offset := None;
      pad := None;
    }
  }

  function Shapes(mem: seq<Member>): (ms: seq<Shape>)
    ensures |ms| == |mem| && forall k :: 0 <= k < |mem| ==> ms[k] == mem[k].shape
  {
    seq(|mem|, k requires 0 <= k < |mem| => mem[k].shape)
  }

  ghost predicate Distinct(mem: seq<Member>) {
    forall j, k :: 0 <= j < k < |mem| ==> mem[j] != mem[k]
  }

  /** The gap after member k, or after the last one. */
  function Gap(ms: seq<Shape>, k: nat): int
    requires k < |ms| && Aligned(ms) && MaxAlign(ms) > 0
  {
    (if k + 1 < |ms| then Start(ms, k + 1) else Total(ms)) - End(ms, k + 1)
  }

  /** What is recorded on the members. */
  function Offsets(mem: seq<Member>): (os: seq<Option<nat>>)
    reads mem
    ensures |os| == |mem| && forall k :: 0 <= k < |mem| ==> os[k] == mem[k].offset
  {
    seq(|mem|, k requires 0 <= k < |mem| reads mem => mem[k].offset)
  }

  function Pads(mem: seq<Member>): (ps: seq<Option<nat>>)
    reads mem
    ensures |ps| == |mem| && forall k :: 0 <= k < |mem| ==> ps[k] == mem[k].pad
  {
    seq(|mem|, k requires 0 <= k < |mem| reads mem => mem[k].pad)
  }

  function PadValue(pad: Option<nat>): nat {
    if pad.Some? then pad.value else 0
  }

  /** All positions are whole units. */
  lemma {:induction false} EndInUnits(ms: seq<Shape>, unit: nat, k: nat)
    requires Sensible(ms, unit) && k <= |ms|
    ensures End(ms, k) % unit == 0 && (k < |ms| ==> Start(ms, k) % unit == 0)
    decreases k
  {
    if k > 0 {
      EndInUnits(ms, unit, k - 1);
      Through(ms[k - 1].size, ms[k - 1].align, unit);
      SumMultiple(Start(ms, k - 1), ms[k - 1].size, unit);
    }
    if k < |ms| {
      RoundUpLeast(End(ms, k), ms[k].align);
      Through(Start(ms, k), ms[k].align, unit);
    }
  }

  lemma GapInUnits(ms: seq<Shape>, unit: nat, k: nat)
    requires Sensible(ms, unit) && k < |ms| && MaxAlign(ms) > 0
    ensures Gap(ms, k) >= 0 && Gap(ms, k) % unit == 0
  {
    hide RoundUp, PowerOfTwo, MaxAlign, End;
    MaxAlignDivides(ms, unit);
    EndInUnits(ms, unit, k + 1);
    if k + 1 < |ms| {
      MembersApart(ms, unit, k + 1);
      SumMultiple(Start(ms, k + 1), End(ms, k + 1), unit);
    } else {
      RoundUpLeast(End(ms, |ms|), MaxAlign(ms));
      Through(Total(ms), MaxAlign(ms), unit);
      SumMultiple(Total(ms), End(ms, k + 1), unit);
    }
  }

  /** One member's turn: where it goes and what is left there. */
  lemma Turn(ms: seq<Shape>, unit: nat, i: nat, pad: nat, salign: nat)
    requires Sensible(ms, unit) && i < |ms| && salign == MaxAlign(ms) > 0 && Counting(End(ms, i), pad, salign)
    ensures End(ms, i) + Skip(pad, ms[i].align) == Start(ms, i)
    ensures Counting(Start(ms, i), Left(pad, ms[i].align, salign), salign)
  {
    hide RoundUp, PowerOfTwo, MaxAlign, End;
    MaxAlignDivides(ms, unit);
    SkipRounds(End(ms, i), pad, salign, ms[i].align);
    if ms[i].align > pad {
      SumMultiple(End(ms, i) + pad, salign, salign);
    }
  }

  /** What is left at the member's position. */
  function Left(pad: nat, a: nat, salign: nat): nat
    requires a > 0
  {
    if a > pad then salign else pad - Skip(pad, a)
  }

  /** What is left after the member, counted down and wrapped. */
  method Wrap(pos: nat, left: nat, size: nat, salign: nat) returns (pad: nat)
    requires Counting(pos, left, salign) && size > 0
    ensures Counting(pos + size, pad, salign) && pad < salign
  {
    var p: int := left - size;
    SumMultiple(pos + left, 0, salign);
    while p < 0
      invariant p < salign && (pos + size + p) % salign == 0
      decreases -p
    {
      SumMultiple(pos + size + p, salign, salign);
      p := p + salign;
    }
    pad := p;
  }

  lemma LastGap(ms: seq<Shape>, pad: nat, salign: nat)
    requires |ms| > 0 && Aligned(ms) && salign == MaxAlign(ms) > 0
    requires Counting(End(ms, |ms|), pad, salign) && pad < salign
    ensures End(ms, |ms|) + pad == Total(ms) && Gap(ms, |ms| - 1) == pad
  {
    RoundUpIs(End(ms, |ms|), pad, salign);
  }

  /** Every member has its offset, and the gap after it is recorded in units. */
  ghost predicate LaidOut(ms: seq<Shape>, os: seq<Option<nat>>, ps: seq<Option<nat>>, unit: nat) {
    Sensible(ms, unit) && MaxAlign(ms) > 0 && |os| == |ps| == |ms|
    && forall k :: 0 <= k < |ms| ==> os[k] == Some(Start(ms, k)) && PadValue(ps[k]) == Gap(ms, k) / unit
  }

  /** The first run, before member i: all earlier members have their places, and
      the gap after the last of them is still to be recorded. */
  ghost predicate Upto(ms: seq<Shape>, os: seq<Option<nat>>, ps: seq<Option<nat>>, unit: nat, i: nat) {
    Sensible(ms, unit) && MaxAlign(ms) > 0 && |os| == |ps| == |ms| && i <= |ms|
    && (forall k :: 0 <= k < |ms| ==> os[k] == if k < i then Some(Start(ms, k)) else None)
    && (forall k :: 0 <= k < |ms| ==> if k < i - 1 then PadValue(ps[k]) == Gap(ms, k) / unit else ps[k] == None)
  }

  /** The records before member i, in the first run or in a later one. */
  ghost predicate Recorded(ms: seq<Shape>, os: seq<Option<nat>>, ps: seq<Option<nat>>, unit: nat, i: nat, first: bool) {
    if first then Upto(ms, os, ps, unit, i) else LaidOut(ms, os, ps, unit) && i <= |ms|
  }

  /** Recording a gap again changes nothing but a missing record of none. */
  lemma RecordAgain(ms: seq<Shape>, os: seq<Option<nat>>, ps: seq<Option<nat>>, unit: nat, k: nat)
    requires LaidOut(ms, os, ps, unit) && k < |ms| && ps[k] == None && Gap(ms, k) >= 0
    ensures LaidOut(ms, os, ps[k := Some(Gap(ms, k))], unit)
  {
    hide Start, MaxAlign, Gap;
    GapInUnits(ms, unit, k);
    hide Sensible;
    NoSmallQuotient(Gap(ms, k), unit);
  }

  lemma NoSmallQuotient(z: int, a: nat)
    requires a > 0 && z % a == 0 && z / a == 0
    ensures z == 0
  {
  }

  /** Record a padding for a member that has none. */
  method SetPad(mem: seq<Member>, p: nat, pad: nat)
    requires p < |mem| && Distinct(mem)
    modifies mem
    ensures Offsets(mem) == old(Offsets(mem))
    ensures Pads(mem) == if old(Pads(mem))[p] == None then old(Pads(mem))[p := Some(pad)] else old(Pads(mem))
  {
    if mem[p].pad == None {
      mem[p].pad := Some(pad);
    }
  }

  /** Turn a recorded padding into units, and forget it if it is none. */
  method PadToUnits(mem: seq<Member>, p: nat, unit: nat)
    requires p < |mem| && Distinct(mem) && unit > 0
    modifies mem
    ensures Offsets(mem) == old(Offsets(mem)) && |Pads(mem)| == |old(Pads(mem))|
    ensures forall k :: 0 <= k < |mem| && k != p ==> Pads(mem)[k] == old(Pads(mem))[k]
    ensures PadValue(Pads(mem)[p]) == PadValue(old(Pads(mem))[p]) / unit
  {
    if mem[p].pad.Some? {
      mem[p].pad := Some(mem[p].pad.value / unit);
      if mem[p].pad.value == 0 {
        mem[p].pad := None;
      }
    }
  }

  method SetOffset(mem: seq<Member>, i: nat, pos: nat)
    requires i < |mem| && Distinct(mem)
    modifies mem
    ensures Offsets(mem) == old(Offsets(mem))[i := Some(pos)] && Pads(mem) == old(Pads(mem))
  {
    mem[i].offset := Some(pos);
  }

  lemma BeforeTurn(ms: seq<Shape>, os: seq<Option<nat>>, ps: seq<Option<nat>>, unit: nat, i: nat, first: bool)
    requires Recorded(ms, os, ps, unit, i, first) && i < |ms|
    ensures |os| == |ps| == |ms| && os[i].None? == first && (first && i > 0 ==> ps[i - 1] == None)
  {
    hide Start, Gap, MaxAlign, Sensible;
  }

  lemma AfterFirstTurn(ms: seq<Shape>, os: seq<Option<nat>>, ps: seq<Option<nat>>, ps': seq<Option<nat>>,
                       unit: nat, i: nat)
    requires Recorded(ms, os, ps, unit, i, true) && i < |ms| && Sensible(ms, unit) && MaxAlign(ms) > 0
    requires |ps'| == |ps| && forall k :: 0 <= k < |ps| && k != i - 1 ==> ps'[k] == ps[k]
    requires i > 0 ==> PadValue(ps'[i - 1]) == Gap(ms, i - 1) / unit
    ensures |os| == |ms| && Recorded(ms, os[i := Some(Start(ms, i))], ps', unit, i + 1, true)
  {
    hide Start, Gap, MaxAlign, Sensible;
  }

  /** Record the gap before member i, and the member's offset. */
  method Record(mem: seq<Member>, unit: nat, i: nat, gap: nat, some: bool, pos: nat, ghost first: bool)
    requires i < |mem| && Distinct(mem) && Recorded(Shapes(mem), Offsets(mem), Pads(mem), unit, i, first)
    requires unit > 0 && Sensible(Shapes(mem), unit) && MaxAlign(Shapes(mem)) > 0
    requires pos == Start(Shapes(mem), i) && (i > 0 ==> gap == Gap(Shapes(mem), i - 1)) && (!some ==> gap == 0)
    modifies mem
    ensures Recorded(Shapes(mem), Offsets(mem), Pads(mem), unit, i + 1, first)
  {
    hide Start, Gap, MaxAlign, Sensible, Upto, LaidOut;
    ghost var ms, os, ps := Shapes(mem), Offsets(mem), Pads(mem);
    BeforeTurn(ms, os, ps, unit, i, first);
    if some && i > 0 {
      if !first && mem[i - 1].pad == None {
        RecordAgain(ms, os, ps, unit, i - 1);
      }
      SetPad(mem, i - 1, gap);
    }
    if mem[i].offset == None {
      SetOffset(mem, i, pos);
      if i > 0 {
        PadToUnits(mem, i - 1, unit);
      }
      AfterFirstTurn(ms, os, ps, Pads(mem), unit, i);
    }
  }

  /** Nothing recorded yet. */
  ghost predicate Untouched(os: seq<Option<nat>>, ps: seq<Option<nat>>) {
    (forall k :: 0 <= k < |os| ==> os[k] == None) && (forall k :: 0 <= k < |ps| ==> ps[k] == None)
  }

  /** The largest alignment of the members. */
  method DoAlign(ms: seq<Shape>) returns (align: nat)
    ensures align == MaxAlign(ms)
  {
    align := 0;
    var i := 0;
    while i < |ms|
      invariant 0 <= i <= |ms| && align == MaxAlign(ms[..i])
    {
      assert ms[..i + 1][..i] == ms[..i];
      if ms[i].align > align {
        align := ms[i].align;
      }
      i := i + 1;
    }
    assert ms[..i] == ms;
  }

  /** The gap after the last member is recorded at the end. */
  lemma AfterLast(ms: seq<Shape>, os: seq<Option<nat>>, ps: seq<Option<nat>>, ps': seq<Option<nat>>,
                  unit: nat, first: bool)
    requires |ms| > 0 && Recorded(ms, os, ps, unit, |ms|, first) && Sensible(ms, unit) && MaxAlign(ms) > 0
    requires |ps'| == |ps| && forall k :: 0 <= k < |ps| && k != |ms| - 1 ==> ps'[k] == ps[k]
    requires PadValue(ps'[|ms| - 1])
          == if ps[|ms| - 1] == None then Gap(ms, |ms| - 1) / unit else PadValue(ps[|ms| - 1])
    ensures LaidOut(ms, os, ps', unit)
  {
    hide Start, Gap, MaxAlign, Sensible;
  }

  /** The arithmetic of one member's turn: how far to skip, whether a gap is to be
      recorded, and what is left after the member. */
  method Advance(ghost ms: seq<Shape>, ghost unit: nat, ghost i: nat, retsize: nat, pad: nat, shape: Shape, salign: nat)
    returns (skip: nat, moved: bool, pad': nat)
    requires Sensible(ms, unit) && i < |ms| && shape == ms[i] && salign == MaxAlign(ms) > 0
    requires retsize == End(ms, i) && Counting(retsize, pad, salign)
    ensures retsize + skip == Start(ms, i) && retsize + skip + shape.size == End(ms, i + 1)
    ensures (i > 0 ==> skip == Gap(ms, i - 1)) && (!moved ==> skip == 0)
    ensures Counting(End(ms, i + 1), pad', salign) && pad' < salign
  {
    SensibleParts(ms, unit);
    hide Sensible, Counting, MaxAlign, Gap, Start, End;
    Turn(ms, unit, i, pad, salign);
    SkipIsGap(ms, i, pad);
    EndIs(ms, i);
    var left;
    if shape.align > pad {
      skip, left, moved := pad, salign, true;
    } else if shape.align != pad {
      skip, moved := pad % shape.align, true;
      left := pad - skip;
    } else {
      skip, left, moved := 0, pad, false;
    }
    pad' := Wrap(retsize + skip, left, shape.size, salign);
  }

  /** The size of the struct. Members get their offsets, and gaps are recorded on
      the member before them; running it again changes no offset and no gap. */
  method Size(mem: seq<Member>, salign: nat, unit: nat) returns (retsize: nat)
    requires |mem| > 0 && Distinct(mem) && Sensible(Shapes(mem), unit) && salign == MaxAlign(Shapes(mem)) > 0
    requires Untouched(Offsets(mem), Pads(mem)) || LaidOut(Shapes(mem), Offsets(mem), Pads(mem), unit)
    modifies mem
    ensures retsize == Total(Shapes(mem))
    ensures LaidOut(Shapes(mem), Offsets(mem), Pads(mem), unit)
  {
    hide Sensible, Counting, MaxAlign, Recorded, Gap, Start, End, Total;
    ghost var ms := Shapes(mem);
    ghost var first := Untouched(Offsets(mem), Pads(mem));
    StartRecording(ms, Offsets(mem), Pads(mem), unit, first);
    StartCounting(salign);
    SensibleParts(ms, unit);
    NoMembers(ms);
    retsize := 0;
    var pad: nat := salign;
    var i := 0;
    while i < |mem|
      invariant 0 <= i <= |mem| && retsize == End(ms, i)
      invariant Counting(retsize, pad, salign) && (i > 0 ==> pad < salign)
      invariant Recorded(ms, Offsets(mem), Pads(mem), unit, i, first)
    {
      var skip, moved, left := Advance(ms, unit, i, retsize, pad, mem[i].shape, salign);
      Record(mem, unit, i, skip, moved, retsize + skip, first);
      retsize := retsize + skip + mem[i].shape.size;
      pad := left;
      i := i + 1;
    }
    LastGap(ms, pad, salign);
    ghost var os, ps := Offsets(mem), Pads(mem);
    if mem[i - 1].pad == None {
      SetPad(mem, i - 1, pad);
      PadToUnits(mem, i - 1, unit);
    }
    retsize := retsize + pad;
    AfterLast(ms, os, ps, Pads(mem), unit, first);
  }

  lemma StartRecording(ms: seq<Shape>, os: seq<Option<nat>>, ps: seq<Option<nat>>, unit: nat, first: bool)
    requires Sensible(ms, unit) && MaxAlign(ms) > 0 && |os| == |ps| == |ms|
    requires if first then Untouched(os, ps) else LaidOut(ms, os, ps, unit)
    ensures Recorded(ms, os, ps, unit, 0, first)
  {
    hide Sensible, MaxAlign, Gap, Start;
  }

  lemma NoMembers(ms: seq<Shape>)
    requires Aligned(ms)
    ensures End(ms, 0) == 0
  {
  }

  lemma StartCounting(salign: nat)
    requires salign > 0
    ensures Counting(0, salign, salign)
  {
  }

  lemma SensibleParts(ms: seq<Shape>, unit: nat)
    requires Sensible(ms, unit)
    ensures unit > 0 && Aligned(ms) && forall k :: 0 <= k < |ms| ==> ms[k].size > 0
  {
    hide PowerOfTwo;
  }

  lemma SkipIsGap(ms: seq<Shape>, i: nat, pad: nat)
    requires Aligned(ms) && i < |ms| && MaxAlign(ms) > 0 && End(ms, i) + Skip(pad, ms[i].align) == Start(ms, i)
    ensures i > 0 ==> Skip(pad, ms[i].align) == Gap(ms, i - 1)
    ensures ms[i].align == pad ==> Skip(pad, ms[i].align) == 0
  {
    hide Start, End, MaxAlign;
  }

  lemma EndIs(ms: seq<Shape>, i: nat)
    requires Aligned(ms) && i < |ms|
    ensures End(ms, i + 1) == Start(ms, i) + ms[i].size
  {
    hide Start;
  }

  // ----- the Forth structure -----

  /** A `field` word: the size it is given, and the member it names, or none for
      a padding. */
  datatype Field = Field(size: nat, member: Option<nat>)

  function InUnits(n: nat, unit: nat): nat
    requires unit > 0
  {
    n / unit
  }

  function InBits(n: nat, unit: nat): nat {
    n * unit
  }

  function Sum(fs: seq<Field>): nat {
    if |fs| == 0 then 0 else Sum(fs[..|fs| - 1]) + fs[|fs| - 1].size
  }

  /** The first i members have fields of their sizes, in order, each where the
      sizes of the fields before it add up to the member's offset. */
  ghost predicate Prints(fields: seq<Field>, at: seq<nat>, ms: seq<Shape>, unit: nat, i: nat)
    requires Aligned(ms) && unit > 0
  {
    |at| == i <= |ms|
    && (forall k :: 0 <= k < i ==>
          at[k] < |fields| && fields[at[k]] == Field(InUnits(ms[k].size, unit), Some(k))
          && InBits(Sum(fields[..at[k]]), unit) == Start(ms, k))
    && forall k, l :: 0 <= k < l < i ==> at[k] < at[l]
  }

  lemma PrintsMore(fields: seq<Field>, at: seq<nat>, ms: seq<Shape>, unit: nat, i: nat, more: seq<Field>)
    requires Aligned(ms) && unit > 0 && Prints(fields, at, ms, unit, i) && i < |ms|
    requires InBits(Sum(fields), unit) == Start(ms, i)
    ensures Prints(fields + [Field(InUnits(ms[i].size, unit), Some(i))] + more, at + [|fields|], ms, unit, i + 1)
  {
    hide Start, Sum, InBits, InUnits;
    var all := fields + [Field(InUnits(ms[i].size, unit), Some(i))] + more;
    assert all[..|fields|] == fields;
    forall k | 0 <= k < i ensures all[..at[k]] == fields[..at[k]] {
    }
  }

  /** The fields printed for a laid-out struct, sizes in units: they add up to
      each member's offset, and all together to the size of the struct. */
  method PrintFields(mem: seq<Member>, unit: nat) returns (fields: seq<Field>, ghost at: seq<nat>)
    requires |mem| > 0 && unit > 0 && Aligned(Shapes(mem)) && MaxAlign(Shapes(mem)) > 0
    requires LaidOut(Shapes(mem), Offsets(mem), Pads(mem), unit)
    ensures Prints(fields, at, Shapes(mem), unit, |mem|)
    ensures InBits(Sum(fields), unit) == Total(Shapes(mem))
  {
    hide MaxAlign, Gap, Start, End, Sensible, Total, Prints, Sum, InBits, InUnits;
    ghost var ms := Shapes(mem);
    fields, at := [], [];
    NothingPrinted(ms, unit);
    var i := 0;
    while i < |mem|
      invariant 0 <= i <= |mem|
      invariant InBits(Sum(fields), unit) == PositionOf(ms, i)
      invariant Prints(fields, at, ms, unit, i)
    {
      var field := Field(InUnits(mem[i].shape.size, unit), Some(i));
      var gap := [];
      SumSnoc(fields, field);
      if mem[i].pad.Some? && mem[i].pad.value != 0 {
        gap := [Field(mem[i].pad.value, None)];
        SumSnoc(fields + [field], gap[0]);
      }
      assert Offsets(mem)[i] == mem[i].offset && Pads(mem)[i] == mem[i].pad;
      FieldAndGap(ms, unit, i, Sum(fields));
      PrintsMore(fields, at, ms, unit, i, gap);
      at := at + [|fields|];
      assert fields + [field] + [] == fields + [field];
      fields := fields + [field] + gap;
      i := i + 1;
    }
  }

  lemma NothingPrinted(ms: seq<Shape>, unit: nat)
    requires Aligned(ms) && |ms| > 0 && MaxAlign(ms) > 0 && unit > 0
    ensures Prints([], [], ms, unit, 0) && InBits(Sum([]), unit) == PositionOf(ms, 0)
  {
    RoundUpIs(0, 0, ms[0].align);
  }

  lemma SumSnoc(fs: seq<Field>, f: Field)
    ensures Sum(fs + [f]) == Sum(fs) + f.size
  {
    assert (fs + [f])[..|fs|] == fs;
  }

  /** A member and the gap after it, in units, lead to the next position. */
  lemma FieldAndGap(ms: seq<Shape>, unit: nat, i: nat, x: nat)
    requires Sensible(ms, unit) && i < |ms| && MaxAlign(ms) > 0 && InBits(x, unit) == Start(ms, i)
    ensures Gap(ms, i) >= 0 && InBits(x + InUnits(ms[i].size, unit) + Gap(ms, i) / unit, unit) == PositionOf(ms, i + 1)
  {
    hide Start, End, MaxAlign, PowerOfTwo, Total;
    GapInUnits(ms, unit, i);
    EndIs(ms, i);
    Through(ms[i].size, ms[i].align, unit);
    var p, q := ms[i].size / unit, Gap(ms, i) / unit;
    hide Sensible;
    assert (x + p + q) * unit == x * unit + p * unit + q * unit;
  }

  /** Where the fields printed for the first k members end: the next member. */
  function PositionOf(ms: seq<Shape>, k: nat): nat
    requires Aligned(ms) && k <= |ms| && |ms| > 0 && MaxAlign(ms) > 0
  {
    if k < |ms| then Start(ms, k) else Total(ms)
  }
}
