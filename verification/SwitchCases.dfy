/** The check for duplicate and overlapping cases: `default` moves last, the
    others are sorted by low value, and only neighbours are compared. */
module SwitchCases {
  import opened Options

  /** `default`, one value, or a range of values. */
  datatype Case = Default(line: nat) | Value(line: nat, low: int, high: Option<int>)

  datatype Error = TwoDefaults(line: nat) | RangeError(line: nat) | Overlaps(v: int, line: nat) | Duplicate(v: int, line: nat)

  function Top(c: Case): int
    requires c.Value?
  {
    if c.high.Some? then c.high.value else c.low
  }

  predicate Inverted(c: Case) {
    c.Value? && c.high.Some? && c.low > c.high.value
  }

  /** Some value belongs to both cases. */
  predicate Meet(c: Case, d: Case) {
    c.Value? && d.Value? && c.low <= Top(d) && d.low <= Top(c)
  }

  /** What makes the check give up before comparing. */
  ghost predicate Rejected(s: seq<Case>) {
    (exists i :: 0 <= i < |s| && Inverted(s[i]))
    || (exists i, j :: 0 <= i < j < |s| && s[i].Default? && s[j].Default?)
  }

  ghost predicate SomeMeet(s: seq<Case>) {
    exists i, j :: 0 <= i < j < |s| && Meet(s[i], s[j])
  }

  ghost predicate Sorted(s: seq<Case>) {
    (forall i :: 0 <= i < |s| ==> s[i].Value?)
    && forall i, j :: 0 <= i < j < |s| ==> s[i].low <= s[j].low
  }

  /** The error the adjacent comparison reports. */
  function Clash(c: Case, d: Case): Option<Error>
    requires c.Value? && d.Value?
  {
    if c.high.Some? && c.high.value >= d.low then Some(Overlaps(d.low, d.line))
    else if c.low == d.low then Some(Duplicate(d.low, d.line))
    else None
  }

  /** In order of low values, cases meet exactly when the second starts within
      the first. */
  lemma ClashIsMeeting(c: Case, d: Case)
    requires c.Value? && d.Value? && c.low <= d.low && !Inverted(c) && !Inverted(d)
    ensures Clash(c, d).Some? <==> Meet(c, d)
  {
  }

  /** If any two sorted cases meet, two neighbours do. */
  lemma MeetingNeighbours(s: seq<Case>)
    requires Sorted(s) && forall i :: 0 <= i < |s| ==> !Inverted(s[i])
    ensures SomeMeet(s) <==> exists i :: 0 <= i < |s| - 1 && Clash(s[i], s[i + 1]).Some?
  {
    if SomeMeet(s) {
      var i, j :| 0 <= i < j < |s| && Meet(s[i], s[j]);
      assert s[i].low <= s[i + 1].low <= s[j].low <= Top(s[i]);
      ClashIsMeeting(s[i], s[i + 1]);
    }
    if exists i :: 0 <= i < |s| - 1 && Clash(s[i], s[i + 1]).Some? {
      var i :| 0 <= i < |s| - 1 && Clash(s[i], s[i + 1]).Some?;
      ClashIsMeeting(s[i], s[i + 1]);
    }
  }

  // ----- the order of the cases does not matter -----

  lemma {:induction false} OnlyInOne(s: seq<Case>, i: int, j: int)
    requires 0 <= i < j < |s|
    ensures multiset(s)[s[i]] >= (if s[i] == s[j] then 2 else 1)
  {
    assert s == s[..j] + [s[j]] + s[j + 1..];
    assert s[i] in s[..j];
    assert multiset(s) == multiset(s[..j]) + multiset{s[j]} + multiset(s[j + 1..]);
  }

  /** Two places holding given cases, in some order. */
  ghost predicate Both(s: seq<Case>, c: Case, d: Case) {
    exists i, j :: 0 <= i < |s| && 0 <= j < |s| && i != j && s[i] == c && s[j] == d
  }

  lemma BothIsMultiset(s: seq<Case>, c: Case, d: Case)
    ensures Both(s, c, d) <==> multiset{c, d} <= multiset(s)
  {
    if Both(s, c, d) {
      var i, j :| 0 <= i < |s| && 0 <= j < |s| && i != j && s[i] == c && s[j] == d;
      OnlyInOne(s, if i < j then i else j, if i < j then j else i);
      assert c in s && d in s;
    }
    if multiset{c, d} <= multiset(s) {
      MultisetGivesBoth(s, c, d);
    }
  }

  lemma MultisetGivesBoth(s: seq<Case>, c: Case, d: Case)
    requires multiset{c, d} <= multiset(s)
    ensures Both(s, c, d)
  {
    assert multiset(s)[c] > 0;
    var i :| 0 <= i < |s| && s[i] == c;
    var rest := s[..i] + s[i + 1..];
    assert s == s[..i] + [c] + s[i + 1..];
    assert multiset(s) == multiset(rest) + multiset{c};
    assert multiset(rest)[d] > 0;
    var k :| 0 <= k < |rest| && rest[k] == d;
    var j := if k < i then k else k + 1;
    assert s[j] == d;
  }

  lemma MeetsBoth(s: seq<Case>)
    ensures SomeMeet(s) <==> exists c, d :: Meet(c, d) && Both(s, c, d)
  {
    if SomeMeet(s) {
      var i, j :| 0 <= i < j < |s| && Meet(s[i], s[j]);
      assert Both(s, s[i], s[j]);
    }
    if exists c, d :: Meet(c, d) && Both(s, c, d) {
      var c, d :| Meet(c, d) && Both(s, c, d);
      var i, j :| 0 <= i < |s| && 0 <= j < |s| && i != j && s[i] == c && s[j] == d;
      assert Meet(s[if i < j then i else j], s[if i < j then j else i]);
    }
  }

  lemma OrderIrrelevant(s: seq<Case>, t: seq<Case>)
    requires multiset(s) == multiset(t)
    ensures SomeMeet(s) <==> SomeMeet(t)
  {
    MeetsBoth(s);
    MeetsBoth(t);
    forall c, d ensures Both(s, c, d) <==> Both(t, c, d) {
      BothIsMultiset(s, c, d);
      BothIsMultiset(t, c, d);
    }
  }

  /** A trailing default meets nothing. */
  lemma DropDefault(s: seq<Case>)
    requires |s| > 0 && s[|s| - 1].Default?
    ensures SomeMeet(s) <==> SomeMeet(s[..|s| - 1])
  {
    var t := s[..|s| - 1];
    if SomeMeet(s) {
      var i, j :| 0 <= i < j < |s| && Meet(s[i], s[j]);
      assert Meet(t[i], t[j]);
    }
    if SomeMeet(t) {
      var i, j :| 0 <= i < j < |t| && Meet(t[i], t[j]);
      assert Meet(s[i], s[j]);
    }
  }

  // ----- the check as it runs -----

  method Swap(a: array<Case>, i: nat, j: nat)
    requires i < a.Length && j < a.Length
    modifies a
    ensures a[..] == old(a[..])[i := old(a[j])][j := old(a[i])]
    ensures multiset(a[..]) == multiset(old(a[..]))
  {
    a[i], a[j] := a[j], a[i];
  }

  /** Stands for the C library's qsort on the first n cases. */
  method Sort(a: array<Case>, n: nat)
    requires n <= a.Length && forall i :: 0 <= i < n ==> a[i].Value?
    modifies a
    ensures Sorted(a[..n]) && a[n..] == old(a[n..]) && multiset(a[..]) == multiset(old(a[..]))
  {
    var i := 0;
    while i < n
      invariant 0 <= i <= n && a[n..] == old(a[n..]) && multiset(a[..]) == multiset(old(a[..]))
      invariant forall k :: 0 <= k < n ==> a[k].Value?
      invariant forall k, l :: 0 <= k < l < i ==> a[k].low <= a[l].low
    {
      var j := i;
      while j > 0 && a[j - 1].low > a[j].low
        invariant 0 <= j <= i && a[n..] == old(a[n..]) && multiset(a[..]) == multiset(old(a[..]))
        invariant forall k :: 0 <= k < n ==> a[k].Value?
        invariant forall k, l :: 0 <= k < l <= i && l != j ==> a[k].low <= a[l].low
      {
        Swap(a, j - 1, j);
        j := j - 1;
      }
      i := i + 1;
    }
  }

  /** Find `default` and reject inverted ranges: the place of `default`, or -1. */
  method Scan(s: seq<Case>) returns (ok: bool, deflt: int, errors: seq<Error>)
    ensures ok <==> !Rejected(s)
    ensures ok <==> errors == []
    ensures ok ==> -1 <= deflt < |s| && forall k :: 0 <= k < |s| ==> (s[k].Default? <==> k == deflt)
  {
    deflt := -1;
    var i := 0;
    while i < |s|
      invariant 0 <= i <= |s| && -1 <= deflt < i
      invariant forall k :: 0 <= k < i ==> !Inverted(s[k]) && (s[k].Default? <==> k == deflt)
    {
      if s[i].Default? {
        if deflt >= 0 {
          assert s[deflt].Default?;
          return false, deflt, [TwoDefaults(s[i].line)];
        }
        deflt := i;
      } else if s[i].high.Some? && s[i].low > s[i].high.value {
        assert Inverted(s[i]);
        return false, deflt, [RangeError(s[i].line)];
      }
      i := i + 1;
    }
    return true, deflt, [];
  }

  /** Compare neighbours among the first n cases. */
  method Compare(a: array<Case>, n: nat) returns (errors: seq<Error>)
    requires n <= a.Length && Sorted(a[..n]) && forall i :: 0 <= i < n ==> !Inverted(a[i])
    ensures errors != [] <==> SomeMeet(a[..n])
  {
    errors := [];
    ghost var s := a[..n];
    var i := 0;
    while i < n - 1
      invariant 0 <= i <= (if n > 0 then n - 1 else 0)
      invariant errors != [] <==> exists k :: 0 <= k < i && Clash(s[k], s[k + 1]).Some?
    {
      var e := Clash(a[i], a[i + 1]);
      if e.Some? {
        errors := errors + [e.value];
        assert Clash(s[i], s[i + 1]).Some?;
      }
      i := i + 1;
    }
    MeetingNeighbours(s);
  }

  /** Rearranged, with `default` last if there is one. */
  lemma Rearranged(was: seq<Case>, now: seq<Case>, n: nat)
    requires multiset(was) == multiset(now) && n <= |now| <= n + 1 && (n < |now| ==> now[n].Default?)
    ensures SomeMeet(was) <==> SomeMeet(now[..n])
  {
    OrderIrrelevant(was, now);
    if n < |now| {
      DropDefault(now);
    } else {
      assert now[..n] == now;
    }
  }

  lemma StaySound(was: seq<Case>, now: seq<Case>)
    requires multiset(was) == multiset(now) && !Rejected(was)
    ensures forall i :: 0 <= i < |now| ==> !Inverted(now[i])
  {
    forall i | 0 <= i < |now| ensures !Inverted(now[i]) {
      assert now[i] in multiset(now);
      assert now[i] in multiset(was);
    }
  }

  /** The cases are only permuted. If nothing is rejected, an error is reported
      exactly when some two cases anywhere in the switch share a value. */
  method CheckCases(a: array<Case>) returns (ok: bool, errors: seq<Error>)
    modifies a
    ensures multiset(a[..]) == multiset(old(a[..]))
    ensures ok <==> !Rejected(old(a[..]))
    ensures !ok ==> errors != []
    ensures ok ==> (errors != [] <==> SomeMeet(old(a[..])))
    ensures ok ==> forall k :: 0 <= k < a.Length - 1 ==> a[k].Value?
  {
    hide Rejected, SomeMeet, Inverted, Sorted;
    ghost var was := a[..];
    var deflt;
    ok, deflt, errors := Scan(a[..]);
    if !ok {
      return;
    }
    var n := a.Length;
    if deflt >= 0 {
      Swap(a, deflt, n - 1);
      n := n - 1;
    }
    assert forall k :: 0 <= k < n ==> a[k].Value?;
    Sort(a, n);
    StaySound(was, a[..]);
    assert forall k :: 0 <= k < n ==> a[k] == a[..][k] == a[..n][k];
    errors := Compare(a, n);
    assert a[..][..n] == a[..n];
    assert n < a.Length ==> a[n] == a[n..][0];
    Rearranged(was, a[..], n);
  }
}
