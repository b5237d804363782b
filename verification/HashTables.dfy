/** A chained hash table that grows and moves what it finds to the front of its
    chain, as a refinement of a finite set of entries. */
module HashTables {
  import opened Options

  /** An entry: `key` and `val` are the caller's record, compared by key. */
  class Node {
    const hash: nat
    const key: int
    const val: int
    var next: Node?

    constructor (hash: nat, key: int, val: int)
      ensures this.hash == hash && this.key == key && this.val == val && next == null
    {
      this.hash, this.key, this.val := hash, key, val;
      next := null;
    }
  }

  function Slot(hash: nat, len: nat): (i: nat)
    requires len > 0
    ensures i < len
  {
    hash % len
  }

  predicate NoDup(c: seq<Node>) {
    forall j, k :: 0 <= j < k < |c| ==> c[j] != c[k]
  }

  function First(c: seq<Node>): Node? {
    if c == [] then null else c[0]
  }

  /** The list from a head is exactly c. */
  ghost predicate Linked(head: Node?, c: seq<Node>)
    reads c
  {
    head == First(c) && forall k :: 0 <= k < |c| ==> c[k].next == First(c[k + 1..])
  }

  /** A chain: linked as c, without repetition, all of whose entries belong in
      the bucket. */
  ghost predicate Bucket(head: Node?, c: seq<Node>, i: nat, len: nat)
    requires len > 0
    reads c
  {
    Linked(head, c) && NoDup(c) && forall n :: n in c ==> Slot(n.hash, len) == i
  }

  function Count(chains: seq<seq<Node>>): nat {
    if |chains| == 0 then 0 else Count(chains[..|chains| - 1]) + |chains[|chains| - 1]|
  }

  ghost function NodesOf(chains: seq<seq<Node>>): (ns: set<Node>)
    ensures forall i, n :: 0 <= i < |chains| && n in chains[i] ==> n in ns
  {
    set i, n | 0 <= i < |chains| && n in chains[i] :: n
  }

  ghost function SetOf(s: seq<Node>): set<Node> {
    set n | n in s
  }

  lemma {:induction false} CountUpdate(chains: seq<seq<Node>>, i: nat, c: seq<Node>)
    requires i < |chains|
    ensures Count(chains[i := c]) == Count(chains) - |chains[i]| + |c|
  {
    var last := |chains| - 1;
    if i == last {
      assert chains[i := c][..last] == chains[..last];
    } else {
      assert chains[i := c][..last] == chains[..last][i := c];
      CountUpdate(chains[..last], i, c);
    }
  }

  lemma {:induction false} CountEmpty(chains: seq<seq<Node>>)
    requires forall i :: 0 <= i < |chains| ==> chains[i] == []
    ensures Count(chains) == 0
  {
    if |chains| > 0 {
      CountEmpty(chains[..|chains| - 1]);
    }
  }

  /** Putting an unlinked entry in front of a chain. */
  lemma Prepended(n: Node, head: Node?, c: seq<Node>, i: nat, len: nat)
    requires len > 0 && Bucket(head, c, i, len) && n !in c && Slot(n.hash, len) == i && n.next == head
    ensures Bucket(n, [n] + c, i, len)
  {
    var d := [n] + c;
    forall k | 0 <= k < |d| ensures d[k].next == First(d[k + 1..]) {
      if k == 0 {
        assert d[1..] == c;
      } else {
        assert d[k] == c[k - 1] && d[k + 1..] == c[k..];
      }
    }
  }

  /** A bucket array whose buckets hold the given chains. */
  ghost predicate Table(t: array<Node?>, chains: seq<seq<Node>>)
    reads t, NodesOf(chains)
  {
    t.Length > 0 && |chains| == t.Length
    && forall i :: 0 <= i < t.Length ==> Bucket(t[i], chains[i], i, t.Length)
  }

  lemma NodesUpdate(chains: seq<seq<Node>>, i: nat, n: Node)
    requires i < |chains|
    ensures NodesOf(chains[i := [n] + chains[i]]) == NodesOf(chains) + {n}
  {
    var new_ := chains[i := [n] + chains[i]];
    assert n in new_[i];
    forall m | m in NodesOf(chains) ensures m in NodesOf(new_) {
      var j :| 0 <= j < |chains| && m in chains[j];
      assert m in new_[j];
    }
    forall m | m in NodesOf(new_) ensures m in NodesOf(chains) + {n} {
      var j :| 0 <= j < |new_| && m in new_[j];
      assert m == n || m in chains[j];
    }
  }

  /** Put an entry that is in no chain at the front of its bucket. */
  method Relink(t: array<Node?>, ghost chains: seq<seq<Node>>, entry: Node) returns (ghost chains': seq<seq<Node>>)
    requires Table(t, chains) && entry !in NodesOf(chains)
    modifies t, entry`next
    ensures Table(t, chains') && NodesOf(chains') == NodesOf(chains) + {entry}
    ensures Count(chains') == Count(chains) + 1
  {
    hide NodesOf, Count, NoDup;
    var j := Slot(entry.hash, t.Length);
    ghost var c := chains[j];
    chains' := chains[j := [entry] + c];
    NodesUpdate(chains, j, entry);
    CountUpdate(chains, j, [entry] + c);
    var head := t[j];
    entry.next := head;
    assert Bucket(head, c, j, t.Length);
    Prepended(entry, head, c, j, t.Length);
    t[j] := entry;
  }

  /** Move every entry of a list into a bucket array. */
  method MoveChain(head: Node?, ghost c: seq<Node>, t: array<Node?>, ghost chains: seq<seq<Node>>)
    returns (ghost chains': seq<seq<Node>>)
    requires Linked(head, c) && NoDup(c) && Table(t, chains) && forall n :: n in c ==> n !in NodesOf(chains)
    modifies t, c
    ensures Table(t, chains') && Count(chains') == Count(chains) + |c|
    ensures NodesOf(chains') == NodesOf(chains) + SetOf(c)
  {
    chains' := chains;
    var list := head;
    ghost var k := 0;
    assert c[0..] == c;
    while list != null
      invariant 0 <= k <= |c| && Linked(list, c[k..]) && Table(t, chains')
      invariant Count(chains') == Count(chains) + k
      invariant NodesOf(chains') == NodesOf(chains) + SetOf(c[..k])
      decreases |c| - k
    {
      var entry := list;
      list := list.next;
      chains' := Relink(t, chains', entry);
      k := k + 1;
    }
  }

  /** Chains of different buckets share no entry. */
  lemma BucketsApart(t: array<Node?>, chains: seq<seq<Node>>, i: nat)
    requires 0 < t.Length == |chains| && i < |chains|
    requires forall j, n :: 0 <= j < |chains| && n in chains[j] ==> Slot(n.hash, t.Length) == j
    ensures forall n :: n in chains[i] ==> n !in NodesOf(chains[..i])
    ensures forall n, j :: n in chains[i] && 0 <= j < |chains| && j != i ==> n !in chains[j]
  {
    hide Slot;
    forall n, j | n in chains[i] && 0 <= j < |chains| && j != i ensures n !in chains[j] {
      assert Slot(n.hash, t.Length) == i;
    }
    forall n | n in chains[i] ensures n !in NodesOf(chains[..i]) {
      assert forall j :: 0 <= j < i ==> n !in chains[..i][j];
    }
  }

  lemma NodesTake(chains: seq<seq<Node>>, i: nat)
    requires i < |chains|
    ensures NodesOf(chains[..i + 1]) == NodesOf(chains[..i]) + SetOf(chains[i])
    ensures Count(chains[..i + 1]) == Count(chains[..i]) + |chains[i]|
  {
    var more := chains[..i + 1];
    assert more[..i] == chains[..i] && more[i] == chains[i];
    forall n | n in NodesOf(more) ensures n in NodesOf(chains[..i]) || n in chains[i] {
      var j :| 0 <= j < |more| && n in more[j];
      if j < i {
        assert n in chains[..i][j];
      }
    }
    forall n | n in NodesOf(chains[..i]) ensures n in NodesOf(more) {
      var j :| 0 <= j < i && n in chains[..i][j];
      assert n in more[j];
    }
  }

  /** Entry k unlinked from its chain. */
  lemma Unlinked(head: Node, c: seq<Node>, k: nat, i: nat, len: nat)
    requires 0 < k < |c| && len > 0 && NoDup(c) && head == c[0] && forall n :: n in c ==> Slot(n.hash, len) == i
    requires forall j :: 0 <= j < |c| && j != k - 1 && j != k ==> c[j].next == First(c[j + 1..])
    requires c[k - 1].next == First(c[k + 1..])
    ensures Bucket(head, c[..k] + c[k + 1..], i, len) && c[k] !in c[..k] + c[k + 1..]
  {
    hide Slot;
    var d := c[..k] + c[k + 1..];
    forall j | 0 <= j < |d| ensures d[j].next == First(d[j + 1..]) {
      if j >= k {
        assert d[j] == c[j + 1];
        assert d[j + 1..] == c[j + 2..];
      } else if j < k - 1 {
        assert d[j] == c[..k][j] && d[j + 1] == c[..k][j + 1];
        assert c[j].next == First(c[j + 1..]);
      } else {
        assert d[j + 1..] == c[k + 1..];
      }
    }
  }

  /** Entry k in front of the others. */
  function ToFront(c: seq<Node>, k: nat): seq<Node>
    requires k < |c|
  {
    [c[k]] + (c[..k] + c[k + 1..])
  }

  lemma NodesPermuted(chains: seq<seq<Node>>, i: nat, k: nat)
    requires i < |chains| && k < |chains[i]|
    ensures NodesOf(chains[i := ToFront(chains[i], k)]) == NodesOf(chains)
    ensures Count(chains[i := ToFront(chains[i], k)]) == Count(chains)
  {
    var c := chains[i];
    var d := ToFront(c, k);
    CountUpdate(chains, i, d);
    assert c == c[..k] + [c[k]] + c[k + 1..];
    assert forall n :: n in c <==> n in d;
    SameNodes(chains, chains[i := d]);
  }

  lemma SameNodes(chains: seq<seq<Node>>, chains': seq<seq<Node>>)
    requires |chains| == |chains'| && forall j, n :: 0 <= j < |chains| ==> (n in chains[j] <==> n in chains'[j])
    ensures NodesOf(chains) == NodesOf(chains')
  {
    forall n ensures n in NodesOf(chains) <==> n in NodesOf(chains') {
      if n in NodesOf(chains) {
        var j :| 0 <= j < |chains| && n in chains[j];
        assert n in chains'[j];
      }
      if n in NodesOf(chains') {
        var j :| 0 <= j < |chains'| && n in chains'[j];
        assert n in chains[j];
      }
    }
  }

  lemma NoNodes(chains: seq<seq<Node>>)
    ensures NodesOf(chains[..0]) == {} && Count(chains[..0]) == 0
  {
  }

  /** Move every entry of one bucket array into another. */
  method MoveAll(t: array<Node?>, ghost chains: seq<seq<Node>>, t': array<Node?>, ghost empty: seq<seq<Node>>)
    returns (ghost done: seq<seq<Node>>)
    requires Table(t, chains) && Table(t', empty) && NodesOf(empty) == {} && Count(empty) == 0 && t != t'
    modifies t', NodesOf(chains)
    ensures Table(t', done) && NodesOf(done) == NodesOf(chains) && Count(done) == Count(chains)
  {
    hide Slot, First, NoDup, NodesOf, Count;
    done := empty;
    NoNodes(chains);
    var i := 0;
    while i < t.Length
      invariant 0 <= i <= t.Length && Table(t', done)
      invariant forall j :: i <= j < t.Length ==> Bucket(t[j], chains[j], j, t.Length)
      invariant NodesOf(done) == NodesOf(chains[..i]) && Count(done) == Count(chains[..i])
    {
      NodesTake(chains, i);
      BucketsApart(t, chains, i);
      assert forall j, n :: i < j < |chains| && n in chains[j] ==> n !in chains[i];
      label moving:
      done := MoveChain(t[i], chains[i], t', done);
      forall j | i < j < t.Length ensures Bucket(t[j], chains[j], j, t.Length) {
        assert forall n :: n in chains[j] ==> n.next == old@moving(n.next);
      }
      i := i + 1;
    }
    assert chains[..i] == chains;
  }

  /** Relink an entry that is not first in front of its chain. */
  method Promote(t: array<Node?>, ghost chains: seq<seq<Node>>, hi: nat, ghost k: nat, prev: Node, list: Node)
    requires Table(t, chains) && hi < t.Length && 0 < k < |chains[hi]|
    requires prev == chains[hi][k - 1] && list == chains[hi][k]
    modifies t, prev`next, list`next
    ensures Table(t, chains[hi := ToFront(chains[hi], k)])
  {
    hide Slot, NodesOf;
    ghost var c := chains[hi];
    BucketsApart(t, chains, hi);
    assert prev in c && list in c;
    assert forall j, n :: 0 <= j < t.Length && j != hi && n in chains[j] ==> n !in c;
    assert forall j, n :: 0 <= j < t.Length && j != hi && n in chains[j] ==> n != prev && n != list;
    ghost var head := t[hi];
    prev.next := list.next;
    Unlinked(head, c, k, hi, t.Length);
    list.next := t[hi];
    Prepended(list, head, c[..k] + c[k + 1..], hi, t.Length);
    t[hi] := list;
    assert Bucket(t[hi], ToFront(c, k), hi, t.Length);
    forall j | 0 <= j < t.Length && j != hi ensures Bucket(t[j], chains[j], j, t.Length) {
      assert forall n :: n in chains[j] ==> n.next == old(n.next);
    }
  }

  /** All entries, chain by chain. */
  ghost function Flat(chains: seq<seq<Node>>): (f: seq<Node>)
    ensures |f| == Count(chains)
  {
    if |chains| == 0 then [] else Flat(chains[..|chains| - 1]) + chains[|chains| - 1]
  }

  /** That lists each entry once. */
  lemma {:induction false} FlatOnce(t: array<Node?>, chains: seq<seq<Node>>, i: nat)
    requires Table(t, chains) && i <= |chains|
    ensures NoDup(Flat(chains[..i])) && SetOf(Flat(chains[..i])) == NodesOf(chains[..i])
  {
    if i == 0 {
      assert SetOf([]) == {} == NodesOf(chains[..0]);
    } else {
      hide Slot, NodesOf, Linked;
      FlatOnce(t, chains, i - 1);
      NodesTake(chains, i - 1);
      assert chains[..i][..i - 1] == chains[..i - 1];
      var f, c := Flat(chains[..i - 1]), chains[i - 1];
      BucketsApart(t, chains, i - 1);
      assert forall n :: n in f ==> n in SetOf(f);
      NoDupJoin(f, c);
      SetOfJoin(f, c);
    }
  }

  lemma FlatAll(t: array<Node?>, chains: seq<seq<Node>>)
    requires Table(t, chains)
    ensures NoDup(Flat(chains)) && SetOf(Flat(chains)) == NodesOf(chains)
  {
    FlatOnce(t, chains, |chains|);
    assert chains[..|chains|] == chains;
  }

  lemma SetOfJoin(f: seq<Node>, c: seq<Node>)
    ensures SetOf(f + c) == SetOf(f) + SetOf(c)
  {
  }

  lemma NoDupJoin(f: seq<Node>, c: seq<Node>)
    requires NoDup(f) && NoDup(c) && forall n :: n in c ==> n !in f
    ensures NoDup(f + c)
  {
    var d := f + c;
    forall j, k | 0 <= j < k < |d| ensures d[j] != d[k] {
      if j < |f| <= k {
        assert d[k] in c && d[j] in f;
      }
    }
  }

  /** Visit every entry and empty the buckets. */
  method Drain(t: array<Node?>, ghost chains: seq<seq<Node>>) returns (visited: seq<Node>)
    requires |chains| == t.Length && forall j :: 0 <= j < t.Length ==> Linked(t[j], chains[j])
    modifies t
    ensures visited == Flat(chains) && forall j :: 0 <= j < t.Length ==> t[j] == null
  {
    visited := [];
    var i := 0;
    while i < t.Length
      invariant 0 <= i <= t.Length
      invariant forall j :: 0 <= j < i ==> t[j] == null
      invariant forall j :: i <= j < t.Length ==> Linked(t[j], chains[j])
      invariant visited == Flat(chains[..i])
    {
      assert chains[..i + 1][..i] == chains[..i];
      var entry := t[i];
      ghost var c, k := chains[i], 0;
      while entry != null
        invariant 0 <= k <= |c| && entry == First(c[k..]) && visited == Flat(chains[..i]) + c[..k]
        decreases |c| - k
      {
        visited := visited + [entry];
        entry := entry.next;
        k := k + 1;
      }
      t[i] := null;
      i := i + 1;
    }
    assert chains[..i] == chains;
  }

  lemma EmptyTable(t: array<Node?>)
    requires t.Length > 0 && forall j :: 0 <= j < t.Length ==> t[j] == null
    ensures var none: seq<seq<Node>> := seq(t.Length, _ => []);
      Table(t, none) && Count(none) == 0 && NodesOf(none) == {}
  {
    CountEmpty(seq(t.Length, _ => []));
  }

  class HashTable {
    var table: array?<Node?>
    var size: nat
    ghost var chains: seq<seq<Node>>

    ghost function Nodes(): set<Node>
      reads this
    {
      NodesOf(chains)
    }

    function Len(): nat
      reads this
    {
      if table == null then 0 else table.Length
    }

    ghost predicate Valid()
      reads this, table, NodesOf(chains)
    {
      size == Count(chains) && if table == null then chains == [] else Table(table, chains)
    }

    constructor ()
      ensures Valid() && table == null && Nodes() == {} && size == 0
    {
      table := null;
      size := 0;
      chains := [];
    }

    /** Replace the bucket array by a larger one and relink every entry. Without
        room for it nothing changes. */
    method Expand(room: bool)
      requires Valid()
      modifies this, NodesOf(chains)
      ensures Valid() && Nodes() == old(Nodes()) && size == old(size)
      ensures if room then table != null && fresh(table) && Len() == (old(Len()) + 7) * 3
              else table == old(table) && chains == old(chains)
    {
      if !room {
        return;
      }
      var newtable := new Node?[(Len() + 7) * 3](_ => null);
      ghost var done: seq<seq<Node>> := seq(newtable.Length, _ => []);
      CountEmpty(done);
      assert NodesOf(done) == {};
      if table != null {
        done := MoveAll(table, chains, newtable, done);
      }
      table := newtable;
      chains := done;
    }
  
    /** The entry with this hash and key, moved to the front of its chain. */
    method Lookup(key: int, hash: nat) returns (r: Node?)
      requires Valid()
      modifies table, NodesOf(chains), `chains
      ensures Valid() && table == old(table) && size == old(size) && Nodes() == old(Nodes())
      ensures r != null ==> r in Nodes() && r.hash == hash && r.key == key
      ensures r == null ==> forall n :: n in Nodes() ==> !(n.hash == hash && n.key == key)
    {
      if table == null {
        return null;
      }
      var hi := Slot(hash, table.Length);
      ghost var c := chains[hi];
      var prev: Node? := null;
      var list := table[hi];
      ghost var k := 0;
      while list != null
        invariant 0 <= k <= |c| && list == First(c[k..]) && prev == (if k == 0 then null else c[k - 1])
        invariant forall j :: 0 <= j < k ==> !(c[j].hash == hash && c[j].key == key)
        decreases |c| - k
      {
        if list.hash == hash && list.key == key {
          if prev != null {
            NodesPermuted(chains, hi, k);
            Promote(table, chains, hi, k, prev, list);
            chains := chains[hi := ToFront(c, k)];
          }
          return list;
        }
        prev := list;
        list := list.next;
        k := k + 1;
      }
      OnlyInBucket(hash);
      return null;
    }

    /** An entry can only be in the bucket of its hash. */
    lemma OnlyInBucket(hash: nat)
      requires Valid() && table != null
      ensures forall n :: n in Nodes() && n.hash == hash ==> n in chains[Slot(hash, table.Length)]
    {
      hide Slot;
      forall n | n in Nodes() && n.hash == hash ensures n in chains[Slot(hash, table.Length)] {
        var j :| 0 <= j < |chains| && n in chains[j];
      }
    }
  
    /** Add an entry. The two flags say whether there is room for a larger bucket
        array, should one be wanted, and for the entry. */
    method Add(key: int, val: int, hash: nat, roomToGrow: bool, room: bool) returns (r: Node?)
      requires Valid()
      modifies this, table, NodesOf(chains)
      ensures Valid() && (table == old(table) || fresh(table))
      ensures r == null <==> (old(table) == null && !roomToGrow) || !room
      ensures r == null ==> Nodes() == old(Nodes()) && size == old(size)
      ensures r != null ==> fresh(r) && r.hash == hash && r.key == key && r.val == val
                            && Nodes() == old(Nodes()) + {r} && size == old(size) + 1
      ensures old(size) <= 2 * old(Len()) + 1 && roomToGrow ==> size <= 2 * Len() + 1
    {
      hide Slot, Linked, NoDup, Count;
      if table == null || size > Len() * 2 {
        Expand(roomToGrow);
      }
      if table == null || !room {
        return null;
      }
      r := new Node(hash, key, val);
      chains := Relink(table, chains, r);
      size := size + 1;
    }

    /** Destroy every entry, each exactly once. */
    method Clear() returns (destroyed: seq<Node>)
      requires Valid()
      modifies table, `size, `chains
      ensures Valid() && Nodes() == {} && size == 0 && table == old(table)
      ensures NoDup(destroyed) && SetOf(destroyed) == old(Nodes())
    {
      hide Slot, Linked, Count;
      if table == null {
        NoNodes(chains);
        assert chains[..0] == chains;
        return [];
      }
      FlatAll(table, chains);
      destroyed := Drain(table, chains);
      EmptyTable(table);
      chains := seq(table.Length, _ => []);
      size := 0;
    }
  }

  // ----- whole runs -----

  /** What a caller does; adding may fail for want of room for the entry. */
  datatype Action = Insert(key: int, val: int, room: bool) | Find(key: int) | Empty

  /** The same on a finite map. */
  function Effect(m: map<int, int>, a: Action): map<int, int> {
    match a
    case Insert(k, v, room) => if room then m[k := v] else m
    case Find(_) => m
    case Empty => map[]
  }

  function Answer(m: map<int, int>, a: Action): Option<int> {
    match a
    case Insert(_, v, room) => if room then Some(v) else None
    case Find(k) => if k in m then Some(m[k]) else None
    case Empty => None
  }

  /** Callers do not add a key that is there already. */
  predicate Fresh(m: map<int, int>, actions: seq<Action>)
    decreases |actions|
  {
    |actions| == 0
    || ((actions[0].Insert? ==> actions[0].key !in m) && Fresh(Effect(m, actions[0]), actions[1..]))
  }

  function Answers(m: map<int, int>, actions: seq<Action>): seq<Option<int>>
    decreases |actions|
  {
    if |actions| == 0 then [] else [Answer(m, actions[0])] + Answers(Effect(m, actions[0]), actions[1..])
  }

  /** The entries stand for the map: one for each key, filed under its hash. */
  ghost predicate Stands(nodes: set<Node>, h: int -> nat, m: map<int, int>) {
    (forall n :: n in nodes ==> n.key in m && m[n.key] == n.val && n.hash == h(n.key))
    && (forall k :: k in m ==> exists n :: n in nodes && n.key == k)
    && forall n, n' :: n in nodes && n' in nodes && n.key == n'.key ==> n == n'
  }

  lemma StandsMore(nodes: set<Node>, h: int -> nat, m: map<int, int>, n: Node)
    requires Stands(nodes, h, m) && n.key !in m && n.hash == h(n.key)
    ensures Stands(nodes + {n}, h, m[n.key := n.val])
  {
    forall k | k in m.Keys + {n.key} ensures exists n' :: n' in nodes + {n} && n'.key == k {
      if k == n.key {
        assert n in nodes + {n};
      } else {
        var n' :| n' in nodes && n'.key == k;
        assert n' in nodes + {n};
      }
    }
  }

  /** One action on a table that stands for m. */
  method Do(t: HashTable, a: Action, h: int -> nat, ghost m: map<int, int>) returns (answer: Option<int>)
    requires t.Valid() && Stands(t.Nodes(), h, m) && (a.Insert? ==> a.key !in m) && t.size <= 2 * t.Len() + 1
    modifies t, t.table, t.Nodes()
    ensures t.Valid() && (t.table == old(t.table) || fresh(t.table)) && fresh(t.Nodes() - old(t.Nodes()))
    ensures answer == Answer(m, a) && Stands(t.Nodes(), h, Effect(m, a)) && t.size <= 2 * t.Len() + 1
  {
    match a {
      case Insert(k, v, room) => answer := DoInsert(t, k, v, room, h, m);
      case Find(k) =>
        var r := t.Lookup(k, h(k));
        answer := if r == null then None else Some(r.val);
      case Empty =>
        var destroyed := t.Clear();
        answer := None;
    }
  }

  method DoInsert(t: HashTable, k: int, v: int, room: bool, h: int -> nat, ghost m: map<int, int>)
    returns (answer: Option<int>)
    requires t.Valid() && Stands(t.Nodes(), h, m) && k !in m && t.size <= 2 * t.Len() + 1
    modifies t, t.table, t.Nodes()
    ensures t.Valid() && (t.table == old(t.table) || fresh(t.table)) && fresh(t.Nodes() - old(t.Nodes()))
    ensures var a := Insert(k, v, room); answer == Answer(m, a) && Stands(t.Nodes(), h, Effect(m, a))
    ensures t.size <= 2 * t.Len() + 1
  {
    hide Stands;
    ghost var nodes := t.Nodes();
    var r := t.Add(k, v, h(k), true, room);
    answer := if r == null then None else Some(r.val);
    if r != null {
      StandsMore(nodes, h, m, r);
    }
  }

  lemma RunStep(m: map<int, int>, actions: seq<Action>)
    requires Fresh(m, actions) && |actions| > 0
    ensures Answers(m, actions) == [Answer(m, actions[0])] + Answers(Effect(m, actions[0]), actions[1..])
    ensures Fresh(Effect(m, actions[0]), actions[1..]) && (actions[0].Insert? ==> actions[0].key !in m)
  {
  }

  /** Any run of the table answers as the map does, and its load stays bounded. */
  method Run(h: int -> nat, actions: seq<Action>) returns (answers: seq<Option<int>>, t: HashTable)
    requires Fresh(map[], actions)
    ensures answers == Answers(map[], actions)
    ensures fresh(t) && t.Valid() && t.size <= 2 * t.Len() + 1
  {
    hide Answer, Effect;
    t := new HashTable();
    answers := [];
    ghost var m: map<int, int> := map[];
    var i := 0;
    assert actions[0..] == actions;
    while i < |actions|
      invariant 0 <= i <= |actions| && fresh(t) && t.Valid() && (t.table != null ==> fresh(t.table))
      invariant fresh(t.Nodes()) && Stands(t.Nodes(), h, m) && Fresh(m, actions[i..])
      invariant answers + Answers(m, actions[i..]) == Answers(map[], actions)
      invariant t.size <= 2 * t.Len() + 1
    {
      hide Stands, Answers, Fresh;
      assert actions[i..][1..] == actions[i + 1..];
      RunStep(m, actions[i..]);
      var answer := Do(t, actions[i], h, m);
      answers := answers + [answer];
      m := Effect(m, actions[i]);
      i := i + 1;
    }
  }
}
