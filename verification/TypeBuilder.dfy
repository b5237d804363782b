/** Declarators as the parser builds them: types are linked nodes, a hole is a
    null link, and `DoPointTo` walks to it and overwrites it in place. Each method
    does what the function of the same name in `Declarators` says. */
module TypeBuilder {
  import opened Options
  import opened Declarators
  import D = Declarators

  datatype Kind =
    | VoidKind | NamedKind(name: nat)
    | PointerKind(isconst: bool, isvolatile: bool)
    | ArrayKind(len: Option<nat>)
    | FunctionKind(params: Option<nat>)

  class Node {
    const kind: Kind
    var link: Node?    // the type pointed to, of the elements, or returned

    constructor (kind: Kind, link: Node?)
      ensures this.kind == kind && this.link == link
    {
      this.kind, this.link := kind, link;
    }
  }

  function Shape(t: Type): seq<Kind> {
    match t
    case Hole => []
    case Void => [VoidKind]
    case Named(n) => [NamedKind(n)]
    case Pointer(c, v, u) => [PointerKind(c, v)] + Shape(u)
    case Array(n, u) => [ArrayKind(n)] + Shape(u)
    case Function(p, u) => [FunctionKind(p)] + Shape(u)
  }

  /** The shape of a type says all of it. */
  lemma {:induction false} ShapeInjective(t: Type, u: Type)
    requires Shape(t) == Shape(u)
    ensures t == u
  {
    if Shape(t) != [] {
      assert Shape(t)[0] == Shape(u)[0];
      if t.Pointer? {
        assert Shape(t)[1..] == Shape(t.to) && Shape(u)[1..] == Shape(u.to);
        ShapeInjective(t.to, u.to);
      } else if t.Array? {
        assert Shape(t)[1..] == Shape(t.of) && Shape(u)[1..] == Shape(u.of);
        ShapeInjective(t.of, u.of);
      } else if t.Function? {
        assert Shape(t)[1..] == Shape(t.ret) && Shape(u)[1..] == Shape(u.ret);
        ShapeInjective(t.ret, u.ret);
      }
    }
  }

  lemma {:induction false} ShapeFill(t: Type, u: Type)
    requires HasHole(t)
    ensures Shape(Fill(t, u)) == Shape(t) + Shape(u)
  {
    match t
    case Hole => assert [] + Shape(u) == Shape(u);
    case Pointer(_, _, v) => ShapeFill(v, u);
    case Array(_, v) => ShapeFill(v, u);
    case Function(_, v) => ShapeFill(v, u);
  }

  lemma {:induction false} ShapeOfHole(t: Type)
    requires HasHole(t)
    ensures ArrayOfHole(t) <==> Shape(t) != [] && Shape(t)[|Shape(t)| - 1].ArrayKind?
    ensures Shape(t) == [] <==> t.Hole?
  {
    match t
    case Hole =>
    case Pointer(_, _, v) => ShapeOfHole(v);
    case Array(_, v) => ShapeOfHole(v);
    case Function(_, v) => ShapeOfHole(v);
  }

  function At(nodes: seq<Node>, i: nat): Node? {
    if i < |nodes| then nodes[i] else null
  }

  /** `nodes`, in order and all different, are the type `t` starting at `p`. */
  ghost predicate Linked(p: Node?, t: Type, nodes: seq<Node>)
    reads nodes
  {
    && |nodes| == |Shape(t)| && p == At(nodes, 0)
    && (forall i :: 0 <= i < |nodes| ==> nodes[i].kind == Shape(t)[i] && nodes[i].link == At(nodes, i + 1))
    && (forall i, j :: 0 <= i < j < |nodes| ==> nodes[i] != nodes[j])
  }

  predicate Apart(a: seq<Node>, b: seq<Node>) {
    forall i, j :: 0 <= i < |a| && 0 <= j < |b| ==> a[i] != b[j]
  }

  lemma VoidShape(t: Type)
    ensures t.Void? <==> Shape(t) != [] && Shape(t)[0].VoidKind?
    ensures t.Hole? <==> Shape(t) == []
  {
  }

  lemma FillHole(t: Type)
    requires HasHole(t)
    ensures Fill(t, Hole) == t
  {
    ShapeFill(t, Hole);
    assert Shape(t) + [] == Shape(t);
    ShapeInjective(Fill(t, Hole), t);
  }

  lemma LinkedEnds(p: Node?, t: Type, nodes: seq<Node>)
    requires Linked(p, t, nodes)
    ensures p == null <==> t.Hole?
    ensures p != null && p.kind.VoidKind? <==> t.Void?
  {
    VoidShape(t);
  }

  /** The last node of `a`, whose link is the hole, is linked to `to`. */
  method Plug(last: Node, to: Node, ghost t: Type, ghost a: seq<Node>, ghost u: Type, ghost b: seq<Node>)
    requires a != [] && last == a[|a| - 1] && Linked(a[0], t, a) && Linked(to, u, b) && HasHole(t) && Apart(a, b)
    modifies last
    ensures Linked(a[0], Fill(t, u), a + b)
  {
    ShapeFill(t, u);
    hide Shape, Fill, HasHole;
    last.link := to;
    ghost var c := a + b;
    ghost var m := |a| - 1;
    forall i | 0 <= i < |c|
      ensures c[i].kind == (Shape(t) + Shape(u))[i] && c[i].link == At(c, i + 1)
    {
      if i < m {
        assert c[i] == a[i] && a[i] != a[m];
      } else if i > m {
        assert c[i] == b[i - m - 1] && a[m] != b[i - m - 1];
      }
    }
    forall i, j | 0 <= i < j < |c|
      ensures c[i] != c[j]
    {
      if i <= m < j { assert a[i] != b[j - m - 1]; }
    }
  }

  /** Walk down `point` to its hole and put `to` there, in place. */
  method DoPointTo(point: Node?, to: Node?, ghost t: Type, ghost a: seq<Node>, ghost u: Type, ghost b: seq<Node>)
    returns (r: Node?, ok: bool)
    requires Linked(point, t, a) && Linked(to, u, b) && HasHole(t) && Apart(a, b)
    modifies a
    ensures ok <==> !Refused(t, u)
    ensures Linked(r, D.PointTo(t, u), if ok then a + b else a)
  {
    ShapeOfHole(t);
    LinkedEnds(point, t, a);
    LinkedEnds(to, u, b);
    hide Fill, HasHole, ArrayOfHole;
    ok := true;
    if point == null {
      assert Fill(Hole, u) == u by { FillsHole(u); }
      assert a + b == b;
      return to, true;
    }
    if to == null {
      FillHole(t);
      assert a + b == a;
      return point, true;
    }
    r := point;
    var tp: Node := point;
    ghost var i := 0;
    while tp.link != null
      invariant 0 <= i < |a| && tp == a[i]
      decreases |a| - i
    {
      tp := tp.link;
      i := i + 1;
    }
    assert i == |a| - 1;
    if tp.kind.ArrayKind? && to.kind.VoidKind? {
      ok := false;
    } else {
      Plug(tp, to, t, a, u, b);
    }
  }

  lemma FillsHole(u: Type)
    ensures Fill(Hole, u) == u
  {
  }

  lemma PointerShape(q: seq<Tok>, t: Type)
    ensures Shape(PointerTo(q, t)) == [PointerKind(Const in q, Volatile in q)] + Shape(t)
  {
  }

  /** A node in front of a type. */
  method Derive(kind: Kind, p: Node?, ghost t: Type, ghost nodes: seq<Node>, ghost t': Type) returns (n: Node)
    requires Linked(p, t, nodes) && Shape(t') == [kind] + Shape(t)
    ensures fresh(n) && Linked(n, t', [n] + nodes)
  {
    hide Shape;
    n := new Node(kind, p);
    ghost var c := [n] + nodes;
    forall i | 0 <= i < |c|
      ensures c[i].kind == Shape(t')[i] && c[i].link == At(c, i + 1)
    {
      if i > 0 { assert c[i] == nodes[i - 1]; }
    }
  }

  lemma HoleIsAccepted(s: seq<Tok>)
    ensures Declare(Hole, s).Declared? ==> Declare(Hole, s).ok && HasHole(Declare(Hole, s).t)
  {
    if Declare(Hole, s).Declared? {
      var d := ReadsOnlyDeclarators(Hole, s);
      KeepsHole(Hole, d);
    }
  }

  lemma {:induction false} KeepsHole(t: Type, d: Declarator)
    requires HasHole(t)
    ensures HasHole(Meaning(t, d))
    decreases d
  {
    PointersKeepHole(t, d.pointers);
    var t1 := Pointers(t, d.pointers);
    if d.direct.suffix.Arrays? { ArraysKeepHole(t1, d.direct.suffix.lens); }
    if d.direct.core.Paren? {
      KeepsHole(Suffixed(t1, d.direct.suffix), d.direct.core.d);
    }
  }

  lemma {:induction false} PointersKeepHole(t: Type, ps: seq<seq<Tok>>)
    requires HasHole(t)
    ensures HasHole(Pointers(t, ps))
    decreases |ps|
  {
    if ps != [] { PointersKeepHole(PointerTo(ps[0], t), ps[1..]); }
  }

  lemma {:induction false} ArraysKeepHole(t: Type, lens: seq<Option<nat>>)
    requires HasHole(t)
    ensures HasHole(ArraysOf(lens, t))
  {
    if lens != [] { ArraysKeepHole(t, lens[1..]); }
  }

  function Prefixed(q: seq<Tok>, r: Qualified): Qualified {
    Qualified(q + r.q, r.rest)
  }

  lemma QualifiedNone(r: Qualified)
    ensures Prefixed([], r) == r
  {
    assert [] + r.q == r.q;
  }

  lemma Assoc<T>(a: seq<T>, b: seq<T>, c: seq<T>)
    ensures a + (b + c) == (a + b) + c
  {
  }

  lemma QualifierStep(q: seq<Tok>, s: seq<Tok>)
    requires s != [] && IsQualifier(s[0])
    ensures Prefixed(q, TakeQualifiers(s)) == Prefixed(q + [s[0]], TakeQualifiers(s[1..]))
  {
    var r := TakeQualifiers(s[1..]);
    assert TakeQualifiers(s) == Qualified([s[0]] + r.q, r.rest);
    hide TakeQualifiers;
    Assoc(q, [s[0]], r.q);
  }

  lemma QualifiersEnd(q: seq<Tok>, s: seq<Tok>)
    requires s == [] || !IsQualifier(s[0])
    ensures Prefixed(q, TakeQualifiers(s)) == Qualified(q, s)
  {
    assert q + [] == q;
  }

  lemma PointerStep(t: Type, s: seq<Tok>)
    requires s != [] && s[0] == Star
    ensures var q := TakeQualifiers(s[1..]); TakePointers(t, s) == TakePointers(PointerTo(q.q, t), q.rest)
  {
  }

  lemma PointersEnd(t: Type, s: seq<Tok>)
    requires s == [] || s[0] != Star
    ensures TakePointers(t, s) == Typed(t, s)
  {
  }

  lemma NoPoint(t: Type)
    ensures D.PointTo(Hole, t) == t && !Refused(Hole, t)
  {
  }

  lemma NoLink()
    ensures Linked(null, Hole, [])
  {
  }

  class Parser {
    var rest: seq<Tok>    // what the scanner has still to give
    var errors: nat

    constructor (toks: seq<Tok>)
      ensures rest == toks && errors == 0
    {
      rest, errors := toks, 0;
    }

    predicate Next(k: Tok)
      reads this
    {
      rest != [] && rest[0] == k
    }

    method Qualifiers() returns (isconst: bool, isvolatile: bool)
      modifies `rest
      ensures var r := TakeQualifiers(old(rest));
        rest == r.rest && isconst == (Const in r.q) && isvolatile == (Volatile in r.q)
    {
      hide TakeQualifiers;
      isconst, isvolatile := false, false;
      ghost var q: seq<Tok> := [];
      QualifiedNone(TakeQualifiers(rest));
      while Next(Const) || Next(Volatile)
        invariant TakeQualifiers(old(rest)) == Prefixed(q, TakeQualifiers(rest))
        invariant isconst == (Const in q) && isvolatile == (Volatile in q)
        decreases |rest|
      {
        QualifierStep(q, rest);
        if rest[0] == Const { isconst := true; } else { isvolatile := true; }
        q := q + [rest[0]];
        rest := rest[1..];
      }
      QualifiersEnd(q, rest);
    }

    method Pointers(base: Node?, ghost t: Type, ghost nodes: seq<Node>) returns (p: Node?, ghost added: seq<Node>)
      requires Linked(base, t, nodes)
      modifies `rest
      ensures fresh(added)
      ensures var r := TakePointers(t, old(rest)); rest == r.rest && Linked(p, r.t, added + nodes)
    {
      hide TakePointers, TakeQualifiers, PointerTo, Linked;
      p, added := base, [];
      ghost var u := t;
      assert [] + nodes == nodes;
      while Next(Star)
        invariant fresh(added) && Linked(p, u, added + nodes)
        invariant TakePointers(t, old(rest)) == TakePointers(u, rest)
        decreases |rest|
      {
        PointerStep(u, rest);
        rest := rest[1..];
        p, u, added := OnePointer(p, u, added, nodes);
      }
      PointersEnd(u, rest);
    }

    method OnePointer(p: Node?, ghost u: Type, ghost added: seq<Node>, ghost nodes: seq<Node>)
      returns (n: Node, ghost u': Type, ghost added': seq<Node>)
      requires Linked(p, u, added + nodes)
      modifies `rest
      ensures |rest| <= |old(rest)|
      ensures added' == [n] + added && fresh(n) && Linked(n, u', added' + nodes)
      ensures var q := TakeQualifiers(old(rest)); u' == PointerTo(q.q, u) && rest == q.rest
    {
      ghost var q := TakeQualifiers(rest).q;
      hide TakeQualifiers, Linked, Shape;
      var c, v := Qualifiers();
      u' := PointerTo(q, u);
      PointerShape(q, u);
      n := Derive(PointerKind(c, v), p, u, added + nodes, u');
      added' := [n] + added;
      assert [n] + (added + nodes) == added' + nodes;
    }

    method Arrays(base: Node?, ghost t: Type, ghost nodes: seq<Node>)
      returns (bad: bool, p: Node?, ghost added: seq<Node>)
      requires Next(LBracket) && Linked(base, t, nodes)
      modifies `rest
      ensures fresh(added)
      ensures var r := TakeArrays(t, old(rest));
        bad == r.Fail? && (!bad ==> rest == r.rest && Linked(p, r.t, added + nodes))
      decreases |rest|
    {
      hide Linked, Shape;
      p, added, bad := base, [], true;
      ghost var all := TakeArrays(t, rest);
      var len: Option<nat> := None;
      var end := 1;
      if |rest| > 1 && rest[1].Length? {
        len := Some(rest[1].n);
        end := 2;
      }
      if |rest| <= end || rest[end] != RBracket {
        return;
      }
      rest := rest[end + 1..];
      ghost var inner := if Next(LBracket) then TakeArrays(t, rest) else Typed(t, rest);
      assert all == if inner.Fail? then Fail else Typed(Array(len, inner.t), inner.rest);
      hide TakeArrays;
      if Next(LBracket) {
        bad, p, added := Arrays(base, t, nodes);
        if bad {
          return;
        }
      } else {
        assert [] + nodes == nodes;
      }
      bad := false;
      p, added := DeriveArray(len, p, inner.t, added, nodes);
    }

    method DeriveArray(len: Option<nat>, p: Node?, ghost u: Type, ghost added: seq<Node>, ghost nodes: seq<Node>)
      returns (n: Node, ghost added': seq<Node>)
      requires Linked(p, u, added + nodes)
      ensures added' == [n] + added && fresh(n) && Linked(n, Array(len, u), added' + nodes)
    {
      n := Derive(ArrayKind(len), p, u, added + nodes, Array(len, u));
      added' := [n] + added;
      assert [n] + (added + nodes) == added' + nodes;
    }

    method Call(base: Node?, ghost t: Type, ghost nodes: seq<Node>)
      returns (bad: bool, p: Node?, ghost added: seq<Node>)
      requires Linked(base, t, nodes)
      modifies `rest
      ensures fresh(added)
      ensures var r := TakeCall(t, old(rest));
        bad == r.Fail? && (!bad ==> rest == r.rest && Linked(p, r.t, added + nodes))
    {
      hide Linked, Shape;
      p, added, bad := base, [], true;
      var params: Option<nat> := None;
      var end := 0;
      if rest != [] && rest[0].Params? {
        params := Some(rest[0].p);
        end := 1;
      }
      if |rest| <= end || rest[end] != RParen {
        return;
      }
      rest := rest[if |rest| > end + 1 && rest[end + 1].Const? then end + 2 else end + 1..];
      bad := false;
      var n := DeriveFunction(params, p, t, nodes);
      p, added := n, [n];
    }

    method DeriveFunction(params: Option<nat>, p: Node?, ghost t: Type, ghost nodes: seq<Node>) returns (n: Node)
      requires Linked(p, t, nodes)
      ensures fresh(n) && Linked(n, Function(params, t), [n] + nodes)
    {
      n := Derive(FunctionKind(params), p, t, nodes, Function(params, t));
    }

    /** An array or function suffix, or none. */
    method Suffix(base: Node?, ghost t: Type, ghost nodes: seq<Node>)
      returns (bad: bool, p: Node?, ghost added: seq<Node>)
      requires Linked(base, t, nodes)
      modifies `rest
      ensures fresh(added)
      ensures var r := TakeSuffix(t, old(rest));
        bad == r.Fail? && (!bad ==> rest == r.rest && Linked(p, r.t, added + nodes))
    {
      hide TakeArrays, TakeCall, Linked;
      bad, p, added := false, base, [];
      assert [] + nodes == nodes;
      if Next(LBracket) {
        bad, p, added := Arrays(base, t, nodes);
      } else if Next(LParen) {
        rest := rest[1..];
        bad, p, added := Call(base, t, nodes);
      }
    }

    /** Pointers, then a name or a declarator in parentheses, then a suffix; what
        is in the parentheses is built around a hole and plugged at the end. */
    method Declarator(base: Node?, ghost t: Type, ghost nodes: seq<Node>)
      returns (bad: bool, p: Node?, id: nat, ghost added: seq<Node>)
      requires Linked(base, t, nodes)
      modifies `rest, `errors
      ensures fresh(added)
      ensures match Declare(t, old(rest))
        case Bad => bad
        case Declared(t', n, rest', ok) =>
          && !bad && id == n && rest == rest' && Linked(p, t', if ok then added + nodes else added)
          && errors == old(errors) + if ok then 0 else 1
      decreases |rest|, 1
    {
      hide DeclareDirect, TakePointers, Linked;
      ghost var r := TakePointers(t, rest);
      ghost var front, back;
      p, front := Pointers(base, t, nodes);
      bad, p, id, back := DirectDeclarator(p, r.t, front + nodes);
      ghost var ok := !bad && DeclareDirect(r.t, r.rest).ok;
      added := if ok then back + front else back;
      Assoc(back, front, nodes);
    }

    method DirectDeclarator(base: Node?, ghost t: Type, ghost nodes: seq<Node>)
      returns (bad: bool, p: Node?, id: nat, ghost added: seq<Node>)
      requires Linked(base, t, nodes)
      modifies `rest, `errors
      ensures fresh(added)
      ensures match DeclareDirect(t, old(rest))
        case Bad => bad
        case Declared(t', n, rest', ok) =>
          && !bad && id == n && rest == rest' && Linked(p, t', if ok then added + nodes else added)
          && errors == old(errors) + if ok then 0 else 1
      decreases |rest|, 0
    {
      hide Declare, TakeSuffix, Linked, D.PointTo, Refused;
      bad, p, id, added := true, base, 0, [];
      if rest != [] && rest[0].Id? {
        id := rest[0].id;
        rest := rest[1..];
        ghost var r := TakeSuffix(t, rest);
        bad, p, added := Suffix(base, t, nodes);
        if !bad { NoPoint(r.t); }
      } else if Next(LParen) {
        rest := rest[1..];
        HoleIsAccepted(rest);
        ghost var inner := Declare(Hole, rest);
        NoLink();
        var point;
        bad, point, id, added := Declarator(null, Hole, []);
        if bad {
          return;
        }
        if !Next(RParen) {
          bad := true;
          return;
        }
        assert added + [] == added;
        rest := rest[1..];
        ghost var r := TakeSuffix(t, rest);
        ghost var back;
        bad, p, back := Suffix(base, t, nodes);
        if bad {
          return;
        }
        var ok;
        p, ok := DoPointTo(point, p, inner.t, added, r.t, back + nodes);
        Assoc(added, back, nodes);
        if ok {
          added := added + back;
        } else {
          errors := errors + 1;
        }
      }
    }
  }
}
