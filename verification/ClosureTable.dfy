/** One tenant's slice of the closure table as a value, the table operations that
    make up a reparenting, and the theorem that they keep the table the reflexive
    and transitive closure of the manager edges. */
module ClosureTable {
  import opened Domain
  import opened Forest

  /** (ancestor, descendant) -> depth; the pair is a unique key. */
  type Table = map<(Id, Id), nat>

  /** The registered users: those with a self row. */
  function Nodes(t: Table): set<Id> {
    set k | k in t && k.0 == k.1 :: k.0
  }

  function Descendants(t: Table, u: Id): set<Id> {
    set k | k in t && k.0 == u :: k.1
  }

  function Ancestors(t: Table, u: Id): set<Id> {
    set k | k in t && k.1 == u :: k.0
  }

  function ProperAncestors(t: Table, u: Id): set<Id> {
    Ancestors(t, u) - {u}
  }

  function Product(a: set<Id>, b: set<Id>): set<(Id, Id)> {
    set x, y | x in a && y in b :: (x, y)
  }

  /** The rows `deleteMany` removes when `u` is moved. */
  function Rectangle(t: Table, u: Id): set<(Id, Id)> {
    set k | k in t && k.1 in Descendants(t, u) && k.0 in ProperAncestors(t, u)
  }

  function Detach(t: Table, u: Id): Table {
    map k | k in t && !(k.1 in Descendants(t, u) && k.0 in ProperAncestors(t, u)) :: t[k]
  }

  /** The rows built for `createMany`: each ancestor-or-self of `x` over each
      descendant-or-self of `u`, one hop longer than the two depths together. */
  function CrossJoin(t: Table, u: Id, x: Id): Table {
    map k | k in Product(Ancestors(t, x), Descendants(t, u)) :: t[(k.0, x)] + t[(u, k.1)] + 1
  }

  /** Insertion skips duplicates: on a clash the row already present wins. */
  function Reparent(t: Table, u: Id, x: Id): Table {
    CrossJoin(t, u, x) + Detach(t, u)
  }

  function WithNode(t: Table, u: Id): Table {
    if (u, u) in t then t else t[(u, u) := 0]
  }

  /** The table is the reflexive and transitive closure of `m` over its nodes,
      with exact depths. */
  ghost predicate IsClosure(t: Table, m: Edges) {
    && (forall d :: d in m ==> (d, d) in t)
    && RowsAreHops(t, m)
    && HopsAreRows(t, m)
  }

  ghost predicate RowsAreHops(t: Table, m: Edges) {
    forall k :: k in t ==>
      (k.0, k.0) in t && (k.1, k.1) in t && Up(m, k.1, t[k]) == Some(k.0)
  }

  ghost predicate HopsAreRows(t: Table, m: Edges) {
    forall d, i: nat :: (d, d) in t && Up(m, d, i).Some? ==>
      (Up(m, d, i).value, d) in t && t[(Up(m, d, i).value, d)] == i
  }

  /** Row (a, d, k) exists exactly when `a` is reached from the registered user
      `d` by k manager hops. */
  lemma {:induction false} RowIsHops(t: Table, m: Edges, a: Id, d: Id, k: nat)
    requires IsClosure(t, m)
    ensures (a, d) in t && t[(a, d)] == k <==> d in Nodes(t) && Up(m, d, k) == Some(a)
  {
  }

  lemma {:induction false} NodesAreSelfRows(t: Table, d: Id)
    ensures d in Nodes(t) <==> (d, d) in t
  {
  }

  lemma {:induction false} RowIsAbove(t: Table, m: Edges, a: Id, d: Id)
    requires IsClosure(t, m) && d in Nodes(t)
    ensures (a, d) in t <==> Above(m, a, d)
  {
  }

  /** A table that is a closure at all leaves no room for a cycle. */
  lemma {:induction false} ClosureIsAcyclic(t: Table, m: Edges)
    requires IsClosure(t, m)
    ensures Acyclic(m)
  {
    forall d, k: nat | 0 < k ensures Up(m, d, k) != Some(d) {
      if d in m {
        assert Up(m, d, 0) == Some(d);
        assert t[(d, d)] == 0;
      }
    }
  }

  /** The nodes and the edges determine the table: histories do not matter. */
  lemma {:induction false} ClosureUnique(s: Table, t: Table, m: Edges)
    requires IsClosure(s, m) && IsClosure(t, m) && Nodes(s) == Nodes(t)
    ensures s == t
  {
    ClosureIncluded(s, t, m);
    ClosureIncluded(t, s, m);
    assert s.Keys == t.Keys;
  }

  lemma {:induction false} ClosureIncluded(s: Table, t: Table, m: Edges)
    requires IsClosure(s, m) && IsClosure(t, m) && Nodes(s) == Nodes(t)
    ensures forall k :: k in s ==> k in t && t[k] == s[k]
  {
    forall k | k in s ensures k in t && t[k] == s[k] {
      NodesAreSelfRows(s, k.1);
      NodesAreSelfRows(t, k.1);
      assert k == (k.0, k.1);
    }
  }

  /** ... and the table determines the edges. */
  lemma {:induction false} ClosureDeterminesEdges(t: Table, m: Edges, n: Edges)
    requires IsClosure(t, m) && IsClosure(t, n)
    ensures m == n
  {
    EdgesIncluded(t, m, n);
    EdgesIncluded(t, n, m);
    assert m.Keys == n.Keys;
  }

  lemma {:induction false} EdgesIncluded(t: Table, m: Edges, n: Edges)
    requires IsClosure(t, m) && IsClosure(t, n)
    ensures forall d :: d in m ==> d in n && n[d] == m[d]
  {
    forall d | d in m ensures d in n && n[d] == m[d] {
      assert Up(m, d, 1) == Some(m[d]) by { assert Up(m, m[d], 0) == Some(m[d]); }
      assert t[(m[d], d)] == 1;
      assert Up(n, d, 1) == Some(m[d]);
      assert d in n ==> Up(n, d, 1) == Up(n, n[d], 0);
    }
  }

  // ---------------------------------------------------------------------------
  // Maintenance keeps the closure
  // ---------------------------------------------------------------------------

  lemma {:induction false} WithNodeIsClosure(t: Table, m: Edges, u: Id)
    requires IsClosure(t, m)
    ensures IsClosure(WithNode(t, u), m)
    ensures Nodes(WithNode(t, u)) == Nodes(t) + {u}
  {
    var t' := WithNode(t, u);
    forall d ensures d in Nodes(t') <==> d in Nodes(t) + {u} {
      NodesAreSelfRows(t, d);
      NodesAreSelfRows(t', d);
    }
    if (u, u) !in t {
      assert u !in m;
      forall i: nat ensures Up(m, u, i).Some? <==> i == 0 {}
      assert Up(m, u, 0) == Some(u);
    }
  }

  /** The cycle test reads one row, and that row exists exactly when `u` is above
      the proposed manager. */
  lemma {:induction false} CycleTestExact(t: Table, m: Edges, u: Id, x: Id)
    requires IsClosure(t, m)
    ensures (u, x) in WithNode(WithNode(t, u), x) <==> Above(m, u, x)
  {
    WithNodeIsClosure(t, m, u);
    WithNodeIsClosure(WithNode(t, u), m, x);
    RowIsAbove(WithNode(WithNode(t, u), x), m, u, x);
  }

  /** Rows that survive the deletion: everything outside the subtree, and inside
      it the rows that stay within it. */
  lemma {:induction false} DetachExact(t: Table, m: Edges, u: Id, a: Id, d: Id)
    requires IsClosure(t, m) && (a, d) in t
    ensures (a, d) !in Detach(t, u) <==> (u, d) in t && (a, u) in t && a != u
    ensures (u, d) in t && (a, d) in Detach(t, u) ==> (u, a) in t && t[(a, d)] <= t[(u, d)]
  {
    assert d in Descendants(t, u) <==> (u, d) in t by {
      if (u, d) in t { assert (u, d).0 == u && (u, d).1 == d; }
    }
    assert a in Ancestors(t, u) <==> (a, u) in t by {
      if (a, u) in t { assert (a, u).0 == a && (a, u).1 == u; }
    }
    if (u, d) in t {
      var j, i := t[(u, d)], t[(a, d)];
      if i <= j {
        UpBetween(m, d, i, j);
        assert Up(m, a, j - i) == Some(u);
        assert (u, a) in t;
      } else {
        UpBetween(m, d, j, i);
        assert Up(m, u, i - j) == Some(a);
        assert (a, u) in t;
        ClosureIsAcyclic(t, m);
      }
    }
  }

  /** The inserted rows never meet a surviving one: `skipDuplicates` has nothing
      to skip. */
  lemma {:induction false} CrossJoinIsNew(t: Table, m: Edges, u: Id, x: Id)
    requires IsClosure(t, m) && (u, u) in t && (x, x) in t && (u, x) !in t
    ensures CrossJoin(t, u, x).Keys !! Detach(t, u).Keys
  {
    forall k | k in CrossJoin(t, u, x) && k in Detach(t, u) ensures false {
      assert (k.0, x) in t && (u, k.1) in t;
      DetachExact(t, m, u, k.0, k.1);
      // k.0 is above x and inside the subtree of u, so u is above x.
      UpCompose(m, x, t[(k.0, x)], t[(u, k.0)]);
    }
  }

  lemma {:induction false} CrossJoinRow(t: Table, u: Id, x: Id, a: Id, d: Id)
    ensures (a, d) in CrossJoin(t, u, x) <==> (a, x) in t && (u, d) in t
    ensures (a, d) in CrossJoin(t, u, x) ==>
      CrossJoin(t, u, x)[(a, d)] == t[(a, x)] + t[(u, d)] + 1
  {
  }

  /** Every row of the new table is right ... */
  lemma {:induction false} ReparentSound(t: Table, m: Edges, u: Id, x: Id, a: Id, d: Id)
    requires IsClosure(t, m) && (u, u) in t && (x, x) in t && (u, x) !in t
    requires (a, d) in Reparent(t, u, x)
    ensures (a, a) in t && (d, d) in t
    ensures Up(m[u := x], d, Reparent(t, u, x)[(a, d)]) == Some(a)
  {
    ClosureIsAcyclic(t, m);
    NodesAreSelfRows(t, x);
    RowIsAbove(t, m, u, x);
    CrossJoinIsNew(t, m, u, x);
    CrossJoinRow(t, u, x, a, d);
    if (a, d) in CrossJoin(t, u, x) {
      UpThrough(m, u, x, d, t[(u, d)], t[(a, x)]);
    } else {
      DetachExact(t, m, u, a, d);
      if (u, d) in t {
        UpInside(m, u, x, d, t[(u, d)], t[(a, d)]);
      } else {
        NodesAreSelfRows(t, d);
        RowIsAbove(t, m, u, d);
        UpOutside(m, u, x, d, t[(a, d)]);
      }
    }
  }

  /** ... and no row is missing. */
  lemma {:induction false} ReparentComplete(t: Table, m: Edges, u: Id, x: Id, d: Id, i: nat)
    requires IsClosure(t, m) && (u, u) in t && (x, x) in t && (u, x) !in t
    requires (d, d) in t && Up(m[u := x], d, i).Some?
    ensures var a := Up(m[u := x], d, i).value;
      (a, d) in Reparent(t, u, x) && Reparent(t, u, x)[(a, d)] == i
  {
    ClosureIsAcyclic(t, m);
    NodesAreSelfRows(t, x);
    NodesAreSelfRows(t, d);
    RowIsAbove(t, m, u, x);
    RowIsAbove(t, m, u, d);
    CrossJoinIsNew(t, m, u, x);
    var a := Up(m[u := x], d, i).value;
    CrossJoinRow(t, u, x, a, d);
    if (u, d) !in t {
      UpOutside(m, u, x, d, i);
      DetachExact(t, m, u, a, d);
    } else if i <= t[(u, d)] {
      var j := t[(u, d)];
      UpInside(m, u, x, d, j, i);
      DetachExact(t, m, u, a, d);
      UpBetween(m, d, i, j);
      if (a, u) in t && a != u {
        AboveAntisymmetric(m, a, j - i, u, t[(a, u)]);
      }
    } else {
      var j := t[(u, d)];
      UpThrough(m, u, x, d, j, i - j - 1);
      assert (a, x) in t && t[(a, x)] == i - j - 1;
    }
  }

  lemma {:induction false} ReparentNodes(t: Table, m: Edges, u: Id, x: Id)
    requires IsClosure(t, m) && (u, u) in t && (x, x) in t && (u, x) !in t
    ensures Nodes(Reparent(t, u, x)) == Nodes(t)
  {
    var t' := Reparent(t, u, x);
    forall d ensures d in Nodes(t') <==> d in Nodes(t) {
      NodesAreSelfRows(t, d);
      NodesAreSelfRows(t', d);
      if (d, d) in t {
        assert Up(m[u := x], d, 0) == Some(d);
        ReparentComplete(t, m, u, x, d, 0);
      } else if (d, d) in t' {
        ReparentSound(t, m, u, x, d, d);
      }
    }
  }

  lemma {:induction false} ReparentRows(t: Table, m: Edges, u: Id, x: Id, k: (Id, Id))
    requires IsClosure(t, m) && (u, u) in t && (x, x) in t && (u, x) !in t
    requires k in Reparent(t, u, x)
    ensures (k.0, k.0) in Reparent(t, u, x) && (k.1, k.1) in Reparent(t, u, x)
    ensures Up(m[u := x], k.1, Reparent(t, u, x)[k]) == Some(k.0)
  {
    assert k == (k.0, k.1);
    ReparentSound(t, m, u, x, k.0, k.1);
    ReparentNodes(t, m, u, x);
    NodesAreSelfRows(t, k.0);
    NodesAreSelfRows(t, k.1);
    NodesAreSelfRows(Reparent(t, u, x), k.0);
    NodesAreSelfRows(Reparent(t, u, x), k.1);
  }

  lemma {:induction false} ReparentHops(t: Table, m: Edges, u: Id, x: Id, d: Id, i: nat)
    requires IsClosure(t, m) && (u, u) in t && (x, x) in t && (u, x) !in t
    requires (d, d) in Reparent(t, u, x) && Up(m[u := x], d, i).Some?
    ensures var a := Up(m[u := x], d, i).value;
      (a, d) in Reparent(t, u, x) && Reparent(t, u, x)[(a, d)] == i
  {
    ReparentSound(t, m, u, x, d, d);
    ReparentComplete(t, m, u, x, d, i);
  }

  lemma {:induction false} ReparentRowsAreHops(t: Table, m: Edges, u: Id, x: Id)
    requires IsClosure(t, m) && (u, u) in t && (x, x) in t && (u, x) !in t
    ensures RowsAreHops(Reparent(t, u, x), m[u := x])
  {
    forall k | k in Reparent(t, u, x)
      ensures (k.0, k.0) in Reparent(t, u, x) && (k.1, k.1) in Reparent(t, u, x)
      ensures Up(m[u := x], k.1, Reparent(t, u, x)[k]) == Some(k.0)
    {
      ReparentRows(t, m, u, x, k);
    }
  }

  lemma {:induction false} ReparentHopsAreRows(t: Table, m: Edges, u: Id, x: Id)
    requires IsClosure(t, m) && (u, u) in t && (x, x) in t && (u, x) !in t
    ensures HopsAreRows(Reparent(t, u, x), m[u := x])
  {
    var m' := m[u := x];
    forall d, i: nat | (d, d) in Reparent(t, u, x) && Up(m', d, i).Some?
      ensures (Up(m', d, i).value, d) in Reparent(t, u, x)
      ensures Reparent(t, u, x)[(Up(m', d, i).value, d)] == i
    {
      ReparentHops(t, m, u, x, d, i);
    }
  }

  /** Moving the subtree of `u` under `x` turns the closure of `m` into the
      closure of `m[u := x]`. */
  lemma {:induction false} ReparentIsClosure(t: Table, m: Edges, u: Id, x: Id)
    requires IsClosure(t, m) && (u, u) in t && (x, x) in t && (u, x) !in t
    ensures IsClosure(Reparent(t, u, x), m[u := x])
    ensures Nodes(Reparent(t, u, x)) == Nodes(t)
  {
    ReparentNodes(t, m, u, x);
    ReparentRowsAreHops(t, m, u, x);
    ReparentHopsAreRows(t, m, u, x);
    forall d | d in m[u := x] ensures (d, d) in Reparent(t, u, x) {
      NodesAreSelfRows(t, d);
      NodesAreSelfRows(Reparent(t, u, x), d);
    }
  }
}
