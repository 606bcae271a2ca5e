/** How many rows the closure table holds, and how many a reparenting touches. */
module ClosureCounts {
  import opened Domain
  import opened Query
  import opened Forest
  import opened ClosureTable

  lemma {:induction false} ProductSize(a: set<Id>, b: set<Id>)
    ensures |Product(a, b)| == |a| * |b|
    decreases |a|
  {
    hide Product;
    if a == {} {
      NoProduct(b);
    } else {
      var x :| x in a;
      ProductSize(a - {x}, b);
      RowSize(x, b);
      ProductSplit(a, b, x);
      assert |a| == |a - {x}| + 1;
      assert (|a - {x}| + 1) * |b| == |a - {x}| * |b| + |b|;
    }
  }

  lemma {:induction false} ProductSplit(a: set<Id>, b: set<Id>, x: Id)
    requires x in a
    ensures |Product(a, b)| == |Product(a - {x}, b)| + |Product({x}, b)|
  {
    assert Product(a, b) == Product(a - {x}, b) + Product({x}, b);
    assert Product(a - {x}, b) !! Product({x}, b);
  }

  lemma {:induction false} NoProduct(b: set<Id>)
    ensures Product({}, b) == {}
  {
  }

  lemma {:induction false} RowSize(x: Id, b: set<Id>)
    ensures |Product({x}, b)| == |b|
    decreases |b|
  {
    if b == {} {
      assert Product({x}, b) == {};
    } else {
      var y :| y in b;
      RowSize(x, b - {y});
      assert Product({x}, b) == Product({x}, b - {y}) + {(x, y)};
    }
  }

  lemma {:induction false} DistinctSize<T>(s: seq<T>)
    requires NoDuplicates(s)
    ensures |set x | x in s| == |s|
  {
    if s != [] {
      var rest := s[..|s| - 1];
      DistinctSize(rest);
      assert (set x | x in s) == (set x | x in rest) + {s[|s| - 1]};
    }
  }

  /** The ancestors of a registered user are its chain and itself. */
  lemma {:induction false} AncestorsAreChain(t: Table, m: Edges, d: Id)
    requires IsClosure(t, m) && (d, d) in t
    ensures Ancestors(t, d) == set a | a in [d] + Chain(m, d)
    ensures |Ancestors(t, d)| == |Chain(m, d)| + 1
    ensures |ProperAncestors(t, d)| == |Chain(m, d)|
  {
    ClosureIsAcyclic(t, m);
    ChainIsUp(m, d);
    NodesAreSelfRows(t, d);
    forall a ensures a in Ancestors(t, d) <==> a in [d] + Chain(m, d) {
      ChainMembers(m, d, a);
      RowIsAbove(t, m, a, d);
      if (a, d) in t { assert (a, d).1 == d; }
    }
    DistinctSize([d] + Chain(m, d));
    assert d in Ancestors(t, d);
  }

  /** The deleted rectangle is full: each old manager of `u` had a row over each
      member of the subtree. */
  lemma {:induction false} RectangleIsProduct(t: Table, m: Edges, u: Id)
    requires IsClosure(t, m)
    ensures Rectangle(t, u) == Product(ProperAncestors(t, u), Descendants(t, u))
  {
    forall a, d | a in ProperAncestors(t, u) && d in Descendants(t, u) ensures (a, d) in t {
      assert (a, u) in t && (u, d) in t;
      UpCompose(m, d, t[(u, d)], t[(a, u)]);
    }
  }

  lemma {:induction false} DetachSize(t: Table, u: Id)
    ensures |t| == |Detach(t, u)| + |Rectangle(t, u)|
  {
    assert t.Keys == Detach(t, u).Keys + Rectangle(t, u);
    assert Detach(t, u).Keys !! Rectangle(t, u);
  }

  lemma {:induction false} DisjointUnionSize(a: Table, b: Table)
    requires a.Keys !! b.Keys
    ensures |a + b| == |a| + |b|
  {
  }

  lemma {:induction false} CrossJoinSize(t: Table, u: Id, x: Id)
    ensures |CrossJoin(t, u, x)| == |Ancestors(t, x)| * |Descendants(t, u)|
  {
    ProductSize(Ancestors(t, x), Descendants(t, u));
    assert CrossJoin(t, u, x).Keys == Product(Ancestors(t, x), Descendants(t, u));
  }

  /** A reparenting deletes exactly (subtree size) x (number of old managers) rows
      and inserts exactly (subtree size) x (managers of the new manager, plus one). */
  lemma {:induction false} ReparentCounts(t: Table, m: Edges, u: Id, x: Id)
    requires IsClosure(t, m) && (u, u) in t && (x, x) in t && (u, x) !in t
    ensures |t| - |Detach(t, u)| == |Chain(m, u)| * |Descendants(t, u)|
    ensures |Reparent(t, u, x)| - |Detach(t, u)| == (|Chain(m, x)| + 1) * |Descendants(t, u)|
  {
    AncestorsAreChain(t, m, u);
    AncestorsAreChain(t, m, x);
    RectangleIsProduct(t, m, u);
    ProductSize(ProperAncestors(t, u), Descendants(t, u));
    DetachSize(t, u);
    CrossJoinIsNew(t, m, u, x);
    CrossJoinSize(t, u, x);
    DisjointUnionSize(CrossJoin(t, u, x), Detach(t, u));
  }

  /** The sum, over a set of users, of chain length plus one. */
  ghost function ChainTotal(m: Edges, users: set<Id>): nat
    decreases |users|
  {
    if users == {} then 0
    else var d :| d in users; |Chain(m, d)| + 1 + ChainTotal(m, users - {d})
  }

  ghost function RowsBelow(t: Table, users: set<Id>): set<(Id, Id)> {
    set k | k in t && k.1 in users
  }

  lemma {:induction false} ColumnSize(t: Table, m: Edges, d: Id)
    requires IsClosure(t, m) && (d, d) in t
    ensures |RowsBelow(t, {d})| == |Chain(m, d)| + 1
  {
    var column := Product(Ancestors(t, d), {d});
    forall k ensures k in RowsBelow(t, {d}) <==> k in column {
      assert k == (k.0, k.1);
    }
    assert RowsBelow(t, {d}) == column;
    ProductSize(Ancestors(t, d), {d});
    AncestorsAreChain(t, m, d);
  }

  lemma {:induction false} RowsBelowSplit(t: Table, users: set<Id>, d: Id)
    requires d in users
    ensures |RowsBelow(t, users)| == |RowsBelow(t, {d})| + |RowsBelow(t, users - {d})|
  {
    assert RowsBelow(t, users) == RowsBelow(t, {d}) + RowsBelow(t, users - {d});
    assert RowsBelow(t, {d}) !! RowsBelow(t, users - {d});
  }

  lemma {:induction false} RowsBelowSize(t: Table, m: Edges, users: set<Id>)
    requires IsClosure(t, m) && users <= Nodes(t)
    ensures |RowsBelow(t, users)| == ChainTotal(m, users)
    decreases |users|
  {
    if users == {} {
      assert RowsBelow(t, users) == {};
    } else {
      var d :| d in users && ChainTotal(m, users) == |Chain(m, d)| + 1 + ChainTotal(m, users - {d});
      NodesAreSelfRows(t, d);
      ColumnSize(t, m, d);
      RowsBelowSize(t, m, users - {d});
      RowsBelowSplit(t, users, d);
    }
  }

  /** The size of the table is fixed by the organization: the sum over registered
      users of chain length plus one. */
  lemma {:induction false} TableSize(t: Table, m: Edges)
    requires IsClosure(t, m)
    ensures |t| == ChainTotal(m, Nodes(t))
  {
    RowsBelowSize(t, m, Nodes(t));
    forall k | k in t ensures k.1 in Nodes(t) {
      NodesAreSelfRows(t, k.1);
    }
    assert RowsBelow(t, Nodes(t)) == t.Keys;
  }

  // ---------------------------------------------------------------------------
  // What a reparenting leaves alone
  // ---------------------------------------------------------------------------

  /** Depths change only for rows from outside the moved subtree into it. */
  lemma {:induction false} ReparentFrame(t: Table, m: Edges, u: Id, x: Id, a: Id, d: Id)
    requires IsClosure(t, m) && (u, u) in t && (x, x) in t && (u, x) !in t
    requires (u, a) in t <==> (u, d) in t
    ensures (a, d) in Reparent(t, u, x) <==> (a, d) in t
    ensures (a, d) in t ==> Reparent(t, u, x)[(a, d)] == t[(a, d)]
  {
    CrossJoinRow(t, u, x, a, d);
    if (a, d) in CrossJoin(t, u, x) {
      UpCompose(m, x, t[(a, x)], t[(u, a)]);
      assert false;
    }
    if (a, d) in t {
      DetachExact(t, m, u, a, d);
      if (a, d) !in Detach(t, u) {
        ClosureIsAcyclic(t, m);
        AboveAntisymmetric(m, u, t[(a, u)], a, t[(u, a)]);
      }
    }
  }

  /** A manager edge other than `u`'s own keeps the chain test for pairs on the
      same side of the cut. */
  lemma {:induction false} AboveFrame(m: Edges, u: Id, x: Id, a: Id, d: Id)
    requires Acyclic(m) && !Above(m, u, x)
    requires Above(m, u, d) ==> Above(m, u, a)
    ensures Above(m[u := x], a, d) <==> Above(m, a, d)
  {
    var m' := m[u := x];
    if !Above(m, u, d) {
      forall k: nat ensures Up(m', d, k) == Up(m, d, k) { UpOutside(m, u, x, d, k); }
    } else {
      var j: nat :| Up(m, d, j) == Some(u);
      var i: nat :| Up(m, a, i) == Some(u);
      forall k: nat ensures Up(m', d, k) == Some(a) <==> Up(m, d, k) == Some(a) {
        if k <= j {
          UpInside(m, u, x, d, j, k);
        } else {
          UpThrough(m, u, x, d, j, k - j - 1);
          UpCompose(m, d, j, k - j);
          if Up(m, d, k) == Some(a) {
            AboveAntisymmetric(m, u, k - j, a, i);
          }
          if Up(m, x, k - j - 1) == Some(a) {
            UpCompose(m, x, k - j - 1, i);
          }
        }
      }
    }
  }

  /** A relationship (a, b) changes only when `b` is in the moved subtree and `a`
      is outside it, or when `a` is the moved user itself and the change is between
      sibling and unrelated. */
  lemma {:induction false} RelationshipFrame(m: Edges, u: Id, x: Id, a: Id, b: Id)
    requires Acyclic(m) && !Above(m, u, x)
    requires RelationshipOf(m[u := x], a, b) != RelationshipOf(m, a, b)
    ensures (Above(m, u, b) && !Above(m, u, a))
            || (a == u && RelationshipOf(m, a, b) in {Sibling, Unrelated}
                && RelationshipOf(m[u := x], a, b) in {Sibling, Unrelated})
  {
    var m' := m[u := x];
    if !Above(m, u, b) || Above(m, u, a) {
      assert Up(m, u, 0) == Some(u);
      ReparentAcyclic(m, u, x);
      AboveFrame(m, u, x, a, b);
      ChainMembers(m, b, a);
      ChainMembers(m', b, a);
      if b == u && a != u {
        // `a` is in the subtree of `b`: neither its manager nor its sibling.
        ManagerIsAbove(m, b, a);
        ManagerIsAbove(m', b, a);
        SubtreeNotAbove(m, u, a);
        SubtreeNotSibling(m, u, x, a);
      }
    }
  }

  lemma {:induction false} ManagerIsAbove(m: Edges, d: Id, a: Id)
    ensures ManagerOf(m, d) == Some(a) ==> Above(m, a, d)
  {
    if ManagerOf(m, d) == Some(a) {
      assert Up(m, a, 0) == Some(a);
      assert Up(m, d, 1) == Some(a);
    }
  }

  lemma {:induction false} SubtreeNotSibling(m: Edges, u: Id, x: Id, a: Id)
    requires Acyclic(m) && !Above(m, u, x) && Above(m, u, a) && a != u
    ensures RelationshipOf(m, a, u) != Sibling && RelationshipOf(m[u := x], a, u) != Sibling
  {
    var m' := m[u := x];
    assert Up(m, u, 0) == Some(u);
    ReparentAcyclic(m, u, x);
    AboveFrame(m, u, x, u, a);
    ChainMembers(m, a, u);
    ChainMembers(m', a, u);
    if RelationshipOf(m, a, u) == Sibling { SiblingNotAbove(m, a, u); }
    if RelationshipOf(m', a, u) == Sibling { SiblingNotAbove(m', a, u); }
  }

  lemma {:induction false} SubtreeNotAbove(m: Edges, u: Id, a: Id)
    requires Acyclic(m) && Above(m, u, a) && a != u
    ensures !Above(m, a, u)
  {
    var i: nat :| Up(m, a, i) == Some(u);
    forall k: nat ensures Up(m, u, k) != Some(a) {
      if Up(m, u, k) == Some(a) { AboveAntisymmetric(m, a, i, u, k); }
    }
  }
}
