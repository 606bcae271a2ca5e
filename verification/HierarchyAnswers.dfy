/** What the closure rows say about the organization: the facts that turn a row
    lookup into an answer about the manager chain. */
module HierarchyAnswers {
  import opened Domain
  import opened Forest
  import opened ClosureTable
  import opened ClosureRows
  import opened Tables
  import opened Query

  /** A row of a consistent table is a number of manager hops. */
  lemma {:induction false} RowMeans(s: Store, t: Id, r: ClosureRow)
    requires OrgConsistent(s) && r.tenantId == t
    ensures r in RowsOf(s.closure) <==>
      r.descendant in Nodes(TableOf(s, t)) && Up(OrgOf(s, t), r.descendant, r.depth) == Some(r.ancestor)
    ensures r in RowsOf(s.closure) && 0 < r.depth ==> r.descendant in OrgOf(s, t)
  {
    RowOf(s.closure, r);
    SliceRow(s.closure, t, r.ancestor, r.descendant);
    RowIsHops(TableOf(s, t), OrgOf(s, t), r.ancestor, r.descendant, r.depth);
  }

  lemma {:induction false} EdgeIsNode(s: Store, t: Id, d: Id)
    requires OrgConsistent(s) && d in OrgOf(s, t)
    ensures d in Nodes(TableOf(s, t))
  {
  }

  lemma {:induction false} OrgAcyclic(s: Store, t: Id)
    requires OrgConsistent(s)
    ensures Acyclic(OrgOf(s, t))
  {
    ClosureIsAcyclic(TableOf(s, t), OrgOf(s, t));
  }

  /** The row at depth 1 above `d`, whichever is found, names the manager of `d`. */
  lemma {:induction false} DepthOneIsManager(s: Store, t: Id, d: Id, found: Option<ClosureRow>)
    requires OrgConsistent(s)
    requires found.Some? ==> found.value in RowsOf(s.closure)
    requires found.Some? ==>
      found.value.tenantId == t && found.value.descendant == d && found.value.depth == 1
    requires found.None? ==>
      forall r :: r in RowsOf(s.closure) ==> !(r.tenantId == t && r.descendant == d && r.depth == 1)
    ensures ManagerOf(OrgOf(s, t), d) == if found.Some? then Some(found.value.ancestor) else None
  {
    var m := OrgOf(s, t);
    if found.Some? {
      RowMeans(s, t, found.value);
      assert Up(m, d, 1) == Up(m, m[d], 0);
    } else if d in m {
      EdgeIsNode(s, t, d);
      assert Up(m, d, 1) == Up(m, m[d], 0);
      RowMeans(s, t, ClosureRow(t, m[d], d, 1));
      assert false;
    }
  }

  /** A row from `a` to `d` at depth 1 or more, whichever is found, has the one
      depth at which `a` stands in the chain of `d`. */
  lemma {:induction false} RowIsAuthority(s: Store, t: Id, a: Id, d: Id, found: Option<ClosureRow>)
    requires OrgConsistent(s)
    requires found.Some? ==> found.value in RowsOf(s.closure)
    requires found.Some? ==>
      found.value.tenantId == t && found.value.ancestor == a && found.value.descendant == d
      && 1 <= found.value.depth
    requires found.None? ==> forall r :: r in RowsOf(s.closure) ==>
      !(r.tenantId == t && r.ancestor == a && r.descendant == d && 1 <= r.depth)
    ensures found.Some? <==> a in Chain(OrgOf(s, t), d)
    ensures found.Some? ==> (found.value.depth == 1 <==> ManagerOf(OrgOf(s, t), d) == Some(a))
  {
    var m := OrgOf(s, t);
    OrgAcyclic(s, t);
    ChainIsUp(m, d);
    if found.Some? {
      var k := found.value.depth;
      RowMeans(s, t, found.value);
      ChainHolds(m, d, a, k);
      assert Up(m, d, 1) == Up(m, m[d], 0);
      if m[d] == a { UpUnique(m, d, 1, k); }
    } else if a in Chain(m, d) {
      var i :| 0 <= i < |Chain(m, d)| && Chain(m, d)[i] == a;
      assert Up(m, d, i + 1) == Some(a);
      assert d in m;
      EdgeIsNode(s, t, d);
      RowMeans(s, t, ClosureRow(t, a, d, i + 1));
      assert false;
    }
  }

  // ---------------------------------------------------------------------------
  // Listings
  // ---------------------------------------------------------------------------

  datatype Relative = Relative(userId: Id, depth: nat)

  function ChainRows(m: Edges, t: Id, d: Id): seq<ClosureRow> {
    seq(|Chain(m, d)|, (i: int) requires 0 <= i < |Chain(m, d)| => ClosureRow(t, Chain(m, d)[i], d, i + 1))
  }

  lemma {:induction false} ChainRowsAreRows(s: Store, t: Id, d: Id, r: ClosureRow)
    requires OrgConsistent(s)
    ensures r in ChainRows(OrgOf(s, t), t, d) <==>
      r in RowsOf(s.closure) && r.tenantId == t && r.descendant == d && 1 <= r.depth
  {
    var m := OrgOf(s, t);
    var rows := ChainRows(m, t, d);
    OrgAcyclic(s, t);
    ChainIsUp(m, d);
    if r in rows {
      var i :| 0 <= i < |rows| && rows[i] == r;
      assert Up(m, d, i + 1) == Some(r.ancestor);
      EdgeIsNode(s, t, d);
      RowMeans(s, t, r);
    }
    if r in RowsOf(s.closure) && r.tenantId == t && r.descendant == d && 1 <= r.depth {
      RowMeans(s, t, r);
      ChainHolds(m, d, r.ancestor, r.depth);
      assert rows[r.depth - 1] == r;
    }
  }

  /** Sorted by depth, the rows above `d` are its chain, without gap or repeat. */
  lemma {:induction false} AncestorRowsAreChain(s: Store, t: Id, d: Id, rows: seq<ClosureRow>)
    requires OrgConsistent(s)
    requires forall r :: r in rows <==>
      r in RowsOf(s.closure) && r.tenantId == t && r.descendant == d && 1 <= r.depth
    requires NoDuplicates(rows) && SortedBy(rows, (r: ClosureRow) => r.depth)
    ensures rows == ChainRows(OrgOf(s, t), t, d)
  {
    var expected := ChainRows(OrgOf(s, t), t, d);
    forall r ensures r in rows <==> r in expected {
      ChainRowsAreRows(s, t, d, r);
    }
    SortedUnique(rows, expected, (r: ClosureRow) => r.depth);
  }

  /** A row below `u` at depth k says that `u` is k hops above its descendant. */
  lemma {:induction false} DescendantRowMeans(s: Store, t: Id, u: Id, r: ClosureRow)
    requires OrgConsistent(s)
    requires r.tenantId == t && r.ancestor == u && 1 <= r.depth
    ensures r in RowsOf(s.closure) <==> Up(OrgOf(s, t), r.descendant, r.depth) == Some(u)
  {
    RowMeans(s, t, r);
    if Up(OrgOf(s, t), r.descendant, r.depth) == Some(u) { EdgeIsNode(s, t, r.descendant); }
  }

  lemma {:induction false} DirectRowIsManager(s: Store, t: Id, a: Id, d: Id, found: Option<ClosureRow>)
    requires OrgConsistent(s)
    requires found.Some? ==> found.value in RowsOf(s.closure)
    requires found.Some? ==> found.value.Key() == (t, a, d) && found.value.depth == 1
    requires found.None? ==> forall r :: r in RowsOf(s.closure) ==>
      !(r.tenantId == t && r.ancestor == a && r.descendant == d && r.depth == 1)
    ensures found.Some? <==> ManagerOf(OrgOf(s, t), d) == Some(a)
  {
    var m := OrgOf(s, t);
    if d in m {
      EdgeIsNode(s, t, d);
      assert Up(m, d, 1) == Up(m, m[d], 0);
    }
    RowMeans(s, t, ClosureRow(t, a, d, 1));
  }

  lemma {:induction false} ManagerInChain(s: Store, t: Id, a: Id, d: Id)
    requires OrgConsistent(s)
    ensures ManagerOf(OrgOf(s, t), d) == Some(a) ==> a in Chain(OrgOf(s, t), d)
  {
  }

  /** Managers are users, and no user has an empty id: the truthiness test never
      hides a manager. */
  lemma {:induction false} ManagersNamed(s: Store, t: Id, d: Id)
    requires OrgConsistent(s)
    ensures d in OrgOf(s, t) ==> OrgOf(s, t)[d] != "" && OrgOf(s, t)[d] in s.users
  {
    var m := OrgOf(s, t);
    if d in m {
      EdgeIsNode(s, t, d);
      assert Up(m, d, 1) == Up(m, m[d], 0);
      var r := ClosureRow(t, m[d], d, 1);
      RowMeans(s, t, r);
      RowOf(s.closure, r);
    }
  }

  lemma {:induction false} DescendantsListed(s: Store, t: Id, u: Id, rows: seq<ClosureRow>, result: seq<Relative>)
    requires OrgConsistent(s)
    requires forall r :: r in rows <==>
      r in RowsOf(s.closure) && r.tenantId == t && r.ancestor == u && 1 <= r.depth
    requires NoDuplicates(rows) && SortedBy(rows, (r: ClosureRow) => r.depth)
    requires |result| == |rows|
    requires forall i :: 0 <= i < |rows| ==> result[i] == Relative(rows[i].descendant, rows[i].depth)
    ensures forall v, k: nat :: Relative(v, k) in result <==> 1 <= k && Up(OrgOf(s, t), v, k) == Some(u)
    ensures NoDuplicates(result)
    ensures forall i, j :: 0 <= i < j < |result| ==> result[i].depth <= result[j].depth
  {
    forall v, k: nat ensures Relative(v, k) in result <==> 1 <= k && Up(OrgOf(s, t), v, k) == Some(u) {
      var r := ClosureRow(t, u, v, k);
      if Relative(v, k) in result {
        var i :| 0 <= i < |result| && result[i] == Relative(v, k);
        assert rows[i] in rows;
        assert rows[i] == r;
      }
      if 1 <= k {
        DescendantRowMeans(s, t, u, r);
        if r in rows {
          var i :| 0 <= i < |rows| && rows[i] == r;
          assert result[i] == Relative(v, k);
        }
      }
    }
    forall i, j | 0 <= i < j < |rows| ensures result[i] != result[j] && result[i].depth <= result[j].depth {
      assert rows[i] in rows && rows[j] in rows;
      var key := (r: ClosureRow) => r.depth;
      assert key(rows[i]) <= key(rows[j]);
    }
  }
}
