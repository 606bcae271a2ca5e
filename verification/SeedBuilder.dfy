/** The batch builder of the seed script: closure rows computed from a list of
    users and managers in one pass. */
module SeedBuilder {
  import opened Domain
  import opened Forest
  import opened ClosureTable
  import opened Tables
  import opened ClosureRows
  import opened HierarchyAnswers

  datatype SeedUser = SeedUser(id: Id, managerId: Option<Id>)

  /** `new Map(users.map(...))`: of two entries with one id the later wins. */
  function ManagerMap(users: seq<SeedUser>): map<Id, Option<Id>> {
    if users == [] then map[]
    else
      var n := |users| - 1;
      ManagerMap(users[..n])[users[n].id := users[n].managerId]
  }

  /** The edges the loop follows: null and the empty id both end a walk. */
  function Followed(managerOf: map<Id, Option<Id>>): Edges {
    map u | u in managerOf && Truthy(managerOf[u]) :: managerOf[u].value
  }

  function SeedEdges(users: seq<SeedUser>): Edges {
    Followed(ManagerMap(users))
  }

  function Ids(users: seq<SeedUser>): set<Id> {
    set u | u in users :: u.id
  }

  ghost predicate UniqueIds(users: seq<SeedUser>) {
    forall i, j :: 0 <= i < j < |users| ==> users[i].id != users[j].id
  }

  /** The rows for one user: itself, then its walk upwards. */
  function UserRows(t: Id, m: Edges, u: Id): seq<ClosureRow> {
    [ClosureRow(t, u, u, 0)] + ChainRows(m, t, u)
  }

  function BuiltRows(t: Id, m: Edges, users: seq<SeedUser>): seq<ClosureRow> {
    if users == [] then []
    else
      var n := |users| - 1;
      BuiltRows(t, m, users[..n]) + UserRows(t, m, users[n].id)
  }

  lemma {:induction false} ManagerMapKeys(users: seq<SeedUser>)
    ensures ManagerMap(users).Keys == Ids(users)
  {
    if users != [] {
      var n := |users| - 1;
      ManagerMapKeys(users[..n]);
      assert users == users[..n] + [users[n]];
      assert Ids(users) == Ids(users[..n]) + {users[n].id};
    }
  }

  /** Of the entries with one id the last decides. */
  lemma {:induction false} LastEntryDecides(users: seq<SeedUser>, i: nat)
    requires i < |users| && forall j :: i < j < |users| ==> users[j].id != users[i].id
    ensures users[i].id in ManagerMap(users) && ManagerMap(users)[users[i].id] == users[i].managerId
    decreases |users|
  {
    if i < |users| - 1 {
      LastEntryDecides(users[..|users| - 1], i);
    }
  }

  lemma {:induction false} WalkStaysInside(m: Edges, cur: Option<Id>, seen: set<Id>)
    requires cur.Some? ==> cur.value in m.Values
    ensures forall x :: x in Walk(m, cur, seen) ==> x in m.Values
    decreases |m.Values - seen|
  {
    if cur.Some? && cur.value !in seen {
      WalkStep(m, cur.value, seen);
      WalkStaysInside(m, ManagerOf(m, cur.value), seen + {cur.value});
    }
  }

  /** Null and the empty id end a walk: neither gets a row. */
  lemma {:induction false} AncestorsNamed(t: Id, managerOf: map<Id, Option<Id>>, users: seq<SeedUser>)
    ensures forall r :: r in BuiltRows(t, Followed(managerOf), users) && 0 < r.depth ==> r.ancestor != ""
    decreases |users|
  {
    hide UserRows, Followed;
    if users != [] {
      var n := |users| - 1;
      AncestorsNamed(t, managerOf, users[..n]);
      UserRowsNamed(t, managerOf, users[n].id);
    }
  }

  lemma {:induction false} UserRowsNamed(t: Id, managerOf: map<Id, Option<Id>>, u: Id)
    ensures forall r :: r in UserRows(t, Followed(managerOf), u) && 0 < r.depth ==> r.ancestor != ""
  {
    hide Walk;
    var m := Followed(managerOf);
    WalkStaysInside(m, ManagerOf(m, u), {});
    forall r | r in UserRows(t, m, u) && 0 < r.depth ensures r.ancestor != "" {
      var i :| 0 <= i < |UserRows(t, m, u)| && UserRows(t, m, u)[i] == r;
      assert r.ancestor == Chain(m, u)[i - 1];
      assert r.ancestor in Chain(m, u);
      assert r.ancestor in m.Values;
    }
  }

  /** The loop as written.  It terminates on every input, cyclic ones included: each
      round adds a manager that was not in `seen`. */
  method BuildClosureRows(tenantId: Id, users: seq<SeedUser>) returns (rows: seq<ClosureRow>)
    ensures rows == BuiltRows(tenantId, SeedEdges(users), users)
    ensures forall r :: r in rows && 0 < r.depth ==> r.ancestor != ""
  {
    var managerOf := ManagerMap(users);
    rows := [];
    for i := 0 to |users|
      invariant rows == BuiltRows(tenantId, SeedEdges(users), users[..i])
    {
      var walk := WalkRows(tenantId, managerOf, users[i].id);
      rows := rows + walk;
      assert users[..i + 1][..i] == users[..i];
    }
    assert users[..|users|] == users;
    AncestorsNamed(tenantId, managerOf, users);
  }

  /** The body of the outer loop: the self row and the inner loop of one user. */
  method WalkRows(tenantId: Id, managerOf: map<Id, Option<Id>>, u: Id) returns (rows: seq<ClosureRow>)
    ensures rows == UserRows(tenantId, Followed(managerOf), u)
  {
    hide Walk, Chain, Followed, WalkedRows, UserRows;
    ghost var m := Followed(managerOf);
    rows := [ClosureRow(tenantId, u, u, 0)];
    var cur := if u in managerOf then managerOf[u] else None;
    NextManager(managerOf, u);
    ChainStart(m, u);
    var depth := 1;
    var seen: set<Id> := {};
    ghost var walked: seq<Id> := [];
    while Truthy(cur) && cur.value !in seen
      invariant depth == |walked| + 1
      invariant Truthy(cur) ==> cur.value in m.Values
      invariant Chain(m, u) == walked + Walk(m, Present(cur), seen)
      invariant rows == [ClosureRow(tenantId, u, u, 0)] + WalkedRows(tenantId, u, walked)
      decreases |m.Values - seen|
    {
      WalkStep(m, cur.value, seen);
      WalkedMore(tenantId, u, walked, cur.value);
      NextManager(managerOf, cur.value);
      rows := rows + [ClosureRow(tenantId, cur.value, u, depth)];
      walked := walked + [cur.value];
      seen := seen + {cur.value};
      cur := if cur.value in managerOf then managerOf[cur.value] else None;
      depth := depth + 1;
    }
    WalkEnd(m, Present(cur), seen);
    WalkedAll(tenantId, m, u, walked);
  }

  /** A nullable id as the loop tests it. */
  function Present(cur: Option<Id>): Option<Id> {
    if Truthy(cur) then cur else None
  }

  function WalkedRows(t: Id, u: Id, walked: seq<Id>): seq<ClosureRow> {
    seq(|walked|, (i: int) requires 0 <= i < |walked| => ClosureRow(t, walked[i], u, i + 1))
  }

  lemma {:induction false} WalkedAll(t: Id, m: Edges, u: Id, walked: seq<Id>)
    requires Chain(m, u) == walked + []
    ensures [ClosureRow(t, u, u, 0)] + WalkedRows(t, u, walked) == UserRows(t, m, u)
  {
  }

  lemma {:induction false} WalkedMore(t: Id, u: Id, walked: seq<Id>, next: Id)
    ensures WalkedRows(t, u, walked + [next]) == WalkedRows(t, u, walked) + [ClosureRow(t, next, u, |walked| + 1)]
  {
  }

  lemma {:induction false} NextManager(managerOf: map<Id, Option<Id>>, u: Id)
    ensures var next := if u in managerOf then managerOf[u] else None;
      && ManagerOf(Followed(managerOf), u) == Present(next)
      && (Truthy(next) ==> next.value in Followed(managerOf).Values)
  {
  }

  lemma {:induction false} ChainStart(m: Edges, u: Id)
    ensures Chain(m, u) == [] + Walk(m, ManagerOf(m, u), {})
    ensures forall t :: WalkedRows(t, u, []) == []
  {
  }

  lemma {:induction false} WalkStep(m: Edges, cur: Id, seen: set<Id>)
    requires cur in m.Values && cur !in seen
    ensures Walk(m, Some(cur), seen) == [cur] + Walk(m, ManagerOf(m, cur), seen + {cur})
    ensures |m.Values - (seen + {cur})| < |m.Values - seen|
  {
    assert cur in m.Values - seen;
    SubsetSize(m.Values - (seen + {cur}), m.Values - seen);
  }

  lemma {:induction false} WalkEnd(m: Edges, cur: Option<Id>, seen: set<Id>)
    requires cur.Some? ==> cur.value in m.Values && cur.value in seen
    ensures Walk(m, cur, seen) == []
  {
  }

  // ---------------------------------------------------------------------------
  // What was built
  // ---------------------------------------------------------------------------

  lemma {:induction false} UserRowIs(t: Id, m: Edges, u: Id, r: ClosureRow)
    requires Acyclic(m)
    ensures r in UserRows(t, m, u) <==>
      r.tenantId == t && r.descendant == u && Up(m, u, r.depth) == Some(r.ancestor)
  {
    var rows := UserRows(t, m, u);
    ChainIsUp(m, u);
    if r in rows {
      var i :| 0 <= i < |rows| && rows[i] == r;
      if i > 0 { assert Up(m, u, i - 1 + 1) == Some(r.ancestor); }
    }
    if r.tenantId == t && r.descendant == u && Up(m, u, r.depth) == Some(r.ancestor) {
      ChainHolds(m, u, r.ancestor, r.depth);
      assert rows[r.depth] == r;
    }
  }

  lemma {:induction false} BuiltRowIs(t: Id, m: Edges, users: seq<SeedUser>, r: ClosureRow)
    ensures r in BuiltRows(t, m, users) <==> r.descendant in Ids(users) && r in UserRows(t, m, r.descendant)
    decreases |users|
  {
    hide UserRows, Ids;
    if users != [] {
      var n := |users| - 1;
      BuiltRowIs(t, m, users[..n], r);
      IdsSplit(users);
      UserRowsBelong(t, m, users[n].id, r);
    } else {
      assert Ids(users) == {} by { NoIds(); }
    }
  }

  lemma {:induction false} IdsSplit(users: seq<SeedUser>)
    requires users != []
    ensures Ids(users) == Ids(users[..|users| - 1]) + {users[|users| - 1].id}
  {
  }

  lemma {:induction false} NoIds()
    ensures Ids([]) == {}
  {
  }

  lemma {:induction false} UserRowsBelong(t: Id, m: Edges, u: Id, r: ClosureRow)
    ensures r in UserRows(t, m, u) ==> r.descendant == u
  {
  }

  lemma {:induction false} SpelledIsClosure(t: Id, users: seq<SeedUser>, table: Table)
    requires Acyclic(SeedEdges(users)) && SeedEdges(users).Values <= Ids(users)
    requires Spells(BuiltRows(t, SeedEdges(users), users), t, table)
    ensures IsClosure(table, SeedEdges(users))
    ensures Nodes(table) == Ids(users)
  {
    hide BuiltRows, Spells, SeedEdges, Ids;
    var m := SeedEdges(users);
    ManagerMapKeys(users);
    SeedEdgesListed(users);
    forall d ensures (d, d) in table <==> d in Ids(users) {
      assert Up(m, d, 0) == Some(d);
      SpelledRow(t, users, table, d, d, 0);
      if (d, d) in table { SpelledRow(t, users, table, d, d, table[(d, d)]); }
    }
    forall k | k in table ensures k.0 in Ids(users) && k.1 in Ids(users) && Up(m, k.1, table[k]) == Some(k.0) {
      assert k == (k.0, k.1);
      SpelledRow(t, users, table, k.0, k.1, table[k]);
      UpStaysInside(m, Ids(users), k.1, table[k]);
    }
    forall d, i: nat | (d, d) in table && Up(m, d, i).Some?
      ensures (Up(m, d, i).value, d) in table && table[(Up(m, d, i).value, d)] == i
    {
      SpelledRow(t, users, table, Up(m, d, i).value, d, i);
    }
    forall d ensures d in Nodes(table) <==> d in Ids(users) {
      NodesAreSelfRows(table, d);
    }
  }

  lemma {:induction false} SeedEdgesListed(users: seq<SeedUser>)
    ensures SeedEdges(users).Keys <= Ids(users)
  {
    ManagerMapKeys(users);
  }

  lemma {:induction false} SpelledRow(t: Id, users: seq<SeedUser>, table: Table, a: Id, d: Id, k: nat)
    requires Acyclic(SeedEdges(users))
    requires Spells(BuiltRows(t, SeedEdges(users), users), t, table)
    ensures (a, d) in table && table[(a, d)] == k <==>
      d in Ids(users) && Up(SeedEdges(users), d, k) == Some(a)
  {
    var r := ClosureRow(t, a, d, k);
    BuiltRowIs(t, SeedEdges(users), users, r);
    UserRowIs(t, SeedEdges(users), d, r);
    if (a, d) in table {
      var key := (a, d);
      assert ClosureRow(t, key.0, key.1, table[key]) in BuiltRows(t, SeedEdges(users), users);
    }
  }

  /** The rows the builder leaves in an empty table. */
  function BuiltTable(t: Id, users: seq<SeedUser>): Table {
    Slice(InsertAll(map[], BuiltRows(t, SeedEdges(users), users)), t)
  }

  lemma {:induction false} BuiltSpells(t: Id, users: seq<SeedUser>)
    requires Acyclic(SeedEdges(users))
    ensures Spells(BuiltRows(t, SeedEdges(users), users), t, BuiltTable(t, users))
  {
    hide BuiltRows, UserRows, Spells, Slice, InsertAll, SeedEdges;
    var m := SeedEdges(users);
    var rows := BuiltRows(t, m, users);
    forall r | r in rows ensures r.tenantId == t && Up(m, r.descendant, r.depth) == Some(r.ancestor) {
      BuiltRowIs(t, m, users, r);
      UserRowIs(t, m, r.descendant, r);
    }
    forall r, q | r in rows && q in rows && r.Key() == q.Key() ensures r == q {
      UpUnique(m, r.descendant, r.depth, q.depth);
    }
    InsertedSpells(rows, t);
  }

  /** With an acyclic list whose managers are all in it, the rows the builder inserts are
      the closure of the list's edges over the listed users. */
  lemma {:induction false} BuiltIsClosure(t: Id, users: seq<SeedUser>)
    requires Acyclic(SeedEdges(users)) && SeedEdges(users).Values <= Ids(users)
    ensures IsClosure(BuiltTable(t, users), SeedEdges(users))
    ensures Nodes(BuiltTable(t, users)) == Ids(users)
  {
    BuiltSpells(t, users);
    SpelledIsClosure(t, users, BuiltTable(t, users));
  }

  lemma {:induction false} UpStaysInside(m: Edges, ids: set<Id>, d: Id, k: nat)
    requires d in ids && m.Values <= ids && Up(m, d, k).Some?
    ensures Up(m, d, k).value in ids
    decreases k
  {
    if k > 0 {
      assert m[d] in m.Values;
      UpStaysInside(m, ids, m[d], k - 1);
    }
  }

  lemma {:induction false} ClosureHasBuiltRows(t: Id, users: seq<SeedUser>, table: Table)
    requires IsClosure(table, SeedEdges(users)) && Nodes(table) == Ids(users)
    ensures Spells(BuiltRows(t, SeedEdges(users), users), t, table)
  {
    var m := SeedEdges(users);
    var rows := BuiltRows(t, m, users);
    ClosureIsAcyclic(table, m);
    forall r | r in rows
      ensures r.tenantId == t && (r.ancestor, r.descendant) in table
      ensures table[(r.ancestor, r.descendant)] == r.depth
    {
      BuiltRowIs(t, m, users, r);
      UserRowIs(t, m, r.descendant, r);
      RowIsHops(table, m, r.ancestor, r.descendant, r.depth);
    }
    forall k | k in table ensures ClosureRow(t, k.0, k.1, table[k]) in rows {
      var r := ClosureRow(t, k.0, k.1, table[k]);
      assert k == (k.0, k.1);
      RowIsHops(table, m, k.0, k.1, table[k]);
      BuiltRowIs(t, m, users, r);
      UserRowIs(t, m, k.1, r);
    }
  }

  /** Rows spell one table only. */
  lemma {:induction false} SpelledOnce(rows: seq<ClosureRow>, t: Id, a: Table, b: Table)
    requires Spells(rows, t, a) && Spells(rows, t, b)
    ensures a == b
  {
    forall k | k in a ensures k in b && a[k] == b[k] {
      assert ClosureRow(t, k.0, k.1, a[k]) in rows && k == (k.0, k.1);
    }
    forall k | k in b ensures k in a {
      assert ClosureRow(t, k.0, k.1, b[k]) in rows && k == (k.0, k.1);
    }
  }

  /** The incremental service and the batch builder agree: a table kept by any history
      over the same edges and users is the one the builder's rows make. */
  lemma {:induction false} BuilderAgreesWithService(t: Id, users: seq<SeedUser>, table: Table)
    requires IsClosure(table, SeedEdges(users)) && Nodes(table) == Ids(users)
    ensures table == BuiltTable(t, users)
  {
    hide Spells, IsClosure, BuiltTable;
    ClosureIsAcyclic(table, SeedEdges(users));
    ClosureHasBuiltRows(t, users, table);
    BuiltSpells(t, users);
    SpelledOnce(BuiltRows(t, SeedEdges(users), users), t, table, BuiltTable(t, users));
  }

  // ---------------------------------------------------------------------------
  // Cyclic input
  // ---------------------------------------------------------------------------

  /** The unique index of the table over the rows of one insertion. */
  ghost predicate DistinctKeys(rows: seq<ClosureRow>) {
    forall i, j :: 0 <= i < j < |rows| ==> rows[i].Key() != rows[j].Key()
  }

  /** Every manager reached from `d` is in its chain, even around a cycle. */
  lemma {:induction false} ChainReaches(m: Edges, d: Id, k: nat)
    requires 0 < k && Up(m, d, k).Some?
    ensures Up(m, d, k).value in Chain(m, d)
    decreases k
  {
    var w := Chain(m, d);
    WalkIsUp(m, m[d], {});
    assert forall i: nat :: Up(m, d, i + 1) == Up(m, m[d], i);
    if k == 1 {
      assert Up(m, d, 1) == Some(m[d]) by { assert Up(m, m[d], 0) == Some(m[d]); }
      assert w == [m[d]] + Walk(m, ManagerOf(m, m[d]), {} + {m[d]});
    } else {
      UpBetween(m, d, k - 1, k);
      ChainReaches(m, d, k - 1);
      var i :| 0 <= i < |w| && w[i] == Up(m, d, k - 1).value;
      UpCompose(m, d, k - 1, 1);
      UpCompose(m, d, i + 1, 1);
      assert Up(m, d, k) == Up(m, d, i + 2) == Up(m, m[d], i + 1);
    }
  }

  lemma {:induction false} AcyclicIsChainFree(m: Edges)
    ensures Acyclic(m) <==> forall d :: d in m ==> d !in Chain(m, d)
  {
    if Acyclic(m) {
      forall d | d in m ensures d !in Chain(m, d) { ChainMembers(m, d, d); }
    } else {
      var d, k: nat :| 0 < k && Up(m, d, k) == Some(d);
      ChainReaches(m, d, k);
    }
  }

  lemma {:induction false} UserRowsDistinct(t: Id, m: Edges, u: Id)
    ensures DistinctKeys(UserRows(t, m, u)) <==> u !in Chain(m, u)
  {
    var rows, c := UserRows(t, m, u), Chain(m, u);
    if u in m { WalkIsUp(m, m[u], {}); }
    assert forall i :: 0 < i < |rows| ==> rows[i].Key() == (t, c[i - 1], u);
    assert rows[0].Key() == (t, u, u);
    if u in c {
      var i :| 0 <= i < |c| && c[i] == u;
      assert rows[i + 1].Key() == rows[0].Key();
    }
  }

  lemma {:induction false} ConcatDistinct(a: seq<ClosureRow>, b: seq<ClosureRow>)
    requires forall x, y :: x in a && y in b ==> x.Key() != y.Key()
    ensures DistinctKeys(a + b) <==> DistinctKeys(a) && DistinctKeys(b)
  {
    var c := a + b;
    if DistinctKeys(c) {
      forall i, j | 0 <= i < j < |a| ensures a[i].Key() != a[j].Key() {
        assert c[i].Key() != c[j].Key();
      }
      forall i, j | 0 <= i < j < |b| ensures b[i].Key() != b[j].Key() {
        assert c[|a| + i].Key() != c[|a| + j].Key();
      }
    }
  }

  lemma {:induction false} NoRowsDistinct()
    ensures DistinctKeys([])
  {
  }

  lemma {:induction false} BuiltDistinct(t: Id, m: Edges, users: seq<SeedUser>)
    requires UniqueIds(users)
    ensures DistinctKeys(BuiltRows(t, m, users)) <==> forall u :: u in Ids(users) ==> u !in Chain(m, u)
    decreases |users|
  {
    hide UserRows, DistinctKeys, Chain;
    NoRowsDistinct();
    if users != [] {
      var n := |users| - 1;
      var first, last := users[..n], users[n].id;
      BuiltDistinct(t, m, first);
      UserRowsDistinct(t, m, last);
      IdsSplit(users);
      assert last !in Ids(first);
      forall x, y | x in BuiltRows(t, m, first) && y in UserRows(t, m, last) ensures x.Key() != y.Key() {
        BuiltRowIs(t, m, first, x);
        UserRowsBelong(t, m, last, y);
      }
      ConcatDistinct(BuiltRows(t, m, first), UserRows(t, m, last));
    }
  }

  /** The seed inserts the rows without `skipDuplicates`: the unique index accepts
      them exactly when the manager edges have no cycle. */
  lemma {:induction false} SeedInsertableExactly(t: Id, users: seq<SeedUser>)
    requires UniqueIds(users)
    ensures DistinctKeys(BuiltRows(t, SeedEdges(users), users)) <==> Acyclic(SeedEdges(users))
  {
    var m := SeedEdges(users);
    ManagerMapKeys(users);
    BuiltDistinct(t, m, users);
    AcyclicIsChainFree(m);
    forall u | u in Ids(users) && u !in m ensures u !in Chain(m, u) {}
  }
}
