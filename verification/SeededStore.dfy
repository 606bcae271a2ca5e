/** The seed script's organization as a starting point for histories: user rows and
    closure rows of a new tenant, inserted in bulk. */
module SeededStore {
  import opened Domain
  import opened Forest
  import opened ClosureTable
  import opened Tables
  import opened ClosureRows
  import opened HierarchySpec
  import opened SeedBuilder
  import opened SystemRuns

  /** The user rows of a bulk insert; `profile` holds what no closure row depends on. */
  function WithUsers(users: map<Id, User>, t: Id, seeds: seq<SeedUser>, profile: Id -> User): map<Id, User> {
    users + map u | u in Ids(seeds) :: profile(u).(tenantId := t, managerId := ManagerAt(seeds, u))
  }

  function ManagerAt(seeds: seq<SeedUser>, u: Id): Option<Id> {
    if u in ManagerMap(seeds) then ManagerMap(seeds)[u] else None
  }

  /** The two bulk inserts: users, then the builder's rows. */
  function Seeded(s: Store, t: Id, seeds: seq<SeedUser>, profile: Id -> User): Store {
    s.(users := WithUsers(s.users, t, seeds, profile),
       closure := InsertAll(s.closure, BuiltRows(t, SeedEdges(seeds), seeds)))
  }

  /** What the database asks of the inserts: unique new user ids, managers that are users,
      in whatever tenant, and no two closure rows under one key. */
  ghost predicate Insertable(s: Store, t: Id, seeds: seq<SeedUser>) {
    && UniqueIds(seeds) && Ids(seeds) !! s.users.Keys && "" !in Ids(seeds)
    && (forall u :: u in seeds && u.managerId.Some? ==> u.managerId.value in Ids(seeds) + s.users.Keys)
    && DistinctKeys(BuiltRows(t, SeedEdges(seeds), seeds))
  }

  /** Every manager is one of the listed users. */
  ghost predicate ManagersListed(seeds: seq<SeedUser>) {
    forall u :: u in seeds && u.managerId.Some? ==> u.managerId.value in Ids(seeds)
  }

  /** The tenant has no users and no closure rows yet. */
  ghost predicate NewTenant(s: Store, t: Id) {
    && (forall u :: u in s.users ==> s.users[u].tenantId != t)
    && (forall k :: k in s.closure ==> k.0 != t)
  }

  lemma {:induction false} ManagerMapFrom(seeds: seq<SeedUser>, u: Id)
    requires u in ManagerMap(seeds)
    ensures SeedUser(u, ManagerMap(seeds)[u]) in seeds
    decreases |seeds|
  {
    var n := |seeds| - 1;
    assert seeds == seeds[..n] + [seeds[n]];
    if u != seeds[n].id { ManagerMapFrom(seeds[..n], u); }
  }

  lemma {:induction false} UserRow(s: Store, t: Id, seeds: seq<SeedUser>, profile: Id -> User, u: Id)
    ensures var users := WithUsers(s.users, t, seeds, profile);
      && (u in users <==> u in Ids(seeds) || u in s.users)
      && (u in users ==> if u in Ids(seeds) then
            users[u].tenantId == t && users[u].managerId == ManagerAt(seeds, u)
          else users[u] == s.users[u])
  {
    hide Ids, ManagerAt;
  }

  /** The edge a walk of the builder follows from a user is the one stored for it. */
  lemma {:induction false} SeedEdge(s: Store, t: Id, seeds: seq<SeedUser>, u: Id)
    requires Insertable(s, t, seeds) && "" !in s.users
    ensures ManagerOf(SeedEdges(seeds), u) == if u in Ids(seeds) then ManagerAt(seeds, u) else None
  {
    hide DistinctKeys, BuiltRows, Ids, ManagerMap, UniqueIds;
    ManagerMapKeys(seeds);
    if u in Ids(seeds) {
      ManagerMapFrom(seeds, u);
      assert SeedUser(u, ManagerAt(seeds, u)) in seeds;
    }
  }

  lemma {:induction false} SeededEdges(s: Store, t: Id, seeds: seq<SeedUser>, profile: Id -> User, r: Id)
    requires Insertable(s, t, seeds) && NewTenant(s, t) && "" !in s.users
    ensures OrgOf(Seeded(s, t, seeds, profile), r) == if r == t then SeedEdges(seeds) else OrgOf(s, r)
  {
    hide Insertable, BuiltRows, InsertAll, Ids, ManagerAt, WithUsers, SeedEdges;
    assert Ids(seeds) !! s.users.Keys by { SeedsAreNew(s, t, seeds); }
    var left := OrgOf(Seeded(s, t, seeds, profile), r);
    var right := if r == t then SeedEdges(seeds) else OrgOf(s, r);
    forall u ensures ManagerOf(left, u) == ManagerOf(right, u) {
      UserRow(s, t, seeds, profile, u);
      SeedEdge(s, t, seeds, u);
    }
    SameEdges(left, right);
  }

  lemma {:induction false} SeedsAreNew(s: Store, t: Id, seeds: seq<SeedUser>)
    requires Insertable(s, t, seeds)
    ensures Ids(seeds) !! s.users.Keys
  {
  }

  lemma {:induction false} SameEdges(m: Edges, m': Edges)
    requires forall u :: ManagerOf(m, u) == ManagerOf(m', u)
    ensures m == m'
  {
    forall u ensures u in m <==> u in m' ensures u in m ==> m[u] == m'[u] {
      assert ManagerOf(m, u) == ManagerOf(m', u);
    }
  }

  lemma {:induction false} SeededTable(s: Store, t: Id, seeds: seq<SeedUser>, profile: Id -> User, r: Id)
    requires Insertable(s, t, seeds) && NewTenant(s, t)
    ensures TableOf(Seeded(s, t, seeds, profile), r) == if r == t then BuiltTable(t, seeds) else TableOf(s, r)
  {
    hide DistinctKeys, BuiltRows, InsertAll, Spells, WithUsers, Slice, WithSlice, BuiltTable, Ids, SeedEdges;
    SeedInsertableExactly(t, seeds);
    BuiltSpells(t, seeds);
    InsertAllIsUnion(s.closure, BuiltRows(t, SeedEdges(seeds), seeds), t, BuiltTable(t, seeds));
    NoRows(s, t);
    SliceOfWithSlice(s.closure, t, BuiltTable(t, seeds), r);
    assert BuiltTable(t, seeds) + map[] == BuiltTable(t, seeds);
  }

  lemma {:induction false} NoRows(s: Store, t: Id)
    requires NewTenant(s, t)
    ensures Slice(s.closure, t) == map[]
  {
  }

  lemma {:induction false} SeededKeys(s: Store, t: Id, seeds: seq<SeedUser>, profile: Id -> User)
    requires KeysValid(s) && Insertable(s, t, seeds) && NewTenant(s, t)
    requires IsClosure(BuiltTable(t, seeds), SeedEdges(seeds)) && Nodes(BuiltTable(t, seeds)) == Ids(seeds)
    ensures KeysValid(Seeded(s, t, seeds, profile))
  {
    hide DistinctKeys, BuiltRows, InsertAll, BuiltTable, Ids, SeedEdges, Nodes, Slice;
    var s' := Seeded(s, t, seeds, profile);
    forall k | k in s'.closure ensures k.1 in s'.users && k.2 in s'.users {
      assert k == (k.0, k.1, k.2);
      SliceRow(s'.closure, k.0, k.1, k.2);
      SeededTable(s, t, seeds, profile, k.0);
      SliceRow(s.closure, k.0, k.1, k.2);
      NodesAreSelfRows(BuiltTable(t, seeds), k.1);
      NodesAreSelfRows(BuiltTable(t, seeds), k.2);
    }
  }

  lemma {:induction false} SeededClosure(s: Store, t: Id, seeds: seq<SeedUser>, profile: Id -> User)
    requires OrgConsistent(s) && Insertable(s, t, seeds) && NewTenant(s, t) && ManagersListed(seeds)
    ensures OrgConsistent(Seeded(s, t, seeds, profile))
  {
    hide IsClosure, Insertable, NewTenant, Seeded, BuiltTable, ManagersListed, Slice;
    InsertableIsAcyclic(s, t, seeds);
    ListedValues(seeds);
    BuiltIsClosure(t, seeds);
    SeededKeys(s, t, seeds, profile);
    var s' := Seeded(s, t, seeds, profile);
    forall r ensures IsClosure(TableOf(s', r), OrgOf(s', r)) {
      SeededTable(s, t, seeds, profile, r);
      SeededEdges(s, t, seeds, profile, r);
    }
  }

  lemma {:induction false} InsertableIsAcyclic(s: Store, t: Id, seeds: seq<SeedUser>)
    requires Insertable(s, t, seeds)
    ensures Acyclic(SeedEdges(seeds))
  {
    SeedInsertableExactly(t, seeds);
  }

  lemma {:induction false} ListedValues(seeds: seq<SeedUser>)
    requires ManagersListed(seeds)
    ensures SeedEdges(seeds).Values <= Ids(seeds)
  {
    hide Ids, ManagerMap;
    ManagerMapKeys(seeds);
    forall u | u in SeedEdges(seeds) ensures SeedEdges(seeds)[u] in Ids(seeds) { ManagerMapFrom(seeds, u); }
  }

  /** A manager that is not listed has a row above its report but none of its own. */
  lemma {:induction false} UnlistedManager(t: Id, seeds: seq<SeedUser>, u: SeedUser)
    requires UniqueIds(seeds) && Acyclic(SeedEdges(seeds))
    requires u in seeds && Truthy(u.managerId) && u.managerId.value !in Ids(seeds)
    ensures !IsClosure(BuiltTable(t, seeds), SeedEdges(seeds))
  {
    hide BuiltTable, BuiltRows, Spells, ManagerMap;
    var m, x := SeedEdges(seeds), u.managerId.value;
    ManagerMapKeys(seeds);
    ManagerMapFrom(seeds, u.id);
    assert u.id in Ids(seeds) && u.id in m && m[u.id] == x;
    BuiltSpells(t, seeds);
    assert Up(m, u.id, 1) == Some(x) by { assert Up(m, x, 0) == Some(x); }
    SpelledRow(t, seeds, BuiltTable(t, seeds), x, u.id, 1);
    if (x, x) in BuiltTable(t, seeds) {
      SpelledRow(t, seeds, BuiltTable(t, seeds), x, x, BuiltTable(t, seeds)[(x, x)]);
    }
  }

  /** What the seed leaves behind when the database lets it insert: every tenant's table
      is the closure of its stored managers exactly when each manager is one of the
      listed users.  The foreign key alone would accept a user of another tenant. */
  lemma {:induction false} SeededConsistentExactly(s: Store, t: Id, seeds: seq<SeedUser>, profile: Id -> User)
    requires OrgConsistent(s) && Insertable(s, t, seeds) && NewTenant(s, t)
    ensures OrgConsistent(Seeded(s, t, seeds, profile)) <==> ManagersListed(seeds)
  {
    hide IsClosure, NewTenant, Seeded, BuiltTable, BuiltRows, DistinctKeys, Slice, Ids, UniqueIds;
    if ManagersListed(seeds) {
      SeededClosure(s, t, seeds, profile);
    } else {
      var u :| u in seeds && u.managerId.Some? && u.managerId.value !in Ids(seeds);
      InsertableIsAcyclic(s, t, seeds);
      UnlistedManager(t, seeds, u);
      SeededTable(s, t, seeds, profile, t);
      SeededEdges(s, t, seeds, profile, t);
    }
  }

  lemma {:induction false} SeededRegistered(s: Store, t: Id, seeds: seq<SeedUser>, profile: Id -> User)
    requires UsersRegistered(s) && Insertable(s, t, seeds) && NewTenant(s, t) && ManagersListed(seeds)
    ensures UsersRegistered(Seeded(s, t, seeds, profile))
  {
    hide Insertable, WithUsers, InsertAll, BuiltRows, BuiltTable, Ids, Slice, ManagersListed;
    var s' := Seeded(s, t, seeds, profile);
    InsertableIsAcyclic(s, t, seeds);
    ListedValues(seeds);
    BuiltIsClosure(t, seeds);
    forall u | u in s'.users ensures (u, u) in TableOf(s', s'.users[u].tenantId) {
      UserRow(s, t, seeds, profile, u);
      SeededTable(s, t, seeds, profile, s'.users[u].tenantId);
      NodesAreSelfRows(BuiltTable(t, seeds), u);
    }
  }

  /** So histories may start from a seeded database: all the invariants hold there. */
  lemma {:induction false} SeededInv(s: Store, t: Id, seeds: seq<SeedUser>, profile: Id -> User)
    requires Inv(s) && Insertable(s, t, seeds) && NewTenant(s, t) && ManagersListed(seeds)
    ensures Inv(Seeded(s, t, seeds, profile))
  {
    hide OrgConsistent, UsersRegistered, Insertable, NewTenant, ManagersListed, InsertAll, WithUsers;
    SeededClosure(s, t, seeds, profile);
    SeededRegistered(s, t, seeds, profile);
  }

  // ---------------------------------------------------------------------------
  // The shipped organizations
  // ---------------------------------------------------------------------------

  /** Every manager is listed before its reports. */
  ghost predicate ManagersFirst(seeds: seq<SeedUser>) {
    forall i :: 0 <= i < |seeds| && seeds[i].managerId.Some? ==> seeds[i].managerId.value in IdsBefore(seeds, i)
  }

  function IdsBefore(seeds: seq<SeedUser>, i: nat): set<Id>
    requires i <= |seeds|
  {
    set j | 0 <= j < i :: seeds[j].id
  }

  lemma {:induction false} UpIsEarlier(seeds: seq<SeedUser>, i: nat, k: nat)
    requires UniqueIds(seeds) && ManagersFirst(seeds) && i < |seeds|
    requires 0 < k && Up(SeedEdges(seeds), seeds[i].id, k).Some?
    ensures Up(SeedEdges(seeds), seeds[i].id, k).value in IdsBefore(seeds, i)
    decreases k
  {
    hide ManagerMap;
    var m, u := SeedEdges(seeds), seeds[i].id;
    ManagerMapFrom(seeds, u);
    var p :| 0 <= p < |seeds| && seeds[p] == SeedUser(u, ManagerMap(seeds)[u]);
    assert p == i;
    var j :| 0 <= j < i && seeds[j].id == m[u];
    assert Up(m, u, k) == Up(m, seeds[j].id, k - 1);
    if k > 1 {
      UpIsEarlier(seeds, j, k - 1);
    }
  }

  /** Such a list has no cycle. */
  lemma {:induction false} ManagersFirstAcyclic(seeds: seq<SeedUser>)
    requires UniqueIds(seeds) && ManagersFirst(seeds)
    ensures Acyclic(SeedEdges(seeds))
  {
    hide ManagerMap;
    var m := SeedEdges(seeds);
    ManagerMapKeys(seeds);
    forall d, k: nat | 0 < k ensures Up(m, d, k) != Some(d) {
      if d in m {
        var i :| 0 <= i < |seeds| && seeds[i].id == d;
        if Up(m, d, k).Some? { UpIsEarlier(seeds, i, k); }
      }
    }
  }

  const ACME: seq<SeedUser> := [
    SeedUser("ceo-a", None),
    SeedUser("director-a", Some("ceo-a")),
    SeedUser("manager-a", Some("director-a")),
    SeedUser("manager-b", Some("director-a")),
    SeedUser("employee-a", Some("manager-a")),
    SeedUser("employee-b", Some("manager-b")),
    SeedUser("finance-admin-a", Some("ceo-a")),
    SeedUser("hr-admin-a", Some("ceo-a"))]

  const GLOBEX: seq<SeedUser> := [SeedUser("ceo-b", None), SeedUser("employee-b1", Some("ceo-b"))]

  /** The database before the seed: the two tenants and nothing else. */
  const UNSEEDED :=
    Store(map["tenant-a" := TenantActive, "tenant-b" := TenantActive], map[], map[], map[], {}, {}, map[], map[], map[])

  function Shipped(acme: Id -> User, globex: Id -> User): Store {
    Seeded(Seeded(UNSEEDED, "tenant-a", ACME, acme), "tenant-b", GLOBEX, globex)
  }

  lemma {:induction false} EarlierId(seeds: seq<SeedUser>, j: nat, i: nat)
    requires j < i < |seeds|
    ensures seeds[j].id in IdsBefore(seeds, i)
  {
  }

  lemma {:induction false} AcmeListed()
    ensures UniqueIds(ACME) && ManagersFirst(ACME)
  {
    EarlierId(ACME, 0, 1);
    EarlierId(ACME, 1, 2);
    EarlierId(ACME, 1, 3);
    EarlierId(ACME, 2, 4);
    EarlierId(ACME, 3, 5);
    EarlierId(ACME, 0, 6);
    EarlierId(ACME, 0, 7);
  }

  lemma {:induction false} GlobexListed()
    ensures UniqueIds(GLOBEX) && ManagersFirst(GLOBEX)
  {
    EarlierId(GLOBEX, 0, 1);
  }

  lemma {:induction false} AcmeId(i: nat)
    requires i < |ACME|
    ensures |ACME[i].id| in [5, 9, 10, 15] && (|ACME[i].id| == 5 ==> ACME[i].id[4] == 'a')
  {
  }

  lemma {:induction false} IdsApart()
    ensures Ids(ACME) !! Ids(GLOBEX)
    ensures "" !in Ids(ACME) && "" !in Ids(GLOBEX)
  {
    hide ACME;
    forall u | u in Ids(ACME) ensures |u| in [5, 9, 10, 15] && (|u| == 5 ==> u[4] == 'a') {
      var a :| a in ACME && a.id == u;
      var i :| 0 <= i < |ACME| && ACME[i] == a;
      AcmeId(i);
    }
    forall u | u in Ids(GLOBEX) ensures |u| == 11 || (|u| == 5 && u[4] == 'b') {
      var b :| b in GLOBEX && b.id == u;
    }
  }

  lemma {:induction false} ManagersFirstListed(seeds: seq<SeedUser>)
    requires ManagersFirst(seeds)
    ensures ManagersListed(seeds)
  {
    forall u | u in seeds && u.managerId.Some? ensures u.managerId.value in Ids(seeds) {
      var i :| 0 <= i < |seeds| && seeds[i] == u;
      assert u.managerId.value in IdsBefore(seeds, i);
    }
  }

  lemma {:induction false} ListInsertable(s: Store, t: Id, seeds: seq<SeedUser>)
    requires UniqueIds(seeds) && ManagersFirst(seeds) && Ids(seeds) !! s.users.Keys && "" !in Ids(seeds)
    ensures Insertable(s, t, seeds) && ManagersListed(seeds)
  {
    hide ManagersFirst, UniqueIds, DistinctKeys, BuiltRows, SeedEdges;
    ManagersFirstListed(seeds);
    ManagersFirstAcyclic(seeds);
    SeedInsertableExactly(t, seeds);
  }

  /** Another tenant is as new as before. */
  lemma {:induction false} StaysNew(s: Store, t: Id, seeds: seq<SeedUser>, profile: Id -> User, v: Id)
    requires Insertable(s, t, seeds) && NewTenant(s, t) && NewTenant(s, v) && v != t
    ensures NewTenant(Seeded(s, t, seeds, profile), v)
  {
    hide Insertable, WithUsers, InsertAll, BuiltRows, Ids, Slice;
    var s' := Seeded(s, t, seeds, profile);
    forall u | u in s'.users ensures s'.users[u].tenantId != v {
      UserRow(s, t, seeds, profile, u);
    }
    forall k | k in s'.closure ensures k.0 != v {
      assert k == (k.0, k.1, k.2);
      SliceRow(s'.closure, k.0, k.1, k.2);
      SliceRow(s.closure, k.0, k.1, k.2);
      SeededTable(s, t, seeds, profile, k.0);
    }
  }

  /** In particular from the two shipped organizations, whatever else their user rows
      hold. */
  lemma {:induction false} ShippedInv(acme: Id -> User, globex: Id -> User)
    ensures Inv(Shipped(acme, globex))
  {
    hide Insertable, ManagersListed, Seeded, ManagersFirst, UniqueIds, Inv, Ids, NewTenant;
    AcmeListed();
    GlobexListed();
    IdsApart();
    Unseeded();
    BlankInv(UNSEEDED);
    var s := Seeded(UNSEEDED, "tenant-a", ACME, acme);
    ListInsertable(UNSEEDED, "tenant-a", ACME);
    StaysNew(UNSEEDED, "tenant-a", ACME, acme, "tenant-b");
    SeededInv(UNSEEDED, "tenant-a", ACME, acme);
    assert Ids(GLOBEX) !! s.users.Keys by { SeededIds(UNSEEDED, "tenant-a", ACME, acme); }
    ListInsertable(s, "tenant-b", GLOBEX);
    SeededInv(s, "tenant-b", GLOBEX, globex);
  }

  lemma {:induction false} Unseeded()
    ensures Blank(UNSEEDED) && UNSEEDED.users == map[]
    ensures NewTenant(UNSEEDED, "tenant-a") && NewTenant(UNSEEDED, "tenant-b")
  {
  }

  lemma {:induction false} SeededIds(s: Store, t: Id, seeds: seq<SeedUser>, profile: Id -> User)
    ensures Seeded(s, t, seeds, profile).users.Keys == s.users.Keys + Ids(seeds)
  {
  }
}
