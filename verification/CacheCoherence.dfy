/** The relation between the cache as stored, string keys and listed values, and
    the database; and how each cache operation keeps it.  The relation speaks of the
    keys some user of the cache cares about; keys may collide as strings (see
    CacheKeys), and what that costs is stated exactly. */
module CacheCoherence {
  import opened Domain
  import opened CacheKeys
  import opened CacheService
  import opened Tables
  import opened Query
  import opened Writes

  datatype Cached = CachedNames(names: seq<string>) | CachedPolicies(policies: seq<Policy>)

  type CacheStore = map<string, Entry<Cached>>

  /** The string a key is stored under. */
  function Render(k: Key): string {
    match k
    case PermissionsOf(t, u) => PermissionsKey(t, u)
    case PoliciesFor(t, a, r) => PoliciesKey(t, a, r)
  }

  /** No two of the keys are stored under one string. */
  ghost predicate Apart(ks: set<Key>) {
    forall j, k :: j in ks && k in ks && Render(j) == Render(k) ==> j == k
  }

  /** A listed value states a fact: names in any order, policies by priority with ties
      in any order. */
  ghost predicate States(v: Cached, fact: Fact) {
    match fact
    case Names(names) => v.CachedNames? && Lists(v.names, names)
    case Policies(ps) => v.CachedPolicies? && Lists(v.policies, ps) && SortedBy(v.policies, PriorityOf)
  }

  /** Whatever is stored for the keys is true. */
  ghost predicate Coherent(c: CacheStore, s: Store, ks: set<Key>) {
    forall k :: k in ks && Render(k) in c ==> States(c[Render(k)].value, Truth(s, k))
  }

  /** Whatever a lookup finds for the keys at time `now` is true. */
  ghost predicate ServesTrue(c: CacheStore, s: Store, ks: set<Key>, now: int) {
    forall k :: k in ks && Lookup(c, Render(k), now).Some? ==>
      States(Lookup(c, Render(k), now).value, Truth(s, k))
  }

  lemma {:induction false} CoherentServes(c: CacheStore, s: Store, ks: set<Key>, now: int)
    requires Coherent(c, s, ks)
    ensures ServesTrue(c, s, ks, now)
  {
  }

  // ---------------------------------------------------------------------------
  // Which keys are apart
  // ---------------------------------------------------------------------------

  predicate ColonFreeKey(k: Key) {
    ColonFree(k.tenant) && (k.PoliciesFor? ==> ColonFree(k.action))
  }

  lemma {:induction false} RenderInjective(j: Key, k: Key)
    requires ColonFreeKey(j) && ColonFreeKey(k)
    ensures Render(j) == Render(k) <==> j == k
  {
    match (j, k) {
      case (PermissionsOf(t, u), PermissionsOf(t', u')) => PermissionsKeyInjective(t, u, t', u');
      case (PoliciesFor(t, a, r), PoliciesFor(t', a', r')) => PoliciesKeyInjective(t, a, r, t', a', r');
      case (PermissionsOf(t, u), PoliciesFor(t', a, r)) => KindsDiffer(t, u, t', a, r);
      case (PoliciesFor(t', a, r), PermissionsOf(t, u)) => KindsDiffer(t, u, t', a, r);
    }
  }

  /** Colon-free tenant ids and actions keep any set of keys apart. */
  lemma {:induction false} ColonFreeApart(ks: set<Key>)
    requires forall k :: k in ks ==> ColonFreeKey(k)
    ensures Apart(ks)
  {
    forall j, k | j in ks && k in ks && Render(j) == Render(k) ensures j == k {
      RenderInjective(j, k);
    }
  }

  // ---------------------------------------------------------------------------
  // Filling
  // ---------------------------------------------------------------------------

  lemma {:induction false} CoherentShrinks(c: CacheStore, c': CacheStore, s: Store, ks: set<Key>)
    requires Coherent(c, s, ks) && c'.Keys <= c.Keys && (forall x :: x in c' ==> c'[x] == c[x])
    ensures Coherent(c', s, ks)
  {
  }

  lemma {:induction false} CoherentFill(c: CacheStore, s: Store, ks: set<Key>, k: Key, v: Cached, expiresAt: int)
    requires Coherent(c, s, ks) && Apart(ks) && k in ks && States(v, Truth(s, k))
    ensures Coherent(c[Render(k) := Entry(v, expiresAt)], s, ks)
  {
    hide Truth, States, Render;
  }

  lemma {:induction false} EmptyCoherent(s: Store, ks: set<Key>)
    ensures Coherent(map[], s, ks)
  {
  }

  /** Other changes to the store leave the cached facts alone. */
  lemma {:induction false} CoherentFrame(c: CacheStore, s: Store, s': Store, ks: set<Key>)
    requires Coherent(c, s, ks)
    requires s'.userRoles == s.userRoles && s'.rolePermissions == s.rolePermissions
    requires s'.permissions == s.permissions && s'.policies == s.policies
    ensures Coherent(c, s', ks)
  {
  }

  /** Every fact can be cached. */
  lemma {:induction false} Statable(fact: Fact) returns (v: Cached)
    ensures States(v, fact)
  {
    match fact {
      case Names(names) =>
        var rows := SortedListingExists(names, _ => 0);
        v := CachedNames(rows);
      case Policies(ps) =>
        var rows := SortedListingExists(ps, PriorityOf);
        v := CachedPolicies(rows);
    }
  }

  /** A cache entry cannot state two different facts. */
  lemma {:induction false} StatesOnce(v: Cached, a: Fact, b: Fact)
    requires States(v, a) && States(v, b)
    ensures a == b
  {
  }

  /** A tenant whose user holds one permission. */
  function OneHolder(t: Id, u: Id): Store {
    var user := User(t, "", None, None, None, Internal, Active);
    Store(map[t := TenantActive], map[u := user], map["r" := Role(t, "r")], map["p" := Permission(t, "x")],
          {(t, u, "r")}, {(t, "r", "p")}, map[], map[], map[])
  }

  /** A tenant with one policy. */
  function OnePolicy(t: Id, action: string, kind: string): Store {
    var conditions := Condition(None, None, None, None, None, None, None);
    Store(map[t := TenantActive], map[], map[], map[], {}, {},
          map[(t, "n") := Policy(t, "n", Allow, action, kind, conditions, 100, true)], map[], map[])
  }

  lemma {:induction false} HolderTold(t: Id, u: Id, t': Id, u': Id)
    requires (t, u) != (t', u')
    ensures Truth(OneHolder(t, u), PermissionsOf(t, u)) != Truth(OneHolder(t, u), PermissionsOf(t', u'))
  {
    var s := OneHolder(t, u);
    assert (t, u, "r") in s.userRoles && (t, "r", "p") in s.rolePermissions;
    assert "x" in NamesOf(s, t, u);
    assert NamesOf(s, t', u') == {};
  }

  lemma {:induction false} PolicyTold(t: Id, a: string, r: string, t': Id, a': string, r': string)
    requires !(t == t' && a in [a', "*"] && r in [r', "*"])
    ensures Truth(OnePolicy(t, a, r), PoliciesFor(t, a, r)) != Truth(OnePolicy(t, a, r), PoliciesFor(t', a', r'))
  {
    var s := OnePolicy(t, a, r);
    var p := s.policies[(t, "n")];
    assert Applies(p, t, a, r) && p in Applicable(s, t, a, r);
    assert !Applies(p, t', a', r') && Applicable(s, t', a', r') == {};
  }

  /** One joined text splits in one way at a given place. */
  lemma {:induction false} JoinedAlike(a: string, r: string, a': string, r': string)
    requires a + ":" + r == a' + ":" + r' && (|a| == |a'| || |r| == |r'|)
    ensures a == a' && r == r'
  {
    assert (a + ":" + r)[..|a|] == a && (a' + ":" + r')[..|a'|] == a';
    assert (a + ":" + r)[|a| + 1..] == r && (a' + ":" + r')[|a'| + 1..] == r';
  }

  lemma {:induction false} WildcardsOnce(a: string, r: string)
    requires a + ":" + r == "*:*"
    ensures a == "*" && r == "*"
  {
    assert (a + ":" + r)[|a|] == ':';
    assert |a| == 1;
    JoinedAlike(a, r, "*", "*");
  }

  /** Keys of one tenant that meet as strings differ in action and in resource type, and
      the first is not the pair of wildcards. */
  lemma {:induction false} MeetingPolicies(t: Id, a: string, r: string, a': string, r': string)
    requires (a, r) != (a', r') && PoliciesKey(t, a, r) == PoliciesKey(t, a', r')
    ensures !(a in [a', "*"] && r in [r', "*"])
  {
    var head := "pol:" + t + ":";
    assert PoliciesKey(t, a, r) == head + (a + ":" + r) && PoliciesKey(t, a', r') == head + (a' + ":" + r');
    CutHead(head, a + ":" + r, a' + ":" + r');
    if a == a' || r == r' {
      JoinedAlike(a, r, a', r');
    } else if a == "*" && r == "*" {
      WildcardsOnce(a', r');
    }
  }

  /** Two keys that meet as strings mean different facts in some database. */
  lemma {:induction false} ToldApart(j: Key, k: Key) returns (s: Store)
    requires j != k && Render(j) == Render(k)
    ensures Truth(s, j) != Truth(s, k)
  {
    hide Truth, OneHolder, OnePolicy;
    match (j, k) {
      case (PermissionsOf(t, u), PermissionsOf(t', u')) =>
        HolderTold(t, u, t', u');
        s := OneHolder(t, u);
      case (PoliciesFor(t, a, r), PoliciesFor(t', a', r')) =>
        if t == t' { MeetingPolicies(t, a, r, a', r'); }
        PolicyTold(t, a, r, t', a', r');
        s := OnePolicy(t, a, r);
      case (PermissionsOf(t, u), PoliciesFor(t', a, r)) =>
        KindsDiffer(t, u, t', a, r);
      case (PoliciesFor(t', a, r), PermissionsOf(t, u)) =>
        KindsDiffer(t, u, t', a, r);
    }
  }

  /** A true value, stored for one of the keys in a cache that was true, leaves every
      lookup at `now` true. */
  ghost predicate FillServesTrue(ks: set<Key>, now: int) {
    forall c, s, k, v, expiresAt ::
      k in ks && Coherent(c, s, ks) && States(v, Truth(s, k)) ==>
        ServesTrue(c[Render(k) := Entry(v, expiresAt)], s, ks, now)
  }

  /** Filling the cache with what the database says is safe for the readers of some keys,
      in every database and at whatever time they look, exactly when the keys are
      apart. */
  lemma {:induction false} FillSafeExactly(ks: set<Key>, now: int)
    ensures FillServesTrue(ks, now) <==> Apart(ks)
  {
    hide Truth, States, Render, Coherent, ServesTrue;
    if Apart(ks) {
      forall c, s, k, v, expiresAt | k in ks && Coherent(c, s, ks) && States(v, Truth(s, k))
        ensures ServesTrue(c[Render(k) := Entry(v, expiresAt)], s, ks, now)
      {
        CoherentFill(c, s, ks, k, v, expiresAt);
        CoherentServes(c[Render(k) := Entry(v, expiresAt)], s, ks, now);
      }
    } else {
      var j, k :| j in ks && k in ks && Render(j) == Render(k) && j != k;
      var s := ToldApart(j, k);
      var v := Statable(Truth(s, k));
      EmptyCoherent(s, ks);
      SharedEntry(s, ks, j, k, v, now);
    }
  }

  /** One entry, served for two keys that mean different facts. */
  lemma {:induction false} SharedEntry(s: Store, ks: set<Key>, j: Key, k: Key, v: Cached, now: int)
    requires j in ks && Render(j) == Render(k) && Truth(s, j) != Truth(s, k) && States(v, Truth(s, k))
    ensures !ServesTrue(map[][Render(k) := Entry(v, now + 1)], s, ks, now)
  {
    hide Truth, States, Render;
    if ServesTrue(map[][Render(k) := Entry(v, now + 1)], s, ks, now) {
      StatesOnce(v, Truth(s, j), Truth(s, k));
    }
  }

  // ---------------------------------------------------------------------------
  // Writing
  // ---------------------------------------------------------------------------

  /** The strings a write drops, by key or by prefix, as the services do it. */
  predicate Removes(w: Write, x: string) {
    match w
    case GrantRole(t, u, _) => x == PermissionsKey(t, u)
    case GrantPermission(t, _, _) => StartsWith(x, PermissionsPrefix(t))
    case AddPolicy(p) => StartsWith(x, PoliciesPrefix(p.tenantId))
  }

  function Dropped(c: CacheStore, w: Write): CacheStore {
    match w
    case GrantRole(t, u, _) => c - {PermissionsKey(t, u)}
    case GrantPermission(t, _, _) => WithoutPrefix(c, PermissionsPrefix(t))
    case AddPolicy(p) => WithoutPrefix(c, PoliciesPrefix(p.tenantId))
  }

  lemma {:induction false} DroppedIs(c: CacheStore, w: Write, x: string)
    ensures x in Dropped(c, w) <==> x in c && !Removes(w, x)
    ensures x in Dropped(c, w) ==> Dropped(c, w)[x] == c[x]
  {
  }

  /** The string operations reach every key a write is meant to invalidate, colons or
      not. */
  lemma {:induction false} InvalidatedRemoved(w: Write, k: Key)
    requires Invalidates(w, k)
    ensures Removes(w, Render(k))
  {
  }

  /** With colon-free tenant ids they reach no other key. */
  lemma {:induction false} RemovesExactly(w: Write, k: Key)
    requires ColonFree(WriteTenant(w)) && ColonFree(k.tenant)
    ensures Removes(w, Render(k)) <==> Invalidates(w, k)
  {
    match (w, k) {
      case (GrantRole(t, u, _), PermissionsOf(t', u')) => PermissionsKeyInjective(t, u, t', u');
      case (GrantRole(t, u, _), PoliciesFor(t', a, r)) => KindsDiffer(t, u, t', a, r);
      case (GrantPermission(t, _, _), PermissionsOf(t', u)) => PermissionsPrefixExact(t, t', u);
      case (GrantPermission(t, _, _), PoliciesFor(t', a, r)) => PermissionsPrefixSkipsPolicies(t, t', a, r);
      case (AddPolicy(p), PermissionsOf(t', u)) => PoliciesPrefixSkipsPermissions(p.tenantId, t', u);
      case (AddPolicy(p), PoliciesFor(t', a, r)) => PoliciesPrefixExact(p.tenantId, t', a, r);
    }
  }

  /** The deletions of a write reach each of the keys whose fact it changes. */
  ghost predicate Reaches(s: Store, w: Write, ks: set<Key>) {
    forall k :: k in ks && Truth(Applied(s, w), k) != Truth(s, k) ==> Removes(w, Render(k))
  }

  /** A contained write reaches them whatever the keys. */
  lemma {:induction false} ContainedReaches(s: Store, w: Write, ks: set<Key>)
    requires Contained(s, w)
    ensures Reaches(s, w, ks)
  {
    hide Truth, Render, Applied, Contained, Invalidates, Removes;
    InvalidationCoversExactly(s, w);
    forall k | k in ks && Invalidates(w, k) ensures Removes(w, Render(k)) { InvalidatedRemoved(w, k); }
  }

  /** Write, then invalidate: what stays in the cache is still true. */
  lemma {:induction false} CoherentWrite(c: CacheStore, s: Store, w: Write, ks: set<Key>)
    requires Coherent(c, s, ks) && Reaches(s, w, ks)
    ensures Coherent(Dropped(c, w), Applied(s, w), ks)
  {
    hide Truth, States, Render, Applied, Removes, Dropped;
    forall k | k in ks && Render(k) in Dropped(c, w)
      ensures States(Dropped(c, w)[Render(k)].value, Truth(Applied(s, w), k))
    {
      DroppedIs(c, w, Render(k));
    }
  }

  /** After the write and its deletions every cache that was true before is served true
      at a given time. */
  ghost predicate WriteServesTrue(s: Store, w: Write, ks: set<Key>, now: int) {
    forall c :: Coherent(c, s, ks) ==> ServesTrue(Dropped(c, w), Applied(s, w), ks, now)
  }

  /** A write is safe for the readers of some keys, at whatever time they look, exactly
      when its deletions reach each of the keys whose fact it changes. */
  lemma {:induction false} WriteServesTrueExactly(s: Store, w: Write, ks: set<Key>, now: int)
    requires Apart(ks)
    ensures WriteServesTrue(s, w, ks, now) <==> Reaches(s, w, ks)
  {
    hide Truth, States, Render, Applied, Removes, Dropped, Coherent, ServesTrue;
    if Reaches(s, w, ks) {
      forall c | Coherent(c, s, ks) ensures ServesTrue(Dropped(c, w), Applied(s, w), ks, now) {
        CoherentWrite(c, s, w, ks);
        CoherentServes(Dropped(c, w), Applied(s, w), ks, now);
      }
    } else {
      var k :| k in ks && Truth(Applied(s, w), k) != Truth(s, k) && !Removes(w, Render(k));
      var c := SingleEntry(s, ks, k, now);
      EntryMisleads(c, s, w, ks, k, now);
    }
  }

  /** A cache that holds just one fact, still served at time `now`. */
  lemma {:induction false} SingleEntry(s: Store, ks: set<Key>, k: Key, now: int) returns (c: CacheStore)
    requires Apart(ks) && k in ks
    ensures Coherent(c, s, ks)
    ensures Render(k) in c && now < c[Render(k)].expiresAt
  {
    hide Truth, States, Render, Coherent;
    var v := Statable(Truth(s, k));
    EmptyCoherent(s, ks);
    CoherentFill(map[], s, ks, k, v, now + 1);
    c := map[][Render(k) := Entry(v, now + 1)];
  }

  lemma {:induction false} EntryMisleads(c: CacheStore, s: Store, w: Write, ks: set<Key>, k: Key, now: int)
    requires Coherent(c, s, ks) && k in ks && Render(k) in c && now < c[Render(k)].expiresAt
    requires Truth(Applied(s, w), k) != Truth(s, k) && !Removes(w, Render(k))
    ensures !ServesTrue(Dropped(c, w), Applied(s, w), ks, now)
  {
    hide Truth, States, Render, Applied, Removes, Dropped;
    DroppedIs(c, w, Render(k));
    if ServesTrue(Dropped(c, w), Applied(s, w), ks, now) {
      StatesOnce(c[Render(k)].value, Truth(s, k), Truth(Applied(s, w), k));
    }
  }

  /** The entries of the users who hold a role. */
  function HolderKeys(s: Store, r: Id): set<Key> {
    set ur | ur in s.userRoles && ur.2 == r :: PermissionsOf(ur.0, ur.1)
  }

  /** A permission grant is safe for every reader, the holders of the role among them,
      exactly when the role is held in the granting tenant alone or its other holders
      already had the name. */
  lemma {:induction false} GrantServesTrueExactly(s: Store, w: Write, ks: set<Key>, now: int)
    requires w.GrantPermission? && HolderKeys(s, w.role) <= ks && Apart(ks)
    requires ColonFree(w.tenant) && forall k :: k in ks ==> ColonFree(k.tenant)
    ensures WriteServesTrue(s, w, ks, now) <==> Contained(s, w)
  {
    hide Truth, Render, Applied, NamesOf, Removes, WriteServesTrue;
    WriteServesTrueExactly(s, w, ks, now);
    forall k | k in ks ensures Removes(w, Render(k)) <==> Invalidates(w, k) {
      RemovesExactly(w, k);
    }
    InvalidationCoversExactly(s, w);
    if w.GrantPermission? && Accepted(s, w) {
      forall k | !Invalidates(w, k) && Truth(Applied(s, w), k) != Truth(s, k) ensures k in ks {
        UncoveredKey(s, w, k);
        assert (k.tenant, k.user, w.role) in s.userRoles;
      }
    }
  }
}
