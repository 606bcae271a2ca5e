/** The permission grant that crosses tenants, on one database: it is accepted, turns a
    decision of the other tenant, and drops no cache entry of that tenant. */
module CrossTenantGrant {
  import opened Domain
  import opened ClosureTable
  import opened Tables
  import opened Decisions
  import opened PolicyEngine
  import opened AccessSpec
  import opened Writes
  import opened SystemRuns

  const READ_DOCS :=
    Policy("b", "read-docs", Allow, "x", "doc", Condition(None, None, None, None, None, None, None), 100, true)

  /** Two active tenants.  "b" has a user in a role, a document and a policy that lets
      holders of "x" read it; "a" has the permission "x". */
  const TWO_TENANTS := Store(
    map["a" := TenantActive, "b" := TenantActive],
    map["u" := User("b", "u@b", None, None, None, Internal, Active)],
    map["r" := Role("b", "readers")],
    map["p" := Permission("a", "x")],
    {("b", "u", "r")},
    {},
    map[("b", "read-docs") := READ_DOCS],
    map[("b", "doc", "d") := Resource(None, Public)],
    map[("b", "u", "u") := 0])

  const GRANT := GrantPermission("a", "r", "p")

  const READ := Request("b", "u", "x", "doc", "d")

  lemma {:induction false} NoEdges(t: Id)
    ensures OrgOf(TWO_TENANTS, t) == map[]
  {
  }

  lemma {:induction false} OneRow(t: Id)
    ensures TableOf(TWO_TENANTS, t) == if t == "b" then map[("u", "u") := 0] else map[]
  {
    hide Slice;
    var table := TableOf(TWO_TENANTS, t);
    forall k ensures k in table <==> t == "b" && k == ("u", "u")
             ensures k in table ==> table[k] == 0
    {
      assert k == (k.0, k.1);
      SliceRow(TWO_TENANTS.closure, t, k.0, k.1);
    }
  }

  lemma {:induction false} TwoTenantsConsistent()
    ensures Inv(TWO_TENANTS)
  {
    hide IsClosure, TableOf, OrgOf;
    OneRow("b");
    assert IsClosure(map[], map[]) by { NothingIsClosed(); }
    WithNodeIsClosure(map[], map[], "u");
    assert WithNode(map[], "u") == map[("u", "u") := 0];
    forall t ensures IsClosure(TableOf(TWO_TENANTS, t), OrgOf(TWO_TENANTS, t)) {
      NoEdges(t);
      OneRow(t);
    }
  }

  lemma {:induction false} NothingIsClosed()
    ensures IsClosure(map[], map[])
  {
  }

  lemma {:induction false} HolderGains()
    ensures NamesOf(TWO_TENANTS, "b", "u") == {}
    ensures "x" in NamesOf(Applied(TWO_TENANTS, GRANT), "b", "u")
  {
    GrantPermissionEffect(TWO_TENANTS, "a", "r", "p", "b", "u");
  }

  lemma {:induction false} PolicyApplies()
    ensures Applicable(TWO_TENANTS, "b", "x", "doc") == {READ_DOCS}
    ensures Applicable(Applied(TWO_TENANTS, GRANT), "b", "x", "doc") == {READ_DOCS}
  {
    assert Applies(READ_DOCS, "b", "x", "doc") && ("b", "read-docs") in TWO_TENANTS.policies;
  }

  /** What the policy says of a subject with and without the permission. */
  lemma {:induction false} ReadVerdict(f: Facts)
    ensures Combined({READ_DOCS}, f) == if f.hasPermission then Allowed else DefaultDeny
  {
  }

  /** "a" grants its permission to a role of "b".  The code accepts, a request of "b"
      goes from DENY to ALLOW, and the entry that would show it is not invalidated. */
  lemma {:induction false} DecisionChanges()
    ensures Inv(TWO_TENANTS) && Accepted(TWO_TENANTS, GRANT)
    ensures Decide(TWO_TENANTS, READ).effect == Deny
    ensures Decide(Applied(TWO_TENANTS, GRANT), READ).effect == Allow
    ensures !Invalidates(GRANT, PermissionsOf(READ.tenantId, READ.subjectUserId))
    ensures !Contained(TWO_TENANTS, GRANT)
  {
    hide Inv, Combined, MatchedSet, NamesOf, Applicable;
    TwoTenantsConsistent();
    HolderGains();
    PolicyApplies();
    ReadVerdict(FactsOf(TWO_TENANTS, READ, ResourceFacts(None, Public)));
    ReadVerdict(FactsOf(Applied(TWO_TENANTS, GRANT), READ, ResourceFacts(None, Public)));
    assert ("b", "u", "r") in TWO_TENANTS.userRoles;
  }
}
