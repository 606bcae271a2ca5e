/** The access decision as a function of the database alone: no cache, no closure
    table, no evaluation order.  The pipeline is proved to compute this. */
module AccessSpec {
  import opened Domain
  import opened Forest
  import opened Tables
  import opened Decisions
  import opened PolicyEngine
  import opened Query
  import opened Writes

  datatype ResourceFacts = ResourceFacts(ownerUserId: Option<string>, sensitivity: Clearance)

  /** An explicit resource row first; an employee id stands for the user itself. */
  function Resolve(s: Store, t: Id, resourceType: string, externalId: string): Option<ResourceFacts> {
    if (t, resourceType, externalId) in s.resources then
      var r := s.resources[(t, resourceType, externalId)];
      Some(ResourceFacts(r.ownerUserId, r.sensitivity))
    else if resourceType == "employee" && InTenant(s, t, externalId) then
      Some(ResourceFacts(Some(externalId), Confidential))
    else None
  }

  /** Exact name, the global wildcard, or the wildcard of the resource type. */
  predicate Grants(names: set<string>, action: string, resourceType: string) {
    "*" in names || action in names || resourceType + ".*" in names
  }

  /** The three ways to hold a permission, name by name. */
  lemma {:induction false} GrantsExactly(names: set<string>, action: string, resourceType: string)
    ensures Grants(names, action, resourceType) <==>
      exists name :: name in names && (name == "*" || name == action || name == resourceType + ".*")
  {
  }

  datatype Validation = Invalid(reason: Reason) | Valid(resource: ResourceFacts)

  function Validate(s: Store, q: Request): Validation {
    if q.tenantId !in s.tenants || s.tenants[q.tenantId] != TenantActive then Invalid(TenantInvalid)
    else if !InTenant(s, q.tenantId, q.subjectUserId) then Invalid(SubjectMissing)
    else if s.users[q.subjectUserId].status != Active then
      Invalid(SubjectNotActive(s.users[q.subjectUserId].status))
    else match Resolve(s, q.tenantId, q.resourceType, q.resourceId)
      case None => Invalid(ResourceMissing)
      case Some(r) => Valid(r)
  }

  /** Which validation turns a request down, in the order of the stages. */
  lemma {:induction false} RefusedFor(s: Store, q: Request)
    ensures var t, u := q.tenantId, q.subjectUserId;
      var tenantOk := t in s.tenants && s.tenants[t] == TenantActive;
      var found := (t, q.resourceType, q.resourceId) in s.resources
                   || (q.resourceType == "employee" && InTenant(s, t, q.resourceId));
      && (Validate(s, q) == Invalid(TenantInvalid) <==> !tenantOk)
      && (Validate(s, q) == Invalid(SubjectMissing) <==> tenantOk && !InTenant(s, t, u))
      && (forall status :: Validate(s, q) == Invalid(SubjectNotActive(status)) <==>
            tenantOk && InTenant(s, t, u) && s.users[u].status == status && status != Active)
      && (Validate(s, q) == Invalid(ResourceMissing) <==>
            tenantOk && InTenant(s, t, u) && s.users[u].status == Active && !found)
      && (Validate(s, q).Valid? <==>
            tenantOk && InTenant(s, t, u) && s.users[u].status == Active && found)
  {
  }

  function RelationshipTo(s: Store, q: Request, r: ResourceFacts): Relationship {
    if Truthy(r.ownerUserId) then
      RelationshipOf(OrgOf(s, q.tenantId), q.subjectUserId, r.ownerUserId.value)
    else Unrelated
  }

  function HasPermission(s: Store, q: Request): bool {
    Grants(NamesOf(s, q.tenantId, q.subjectUserId), q.action, q.resourceType)
  }

  /** The role carries the action's name, the global wildcard or the wildcard of the
      resource type. */
  ghost predicate Carries(s: Store, r: Id, q: Request) {
    exists name :: name in RoleNames(s, r) && (name == "*" || name == q.action || name == q.resourceType + ".*")
  }

  /** A permission is held exactly through a role that carries one of the three; so a role
      with "*" answers for every request of the tenant, and one with the wildcard of a
      type for every action on it. */
  lemma {:induction false} PermissionByRole(s: Store, q: Request)
    ensures HasPermission(s, q) <==>
      exists r :: (q.tenantId, q.subjectUserId, r) in s.userRoles && Carries(s, r, q)
  {
    hide NamesOf, RoleNames, Grants;
    var t, u := q.tenantId, q.subjectUserId;
    GrantsExactly(NamesOf(s, t, u), q.action, q.resourceType);
    if HasPermission(s, q) {
      var name :| name in NamesOf(s, t, u) && (name == "*" || name == q.action || name == q.resourceType + ".*");
      NamesByRole(s, t, u, name);
      var r :| (t, u, r) in s.userRoles && name in RoleNames(s, r);
      assert Carries(s, r, q);
    }
    if r :| (t, u, r) in s.userRoles && Carries(s, r, q) {
      var name :| name in RoleNames(s, r) && (name == "*" || name == q.action || name == q.resourceType + ".*");
      NamesByRole(s, t, u, name);
    }
  }

  function FactsOf(s: Store, q: Request, r: ResourceFacts): Facts
    requires q.subjectUserId in s.users
  {
    var u := s.users[q.subjectUserId];
    Facts(u.departmentId, u.location, u.clearance, u.status, r.sensitivity,
          RelationshipTo(s, q, r), HasPermission(s, q))
  }

  function ApplicableTo(s: Store, q: Request): set<Policy> {
    Applicable(s, q.tenantId, q.action, q.resourceType)
  }

  function MatchedSet(ps: set<Policy>, f: Facts): set<string> {
    set p | p in ps && Matches(p, f) :: p.name
  }

  datatype Answer = Answer(effect: Effect, matched: set<string>)

  function Decide(s: Store, q: Request): Answer {
    match Validate(s, q)
    case Invalid(_) => Answer(Deny, {})
    case Valid(r) =>
      var f := FactsOf(s, q, r);
      var ps := ApplicableTo(s, q);
      Answer(EffectOf(Combined(ps, f)), MatchedSet(ps, f))
  }

  /** The unique index on (tenant, name). */
  ghost predicate PoliciesKeyed(s: Store) {
    forall k :: k in s.policies ==> s.policies[k].tenantId == k.0 && s.policies[k].name == k.1
  }

  ghost predicate NamesDistinct(ps: set<Policy>) {
    forall p, q :: p in ps && q in ps && p.name == q.name ==> p == q
  }

  lemma {:induction false} ApplicableDistinct(s: Store, q: Request)
    requires PoliciesKeyed(s)
    ensures NamesDistinct(ApplicableTo(s, q))
  {
  }

  lemma {:induction false} MatchedNamesOnce(ps: seq<Policy>, f: Facts, e: Effect)
    requires NoDuplicates(ps) && NamesDistinct(PolicySet(ps))
    ensures NoDuplicates(MatchedNames(ps, f, e))
    decreases |ps|
  {
    hide MismatchOf;
    if ps != [] {
      var n := |ps| - 1;
      var front, last := ps[..n], ps[n];
      assert ps == front + [last];
      assert PolicySet(front) <= PolicySet(ps) && last in PolicySet(ps);
      assert forall p :: p in front ==> p in PolicySet(front) && p != last;
      MatchedNamesOnce(front, f, e);
      MatchedNameIs(front, f, e, last.name);
    }
  }

  /** What the evaluation loop reports is each matching name, once. */
  lemma {:induction false} ReportedNames(ps: seq<Policy>, f: Facts)
    requires NoDuplicates(ps) && NamesDistinct(PolicySet(ps))
    ensures Lists(MatchedNames(ps, f, Deny) + MatchedNames(ps, f, Allow), MatchedSet(PolicySet(ps), f))
  {
    hide MismatchOf, MatchedNames;
    var d, a := MatchedNames(ps, f, Deny), MatchedNames(ps, f, Allow);
    MatchedNamesOnce(ps, f, Deny);
    MatchedNamesOnce(ps, f, Allow);
    assert forall p :: p in ps <==> p in PolicySet(ps);
    forall name ensures name in d + a <==> name in MatchedSet(PolicySet(ps), f)
                ensures name in d ==> name !in a
    {
      MatchedNameIs(ps, f, Deny, name);
      MatchedNameIs(ps, f, Allow, name);
      if p :| p in ps && Matches(p, f) && p.name == name {
        assert p.effect == Deny || p.effect == Allow;
      }
    }
    ConcatNoDuplicates(d, a);
  }

  lemma {:induction false} ConcatNoDuplicates(d: seq<string>, a: seq<string>)
    requires NoDuplicates(d) && NoDuplicates(a)
    requires forall name :: name in d ==> name !in a
    ensures NoDuplicates(d + a)
  {
    var c := d + a;
    forall i, j | 0 <= i < j < |c| ensures c[i] != c[j] {
      if i < |d| <= j { assert c[i] in d && c[j] in a; }
    }
  }
}
