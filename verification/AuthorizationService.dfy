/** The decision pipeline: three validation stages, the three evaluators, the
    policies, and the audit row. */
module AuthorizationService {
  import opened Domain
  import opened Forest
  import opened Tables
  import opened Decisions
  import opened PolicyEngine
  import opened AccessSpec
  import opened CacheService
  import opened CacheCoherence
  import opened Query
  import opened Writes
  import opened Database
  import opened HierarchyService
  import opened PermissionServices
  import opened PolicyServices

  /** When the four cache steps of one check happen. */
  datatype Times = Times(namesRead: int, namesSet: int, policiesRead: int, policiesSet: int)

  /** The cache keys one check reads and fills. */
  function KeysOfCheck(q: Request): set<Key> {
    {PermissionsOf(q.tenantId, q.subjectUserId), PoliciesFor(q.tenantId, q.action, q.resourceType)}
  }

  /** What the services keep true between calls. */
  ghost predicate Consistent(s: Store) {
    OrgConsistent(s) && PoliciesKeyed(s)
  }

  // ---------------------------------------------------------------------------
  // Reasons and traces
  // ---------------------------------------------------------------------------

  /** The trace of a request that validation turns down. */
  function DeniedTrace(reason: Reason): seq<TraceEvent> {
    (match reason
     case TenantInvalid => []
     case ResourceMissing => [TenantValidated, SubjectValidated]
     case _ => [TenantValidated])
    + [DeniedBecause(reason)]
  }

  /** The trace of a validated request, up to the policies. */
  function FactsTrace(f: Facts, ownerUserId: Option<string>): seq<TraceEvent> {
    [TenantValidated, SubjectValidated, ResourceValidated]
    + [RbacChecked(f.hasPermission)] + [AbacFactsNoted]
    + [if Truthy(ownerUserId) then RelationshipResolved(f.relationship) else NoOwner]
  }

  /** Reason, names and trace are those of the applicable policies in order of
      priority. */
  ghost predicate FromPolicies(s: Store, q: Request, f: Facts, d: PolicyDecision,
                               before: seq<TraceEvent>, trace: seq<TraceEvent>) {
    exists ps :: Lists(ps, ApplicableTo(s, q)) && SortedBy(ps, PriorityOf)
      && d.reason == ReasonOf(ps, f)
      && d.matched == MatchedNames(ps, f, Deny) + MatchedNames(ps, f, Allow)
      && trace == before + [PoliciesLoaded(|ps|)] + PolicyTrace(ps, f)
  }

  ghost predicate Explained(s: Store, q: Request, d: Decision) {
    match Validate(s, q)
    case Invalid(reason) => d.reason == reason && d.matchedPolicies == [] && d.trace == DeniedTrace(reason)
    case Valid(r) =>
      FromPolicies(s, q, FactsOf(s, q, r), PolicyDecision(d.effect, d.reason, d.matchedPolicies),
                   FactsTrace(FactsOf(s, q, r), r.ownerUserId), d.trace)
  }

  class AuthorizationService {
    const db: Database
    const cache: CacheService<Cached>
    const hierarchy: HierarchyService
    const permissions: PermissionsRepository
    const policies: PoliciesRepository
    var nextDecisionId: nat

    constructor (db: Database, cache: CacheService<Cached>)
      ensures this.db == db && this.cache == cache && Wired()
      ensures nextDecisionId == 0
    {
      this.db := db;
      this.cache := cache;
      var h := new HierarchyService(db);
      hierarchy := h;
      var p := new PermissionsRepository(db, cache);
      permissions := p;
      var q := new PoliciesRepository(db, cache);
      policies := q;
      nextDecisionId := 0;
    }

    predicate Wired() {
      && hierarchy.db == db
      && permissions.db == db && permissions.cache == cache
      && policies.db == db && policies.cache == cache
    }

    /** Appends the audit row and hands the decision back. */
    method Finalize(q: Request, decisionId: nat, trace: seq<TraceEvent>,
                    effect: Effect, reason: Reason, matchedPolicies: seq<string>)
      returns (decision: Decision)
      modifies db`audit
      ensures decision == Decision(decisionId, effect == Allow, effect, reason, matchedPolicies, trace)
      ensures db.audit == old(db.audit) + [AuditRow(q, decisionId, effect, reason, matchedPolicies, trace)]
    {
      db.audit := db.audit + [AuditRow(q, decisionId, effect, reason, matchedPolicies, trace)];
      decision := Decision(decisionId, effect == Allow, effect, reason, matchedPolicies, trace);
    }

    /** The short cut of the validation stages. */
    method DenyEarly(q: Request, decisionId: nat, trace: seq<TraceEvent>, reason: Reason)
      returns (decision: Decision)
      modifies db`audit
      ensures decision == Decision(decisionId, false, Deny, reason, [], trace + [DeniedBecause(reason)])
      ensures db.audit ==
        old(db.audit) + [AuditRow(q, decisionId, Deny, reason, [], trace + [DeniedBecause(reason)])]
    {
      decision := Finalize(q, decisionId, trace + [DeniedBecause(reason)], Deny, reason, []);
    }

    /** An explicit row speaks for itself, whatever else the id names; an employee of
        the tenant without one is its own owner, at CONFIDENTIAL; nothing else is found. */
    method ResolveResource(tenantId: Id, resourceType: string, externalId: string)
      returns (resource: Option<ResourceFacts>)
      ensures resource.None? <==>
        (tenantId, resourceType, externalId) !in db.resources
        && (resourceType != "employee" || !InTenant(db.Snapshot(), tenantId, externalId))
      ensures (tenantId, resourceType, externalId) in db.resources ==>
        var row := db.resources[(tenantId, resourceType, externalId)];
        resource == Some(ResourceFacts(row.ownerUserId, row.sensitivity))
      ensures resource.Some? && (tenantId, resourceType, externalId) !in db.resources ==>
        && resource.value.ownerUserId == Some(externalId)
        && resource.value.sensitivity == Confidential
        && InTenant(db.Snapshot(), tenantId, externalId)
    {
      if (tenantId, resourceType, externalId) in db.resources {
        var row := db.resources[(tenantId, resourceType, externalId)];
        return Some(ResourceFacts(row.ownerUserId, row.sensitivity));
      }
      if resourceType == "employee" {
        if externalId in db.users && db.users[externalId].tenantId == tenantId {
          return Some(ResourceFacts(Some(externalId), Confidential));
        }
      }
      return None;
    }

    /** RBAC: does any name the subject holds grant the action? */
    method EvaluateRbac(names: seq<string>, q: Request, trace: seq<TraceEvent>)
      returns (granted: bool, trace': seq<TraceEvent>)
      ensures granted <==>
        exists name :: name in names && (name == "*" || name == q.action || name == q.resourceType + ".*")
      ensures forall held :: Lists(names, held) ==> granted == Grants(held, q.action, q.resourceType)
      ensures trace' == trace + [RbacChecked(granted)]
    {
      granted := "*" in names || q.action in names || (q.resourceType + ".*") in names;
      trace' := trace + [RbacChecked(granted)];
    }

    /** ReBAC: the subject's relationship to the owner, by closure-table lookup. */
    method ResolveRelationship(q: Request, ownerUserId: Option<string>, trace: seq<TraceEvent>)
      returns (relationship: Relationship, trace': seq<TraceEvent>)
      requires OrgConsistent(db.Snapshot()) && hierarchy.db == db
      ensures relationship == if Truthy(ownerUserId)
        then RelationshipOf(OrgOf(db.Snapshot(), q.tenantId), q.subjectUserId, ownerUserId.value)
        else Unrelated
      ensures trace' == trace + [if Truthy(ownerUserId) then RelationshipResolved(relationship) else NoOwner]
    {
      if !Truthy(ownerUserId) {
        return Unrelated, trace + [NoOwner];
      }
      relationship := hierarchy.GetRelationship(q.tenantId, q.subjectUserId, ownerUserId.value);
      trace' := trace + [RelationshipResolved(relationship)];
    }

    /** Stages 4 to 6: what the policies will be matched against. */
    method GatherFacts(q: Request, resource: ResourceFacts, times: Times, trace: seq<TraceEvent>,
                       ghost ks: set<Key>)
      returns (facts: Facts, trace': seq<TraceEvent>)
      requires Wired() && Consistent(db.Snapshot()) && Coherent(cache.store, db.Snapshot(), ks)
      requires Apart(ks) && KeysOfCheck(q) <= ks && q.subjectUserId in db.users
      modifies cache
      ensures Coherent(cache.store, db.Snapshot(), ks)
      ensures facts == FactsOf(db.Snapshot(), q, resource)
      ensures var u := db.users[q.subjectUserId];
        && facts.departmentId == u.departmentId && facts.location == u.location
        && facts.clearance == u.clearance && facts.status == u.status
        && facts.sensitivity == resource.sensitivity
      ensures trace == [TenantValidated, SubjectValidated, ResourceValidated] ==>
        trace' == FactsTrace(facts, resource.ownerUserId)
    {
      hide Coherent, NamesOf, RelationshipOf, OrgOf, Grants;
      var u := db.users[q.subjectUserId];
      var names := permissions.PermissionNamesForUser(q.tenantId, q.subjectUserId, times.namesRead, times.namesSet, ks);
      var hasPermission, relationship;
      hasPermission, trace' := EvaluateRbac(names, q, trace);
      trace' := trace' + [AbacFactsNoted];
      relationship, trace' := ResolveRelationship(q, resource.ownerUserId, trace');
      facts := Facts(u.departmentId, u.location, u.clearance, u.status, resource.sensitivity,
                     relationship, hasPermission);
    }

    /** Stage 7: the policies that apply, combined. */
    method EvaluatePolicies(q: Request, facts: Facts, times: Times, trace: seq<TraceEvent>,
                            ghost ks: set<Key>)
      returns (decision: PolicyDecision, trace': seq<TraceEvent>)
      requires Wired() && Consistent(db.Snapshot()) && Coherent(cache.store, db.Snapshot(), ks)
      requires Apart(ks) && KeysOfCheck(q) <= ks
      modifies cache
      ensures Coherent(cache.store, db.Snapshot(), ks)
      ensures decision.effect == EffectOf(Combined(ApplicableTo(db.Snapshot(), q), facts))
      ensures Lists(decision.matched, MatchedSet(ApplicableTo(db.Snapshot(), q), facts))
      ensures FromPolicies(db.Snapshot(), q, facts, decision, trace, trace')
    {
      hide Coherent, OrgConsistent, Applicable, Combined, MatchedSet, MatchedNames, ReasonOf, PolicyTrace;
      var applicable := policies.FindApplicable(
        q.tenantId, q.action, q.resourceType, times.policiesRead, times.policiesSet, ks);
      decision, trace' := Evaluate(applicable, facts, trace + [PoliciesLoaded(|applicable|)]);
      assert trace' == trace + [PoliciesLoaded(|applicable|)] + PolicyTrace(applicable, facts);
      ListedPolicies(db.Snapshot(), q, applicable, facts);
    }

    /** Stages 4 to 9, for a request that passed the validations. */
    method DecideValid(q: Request, decisionId: nat, resource: ResourceFacts, times: Times,
                       trace: seq<TraceEvent>, ghost ks: set<Key>)
      returns (decision: Decision)
      requires Wired() && Consistent(db.Snapshot()) && Coherent(cache.store, db.Snapshot(), ks)
      requires Apart(ks) && KeysOfCheck(q) <= ks
      requires Validate(db.Snapshot(), q) == Valid(resource)
      requires trace == [TenantValidated, SubjectValidated, ResourceValidated]
      modifies db`audit, cache
      ensures Coherent(cache.store, db.Snapshot(), ks)
      ensures decision.effect == Decide(db.Snapshot(), q).effect
      ensures Lists(decision.matchedPolicies, Decide(db.Snapshot(), q).matched)
      ensures decision.allowed <==> decision.effect == Allow
      ensures Explained(db.Snapshot(), q, decision)
      ensures db.audit == old(db.audit) + [AuditRow(q, decision.decisionId, decision.effect,
        decision.reason, decision.matchedPolicies, decision.trace)]
      ensures decision.decisionId == decisionId
    {
      hide Consistent, Coherent, Apart, KeysOfCheck;
      hide FactsOf, Combined, MatchedSet, Applicable, FromPolicies, FactsTrace;
      var facts, verdict, trace';
      facts, trace' := GatherFacts(q, resource, times, trace, ks);
      verdict, trace' := EvaluatePolicies(q, facts, times, trace', ks);
      decision := Finalize(q, decisionId, trace', verdict.effect, verdict.reason, verdict.matched);
    }

    /** The whole pipeline.  The caches and the closure table leave no mark on the
        answer: it is the one the database alone determines. */
    method CheckAccess(q: Request, times: Times, ghost ks: set<Key>) returns (decision: Decision)
      requires Wired() && Consistent(db.Snapshot()) && Coherent(cache.store, db.Snapshot(), ks)
      requires Apart(ks) && KeysOfCheck(q) <= ks
      modifies this`nextDecisionId, db`audit, cache
      ensures Coherent(cache.store, db.Snapshot(), ks)
      ensures decision.effect == Decide(db.Snapshot(), q).effect
      ensures Lists(decision.matchedPolicies, Decide(db.Snapshot(), q).matched)
      ensures decision.allowed <==> decision.effect == Allow
      ensures Explained(db.Snapshot(), q, decision)
      ensures db.audit == old(db.audit) + [AuditRow(q, decision.decisionId, decision.effect,
        decision.reason, decision.matchedPolicies, decision.trace)]
      ensures decision.decisionId == old(nextDecisionId) && nextDecisionId == old(nextDecisionId) + 1
    {
      hide Consistent, Coherent, Apart, KeysOfCheck;
      hide FactsOf, Combined, MatchedSet, Applicable, FromPolicies, FactsTrace;
      var decisionId := nextDecisionId;
      nextDecisionId := nextDecisionId + 1;
      var trace: seq<TraceEvent> := [];

      // 1. Tenant.
      if q.tenantId !in db.tenants || db.tenants[q.tenantId] != TenantActive {
        decision := DenyEarly(q, decisionId, trace, TenantInvalid);
        return;
      }
      trace := trace + [TenantValidated];

      // 2. Subject.
      if !(q.subjectUserId in db.users && db.users[q.subjectUserId].tenantId == q.tenantId) {
        decision := DenyEarly(q, decisionId, trace, SubjectMissing);
        return;
      }
      var status := db.users[q.subjectUserId].status;
      if status != Active {
        decision := DenyEarly(q, decisionId, trace, SubjectNotActive(status));
        return;
      }
      trace := trace + [SubjectValidated];

      // 3. Resource.
      var resource := ResolveResource(q.tenantId, q.resourceType, q.resourceId);
      if resource.None? {
        decision := DenyEarly(q, decisionId, trace, ResourceMissing);
        return;
      }
      trace := trace + [ResourceValidated];

      // 4 to 9. Evaluators, policies, audit and answer.
      decision := DecideValid(q, decisionId, resource.value, times, trace, ks);
    }
  }

  /** The listed policies report what the set of applicable policies determines. */
  lemma {:induction false} ListedPolicies(s: Store, q: Request, ps: seq<Policy>, f: Facts)
    requires PoliciesKeyed(s) && Lists(ps, ApplicableTo(s, q))
    ensures PolicySet(ps) == ApplicableTo(s, q)
    ensures |ps| == |ApplicableTo(s, q)|
    ensures Lists(MatchedNames(ps, f, Deny) + MatchedNames(ps, f, Allow), MatchedSet(ApplicableTo(s, q), f))
  {
    hide MatchedNames, MatchedSet;
    assert PolicySet(ps) == ApplicableTo(s, q);
    ApplicableDistinct(s, q);
    ReportedNames(ps, f);
    ListsMultiset(ps, ApplicableTo(s, q));
    assert |multiset(ps)| == |multiset(ApplicableTo(s, q))|;
  }

  // ---------------------------------------------------------------------------
  // What a trace tells
  // ---------------------------------------------------------------------------

  /** A request that validation turns down leaves the stages it passed and the reason. */
  lemma {:induction false} DeniedTraceTells(s: Store, q: Request, d: Decision)
    requires Explained(s, q, d) && Validate(s, q).Invalid?
    ensures |d.trace| > 0 && d.trace[|d.trace| - 1] == DeniedBecause(d.reason)
    ensures TenantValidated in d.trace <==> d.reason != TenantInvalid
    ensures SubjectValidated in d.trace <==> d.reason == ResourceMissing
    ensures ResourceValidated !in d.trace && |d.trace| <= 3
    ensures d.reason in {TenantInvalid, SubjectMissing, ResourceMissing} || d.reason.SubjectNotActive?
  {
  }

  /** The trace of a validated request: three validations, the permission, the
      relationship, the number of applicable policies, and a line for each of them. */
  lemma {:induction false} DecidedTraceTells(s: Store, q: Request, d: Decision)
    requires PoliciesKeyed(s) && Explained(s, q, d) && Validate(s, q).Valid?
    ensures var r := Validate(s, q).resource;
      && |d.trace| == 7 + |ApplicableTo(s, q)|
      && d.trace[..3] == [TenantValidated, SubjectValidated, ResourceValidated]
      && d.trace[3] == RbacChecked(HasPermission(s, q))
      && d.trace[5] == (if r.ownerUserId == None || r.ownerUserId == Some("") then NoOwner
           else RelationshipResolved(RelationshipOf(OrgOf(s, q.tenantId), q.subjectUserId, r.ownerUserId.value)))
      && d.trace[6] == PoliciesLoaded(|ApplicableTo(s, q)|)
      && (forall p :: p in ApplicableTo(s, q) ==> ToldOf(d.trace[7..], p, FactsOf(s, q, r)))
  {
    hide Applicable, RelationshipOf, HasPermission, ToldOf, Tells, MatchedNames, ReasonOf, PolicyTrace, FactsTrace;
    var r := Validate(s, q).resource;
    var f := FactsOf(s, q, r);
    var ps :| Lists(ps, ApplicableTo(s, q)) && SortedBy(ps, PriorityOf)
      && d.reason == ReasonOf(ps, f)
      && d.matchedPolicies == MatchedNames(ps, f, Deny) + MatchedNames(ps, f, Allow)
      && d.trace == FactsTrace(f, r.ownerUserId) + [PoliciesLoaded(|ps|)] + PolicyTrace(ps, f);
    ListedPolicies(s, q, ps, f);
    FactsTraceTells(s, q, r);
    assert d.trace[7..] == PolicyTrace(ps, f);
    forall p | p in ApplicableTo(s, q) ensures ToldOf(d.trace[7..], p, f) {
      ListedIsTold(ps, p, f);
    }
  }

  /** Some line tells of the policy. */
  ghost predicate ToldOf(lines: seq<TraceEvent>, p: Policy, f: Facts) {
    exists i :: 0 <= i < |lines| && Tells(lines[i], p, f)
  }

  lemma {:induction false} ListedIsTold(ps: seq<Policy>, p: Policy, f: Facts)
    requires p in ps
    ensures ToldOf(PolicyTrace(ps, f), p, f)
  {
    hide Tells, PolicyTrace;
    var i :| 0 <= i < |ps| && ps[i] == p;
    TraceTells(ps, f, i);
  }

  lemma {:induction false} FactsTraceTells(s: Store, q: Request, r: ResourceFacts)
    requires q.subjectUserId in s.users
    ensures var trace := FactsTrace(FactsOf(s, q, r), r.ownerUserId);
      && |trace| == 6
      && trace[..3] == [TenantValidated, SubjectValidated, ResourceValidated]
      && trace[3] == RbacChecked(HasPermission(s, q))
      && trace[5] == (if r.ownerUserId == None || r.ownerUserId == Some("") then NoOwner
           else RelationshipResolved(RelationshipOf(OrgOf(s, q.tenantId), q.subjectUserId, r.ownerUserId.value)))
  {
    hide RelationshipOf, HasPermission;
  }
}
