/** Policies: the cached query for the ones that apply, and their creation. */
module PolicyServices {
  import opened Domain
  import opened CacheKeys
  import opened CacheService
  import opened CacheCoherence
  import opened Tables
  import opened Query
  import opened Writes
  import opened Database

  datatype CreatePolicyInput = CreatePolicyInput(
    name: string,
    effect: Effect,
    action: string,
    resourceType: Option<string>,
    priority: Option<int>,
    enabled: Option<bool>,
    conditions: Condition)

  function OrElse<T>(o: Option<T>, default: T): T {
    match o
    case Some(v) => v
    case None => default
  }

  /** The row a create request describes, defaults filled in. */
  function PolicyFrom(t: Id, input: CreatePolicyInput): Policy {
    Policy(t, input.name, input.effect, input.action, OrElse(input.resourceType, "*"),
           input.conditions, OrElse(input.priority, 100), OrElse(input.enabled, true))
  }

  /** The row says what the input says, and has a default where the input is silent:
      every resource type, priority 100, enabled. */
  ghost predicate Describes(input: CreatePolicyInput, t: Id, p: Policy) {
    && p.tenantId == t && p.name == input.name && p.effect == input.effect
    && p.action == input.action && p.conditions == input.conditions
    && (if input.resourceType == None then p.resourceType == "*" else Some(p.resourceType) == input.resourceType)
    && (if input.priority == None then p.priority == 100 else Some(p.priority) == input.priority)
    && (if input.enabled == None then p.enabled == true else Some(p.enabled) == input.enabled)
  }

  /** The query's conditions, one by one. */
  ghost predicate Eligible(p: Policy, t: Id, action: string, resourceType: string) {
    && p.tenantId == t && p.enabled == true
    && (p.action == action || p.action == "*")
    && (p.resourceType == resourceType || p.resourceType == "*")
  }

  lemma {:induction false} FoundIsApplicable(s: Store, t: Id, action: string, resourceType: string, found: set<Policy>)
    requires forall p :: p in found <==>
      exists k :: k in s.policies && s.policies[k] == p && Eligible(p, t, action, resourceType)
    ensures found == Applicable(s, t, action, resourceType)
  {
  }

  lemma {:induction false} ApplicableIsEligible(s: Store, t: Id, action: string, resourceType: string)
    ensures forall p :: p in Applicable(s, t, action, resourceType) <==>
      exists k :: k in s.policies && s.policies[k] == p && Eligible(p, t, action, resourceType)
  {
  }

  class PoliciesRepository {
    const db: Database
    const cache: CacheService<Cached>

    constructor (db: Database, cache: CacheService<Cached>)
      ensures this.db == db && this.cache == cache
    {
      this.db := db;
      this.cache := cache;
    }

    method LoadApplicable(tenantId: Id, action: string, resourceType: string) returns (policies: seq<Policy>)
      ensures Lists(policies, Applicable(db.Snapshot(), tenantId, action, resourceType))
      ensures SortedBy(policies, PriorityOf)
    {
      var found := set k | k in db.policies
        && db.policies[k].tenantId == tenantId && db.policies[k].enabled
        && (db.policies[k].action == action || db.policies[k].action == "*")
        && (db.policies[k].resourceType == resourceType || db.policies[k].resourceType == "*") :: db.policies[k];
      FoundIsApplicable(db.Snapshot(), tenantId, action, resourceType, found);
      policies := EnumerateBy(found, PriorityOf);
    }

    /** The cache's get-or-load around that query: whatever the cache held, the
        policies are the database's, and the cache stays true for every key in use. */
    method FindApplicable(tenantId: Id, action: string, resourceType: string, readAt: int, setAt: int,
                          ghost ks: set<Key>)
      returns (policies: seq<Policy>)
      requires Coherent(cache.store, db.Snapshot(), ks) && Apart(ks)
      requires PoliciesFor(tenantId, action, resourceType) in ks
      modifies cache
      ensures Lists(policies, Applicable(db.Snapshot(), tenantId, action, resourceType))
      ensures SortedBy(policies, PriorityOf)
      ensures Coherent(cache.store, db.Snapshot(), ks)
      ensures forall p :: p in policies <==>
        exists k :: k in db.policies && db.policies[k] == p && Eligible(p, tenantId, action, resourceType)
      ensures forall i, j :: 0 <= i < j < |policies| ==> policies[i].priority <= policies[j].priority
      ensures GotOrLoaded(old(cache.store), PoliciesKey(tenantId, action, resourceType), readAt,
                          CachedPolicies(policies), setAt, cache.store)
    {
      ghost var s := db.Snapshot();
      ghost var k := PoliciesFor(tenantId, action, resourceType);
      var key := PoliciesKey(tenantId, action, resourceType);
      assert key == Render(k);
      ghost var before := cache.store;
      ApplicableIsEligible(s, tenantId, action, resourceType);
      var cached := cache.Get(key, readAt);
      CoherentShrinks(before, cache.store, s, ks);
      if cached.Some? {
        assert States(cached.value, Truth(s, k));
        return cached.value.policies;
      }
      policies := LoadApplicable(tenantId, action, resourceType);
      CoherentFill(cache.store, s, ks, k, CachedPolicies(policies), setAt + TTL_MS);
      cache.Set(key, CachedPolicies(policies), TTL_MS, setAt);
    }
  }

  class PoliciesService {
    const db: Database
    const cache: CacheService<Cached>

    constructor (db: Database, cache: CacheService<Cached>)
      ensures this.db == db && this.cache == cache
    {
      this.db := db;
      this.cache := cache;
    }

    /** Insert, then drop the tenant's policy entries.  A second policy of the same
        name violates the unique index and is refused. */
    method Create(tenantId: Id, input: CreatePolicyInput) returns (created: bool)
      modifies db`policies, cache
      ensures var w := AddPolicy(PolicyFrom(tenantId, input));
        && db.Snapshot() == Applied(old(db.Snapshot()), w)
        && (created <==> Accepted(old(db.Snapshot()), w))
        && (created <==> (tenantId, input.name) !in old(db.policies))
        && (created ==> (tenantId, input.name) in db.policies)
        && (created ==> Describes(input, tenantId, db.policies[(tenantId, input.name)]))
        && cache.store == if created then Dropped(old(cache.store), w) else old(cache.store)
      ensures forall k :: k in cache.store <==>
        k in old(cache.store) && !(created && PoliciesPrefix(tenantId) <= k)
    {
      var policy := PolicyFrom(tenantId, input);
      if (tenantId, policy.name) in db.policies {
        return false;
      }
      db.policies := db.policies[(tenantId, policy.name) := policy];
      cache.DelByPrefix(PoliciesPrefix(tenantId));
      return true;
    }
  }
}
