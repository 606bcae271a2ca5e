/** The relational schema as a value, with the derived views the services are
    specified by. */
module Tables {
  import opened Domain
  import opened Forest
  import opened ClosureTable

  datatype User = User(
    tenantId: Id,
    email: string,
    managerId: Option<Id>,
    departmentId: Option<string>,
    location: Option<string>,
    clearance: Clearance,
    status: EmploymentStatus)

  datatype Role = Role(tenantId: Id, name: string)

  datatype Permission = Permission(tenantId: Id, name: string)

  /** A policy's condition document; an absent clause is `None`. */
  datatype Condition = Condition(
    relationships: Option<seq<Relationship>>,
    departments: Option<seq<string>>,
    locations: Option<seq<string>>,
    employmentStatuses: Option<seq<EmploymentStatus>>,
    maxSensitivity: Option<Clearance>,
    minClearance: Option<Clearance>,
    requirePermission: Option<bool>)

  datatype Policy = Policy(
    tenantId: Id,
    name: string,
    effect: Effect,
    action: string,
    resourceType: string,
    conditions: Condition,
    priority: int,
    enabled: bool)

  datatype Resource = Resource(ownerUserId: Option<string>, sensitivity: Clearance)

  /** (tenant, ancestor, descendant) -> depth */
  type Closure = map<(Id, Id, Id), nat>

  datatype Store = Store(
    tenants: map<Id, TenantStatus>,
    users: map<Id, User>,
    roles: map<Id, Role>,
    permissions: map<Id, Permission>,
    userRoles: set<(Id, Id, Id)>,         // (tenant, user, role)
    rolePermissions: set<(Id, Id, Id)>,   // (tenant, role, permission)
    policies: map<(Id, string), Policy>,  // (tenant, name)
    resources: map<(Id, string, string), Resource>, // (tenant, type, external id)
    closure: Closure)

  // ---------------------------------------------------------------------------
  // The organization of one tenant
  // ---------------------------------------------------------------------------

  function SlicePairs(c: Closure, t: Id): set<(Id, Id)> {
    set k | k in c && k.0 == t :: (k.1, k.2)
  }

  /** The rows of tenant `t`. */
  function Slice(c: Closure, t: Id): Table {
    map p | p in SlicePairs(c, t) :: c[(t, p.0, p.1)]
  }

  lemma {:induction false} SliceRow(c: Closure, t: Id, a: Id, d: Id)
    ensures (a, d) in Slice(c, t) <==> (t, a, d) in c
    ensures (t, a, d) in c ==> Slice(c, t)[(a, d)] == c[(t, a, d)]
  {
  }

  /** The closure table with the rows of tenant `t` replaced. */
  function WithSlice(c: Closure, t: Id, rows: Table): Closure {
    map k | k in (set k | k in c && k.0 != t) + (set p | p in rows :: (t, p.0, p.1)) ::
      if k.0 == t then rows[(k.1, k.2)] else c[k]
  }

  lemma {:induction false} WithSliceRow(c: Closure, t: Id, rows: Table, s: Id, a: Id, d: Id)
    ensures (s, a, d) in WithSlice(c, t, rows) <==> if s == t then (a, d) in rows else (s, a, d) in c
    ensures (s, a, d) in WithSlice(c, t, rows) ==>
      WithSlice(c, t, rows)[(s, a, d)] == if s == t then rows[(a, d)] else c[(s, a, d)]
  {
  }

  lemma {:induction false} SliceOfWithSlice(c: Closure, t: Id, rows: Table, s: Id)
    ensures Slice(WithSlice(c, t, rows), s) == if s == t then rows else Slice(c, s)
  {
    var left := Slice(WithSlice(c, t, rows), s);
    var right := if s == t then rows else Slice(c, s);
    forall p ensures p in left <==> p in right
             ensures p in left ==> left[p] == right[p]
    {
      assert p == (p.0, p.1);
      SliceRow(WithSlice(c, t, rows), s, p.0, p.1);
      SliceRow(c, s, p.0, p.1);
      WithSliceRow(c, t, rows, s, p.0, p.1);
    }
    assert left.Keys == right.Keys;
  }

  /** A closure table is determined by one tenant's rows and everybody else's. */
  lemma {:induction false} IsWithSlice(c': Closure, c: Closure, t: Id, rows: Table)
    requires forall s, a, d :: (s, a, d) in c' <==> if s == t then (a, d) in rows else (s, a, d) in c
    requires forall s, a, d :: (s, a, d) in c' ==>
               c'[(s, a, d)] == if s == t then rows[(a, d)] else c[(s, a, d)]
    ensures c' == WithSlice(c, t, rows)
  {
    forall k ensures k in c' <==> k in WithSlice(c, t, rows)
             ensures k in c' ==> c'[k] == WithSlice(c, t, rows)[k]
    {
      assert k == (k.0, k.1, k.2);
      WithSliceRow(c, t, rows, k.0, k.1, k.2);
    }
    assert c'.Keys == WithSlice(c, t, rows).Keys;
  }

  /** The manager edges of tenant `t`, as stored on its user rows. */
  function EdgesOf(users: map<Id, User>, t: Id): Edges {
    map u | u in users && users[u].tenantId == t && users[u].managerId.Some? ::
      users[u].managerId.value
  }

  /** The scoped `updateMany`: it writes nothing when `u` is not a user of `t`. */
  function SetManager(users: map<Id, User>, t: Id, u: Id, x: Id): map<Id, User> {
    if u in users && users[u].tenantId == t then users[u := users[u].(managerId := Some(x))]
    else users
  }

  function TableOf(s: Store, t: Id): Table {
    Slice(s.closure, t)
  }

  function OrgOf(s: Store, t: Id): Edges {
    EdgesOf(s.users, t)
  }

  // ---------------------------------------------------------------------------
  // Consistency
  // ---------------------------------------------------------------------------

  /** Foreign keys of the closure table, and ids that are never empty. */
  ghost predicate KeysValid(s: Store) {
    && "" !in s.users
    && (forall k :: k in s.closure ==> k.1 in s.users && k.2 in s.users)
  }

  /** Every tenant's slice is the closure of that tenant's manager edges. */
  ghost predicate OrgConsistent(s: Store) {
    && KeysValid(s)
    && (forall t :: IsClosure(TableOf(s, t), OrgOf(s, t)))
  }

  // ---------------------------------------------------------------------------
  // Users, permissions and policies of a tenant
  // ---------------------------------------------------------------------------

  // Lookups by id inside a tenant: a row of another tenant is not found.

  predicate InTenant(s: Store, t: Id, u: Id) {
    u in s.users && s.users[u].tenantId == t
  }

  predicate RoleOf(s: Store, t: Id, r: Id) {
    r in s.roles && s.roles[r].tenantId == t
  }

  predicate PermissionOf(s: Store, t: Id, p: Id) {
    p in s.permissions && s.permissions[p].tenantId == t
  }

  /** The unique index on (tenant, e-mail). */
  predicate EmailTaken(s: Store, t: Id, email: string) {
    exists u | u in s.users :: s.users[u].tenantId == t && s.users[u].email == email
  }

  /** The unique indexes on (tenant, name) of roles and permissions. */
  predicate RoleNameTaken(s: Store, t: Id, name: string) {
    exists r | r in s.roles :: s.roles[r] == Role(t, name)
  }

  predicate PermissionNameTaken(s: Store, t: Id, name: string) {
    exists p | p in s.permissions :: s.permissions[p] == Permission(t, name)
  }

  /** The names granted to a role, whatever tenants its rows and permissions name. */
  function RoleNames(s: Store, r: Id): set<string> {
    set rp | rp in s.rolePermissions && rp.1 == r && rp.2 in s.permissions :: s.permissions[rp.2].name
  }

  /** The names granted to a user through roles.  The joins follow role and
      permission ids only, as the query does. */
  function NamesOf(s: Store, t: Id, u: Id): set<string> {
    set ur, rp | ur in s.userRoles && rp in s.rolePermissions
                 && ur.0 == t && ur.1 == u && rp.1 == ur.2 && rp.2 in s.permissions ::
      s.permissions[rp.2].name
  }

  /** The enabled policies of a tenant for an action on a resource type. */
  function Applicable(s: Store, t: Id, action: string, resourceType: string): set<Policy> {
    set k | k in s.policies && Applies(s.policies[k], t, action, resourceType) :: s.policies[k]
  }

  function PriorityOf(p: Policy): int { p.priority }

  predicate Applies(p: Policy, t: Id, action: string, resourceType: string) {
    && p.tenantId == t
    && p.enabled
    && p.action in [action, "*"]
    && p.resourceType in [resourceType, "*"]
  }
}
