/** Whole histories of the system, one operation after the other, and what holds in
    every state they reach. */
module SystemRuns {
  import opened Domain
  import opened Forest
  import opened ClosureTable
  import opened ClosureCounts
  import opened Tables
  import opened Decisions
  import opened PolicyEngine
  import opened AccessSpec
  import opened HierarchySpec
  import opened AdminSpec
  import opened Writes
  import opened PolicyServices

  datatype Op =
    | CreateUser(id: Id, user: User, manager: Option<Id>)
    | AddNode(tenant: Id, userId: Id)
    | AssignManager(tenant: Id, userId: Id, managerId: Id)
    | UpdateUser(tenant: Id, userId: Id, changes: UserChanges)
    | CreateRole(tenant: Id, roleId: Id, name: string)
    | CreatePermission(tenant: Id, permissionId: Id, name: string)
    | AssignRole(tenant: Id, userId: Id, roleId: Id)
    | AssignPermission(tenant: Id, roleId: Id, permissionId: Id)
    | CreatePolicy(tenant: Id, input: CreatePolicyInput)
    | CheckAccess(request: Request)

  /** The write an administrative operation stands for. */
  function WriteOf(op: Op): Option<Write> {
    match op
    case AssignRole(t, u, r) => Some(GrantRole(t, u, r))
    case AssignPermission(t, r, p) => Some(GrantPermission(t, r, p))
    case CreatePolicy(t, input) => Some(AddPolicy(PolicyFrom(t, input)))
    case _ => None
  }

  function Step(s: Store, op: Op): Store {
    match op
    case CreateUser(id, user, manager) => CreateUserTo(s, id, user, manager)
    case AddNode(t, u) => AddNodeTo(s, t, u)
    case AssignManager(t, u, x) =>
      if InTenant(s, t, u) && InTenant(s, t, x) then AssignManagerTo(s, t, u, x) else s
    case UpdateUser(t, u, changes) => UpdateUserTo(s, t, u, changes)
    case CreateRole(t, r, name) => CreateRoleTo(s, t, r, name)
    case CreatePermission(t, p, name) => CreatePermissionTo(s, t, p, name)
    case CheckAccess(_) => s
    case _ => Applied(s, WriteOf(op).value)
  }

  /** Generated ids are fresh. */
  predicate Legal(s: Store, op: Op) {
    match op
    case CreateUser(id, _, _) => id !in s.users && id != ""
    case CreateRole(_, id, _) => id !in s.roles
    case CreatePermission(_, id, _) => id !in s.permissions
    case _ => true
  }

  ghost predicate Inv(s: Store) {
    && OrgConsistent(s) && UsersRegistered(s)
    && PoliciesKeyed(s) && RolesScoped(s) && GrantsValid(s)
  }

  function Run(s: Store, ops: seq<Op>): Store
    decreases |ops|
  {
    if ops == [] then s else Run(Step(s, ops[0]), ops[1..])
  }

  predicate LegalRun(s: Store, ops: seq<Op>)
    decreases |ops|
  {
    ops == [] || (Legal(s, ops[0]) && LegalRun(Step(s, ops[0]), ops[1..]))
  }

  /** The answers to the access checks of a history, in order, by the engine without
      a cache. */
  function Answers(s: Store, ops: seq<Op>): seq<Answer>
    decreases |ops|
  {
    if ops == [] then []
    else
      (if ops[0].CheckAccess? then [Decide(s, ops[0].request)] else [])
      + Answers(Step(s, ops[0]), ops[1..])
  }

  // ---------------------------------------------------------------------------
  // What every operation keeps
  // ---------------------------------------------------------------------------

  lemma {:induction false} AppliedKeeps(s: Store, w: Write)
    requires Inv(s)
    ensures Inv(Applied(s, w))
  {
    hide OrgConsistent, UsersRegistered, RolesScoped, GrantsValid;
    AppliedKeepsScope(s, w);
    AppliedKeepsGrants(s, w);
    AppliedOrg(s, w);
  }

  /** What does not touch users or closure rows keeps the organization. */
  lemma {:induction false} SameOrganization(s: Store, s': Store)
    requires OrgConsistent(s) && UsersRegistered(s) && s'.users == s.users && s'.closure == s.closure
    ensures OrgConsistent(s') && UsersRegistered(s')
  {
    hide IsClosure, Slice, EdgesOf;
    assert forall t :: TableOf(s', t) == TableOf(s, t) && OrgOf(s', t) == OrgOf(s, t);
  }

  lemma {:induction false} AppliedOrg(s: Store, w: Write)
    requires OrgConsistent(s) && UsersRegistered(s)
    ensures OrgConsistent(Applied(s, w)) && UsersRegistered(Applied(s, w))
  {
    hide OrgConsistent, UsersRegistered, Accepted;
    SameOrganization(s, Applied(s, w));
  }

  lemma {:induction false} CreateRoleKeeps(s: Store, t: Id, r: Id, name: string)
    requires Inv(s) && r !in s.roles
    ensures Inv(CreateRoleTo(s, t, r, name))
  {
    hide OrgConsistent, UsersRegistered, RolesScoped, GrantsValid, RoleNameTaken;
    CreateRoleKeepsGrants(s, t, r, name);
    SameOrganization(s, CreateRoleTo(s, t, r, name));
  }

  lemma {:induction false} CreatePermissionKeeps(s: Store, t: Id, p: Id, name: string)
    requires Inv(s) && p !in s.permissions
    ensures Inv(CreatePermissionTo(s, t, p, name))
  {
    hide OrgConsistent, UsersRegistered, RolesScoped, GrantsValid, PermissionNameTaken;
    CreatePermissionKeepsGrants(s, t, p, name);
    SameOrganization(s, CreatePermissionTo(s, t, p, name));
  }

  /** Everything a hierarchy operation leaves alone. */
  ghost predicate SameRest(s: Store, s': Store) {
    && s'.tenants == s.tenants && s'.roles == s.roles && s'.permissions == s.permissions
    && s'.userRoles == s.userRoles && s'.rolePermissions == s.rolePermissions
    && s'.policies == s.policies && s'.resources == s.resources
  }

  lemma {:induction false} AddNodeRest(s: Store, t: Id, u: Id)
    ensures SameRest(s, AddNodeTo(s, t, u))
  {
  }

  lemma {:induction false} AssignRest(s: Store, t: Id, u: Id, x: Id)
    ensures SameRest(s, AssignManagerTo(s, t, u, x))
  {
    hide Moved, WithRows, WithEdge, AssignOutcome, SameRest;
    MoveRest(s, t, u, x, Moved(s, t, u, x));
  }

  lemma {:induction false} MoveRest(s: Store, t: Id, u: Id, x: Id, rows: Table)
    ensures SameRest(s, s) && SameRest(s, WithEdge(WithRows(s, t, rows), t, u, x))
  {
  }

  lemma {:induction false} CreateUserRest(s: Store, id: Id, user: User, manager: Option<Id>)
    ensures SameRest(s, CreateUserTo(s, id, user, manager))
  {
    hide AddNodeTo, AssignManagerTo, EmailTaken;
    var added := AddNodeTo(UserAdded(s, id, user), user.tenantId, id);
    AddNodeRest(UserAdded(s, id, user), user.tenantId, id);
    if Truthy(manager) { AssignRest(added, user.tenantId, id, manager.value); }
  }

  lemma {:induction false} UpdateUserRest(s: Store, t: Id, u: Id, changes: UserChanges)
    ensures SameRest(s, UpdateUserTo(s, t, u, changes))
  {
    hide ChangeAccepted;
    if !ChangeAccepted(s, t, u, changes) {
      assert UpdateUserTo(s, t, u, changes) == s;
    }
  }

  lemma {:induction false} RestKeeps(s: Store, s': Store)
    requires PoliciesKeyed(s) && RolesScoped(s) && GrantsValid(s) && SameRest(s, s')
    ensures PoliciesKeyed(s') && RolesScoped(s') && GrantsValid(s')
  {
  }

  lemma {:induction false} StepKeeps(s: Store, op: Op)
    requires Inv(s) && Legal(s, op)
    ensures Inv(Step(s, op))
  {
    hide OrgConsistent, UsersRegistered, PoliciesKeyed, RolesScoped, GrantsValid, SameRest;
    hide CreateUserTo, AddNodeTo, AssignManagerTo, UpdateUserTo, CreateRoleTo, CreatePermissionTo, Applied;
    match op {
      case CreateUser(id, user, manager) =>
        CreateUserKeeps(s, id, user, manager);
        CreateUserRegisters(s, id, user, manager);
        CreateUserRest(s, id, user, manager);
        RestKeeps(s, CreateUserTo(s, id, user, manager));
      case AddNode(t, u) =>
        AddNodeKeeps(s, t, u);
        NodeAdded(s, t, u);
        AddNodeRest(s, t, u);
        RestKeeps(s, AddNodeTo(s, t, u));
      case AssignManager(t, u, x) =>
        if InTenant(s, t, u) && InTenant(s, t, x) {
          AssignKeeps(s, t, u, x);
          AssignRegisters(s, t, u, x);
          AssignRest(s, t, u, x);
          RestKeeps(s, AssignManagerTo(s, t, u, x));
        }
      case UpdateUser(t, u, changes) =>
        UpdateUserKeeps(s, t, u, changes);
        UpdateUserRest(s, t, u, changes);
        RestKeeps(s, UpdateUserTo(s, t, u, changes));
      case CreateRole(t, r, name) => CreateRoleKeeps(s, t, r, name);
      case CreatePermission(t, p, name) => CreatePermissionKeeps(s, t, p, name);
      case CheckAccess(_) =>
      case _ => AppliedKeeps(s, WriteOf(op).value);
    }
  }

  lemma {:induction false} NodeAdded(s: Store, t: Id, u: Id)
    requires UsersRegistered(s)
    ensures UsersRegistered(AddNodeTo(s, t, u))
  {
    hide AddNodeTo, TableOf;
    AddNodeRegisters(s, t, u);
  }

  lemma {:induction false} RunKeeps(s: Store, ops: seq<Op>)
    requires Inv(s) && LegalRun(s, ops)
    ensures Inv(Run(s, ops))
    decreases |ops|
  {
    hide Inv;
    if ops != [] {
      StepKeeps(s, ops[0]);
      RunKeeps(Step(s, ops[0]), ops[1..]);
    }
  }

  /** A permission is granted to a role of the granting tenant, or to none. */
  predicate GrantsOwnRole(s: Store, op: Op) {
    op.AssignPermission? && op.roleId in s.roles ==> RoleOf(s, op.tenant, op.roleId)
  }

  predicate OwnGrantsRun(s: Store, ops: seq<Op>)
    decreases |ops|
  {
    ops == [] || (GrantsOwnRole(s, ops[0]) && OwnGrantsRun(Step(s, ops[0]), ops[1..]))
  }

  /** A system nobody has used yet. */
  ghost predicate Blank(s: Store) {
    && s.users == map[] && s.closure == map[] && s.userRoles == {}
    && PoliciesKeyed(s) && GrantsValid(s)
  }

  lemma {:induction false} BlankInv(s: Store)
    requires Blank(s)
    ensures Inv(s)
  {
  }

  /** In every state reachable from a consistent one a tenant's table holds the row
      (a, d) at depth k exactly when `a` is reached from the registered user `d` by k
      manager hops; every user of the tenant is registered; and no organization has a
      cycle. */
  lemma {:induction false} ReachableClosure(s: Store, ops: seq<Op>, t: Id, a: Id, d: Id, k: nat)
    requires Inv(s) && LegalRun(s, ops)
    ensures var r := Run(s, ops);
      && ((t, a, d) in r.closure && r.closure[(t, a, d)] == k <==>
            d in Nodes(TableOf(r, t)) && Up(OrgOf(r, t), d, k) == Some(a))
      && (InTenant(r, t, d) ==> d in Nodes(TableOf(r, t)))
      && Acyclic(OrgOf(r, t))
  {
    RunKeeps(s, ops);
    var r := Run(s, ops);
    SliceRow(r.closure, t, a, d);
    RowIsHops(TableOf(r, t), OrgOf(r, t), a, d, k);
    NodesAreSelfRows(TableOf(r, t), d);
    ClosureIsAcyclic(TableOf(r, t), OrgOf(r, t));
  }

  /** So for the users of the tenant rows and hops are the same thing. */
  lemma {:induction false} ReachableUserClosure(s: Store, ops: seq<Op>, t: Id, a: Id, d: Id, k: nat)
    requires Inv(s) && LegalRun(s, ops) && InTenant(Run(s, ops), t, d)
    ensures var r := Run(s, ops);
      (t, a, d) in r.closure && r.closure[(t, a, d)] == k <==> Up(OrgOf(r, t), d, k) == Some(a)
  {
    hide Inv, LegalRun, Run, InTenant, Nodes, Slice, EdgesOf;
    ReachableClosure(s, ops, t, a, d, k);
  }

  /** In every such state the size of a tenant's table is the sum, over its registered
      users, of chain length plus one. */
  lemma {:induction false} ReachableSize(s: Store, ops: seq<Op>, t: Id)
    requires Inv(s) && LegalRun(s, ops)
    ensures var r := Run(s, ops); |TableOf(r, t)| == ChainTotal(OrgOf(r, t), Nodes(TableOf(r, t)))
  {
    RunKeeps(s, ops);
    TableSize(TableOf(Run(s, ops), t), OrgOf(Run(s, ops), t));
  }

  /** Path independence: two histories that end with the same managers and the same
      registered users end with the same table. */
  lemma {:induction false} PathIndependence(s: Store, ops: seq<Op>, s': Store, ops': seq<Op>, t: Id)
    requires Inv(s) && LegalRun(s, ops) && Inv(s') && LegalRun(s', ops')
    requires OrgOf(Run(s, ops), t) == OrgOf(Run(s', ops'), t)
    requires Nodes(TableOf(Run(s, ops), t)) == Nodes(TableOf(Run(s', ops'), t))
    ensures TableOf(Run(s, ops), t) == TableOf(Run(s', ops'), t)
  {
    RunKeeps(s, ops);
    RunKeeps(s', ops');
    ClosureUnique(TableOf(Run(s, ops), t), TableOf(Run(s', ops'), t), OrgOf(Run(s, ops), t));
  }

  // ---------------------------------------------------------------------------
  // Granting
  // ---------------------------------------------------------------------------

  predicate IsGrant(op: Op) {
    op.AssignRole? || op.AssignPermission?
  }

  /** A DENY policy that asks for the permission it punishes. */
  predicate DeniesHolders(p: Policy) {
    p.effect == Deny && p.conditions.requirePermission == Some(true)
  }

  lemma {:induction false} PermissionHurtsExactly(ps: set<Policy>, f: Facts)
    requires Combined(ps, f) == Allowed
    ensures Combined(ps, f.(hasPermission := true)) != Allowed <==>
      exists p :: p in ps && DeniesHolders(p) && Matches(p, f.(hasPermission := true))
  {
  }

  lemma {:induction false} ValidSubject(s: Store, q: Request)
    ensures Validate(s, q).Valid? ==> InTenant(s, q.tenantId, q.subjectUserId)
    ensures Decide(s, q).effect == Allow ==> Validate(s, q).Valid?
  {
  }

  /** The two stores differ for the request in the permission at most, and the second
      has it if the first does. */
  ghost predicate Granted(s: Store, s': Store, q: Request) {
    && Validate(s', q) == Validate(s, q)
    && ApplicableTo(s', q) == ApplicableTo(s, q)
    && (HasPermission(s, q) ==> HasPermission(s', q))
    && (Validate(s, q).Valid? ==>
          FactsOf(s', q, Validate(s, q).resource)
          == FactsOf(s, q, Validate(s, q).resource).(hasPermission := HasPermission(s', q)))
  }

  /** Everything a grant leaves alone. */
  lemma {:induction false} GrantRest(s: Store, w: Write)
    requires !w.AddPolicy?
    ensures var s' := Applied(s, w);
      s'.tenants == s.tenants && s'.users == s.users && s'.resources == s.resources && s'.policies == s.policies
  {
  }

  lemma {:induction false} RestDecides(s: Store, s': Store, q: Request)
    requires s'.tenants == s.tenants && s'.users == s.users
    requires s'.resources == s.resources && s'.policies == s.policies
    ensures Validate(s', q) == Validate(s, q) && ApplicableTo(s', q) == ApplicableTo(s, q)
    ensures Validate(s, q).Valid? ==>
      FactsOf(s', q, Validate(s, q).resource)
      == FactsOf(s, q, Validate(s, q).resource).(hasPermission := HasPermission(s', q))
  {
    hide NamesOf, RelationshipOf, EdgesOf, Grants;
    assert Applicable(s', q.tenantId, q.action, q.resourceType) == Applicable(s, q.tenantId, q.action, q.resourceType);
  }

  lemma {:induction false} GrantStep(s: Store, op: Op, q: Request)
    requires IsGrant(op)
    ensures Granted(s, Step(s, op), q)
  {
    hide FactsOf, Applicable, Validate, NamesOf, Step, Applied;
    ValidSubject(s, q);
    assert Step(s, op) == Applied(s, WriteOf(op).value) by { GrantIsWrite(s, op); }
    GrantRest(s, WriteOf(op).value);
    RestDecides(s, Step(s, op), q);
    GrantAdds(s, op, q);
  }

  lemma {:induction false} GrantIsWrite(s: Store, op: Op)
    requires IsGrant(op)
    ensures Step(s, op) == Applied(s, WriteOf(op).value)
  {
    hide Applied;
  }

  lemma {:induction false} GrantAdds(s: Store, op: Op, q: Request)
    requires IsGrant(op)
    ensures HasPermission(s, q) ==> HasPermission(Step(s, op), q)
  {
    hide NamesOf, Applied, Step;
    GrantIsWrite(s, op);
    WritesOnlyAdd(s, WriteOf(op).value, q.tenantId, q.subjectUserId);
  }

  lemma {:induction false} GrantRun(s: Store, ops: seq<Op>, q: Request)
    requires forall op :: op in ops ==> IsGrant(op)
    ensures Granted(s, Run(s, ops), q)
    decreases |ops|
  {
    hide FactsOf, Applicable, Validate, HasPermission, Step;
    ValidSubject(s, q);
    if ops != [] {
      GrantStep(s, ops[0], q);
      GrantRun(Step(s, ops[0]), ops[1..], q);
    } else {
      FactsHavePermission(s, q);
    }
  }

  lemma {:induction false} FactsHavePermission(s: Store, q: Request)
    ensures Validate(s, q).Valid? ==>
      FactsOf(s, q, Validate(s, q).resource).hasPermission == HasPermission(s, q)
  {
  }

  lemma {:induction false} DecideIs(s: Store, q: Request)
    requires Validate(s, q).Valid?
    ensures Decide(s, q).effect == Allow <==>
      Combined(ApplicableTo(s, q), FactsOf(s, q, Validate(s, q).resource)) == Allowed
  {
  }

  /** What role and permission grants can do to an allowed request: any sequence of
      them turns the ALLOW into DENY exactly when the subject ends up holding the
      permission and an applicable DENY policy that asks for it matches. */
  lemma {:induction false} GrantsHurtExactly(s: Store, ops: seq<Op>, q: Request)
    requires forall op :: op in ops ==> IsGrant(op)
    requires Decide(s, q).effect == Allow
    ensures Validate(s, q).Valid? && InTenant(s, q.tenantId, q.subjectUserId)
    ensures Decide(Run(s, ops), q).effect != Allow <==>
      && HasPermission(Run(s, ops), q)
      && exists p :: p in ApplicableTo(s, q) && DeniesHolders(p)
           && Matches(p, FactsOf(s, q, Validate(s, q).resource).(hasPermission := true))
  {
    hide FactsOf, Applicable, Combined, Validate, Matches, HasPermission, Decide, Run;
    ValidSubject(s, q);
    GrantRun(s, ops, q);
    DecideIs(s, q);
    DecideIs(Run(s, ops), q);
    FactsHavePermission(s, q);
    PermissionHurtsExactly(ApplicableTo(s, q), FactsOf(s, q, Validate(s, q).resource));
  }

  /** In particular no sequence of grants hurts where no applicable DENY policy asks for
      the permission. */
  lemma {:induction false} GrantingIsMonotone(s: Store, ops: seq<Op>, q: Request)
    requires forall op :: op in ops ==> IsGrant(op)
    requires forall p :: p in ApplicableTo(s, q) ==> !DeniesHolders(p)
    requires Decide(s, q).effect == Allow
    ensures Decide(Run(s, ops), q).effect == Allow
  {
    GrantsHurtExactly(s, ops, q);
  }

  // ---------------------------------------------------------------------------
  // Raising clearance
  // ---------------------------------------------------------------------------

  lemma {:induction false} ClearanceHurtsExactly(ps: set<Policy>, f: Facts, c: Clearance)
    requires MeetsClearance(c, f.clearance) && Combined(ps, f) == Allowed
    ensures Combined(ps, f.(clearance := c)) != Allowed <==>
      exists p :: p in ps && p.effect == Deny && ReadsClearance(p) && Matches(p, f.(clearance := c))
  {
  }

  /** The patch that sets the clearance and nothing else. */
  function ClearanceTo(c: Clearance): UserChanges {
    UserChanges(None, None, None, Some(c), None)
  }

  lemma {:induction false} ClearanceUpdated(s: Store, t: Id, u: Id, c: Clearance)
    requires InTenant(s, t, u)
    ensures UpdateUserTo(s, t, u, ClearanceTo(c)) == s.(users := s.users[u := s.users[u].(clearance := c)])
  {
  }

  /** Raising the subject's clearance turns an ALLOW into DENY exactly when an applicable
      DENY policy that reads clearance matches at the new level. */
  lemma {:induction false} RaisingClearanceExactly(s: Store, q: Request, c: Clearance)
    requires Decide(s, q).effect == Allow
    requires InTenant(s, q.tenantId, q.subjectUserId) ==> MeetsClearance(c, s.users[q.subjectUserId].clearance)
    ensures Validate(s, q).Valid? && InTenant(s, q.tenantId, q.subjectUserId)
    ensures var s' := Step(s, UpdateUser(q.tenantId, q.subjectUserId, ClearanceTo(c)));
      Decide(s', q).effect != Allow <==>
        exists p :: p in ApplicableTo(s, q) && p.effect == Deny && ReadsClearance(p)
          && Matches(p, FactsOf(s, q, Validate(s, q).resource).(clearance := c))
  {
    hide Combined, MatchedSet, Matches, UpdateUserTo;
    ValidSubject(s, q);
    ClearanceUpdated(s, q.tenantId, q.subjectUserId, c);
    var s' := Step(s, UpdateUser(q.tenantId, q.subjectUserId, ClearanceTo(c)));
    var resource := Validate(s, q).resource;
    assert OrgOf(s', q.tenantId) == OrgOf(s, q.tenantId);
    assert NamesOf(s', q.tenantId, q.subjectUserId) == NamesOf(s, q.tenantId, q.subjectUserId);
    assert ApplicableTo(s', q) == ApplicableTo(s, q);
    assert Validate(s', q) == Validate(s, q);
    assert FactsOf(s', q, resource) == FactsOf(s, q, resource).(clearance := c);
    ClearanceHurtsExactly(ApplicableTo(s, q), FactsOf(s, q, resource), c);
  }

  // ---------------------------------------------------------------------------
  // Suspending
  // ---------------------------------------------------------------------------

  /** The patch that sets the employment status and nothing else. */
  function StatusTo(status: EmploymentStatus): UserChanges {
    UserChanges(None, None, None, None, Some(status))
  }

  lemma {:induction false} StatusUpdated(s: Store, t: Id, u: Id, status: EmploymentStatus)
    requires InTenant(s, t, u)
    ensures UpdateUserTo(s, t, u, StatusTo(status)) == s.(users := s.users[u := s.users[u].(status := status)])
  {
  }

  /** A subject that is set to any status but ACTIVE is denied everything, whatever the
      policies say; setting it back restores the very store there was. */
  lemma {:induction false} SuspendingDenies(s: Store, q: Request, status: EmploymentStatus)
    requires status != Active && InTenant(s, q.tenantId, q.subjectUserId)
    ensures var s' := Step(s, UpdateUser(q.tenantId, q.subjectUserId, StatusTo(status)));
      && Decide(s', q) == Answer(Deny, {})
      && (s.users[q.subjectUserId].status == Active ==>
            Step(s', UpdateUser(q.tenantId, q.subjectUserId, StatusTo(Active))) == s)
  {
    hide UpdateUserTo, FactsOf, Combined, MatchedSet, Applicable, Resolve;
    var t, u := q.tenantId, q.subjectUserId;
    StatusUpdated(s, t, u, status);
    var s' := Step(s, UpdateUser(t, u, StatusTo(status)));
    assert s'.users[u].status == status && InTenant(s', t, u);
    StatusUpdated(s', t, u, Active);
    var s'' := Step(s', UpdateUser(t, u, StatusTo(Active)));
    if s.users[u].status == Active { assert s''.users == s.users; }
  }

  // ---------------------------------------------------------------------------
  // New policies
  // ---------------------------------------------------------------------------

  /** The policy a request creates is enabled and asks about the action and the resource
      type, by name or by wildcard; an input silent about them is enabled for every
      type. */
  predicate Concerns(t: Id, input: CreatePolicyInput, q: Request) {
    && t == q.tenantId
    && input.enabled != Some(false)
    && (input.action == q.action || input.action == "*")
    && (input.resourceType == None || input.resourceType == Some("*") || input.resourceType == Some(q.resourceType))
  }

  lemma {:induction false} ConcernsIs(t: Id, input: CreatePolicyInput, q: Request)
    ensures Concerns(t, input, q) <==> Applies(PolicyFrom(t, input), q.tenantId, q.action, q.resourceType)
  {
  }

  /** What creating a policy does to the decisions: a policy that does not concern a
      request, a disabled one for instance, changes nothing for it; one that does joins
      its verdict to those before it, so that a DENY that matches denies from then on and
      an ALLOW that matches allows unless some DENY does. */
  lemma {:induction false} NewPolicyDecides(s: Store, t: Id, input: CreatePolicyInput, q: Request)
    requires (t, input.name) !in s.policies
    ensures var s' := Step(s, CreatePolicy(t, input));
      && Validate(s', q) == Validate(s, q)
      && (!Concerns(t, input, q) ==> Decide(s', q) == Decide(s, q))
      && (Concerns(t, input, q) && Validate(s, q).Valid? ==>
            var p, f := PolicyFrom(t, input), FactsOf(s, q, Validate(s, q).resource);
            Decide(s', q).effect ==
              if !Passes(p, f) then Decide(s, q).effect
              else if input.effect == Deny then Deny
              else if Combined(ApplicableTo(s, q), f) == Denied then Deny
              else Allow)
  {
    hide Applicable, Combined, MatchedSet, FactsOf, Validate, Matches, Passes, Step;
    var p := PolicyFrom(t, input);
    assert Step(s, CreatePolicy(t, input)) == Applied(s, AddPolicy(p)) by { PolicyStep(s, t, input); }
    var s' := Applied(s, AddPolicy(p));
    ConcernsIs(t, input, q);
    AddPolicyEffect(s, p, q.tenantId, q.action, q.resourceType);
    PolicyRest(s, s', q);
    if Validate(s, q).Valid? {
      ValidSubject(s, q);
      var f := FactsOf(s, q, Validate(s, q).resource);
      MatchesExactly(p, f);
      AddedIsJoined(ApplicableTo(s, q), p, f);
    }
    if !Concerns(t, input, q) {
      assert ApplicableTo(s', q) == ApplicableTo(s, q);
    }
  }

  lemma {:induction false} PolicyStep(s: Store, t: Id, input: CreatePolicyInput)
    ensures Step(s, CreatePolicy(t, input)) == Applied(s, AddPolicy(PolicyFrom(t, input)))
  {
    hide Applied, PolicyFrom;
  }

  lemma {:induction false} PolicyRest(s: Store, s': Store, q: Request)
    requires s'.tenants == s.tenants && s'.users == s.users && s'.resources == s.resources
    requires s'.userRoles == s.userRoles && s'.rolePermissions == s.rolePermissions && s'.permissions == s.permissions
    ensures Validate(s', q) == Validate(s, q)
    ensures Validate(s, q).Valid? ==>
      FactsOf(s', q, Validate(s, q).resource) == FactsOf(s, q, Validate(s, q).resource)
  {
    hide RelationshipOf, EdgesOf, Grants;
    assert NamesOf(s', q.tenantId, q.subjectUserId) == NamesOf(s, q.tenantId, q.subjectUserId);
  }
}
