/** Tenant isolation as a statement about two runs: what other tenants do, and how
    it is interleaved, leaves no trace in a tenant's tables or answers. */
module NonInterference {
  import opened Domain
  import opened Forest
  import opened ClosureTable
  import opened Tables
  import opened Decisions
  import opened PolicyEngine
  import opened AccessSpec
  import opened HierarchySpec
  import opened AdminSpec
  import opened Writes
  import opened SystemRuns

  // ---------------------------------------------------------------------------
  // What belongs to a tenant
  // ---------------------------------------------------------------------------

  ghost predicate SameUsers(a: Store, b: Store, t: Id) {
    forall u :: (InTenant(a, t, u) <==> InTenant(b, t, u))
      && (InTenant(a, t, u) ==> a.users[u] == b.users[u])
  }

  ghost predicate SameRoleRows(a: Store, b: Store, t: Id) {
    forall r :: (RoleOf(a, t, r) <==> RoleOf(b, t, r)) && (RoleOf(a, t, r) ==> a.roles[r] == b.roles[r])
  }

  ghost predicate SamePermissionRows(a: Store, b: Store, t: Id) {
    forall p :: (PermissionOf(a, t, p) <==> PermissionOf(b, t, p))
      && (PermissionOf(a, t, p) ==> a.permissions[p] == b.permissions[p])
  }

  ghost predicate SameJoinRows(a: Store, b: Store, t: Id) {
    && (forall x, y :: (t, x, y) in a.userRoles <==> (t, x, y) in b.userRoles)
    && (forall x, y :: (t, x, y) in a.rolePermissions <==> (t, x, y) in b.rolePermissions)
  }

  ghost predicate SameRoles(a: Store, b: Store, t: Id) {
    SameRoleRows(a, b, t) && SamePermissionRows(a, b, t) && SameJoinRows(a, b, t) && SameGrants(a, b, t)
  }

  /** The tenant's roles carry the same names, whoever granted them. */
  ghost predicate SameGrants(a: Store, b: Store, t: Id) {
    forall r :: RoleOf(a, t, r) ==> RoleNames(a, r) == RoleNames(b, r)
  }

  ghost predicate SamePolicies(a: Store, b: Store, t: Id) {
    forall n :: ((t, n) in a.policies <==> (t, n) in b.policies)
      && ((t, n) in a.policies ==> a.policies[(t, n)] == b.policies[(t, n)])
  }

  ghost predicate SameResources(a: Store, b: Store, t: Id) {
    forall k, x :: ((t, k, x) in a.resources <==> (t, k, x) in b.resources)
      && ((t, k, x) in a.resources ==> a.resources[(t, k, x)] == b.resources[(t, k, x)])
  }

  ghost predicate SameStatus(a: Store, b: Store, t: Id) {
    (t in a.tenants <==> t in b.tenants) && (t in a.tenants ==> a.tenants[t] == b.tenants[t])
  }

  /** The two stores agree on everything of tenant `t`. */
  ghost predicate SameView(a: Store, b: Store, t: Id) {
    && SameStatus(a, b, t)
    && SameUsers(a, b, t)
    && SameRoles(a, b, t)
    && SamePolicies(a, b, t)
    && SameResources(a, b, t)
    && TableOf(a, t) == TableOf(b, t)
  }

  /** Users hold roles of their tenant, grants name rows that exist, and policies are
      stored under their key. */
  ghost predicate Keyed(s: Store) {
    RolesScoped(s) && GrantsValid(s) && PoliciesKeyed(s)
  }

  // ---------------------------------------------------------------------------
  // A decision depends on the view alone
  // ---------------------------------------------------------------------------

  lemma {:induction false} SameOrg(a: Store, b: Store, t: Id)
    requires SameUsers(a, b, t)
    ensures OrgOf(a, t) == OrgOf(b, t)
  {
  }

  lemma {:induction false} NamesIncluded(a: Store, b: Store, t: Id, u: Id)
    requires SameRoles(a, b, t) && RolesScoped(a)
    ensures NamesOf(a, t, u) <= NamesOf(b, t, u)
  {
    hide NamesOf, RoleNames;
    forall name | name in NamesOf(a, t, u) ensures name in NamesOf(b, t, u) {
      NamesByRole(a, t, u, name);
      NamesByRole(b, t, u, name);
      var r :| (t, u, r) in a.userRoles && name in RoleNames(a, r);
      assert RoleOf(a, (t, u, r).0, (t, u, r).2);
    }
  }

  lemma {:induction false} PoliciesIncluded(a: Store, b: Store, t: Id, action: string, kind: string)
    requires SamePolicies(a, b, t) && PoliciesKeyed(a)
    ensures Applicable(a, t, action, kind) <= Applicable(b, t, action, kind)
  {
  }

  lemma {:induction false} SamePoliciesSymmetric(a: Store, b: Store, t: Id)
    requires SamePolicies(a, b, t) && SameRoles(a, b, t)
    ensures SamePolicies(b, a, t) && SameRoles(b, a, t)
  {
  }

  lemma {:induction false} SameValidation(a: Store, b: Store, q: Request)
    requires SameView(a, b, q.tenantId)
    ensures Validate(a, q) == Validate(b, q)
  {
    var t := q.tenantId;
    assert InTenant(a, t, q.subjectUserId) <==> InTenant(b, t, q.subjectUserId);
    assert InTenant(a, t, q.resourceId) <==> InTenant(b, t, q.resourceId);
    assert (t, q.resourceType, q.resourceId) in a.resources <==>
      (t, q.resourceType, q.resourceId) in b.resources;
  }

  /** Stores that agree on a tenant decide its requests alike. */
  lemma {:induction false} ViewDecides(a: Store, b: Store, q: Request)
    requires SameView(a, b, q.tenantId) && Keyed(a) && Keyed(b)
    ensures Decide(a, q) == Decide(b, q)
  {
    hide Combined, MatchedSet, NamesOf, Applicable, RelationshipOf;
    var t := q.tenantId;
    SameValidation(a, b, q);
    SameOrg(a, b, t);
    SamePoliciesSymmetric(a, b, t);
    NamesIncluded(a, b, t, q.subjectUserId);
    NamesIncluded(b, a, t, q.subjectUserId);
    PoliciesIncluded(a, b, t, q.action, q.resourceType);
    PoliciesIncluded(b, a, t, q.action, q.resourceType);
    ValidSubject(a, q);
    ValidSubject(b, q);
    if Validate(a, q).Valid? {
      assert a.users[q.subjectUserId] == b.users[q.subjectUserId];
      assert FactsOf(a, q, Validate(a, q).resource) == FactsOf(b, q, Validate(a, q).resource);
      assert ApplicableTo(a, q) == ApplicableTo(b, q);
    }
  }

  // ---------------------------------------------------------------------------
  // Operations of other tenants
  // ---------------------------------------------------------------------------

  function TenantOf(op: Op): Id {
    match op
    case CreateUser(_, user, _) => user.tenantId
    case CheckAccess(q) => q.tenantId
    case _ => op.tenant
  }

  lemma {:induction false} SameViewReflexive(s: Store, t: Id)
    ensures SameView(s, s, t)
  {
  }

  lemma {:induction false} SameViewTransitive(a: Store, b: Store, c: Store, t: Id)
    requires SameView(a, b, t) && SameView(b, c, t)
    ensures SameView(a, c, t)
  {
    hide RoleNames, Slice;
  }

  lemma {:induction false} SameViewSymmetric(a: Store, b: Store, t: Id)
    requires SameView(a, b, t)
    ensures SameView(b, a, t)
  {
    hide RoleNames, Slice;
  }

  /** The pieces of a view that a hierarchy operation leaves alone for everybody. */
  lemma {:induction false} RestView(s: Store, s': Store, t: Id)
    requires SameRest(s, s') && SameUsers(s, s', t) && TableOf(s, t) == TableOf(s', t)
    ensures SameView(s, s', t)
  {
    hide Slice;
  }

  lemma {:induction false} OtherAddNode(s: Store, t: Id, u: Id, v: Id)
    requires t != v
    ensures TableOf(AddNodeTo(s, t, u), v) == TableOf(s, v) && AddNodeTo(s, t, u).users == s.users
  {
    if u in s.users { WithRowsTable(s, t, WithNode(TableOf(s, t), u), v); }
  }

  lemma {:induction false} OtherEdge(s: Store, t: Id, u: Id, x: Id, v: Id)
    requires t != v
    ensures SameUsers(s, WithEdge(s, t, u, x), v)
  {
  }

  lemma {:induction false} OtherAssign(s: Store, t: Id, u: Id, x: Id, v: Id)
    requires t != v
    ensures TableOf(AssignManagerTo(s, t, u, x), v) == TableOf(s, v)
    ensures SameUsers(s, AssignManagerTo(s, t, u, x), v)
  {
    hide Moved, AssignOutcome, Slice, WithSlice, SetManager;
    if AssignOutcome(s, t, u, x) == Done {
      WithRowsTable(s, t, Moved(s, t, u, x), v);
      OtherEdge(WithRows(s, t, Moved(s, t, u, x)), t, u, x, v);
    }
  }

  lemma {:induction false} OtherUserAdded(s: Store, id: Id, user: User, v: Id)
    requires id !in s.users && user.tenantId != v
    ensures SameUsers(s, UserAdded(s, id, user), v)
  {
  }

  lemma {:induction false} SameUsersTransitive(a: Store, b: Store, c: Store, t: Id)
    requires SameUsers(a, b, t) && SameUsers(b, c, t)
    ensures SameUsers(a, c, t)
  {
  }

  lemma {:induction false} OtherUserJoined(s: Store, id: Id, user: User, manager: Option<Id>, v: Id)
    requires id !in s.users && user.tenantId != v
    ensures TableOf(UserJoined(s, id, user, manager), v) == TableOf(s, v)
    ensures SameUsers(s, UserJoined(s, id, user, manager), v)
  {
    hide AddNodeTo, AssignManagerTo, SameUsers, Slice;
    var withUser := UserAdded(s, id, user);
    var added := AddNodeTo(withUser, user.tenantId, id);
    OtherUserAdded(s, id, user, v);
    OtherAddNode(withUser, user.tenantId, id, v);
    UsersUnchanged(withUser, added, v);
    SameUsersTransitive(s, withUser, added, v);
    if Truthy(manager) {
      OtherAssign(added, user.tenantId, id, manager.value, v);
      SameUsersTransitive(s, added, AssignManagerTo(added, user.tenantId, id, manager.value), v);
    }
  }

  lemma {:induction false} OtherCreateUser(s: Store, id: Id, user: User, manager: Option<Id>, v: Id)
    requires id !in s.users && user.tenantId != v
    ensures TableOf(CreateUserTo(s, id, user, manager), v) == TableOf(s, v)
    ensures SameUsers(s, CreateUserTo(s, id, user, manager), v)
  {
    hide UserJoined, EmailTaken, Slice, SameUsers;
    UsersUnchanged(s, s, v);
    OtherUserJoined(s, id, user, manager, v);
  }

  /** The one operation of another tenant that shows: a permission granted to one of the
      tenant's roles, unless the role has the name already. */
  predicate Unnoticed(s: Store, op: Op, t: Id) {
    op.AssignPermission? && Accepted(s, WriteOf(op).value) && RoleOf(s, t, op.roleId) ==>
      s.permissions[op.permissionId].name in RoleNames(s, op.roleId)
  }

  /** Everything that roles, permissions, grants and policies leave alone. */
  ghost predicate SameElse(s: Store, s': Store) {
    s'.tenants == s.tenants && s'.users == s.users && s'.resources == s.resources && s'.closure == s.closure
  }

  lemma {:induction false} AppliedElse(s: Store, w: Write)
    ensures SameElse(s, s) && SameElse(s, Applied(s, w))
  {
    hide Accepted;
  }

  lemma {:induction false} ElseView(a: Store, a': Store, b: Store, b': Store, t: Id)
    requires SameView(a, b, t) && SameElse(a, a') && SameElse(b, b')
    requires SameRoles(a', b', t) && SamePolicies(a', b', t)
    ensures SameView(a', b', t)
  {
    hide SameRoles, SamePolicies, Slice, InTenant;
    assert SameUsers(a', b', t) by { SameUserRows(a, a', b, b', t); }
  }

  lemma {:induction false} OtherWrite(s: Store, op: Op, v: Id)
    requires WriteOf(op).Some? && TenantOf(op) != v && Unnoticed(s, op, v)
    ensures SameView(s, Step(s, op), v)
  {
    hide SameView;
    var w := WriteOf(op).value;
    SameViewReflexive(s, v);
    AppliedElse(s, w);
    OtherRoles(s, op, v);
    OtherPolicies(s, w, v);
    ElseView(s, s, s, Applied(s, w), v);
  }

  lemma {:induction false} OtherRoles(s: Store, op: Op, v: Id)
    requires WriteOf(op).Some? && TenantOf(op) != v && Unnoticed(s, op, v)
    ensures SameRoles(s, Applied(s, WriteOf(op).value), v)
  {
    hide RoleNames, SameRoleRows, SamePermissionRows, SameJoinRows, Accepted;
    var w := WriteOf(op).value;
    var s' := Applied(s, w);
    SameRolesReflexive(s, v);
    forall r | RoleOf(s, v, r) ensures RoleNames(s, r) == RoleNames(s', r) {
      RoleNamesEffect(s, w, r);
    }
    OtherJoinRows(s, w, v);
    RolesKept(s, s, s, s', v);
  }

  lemma {:induction false} OtherJoinRows(s: Store, w: Write, v: Id)
    requires WriteTenant(w) != v
    ensures SameJoinRows(s, Applied(s, w), v)
  {
    hide Accepted;
  }

  lemma {:induction false} OtherPolicies(s: Store, w: Write, v: Id)
    requires WriteTenant(w) != v
    ensures SamePolicies(s, Applied(s, w), v)
  {
  }

  lemma {:induction false} OtherRole(s: Store, t: Id, id: Id, name: string, v: Id)
    requires t != v && id !in s.roles
    ensures SameView(s, CreateRoleTo(s, t, id, name), v)
  {
    hide SameView, SameRoles, RoleNameTaken;
    SameViewReflexive(s, v);
    CreateRoleElse(s, t, id, name);
    OtherRoleRows(s, t, id, name, v);
    SamePoliciesStored(s, s, s, CreateRoleTo(s, t, id, name), v);
    ElseView(s, s, s, CreateRoleTo(s, t, id, name), v);
  }

  lemma {:induction false} CreateRoleElse(s: Store, t: Id, id: Id, name: string)
    ensures var s' := CreateRoleTo(s, t, id, name);
      SameElse(s, s) && SameElse(s, s') && s'.policies == s.policies
      && s'.permissions == s.permissions && s'.userRoles == s.userRoles && s'.rolePermissions == s.rolePermissions
  {
    hide RoleNameTaken;
    if RoleNameTaken(s, t, name) {
      assert CreateRoleTo(s, t, id, name) == s;
    }
  }

  lemma {:induction false} CreatePermissionElse(s: Store, t: Id, id: Id, name: string)
    ensures var s' := CreatePermissionTo(s, t, id, name);
      SameElse(s, s) && SameElse(s, s') && s'.policies == s.policies
      && s'.roles == s.roles && s'.userRoles == s.userRoles && s'.rolePermissions == s.rolePermissions
  {
    hide PermissionNameTaken;
    if PermissionNameTaken(s, t, name) {
      assert CreatePermissionTo(s, t, id, name) == s;
    }
  }

  lemma {:induction false} OtherRoleRows(s: Store, t: Id, id: Id, name: string, v: Id)
    requires t != v && id !in s.roles
    ensures SameRoles(s, CreateRoleTo(s, t, id, name), v)
  {
    hide RoleNames, RoleNameTaken;
    CreateRoleElse(s, t, id, name);
    var s' := CreateRoleTo(s, t, id, name);
    SameRolesReflexive(s, v);
    JoinRowsKept(s, s, s, s', v);
    PermissionRowsKept(s, s, s, s', v);
    forall r | RoleOf(s, v, r) ensures RoleNames(s', r) == RoleNames(s, r) {
      NamesFrom(s, s', r);
    }
  }

  lemma {:induction false} SameRolesReflexive(s: Store, t: Id)
    ensures SameRoleRows(s, s, t) && SamePermissionRows(s, s, t) && SameJoinRows(s, s, t) && SameGrants(s, s, t)
  {
  }

  lemma {:induction false} JoinRowsKept(a: Store, a': Store, b: Store, b': Store, t: Id)
    requires SameJoinRows(a, b, t)
    requires a'.userRoles == a.userRoles && a'.rolePermissions == a.rolePermissions
    requires b'.userRoles == b.userRoles && b'.rolePermissions == b.rolePermissions
    ensures SameJoinRows(a', b', t)
  {
  }

  lemma {:induction false} RoleRowsKept(a: Store, a': Store, b: Store, b': Store, t: Id)
    requires SameRoleRows(a, b, t) && a'.roles == a.roles && b'.roles == b.roles
    ensures SameRoleRows(a', b', t)
  {
  }

  lemma {:induction false} PermissionRowsKept(a: Store, a': Store, b: Store, b': Store, t: Id)
    requires SamePermissionRows(a, b, t) && a'.permissions == a.permissions && b'.permissions == b.permissions
    ensures SamePermissionRows(a', b', t)
  {
  }

  lemma {:induction false} OtherPermission(s: Store, t: Id, id: Id, name: string, v: Id)
    requires GrantsValid(s) && t != v && id !in s.permissions
    ensures SameView(s, CreatePermissionTo(s, t, id, name), v)
  {
    hide SameView, SameRoles, PermissionNameTaken;
    SameViewReflexive(s, v);
    CreatePermissionElse(s, t, id, name);
    OtherPermissionRows(s, t, id, name, v);
    SamePoliciesStored(s, s, s, CreatePermissionTo(s, t, id, name), v);
    ElseView(s, s, s, CreatePermissionTo(s, t, id, name), v);
  }

  lemma {:induction false} OtherPermissionRows(s: Store, t: Id, id: Id, name: string, v: Id)
    requires GrantsValid(s) && t != v && id !in s.permissions
    ensures SameRoles(s, CreatePermissionTo(s, t, id, name), v)
  {
    hide RoleNames, PermissionNameTaken, GrantsValid;
    CreatePermissionElse(s, t, id, name);
    var s' := CreatePermissionTo(s, t, id, name);
    SameRolesReflexive(s, v);
    JoinRowsKept(s, s, s, s', v);
    RoleRowsKept(s, s, s, s', v);
    forall r | RoleOf(s, v, r) ensures RoleNames(s', r) == RoleNames(s, r) {
      NewPermissionRoleNames(s, t, id, name, r);
    }
  }

  lemma {:induction false} OtherUpdateUsers(s: Store, t: Id, u: Id, changes: UserChanges, v: Id)
    requires t != v
    ensures SameUsers(s, UpdateUserTo(s, t, u, changes), v)
  {
    hide EmailTakenByOther;
  }

  lemma {:induction false} OtherUpdate(s: Store, t: Id, u: Id, changes: UserChanges, v: Id)
    requires t != v
    ensures SameView(s, UpdateUserTo(s, t, u, changes), v)
  {
    hide SameUsers, Slice, ChangeAccepted;
    UpdateUserRest(s, t, u, changes);
    OtherUpdateUsers(s, t, u, changes, v);
    RestView(s, UpdateUserTo(s, t, u, changes), v);
  }

  /** An operation of another tenant leaves the view alone. */
  lemma {:induction false} OtherStep(s: Store, op: Op, v: Id)
    requires GrantsValid(s) && Legal(s, op) && TenantOf(op) != v && Unnoticed(s, op, v)
    ensures SameView(s, Step(s, op), v)
  {
    hide SameView, SameRest, SameUsers, TableOf, AddNodeTo, AssignManagerTo, CreateUserTo, Applied, Accepted;
    hide UpdateUserTo, CreateRoleTo, CreatePermissionTo, GrantsValid;
    match op {
      case CreateUser(id, user, manager) =>
        CreateUserRest(s, id, user, manager);
        OtherCreateUser(s, id, user, manager, v);
        RestView(s, CreateUserTo(s, id, user, manager), v);
      case AddNode(t, u) =>
        AddNodeRest(s, t, u);
        OtherAddNode(s, t, u, v);
        UsersUnchanged(s, AddNodeTo(s, t, u), v);
        RestView(s, AddNodeTo(s, t, u), v);
      case AssignManager(t, u, x) =>
        AssignRest(s, t, u, x);
        OtherAssign(s, t, u, x, v);
        RestView(s, AssignManagerTo(s, t, u, x), v);
        SameViewReflexive(s, v);
      case UpdateUser(t, u, changes) => OtherUpdate(s, t, u, changes, v);
      case CreateRole(t, r, name) => OtherRole(s, t, r, name, v);
      case CreatePermission(t, p, name) => OtherPermission(s, t, p, name, v);
      case CheckAccess(_) => SameViewReflexive(s, v);
      case _ => OtherWrite(s, op, v);
    }
  }

  /** Exactly: what another tenant does is seen in the view if and only if it grants one
      of the tenant's roles a name the role did not have. */
  lemma {:induction false} OtherStepExactly(s: Store, op: Op, v: Id)
    requires GrantsValid(s) && Legal(s, op) && TenantOf(op) != v
    ensures SameView(s, Step(s, op), v) <==> Unnoticed(s, op, v)
  {
    hide SameUsers, SamePolicies, SameResources, SameStatus, TableOf, Accepted, Applied, RoleNames;
    if Unnoticed(s, op, v) {
      OtherStep(s, op, v);
    } else {
      RoleNamesEffect(s, WriteOf(op).value, op.roleId);
      assert RoleOf(s, v, op.roleId) && RoleNames(Step(s, op), op.roleId) != RoleNames(s, op.roleId);
    }
  }

  lemma {:induction false} UsersUnchanged(s: Store, s': Store, v: Id)
    requires s'.users == s.users
    ensures SameUsers(s, s', v)
  {
  }

  // ---------------------------------------------------------------------------
  // Operations of the tenant itself
  // ---------------------------------------------------------------------------

  /** What a tenant's operation can learn about ids that may be another tenant's: the
      manager of a new user, a user to register and a role to grant to are not looked up
      in the tenant.  Where it would learn something, both systems give it the same. */
  predicate NamedAlike(a: Store, b: Store, op: Op) {
    match op
    case CreateUser(_, user, manager) =>
      EmailTaken(a, user.tenantId, user.email) || !Truthy(manager)
      || (manager.value in a.users <==> manager.value in b.users)
    case AddNode(t, u) =>
      (u, u) in TableOf(a, t) || (u in a.users <==> u in b.users)
    case AssignPermission(t, r, p) =>
      !PermissionOf(a, t, p) || (t, r, p) in a.rolePermissions || (r in a.roles <==> r in b.roles)
    case _ => true
  }

  /** The ids an operation names are ids of its own tenant. */
  predicate SelfContained(s: Store, op: Op) {
    match op
    case CreateUser(_, user, manager) => Truthy(manager) ==> InTenant(s, user.tenantId, manager.value)
    case AddNode(t, u) => InTenant(s, t, u)
    case AssignPermission(t, r, _) => RoleOf(s, t, r)
    case _ => true
  }

  /** An operation that names only ids of its tenant finds the same everywhere. */
  lemma {:induction false} SelfContainedAlike(a: Store, b: Store, op: Op)
    requires SameView(a, b, TenantOf(op)) && SelfContained(a, op)
    ensures NamedAlike(a, b, op)
  {
  }

  lemma {:induction false} SameUserRows(a: Store, a': Store, b: Store, b': Store, t: Id)
    requires SameUsers(a, b, t) && a'.users == a.users && b'.users == b.users
    ensures SameUsers(a', b', t)
  {
  }

  lemma {:induction false} OwnAddNode(a: Store, b: Store, t: Id, u: Id)
    requires SameUsers(a, b, t) && TableOf(a, t) == TableOf(b, t)
    requires (u, u) in TableOf(a, t) || (u in a.users <==> u in b.users)
    ensures TableOf(AddNodeTo(a, t, u), t) == TableOf(AddNodeTo(b, t, u), t)
    ensures SameUsers(AddNodeTo(a, t, u), AddNodeTo(b, t, u), t)
  {
    WithRowsTable(a, t, WithNode(TableOf(a, t), u), t);
    WithRowsTable(b, t, WithNode(TableOf(b, t), u), t);
  }

  lemma {:induction false} SelfRow(s: Store, t: Id, u: Id)
    ensures (u, u) in TableOf(AddNodeTo(s, t, u), t) <==> (u, u) in TableOf(s, t) || u in s.users
  {
    WithRowsTable(s, t, WithNode(TableOf(s, t), u), t);
  }

  lemma {:induction false} OwnEdge(a: Store, b: Store, t: Id, u: Id, x: Id)
    requires SameUsers(a, b, t) && InTenant(a, t, u)
    ensures SameUsers(WithEdge(a, t, u, x), WithEdge(b, t, u, x), t)
  {
  }

  lemma {:induction false} OwnOutcome(a: Store, b: Store, t: Id, u: Id, x: Id)
    requires TableOf(a, t) == TableOf(b, t)
    requires u in a.users && u in b.users && (x in a.users <==> x in b.users)
    ensures AssignOutcome(a, t, u, x) == AssignOutcome(b, t, u, x)
    ensures Moved(a, t, u, x) == Moved(b, t, u, x)
  {
    hide Reparent, WithNode, Slice;
  }

  /** A move of a user of the tenant comes out alike when the manager exists in both
      systems or in neither; whose user it is makes no difference. */
  lemma {:induction false} OwnAssign(a: Store, b: Store, t: Id, u: Id, x: Id)
    requires SameUsers(a, b, t) && TableOf(a, t) == TableOf(b, t)
    requires InTenant(a, t, u) && (x in a.users <==> x in b.users)
    ensures TableOf(AssignManagerTo(a, t, u, x), t) == TableOf(AssignManagerTo(b, t, u, x), t)
    ensures SameUsers(AssignManagerTo(a, t, u, x), AssignManagerTo(b, t, u, x), t)
  {
    hide Moved, AssignOutcome, Slice, WithSlice, SetManager;
    assert InTenant(b, t, u);
    OwnOutcome(a, b, t, u, x);
    if AssignOutcome(a, t, u, x) == Done {
      var a1, b1 := WithRows(a, t, Moved(a, t, u, x)), WithRows(b, t, Moved(b, t, u, x));
      WithRowsTable(a, t, Moved(a, t, u, x), t);
      WithRowsTable(b, t, Moved(b, t, u, x), t);
      SameUserRows(a, a1, b, b1, t);
      OwnEdge(a1, b1, t, u, x);
    }
  }

  lemma {:induction false} OwnUserAdded(a: Store, b: Store, id: Id, user: User)
    requires SameUsers(a, b, user.tenantId) && id !in a.users && id !in b.users
    ensures SameUsers(UserAdded(a, id, user), UserAdded(b, id, user), user.tenantId)
  {
  }

  lemma {:induction false} OwnUserJoined(a: Store, b: Store, id: Id, user: User, manager: Option<Id>)
    requires var t := user.tenantId; SameUsers(a, b, t) && TableOf(a, t) == TableOf(b, t)
    requires id !in a.users && id !in b.users
    requires Truthy(manager) ==> (manager.value in a.users <==> manager.value in b.users)
    ensures TableOf(UserJoined(a, id, user, manager), user.tenantId)
         == TableOf(UserJoined(b, id, user, manager), user.tenantId)
    ensures SameUsers(UserJoined(a, id, user, manager), UserJoined(b, id, user, manager), user.tenantId)
  {
    hide AddNodeTo, AssignManagerTo, Slice;
    var t := user.tenantId;
    var a1, b1 := UserAdded(a, id, user), UserAdded(b, id, user);
    OwnUserAdded(a, b, id, user);
    OwnAddNode(a1, b1, t, id);
    if Truthy(manager) {
      AddNodeUsers(a1, t, id);
      AddNodeUsers(b1, t, id);
      OwnAssign(AddNodeTo(a1, t, id), AddNodeTo(b1, t, id), t, id, manager.value);
    }
  }

  lemma {:induction false} SameEmails(a: Store, b: Store, t: Id, email: string)
    requires SameUsers(a, b, t)
    ensures EmailTaken(a, t, email) <==> EmailTaken(b, t, email)
  {
    if EmailTaken(a, t, email) {
      var u :| u in a.users && a.users[u].tenantId == t && a.users[u].email == email;
      assert InTenant(a, t, u);
    }
    if EmailTaken(b, t, email) {
      var u :| u in b.users && b.users[u].tenantId == t && b.users[u].email == email;
      assert InTenant(b, t, u);
    }
  }

  lemma {:induction false} OwnCreateUser(a: Store, b: Store, id: Id, user: User, manager: Option<Id>)
    requires SameView(a, b, user.tenantId) && id !in a.users && id !in b.users
    requires NamedAlike(a, b, CreateUser(id, user, manager))
    ensures SameView(CreateUserTo(a, id, user, manager), CreateUserTo(b, id, user, manager), user.tenantId)
  {
    hide SameRest, UserJoined, EmailTaken, SameRoles, SamePolicies, SameResources, SameStatus, Slice;
    SameEmails(a, b, user.tenantId, user.email);
    if !EmailTaken(a, user.tenantId, user.email) {
      CreateUserRest(a, id, user, manager);
      CreateUserRest(b, id, user, manager);
      OwnUserJoined(a, b, id, user, manager);
      JoinViews(a, UserJoined(a, id, user, manager), b, UserJoined(b, id, user, manager), user.tenantId);
    }
  }

  /** The new user gets a row under its manager exactly when the manager exists. */
  lemma {:induction false} ManagerRowOfNewUser(s: Store, id: Id, user: User, x: Id)
    requires KeysValid(s) && id !in s.users && x != "" && x != id
    ensures (x, id) in TableOf(UserJoined(s, id, user, Some(x)), user.tenantId) <==> x in s.users
  {
    hide AddNodeTo, AssignManagerTo, Slice;
    NewUserRows(s, id, user, x);
    AddNodeUsers(UserAdded(s, id, user), user.tenantId, id);
    ManagerRow(AddNodeTo(UserAdded(s, id, user), user.tenantId, id), user.tenantId, id, x);
  }

  lemma {:induction false} ManagerRow(s: Store, t: Id, u: Id, x: Id)
    requires u in s.users && u != x && (u, x) !in TableOf(s, t) && (x, u) !in TableOf(s, t)
    ensures (x, u) in TableOf(AssignManagerTo(s, t, u, x), t) <==> x in s.users
  {
    hide Reparent, Slice, WithSlice, SetManager;
    if x in s.users {
      NewManagerRow(Registered(s, t, u, x), u, x);
      WithRowsTable(s, t, Moved(s, t, u, x), t);
    }
  }

  /** Roles and permissions agree when the rows behind them do. */
  lemma {:induction false} RolesKept(a: Store, a': Store, b: Store, b': Store, t: Id)
    requires SameRoles(a, b, t)
    requires a'.roles == a.roles && a'.permissions == a.permissions
    requires b'.roles == b.roles && b'.permissions == b.permissions
    requires SameJoinRows(a', b', t)
    requires forall r :: RoleOf(a, t, r) ==> RoleNames(a', r) == RoleNames(b', r)
    ensures SameRoles(a', b', t)
  {
    hide RoleNames, SameJoinRows, SameRoleRows, SamePermissionRows;
    RoleRowsKept(a, a', b, b', t);
    PermissionRowsKept(a, a', b, b', t);
  }

  /** One tenant's write is accepted in both systems or in neither, or finds its row
      there already. */
  lemma {:induction false} OwnAccepted(a: Store, b: Store, op: Op, t: Id)
    requires SameView(a, b, t) && WriteOf(op).Some? && TenantOf(op) == t && NamedAlike(a, b, op)
    ensures var w := WriteOf(op).value;
      || (Accepted(a, w) <==> Accepted(b, w))
      || (w.GrantPermission? && Applied(a, w) == a && Applied(b, w) == b)
  {
    hide RoleNames, TableOf, SameUsers;
    match op {
      case AssignRole(t', u, r) =>
        UserShared(a, b, t', u);
      case AssignPermission(t', r, p) =>
        if (t', r, p) in a.rolePermissions {
          PresentRow(a, t', r, p);
          PresentRow(b, t', r, p);
        }
      case _ =>
    }
  }

  lemma {:induction false} UserShared(a: Store, b: Store, t: Id, u: Id)
    requires SameUsers(a, b, t)
    ensures InTenant(a, t, u) <==> InTenant(b, t, u)
  {
  }

  lemma {:induction false} PresentRow(s: Store, t: Id, r: Id, p: Id)
    requires (t, r, p) in s.rolePermissions
    ensures Applied(s, GrantPermission(t, r, p)) == s
  {
    assert s.rolePermissions + {(t, r, p)} == s.rolePermissions;
  }

  lemma {:induction false} OwnWrite(a: Store, b: Store, op: Op, t: Id)
    requires SameView(a, b, t) && WriteOf(op).Some? && TenantOf(op) == t && NamedAlike(a, b, op)
    ensures SameView(Step(a, op), Step(b, op), t)
  {
    hide TableOf, Applied, Accepted, SamePolicies, SameRoles, SameUsers, SameElse, NamedAlike;
    var w := WriteOf(op).value;
    OwnAccepted(a, b, op, t);
    if Accepted(a, w) <==> Accepted(b, w) {
      AppliedElse(a, w);
      AppliedElse(b, w);
      OwnPolicies(a, b, w, t);
      OwnRoles(a, b, w, t);
      ElseView(a, Applied(a, w), b, Applied(b, w), t);
    }
  }

  lemma {:induction false} OwnRoles(a: Store, b: Store, w: Write, t: Id)
    requires SameRoles(a, b, t) && WriteTenant(w) == t && (Accepted(a, w) <==> Accepted(b, w))
    ensures SameRoles(Applied(a, w), Applied(b, w), t)
  {
    hide RoleNames, SameRoleRows, SamePermissionRows, SameJoinRows, SameGrants;
    var a', b' := Applied(a, w), Applied(b, w);
    forall r | RoleOf(a, t, r) ensures RoleNames(a', r) == RoleNames(b', r) {
      assert RoleNames(a, r) == RoleNames(b, r) by { GrantsShared(a, b, t, r); }
      RoleNamesEffect(a, w, r);
      RoleNamesEffect(b, w, r);
      GrantedName(a, b, w, t);
    }
    OwnJoinRows(a, b, w, t);
    RolesKept(a, a', b, b', t);
  }

  lemma {:induction false} GrantsShared(a: Store, b: Store, t: Id, r: Id)
    requires SameGrants(a, b, t) && RoleOf(a, t, r)
    ensures RoleNames(a, r) == RoleNames(b, r)
  {
  }

  lemma {:induction false} OwnJoinRows(a: Store, b: Store, w: Write, t: Id)
    requires SameJoinRows(a, b, t) && (Accepted(a, w) <==> Accepted(b, w))
    ensures SameJoinRows(Applied(a, w), Applied(b, w), t)
  {
    hide Accepted;
  }

  lemma {:induction false} GrantedName(a: Store, b: Store, w: Write, t: Id)
    requires SameRoles(a, b, t) && WriteTenant(w) == t
    ensures w.GrantPermission? && Accepted(a, w) && Accepted(b, w) ==>
      a.permissions[w.permission].name == b.permissions[w.permission].name
  {
  }

  lemma {:induction false} OwnPolicies(a: Store, b: Store, w: Write, t: Id)
    requires SamePolicies(a, b, t) && (Accepted(a, w) <==> Accepted(b, w))
    ensures SamePolicies(Applied(a, w), Applied(b, w), t)
  {
  }

  lemma {:induction false} JoinViews(a: Store, a': Store, b: Store, b': Store, t: Id)
    requires SameView(a, b, t) && SameRest(a, a') && SameRest(b, b')
    requires SameUsers(a', b', t) && TableOf(a', t) == TableOf(b', t)
    ensures SameView(a', b', t)
  {
    hide Slice;
    RolesKept(a, a', b, b', t);
  }

  lemma {:induction false} SameRoleNamesTaken(a: Store, b: Store, t: Id, name: string)
    requires SameRoleRows(a, b, t)
    ensures RoleNameTaken(a, t, name) <==> RoleNameTaken(b, t, name)
  {
    if RoleNameTaken(a, t, name) {
      var r :| r in a.roles && a.roles[r] == Role(t, name);
      assert RoleOf(a, t, r);
    }
    if RoleNameTaken(b, t, name) {
      var r :| r in b.roles && b.roles[r] == Role(t, name);
      assert RoleOf(b, t, r);
    }
  }

  lemma {:induction false} SamePermissionNamesTaken(a: Store, b: Store, t: Id, name: string)
    requires SamePermissionRows(a, b, t)
    ensures PermissionNameTaken(a, t, name) <==> PermissionNameTaken(b, t, name)
  {
    if PermissionNameTaken(a, t, name) {
      var p :| p in a.permissions && a.permissions[p] == Permission(t, name);
      assert PermissionOf(a, t, p);
    }
    if PermissionNameTaken(b, t, name) {
      var p :| p in b.permissions && b.permissions[p] == Permission(t, name);
      assert PermissionOf(b, t, p);
    }
  }

  lemma {:induction false} OwnRole(a: Store, b: Store, t: Id, id: Id, name: string)
    requires SameView(a, b, t) && GrantsValid(a) && GrantsValid(b) && id !in a.roles && id !in b.roles
    ensures SameView(CreateRoleTo(a, t, id, name), CreateRoleTo(b, t, id, name), t)
  {
    hide RoleNameTaken, SameRoles, SameUsers, SamePolicies, SameResources, SameStatus, SameElse, TableOf, GrantsValid;
    OwnRoleRows(a, b, t, id, name);
    CreateRoleElse(a, t, id, name);
    CreateRoleElse(b, t, id, name);
    SamePoliciesStored(a, CreateRoleTo(a, t, id, name), b, CreateRoleTo(b, t, id, name), t);
    ElseView(a, CreateRoleTo(a, t, id, name), b, CreateRoleTo(b, t, id, name), t);
  }

  lemma {:induction false} OwnRoleRows(a: Store, b: Store, t: Id, id: Id, name: string)
    requires SameRoles(a, b, t) && GrantsValid(a) && GrantsValid(b) && id !in a.roles && id !in b.roles
    ensures SameRoles(CreateRoleTo(a, t, id, name), CreateRoleTo(b, t, id, name), t)
  {
    hide CreateRoleTo, RoleNames, SameRoleRows, SamePermissionRows, SameJoinRows, GrantsValid;
    var a', b' := CreateRoleTo(a, t, id, name), CreateRoleTo(b, t, id, name);
    CreateRoleElse(a, t, id, name);
    CreateRoleElse(b, t, id, name);
    JoinRowsKept(a, a', b, b', t);
    PermissionRowsKept(a, a', b, b', t);
    NewRoleRows(a, b, t, id, name);
    NewRoleNames(a, id);
    NewRoleNames(b, id);
    forall r | RoleOf(a', t, r) ensures RoleNames(a', r) == RoleNames(b', r) {
      NamesFrom(a, a', r);
      NamesFrom(b, b', r);
      assert r == id || RoleOf(a, t, r) by { NewRoleOf(a, t, id, name, r); }
    }
  }

  lemma {:induction false} NewRoleOf(s: Store, t: Id, id: Id, name: string, r: Id)
    requires RoleOf(CreateRoleTo(s, t, id, name), t, r)
    ensures r == id || RoleOf(s, t, r)
  {
    hide RoleNameTaken;
  }

  lemma {:induction false} NewRoleRows(a: Store, b: Store, t: Id, id: Id, name: string)
    requires SameRoleRows(a, b, t) && id !in a.roles && id !in b.roles
    ensures SameRoleRows(CreateRoleTo(a, t, id, name), CreateRoleTo(b, t, id, name), t)
  {
    hide RoleNameTaken;
    SameRoleNamesTaken(a, b, t, name);
  }

  lemma {:induction false} SamePoliciesStored(a: Store, a': Store, b: Store, b': Store, t: Id)
    requires SamePolicies(a, b, t) && a'.policies == a.policies && b'.policies == b.policies
    ensures SamePolicies(a', b', t)
  {
  }

  lemma {:induction false} OwnPermission(a: Store, b: Store, t: Id, id: Id, name: string)
    requires SameView(a, b, t) && GrantsValid(a) && GrantsValid(b) && id !in a.permissions && id !in b.permissions
    ensures SameView(CreatePermissionTo(a, t, id, name), CreatePermissionTo(b, t, id, name), t)
  {
    hide PermissionNameTaken, SameRoles, SameUsers, SamePolicies, SameResources, SameStatus, SameElse, TableOf;
    hide GrantsValid;
    OwnPermissionRows(a, b, t, id, name);
    CreatePermissionElse(a, t, id, name);
    CreatePermissionElse(b, t, id, name);
    SamePoliciesStored(a, CreatePermissionTo(a, t, id, name), b, CreatePermissionTo(b, t, id, name), t);
    ElseView(a, CreatePermissionTo(a, t, id, name), b, CreatePermissionTo(b, t, id, name), t);
  }

  lemma {:induction false} OwnPermissionRows(a: Store, b: Store, t: Id, id: Id, name: string)
    requires SameRoles(a, b, t) && GrantsValid(a) && GrantsValid(b) && id !in a.permissions && id !in b.permissions
    ensures SameRoles(CreatePermissionTo(a, t, id, name), CreatePermissionTo(b, t, id, name), t)
  {
    hide CreatePermissionTo, RoleNames, SameRoleRows, SamePermissionRows, SameJoinRows, GrantsValid;
    var a', b' := CreatePermissionTo(a, t, id, name), CreatePermissionTo(b, t, id, name);
    CreatePermissionElse(a, t, id, name);
    CreatePermissionElse(b, t, id, name);
    JoinRowsKept(a, a', b, b', t);
    RoleRowsKept(a, a', b, b', t);
    NewPermissionRows(a, b, t, id, name);
    forall r | RoleOf(a', t, r) ensures RoleNames(a', r) == RoleNames(b', r) {
      NewPermissionRoleNames(a, t, id, name, r);
      NewPermissionRoleNames(b, t, id, name, r);
      assert RoleOf(a, t, r);
    }
  }

  lemma {:induction false} NewPermissionRows(a: Store, b: Store, t: Id, id: Id, name: string)
    requires SamePermissionRows(a, b, t) && id !in a.permissions && id !in b.permissions
    ensures SamePermissionRows(CreatePermissionTo(a, t, id, name), CreatePermissionTo(b, t, id, name), t)
  {
    hide PermissionNameTaken;
    SamePermissionNamesTaken(a, b, t, name);
  }

  lemma {:induction false} SameChangeAccepted(a: Store, b: Store, t: Id, u: Id, changes: UserChanges)
    requires SameUsers(a, b, t)
    ensures ChangeAccepted(a, t, u, changes) <==> ChangeAccepted(b, t, u, changes)
  {
    assert InTenant(a, t, u) <==> InTenant(b, t, u);
    if changes.email.Some? {
      var email := changes.email.value;
      if EmailTakenByOther(a, t, email, u) {
        var v :| v in a.users && v != u && a.users[v].tenantId == t && a.users[v].email == email;
        assert InTenant(a, t, v);
      }
      if EmailTakenByOther(b, t, email, u) {
        var v :| v in b.users && v != u && b.users[v].tenantId == t && b.users[v].email == email;
        assert InTenant(b, t, v);
      }
    }
  }

  lemma {:induction false} OwnUpdateUsers(a: Store, b: Store, t: Id, u: Id, changes: UserChanges)
    requires SameUsers(a, b, t)
    ensures SameUsers(UpdateUserTo(a, t, u, changes), UpdateUserTo(b, t, u, changes), t)
  {
    hide EmailTakenByOther;
    SameChangeAccepted(a, b, t, u, changes);
  }

  lemma {:induction false} UpdateUserClosure(s: Store, t: Id, u: Id, changes: UserChanges)
    ensures UpdateUserTo(s, t, u, changes).closure == s.closure
  {
    hide ChangeAccepted;
  }

  lemma {:induction false} OwnUpdate(a: Store, b: Store, t: Id, u: Id, changes: UserChanges)
    requires SameView(a, b, t)
    ensures SameView(UpdateUserTo(a, t, u, changes), UpdateUserTo(b, t, u, changes), t)
  {
    hide UpdateUserTo, SameRest, SameUsers, SameRoles, SamePolicies, SameResources, SameStatus, Slice;
    OwnUpdateUsers(a, b, t, u, changes);
    UpdateUserRest(a, t, u, changes);
    UpdateUserRest(b, t, u, changes);
    UpdateUserClosure(a, t, u, changes);
    UpdateUserClosure(b, t, u, changes);
    JoinViews(a, UpdateUserTo(a, t, u, changes), b, UpdateUserTo(b, t, u, changes), t);
  }

  /** The tenant's own operation does the same to two stores that agree on it and on
      the ids it names. */
  lemma {:induction false} OwnStep(a: Store, b: Store, op: Op)
    requires SameView(a, b, TenantOf(op)) && Legal(a, op) && Legal(b, op) && NamedAlike(a, b, op)
    requires GrantsValid(a) && GrantsValid(b)
    ensures SameView(Step(a, op), Step(b, op), TenantOf(op))
  {
    hide SameRest, AddNodeTo, AssignManagerTo, CreateUserTo, Applied, TableOf;
    hide UpdateUserTo, CreateRoleTo, CreatePermissionTo, GrantsValid;
    hide SameRoles, SamePolicies, SameResources, SameStatus;
    match op {
      case CreateUser(id, user, manager) => OwnCreateUser(a, b, id, user, manager);
      case AddNode(t, u) =>
        AddNodeRest(a, t, u);
        AddNodeRest(b, t, u);
        OwnAddNode(a, b, t, u);
        JoinViews(a, AddNodeTo(a, t, u), b, AddNodeTo(b, t, u), t);
      case AssignManager(t, u, x) =>
        assert (InTenant(a, t, u) <==> InTenant(b, t, u)) && (InTenant(a, t, x) <==> InTenant(b, t, x));
        if InTenant(a, t, u) && InTenant(a, t, x) {
          AssignRest(a, t, u, x);
          AssignRest(b, t, u, x);
          OwnAssign(a, b, t, u, x);
          JoinViews(a, AssignManagerTo(a, t, u, x), b, AssignManagerTo(b, t, u, x), t);
        }
      case UpdateUser(t, u, changes) => OwnUpdate(a, b, t, u, changes);
      case CreateRole(t, r, name) => OwnRole(a, b, t, r, name);
      case CreatePermission(t, p, name) => OwnPermission(a, b, t, p, name);
      case CheckAccess(_) =>
      case _ => OwnWrite(a, b, op, TenantOf(op));
    }
  }

  lemma {:induction false} CreateUserTells(a: Store, b: Store, id: Id, user: User, manager: Option<Id>)
    requires KeysValid(a) && KeysValid(b) && id !in a.users && id !in b.users
    requires SameUsers(a, b, user.tenantId) && !NamedAlike(a, b, CreateUser(id, user, manager))
    ensures TableOf(CreateUserTo(a, id, user, manager), user.tenantId)
         != TableOf(CreateUserTo(b, id, user, manager), user.tenantId)
  {
    hide UserJoined, Slice, EmailTaken;
    SameEmails(a, b, user.tenantId, user.email);
    ManagerRowOfNewUser(a, id, user, manager.value);
    ManagerRowOfNewUser(b, id, user, manager.value);
  }

  lemma {:induction false} AssignPermissionTells(a: Store, b: Store, t: Id, r: Id, p: Id)
    requires SameRoles(a, b, t) && !NamedAlike(a, b, AssignPermission(t, r, p))
    ensures !((t, r, p) in Applied(a, GrantPermission(t, r, p)).rolePermissions <==>
              (t, r, p) in Applied(b, GrantPermission(t, r, p)).rolePermissions)
  {
  }

  /** Exactly: after the tenant's own operation two systems still agree on the tenant if
      and only if they agree on the ids the operation names. */
  lemma {:induction false} OwnStepExactly(a: Store, b: Store, op: Op)
    requires SameView(a, b, TenantOf(op)) && Legal(a, op) && Legal(b, op)
    requires KeysValid(a) && KeysValid(b) && GrantsValid(a) && GrantsValid(b)
    ensures SameView(Step(a, op), Step(b, op), TenantOf(op)) <==> NamedAlike(a, b, op)
  {
    if NamedAlike(a, b, op) {
      OwnStep(a, b, op);
    } else {
      hide AddNodeTo, CreateUserTo, Applied, TableOf, KeysValid, EmailTaken, PermissionOf, RoleNames;
      match op {
        case CreateUser(id, user, manager) => CreateUserTells(a, b, id, user, manager);
        case AddNode(t, u) =>
          SelfRow(a, t, u);
          SelfRow(b, t, u);
        case AssignPermission(t, r, p) => AssignPermissionTells(a, b, t, r, p);
      }
    }
  }

  // ---------------------------------------------------------------------------
  // Two runs
  // ---------------------------------------------------------------------------

  /** The operations of one tenant, in order. */
  function OwnOps(ops: seq<Op>, t: Id): seq<Op>
    decreases |ops|
  {
    if ops == [] then []
    else (if TenantOf(ops[0]) == t then [ops[0]] else []) + OwnOps(ops[1..], t)
  }

  /** The answers to one tenant's checks, in order; their number is the number of
      audit rows the tenant gains. */
  function OwnAnswers(s: Store, ops: seq<Op>, t: Id): seq<Answer>
    decreases |ops|
  {
    if ops == [] then []
    else
      (if ops[0].CheckAccess? && ops[0].request.tenantId == t then [Decide(s, ops[0].request)] else [])
      + OwnAnswers(Step(s, ops[0]), ops[1..], t)
  }

  /** Other tenants give the tenant's roles no new name, each time in the state met. */
  predicate UnnoticedRun(s: Store, ops: seq<Op>, t: Id)
    decreases |ops|
  {
    ops == [] || ((TenantOf(ops[0]) != t ==> Unnoticed(s, ops[0], t)) && UnnoticedRun(Step(s, ops[0]), ops[1..], t))
  }

  /** Each operation of the tenant names ids that exist alike in the two states it
      meets. */
  predicate NamedAlikeRuns(a: Store, ops: seq<Op>, b: Store, ops': seq<Op>, t: Id)
    decreases |ops| + |ops'|
  {
    if ops != [] && TenantOf(ops[0]) != t then NamedAlikeRuns(Step(a, ops[0]), ops[1..], b, ops', t)
    else if ops' != [] && TenantOf(ops'[0]) != t then NamedAlikeRuns(a, ops, Step(b, ops'[0]), ops'[1..], t)
    else if ops == [] || ops' == [] then true
    else NamedAlike(a, b, ops[0]) && NamedAlikeRuns(Step(a, ops[0]), ops[1..], Step(b, ops'[0]), ops'[1..], t)
  }

  lemma {:induction false} RestKeyed(s: Store, s': Store)
    requires Keyed(s) && SameRest(s, s')
    ensures Keyed(s')
  {
  }

  lemma {:induction false} RoleKeyed(s: Store, t: Id, r: Id, name: string)
    requires Keyed(s) && r !in s.roles
    ensures Keyed(CreateRoleTo(s, t, r, name))
  {
    hide RolesScoped, GrantsValid, RoleNameTaken;
    CreateRoleKeepsGrants(s, t, r, name);
  }

  lemma {:induction false} PermissionKeyed(s: Store, t: Id, p: Id, name: string)
    requires Keyed(s) && p !in s.permissions
    ensures Keyed(CreatePermissionTo(s, t, p, name))
  {
    hide RolesScoped, GrantsValid, PermissionNameTaken;
    CreatePermissionKeepsGrants(s, t, p, name);
  }

  lemma {:induction false} StepKeyed(s: Store, op: Op)
    requires Keyed(s) && Legal(s, op)
    ensures Keyed(Step(s, op))
  {
    hide Keyed, SameRest, AddNodeTo, AssignManagerTo, CreateUserTo, Applied;
    hide UpdateUserTo, CreateRoleTo, CreatePermissionTo;
    match op {
      case CreateUser(id, user, manager) =>
        CreateUserRest(s, id, user, manager);
        RestKeyed(s, CreateUserTo(s, id, user, manager));
      case AddNode(t, u) =>
        AddNodeRest(s, t, u);
        RestKeyed(s, AddNodeTo(s, t, u));
      case AssignManager(t, u, x) =>
        AssignRest(s, t, u, x);
        RestKeyed(s, AssignManagerTo(s, t, u, x));
      case UpdateUser(t, u, changes) =>
        UpdateUserRest(s, t, u, changes);
        RestKeyed(s, UpdateUserTo(s, t, u, changes));
      case CreateRole(t, r, name) => RoleKeyed(s, t, r, name);
      case CreatePermission(t, p, name) => PermissionKeyed(s, t, p, name);
      case CheckAccess(_) =>
      case _ => AppliedKeyed(s, WriteOf(op).value);
    }
  }

  lemma {:induction false} AppliedKeyed(s: Store, w: Write)
    requires Keyed(s)
    ensures Keyed(Applied(s, w))
  {
    AppliedKeepsScope(s, w);
    AppliedKeepsGrants(s, w);
  }

  /** Non-interference: start two systems that agree on tenant `t`, run the same
      operations of `t` in both, interleaved in any way with any operations of other
      tenants that give `t`'s roles no new name.  They end agreeing on `t`, and `t` got
      the same answers. */
  lemma {:induction false} TenantsDoNotInterfere(a: Store, ops: seq<Op>, b: Store, ops': seq<Op>, t: Id)
    requires SameView(a, b, t) && Keyed(a) && Keyed(b)
    requires LegalRun(a, ops) && LegalRun(b, ops')
    requires UnnoticedRun(a, ops, t) && UnnoticedRun(b, ops', t)
    requires OwnOps(ops, t) == OwnOps(ops', t) && NamedAlikeRuns(a, ops, b, ops', t)
    ensures SameView(Run(a, ops), Run(b, ops'), t)
    ensures OwnAnswers(a, ops, t) == OwnAnswers(b, ops', t)
    decreases |ops| + |ops'|
  {
    hide SameView, RolesScoped, GrantsValid, PoliciesKeyed, Step, Legal, NamedAlike, Unnoticed, Decide;
    if ops != [] && TenantOf(ops[0]) != t {
      var a' := Step(a, ops[0]);
      OtherStep(a, ops[0], t);
      StepKeyed(a, ops[0]);
      SameViewSymmetric(a, a', t);
      SameViewTransitive(a', a, b, t);
      TenantsDoNotInterfere(a', ops[1..], b, ops', t);
    } else if ops' != [] && TenantOf(ops'[0]) != t {
      var b' := Step(b, ops'[0]);
      OtherStep(b, ops'[0], t);
      StepKeyed(b, ops'[0]);
      SameViewTransitive(a, b, b', t);
      TenantsDoNotInterfere(a, ops, b', ops'[1..], t);
    } else if ops != [] {
      HeadsAgree(ops, ops', t);
      OwnStep(a, b, ops[0]);
      StepKeyed(a, ops[0]);
      StepKeyed(b, ops[0]);
      if ops[0].CheckAccess? { ViewDecides(a, b, ops[0].request); }
      TenantsDoNotInterfere(Step(a, ops[0]), ops[1..], Step(b, ops[0]), ops'[1..], t);
    } else {
      assert ops' == [];
    }
  }

  lemma {:induction false} HeadsAgree(ops: seq<Op>, ops': seq<Op>, t: Id)
    requires OwnOps(ops, t) == OwnOps(ops', t)
    requires ops != [] && TenantOf(ops[0]) == t
    requires ops' != [] ==> TenantOf(ops'[0]) == t
    ensures ops' != [] && ops[0] == ops'[0] && OwnOps(ops[1..], t) == OwnOps(ops'[1..], t)
  {
    assert OwnOps(ops, t)[0] == ops[0];
    assert OwnOps(ops, t)[1..] == OwnOps(ops[1..], t);
    assert OwnOps(ops', t)[1..] == OwnOps(ops'[1..], t);
  }

  // ---------------------------------------------------------------------------
  // Guards under which the conditions hold
  // ---------------------------------------------------------------------------

  /** Nothing of the others is noticed if permissions are granted to own roles. */
  lemma {:induction false} OwnGrantsUnnoticed(s: Store, ops: seq<Op>, t: Id)
    requires OwnGrantsRun(s, ops)
    ensures UnnoticedRun(s, ops, t)
    decreases |ops|
  {
    hide Step, RoleNames;
    if ops != [] {
      OwnGrantsUnnoticed(Step(s, ops[0]), ops[1..], t);
    }
  }

  /** The tenant's operations name only its own ids, each in the state it meets. */
  predicate SelfContainedRun(s: Store, ops: seq<Op>, t: Id)
    decreases |ops|
  {
    || ops == []
    || ((TenantOf(ops[0]) == t ==> SelfContained(s, ops[0])) && SelfContainedRun(Step(s, ops[0]), ops[1..], t))
  }

  /** If they do so in one run, they find the same in every other. */
  lemma {:induction false} SelfContainedRuns(a: Store, ops: seq<Op>, b: Store, ops': seq<Op>, t: Id)
    requires SameView(a, b, t) && Keyed(a) && Keyed(b)
    requires LegalRun(a, ops) && LegalRun(b, ops')
    requires UnnoticedRun(a, ops, t) && UnnoticedRun(b, ops', t)
    requires OwnOps(ops, t) == OwnOps(ops', t) && SelfContainedRun(a, ops, t)
    ensures NamedAlikeRuns(a, ops, b, ops', t)
    decreases |ops| + |ops'|
  {
    hide SameView, RolesScoped, GrantsValid, PoliciesKeyed, Step, Legal, NamedAlike, Unnoticed, SelfContained;
    if ops != [] && TenantOf(ops[0]) != t {
      var a' := Step(a, ops[0]);
      OtherStep(a, ops[0], t);
      StepKeyed(a, ops[0]);
      SameViewSymmetric(a, a', t);
      SameViewTransitive(a', a, b, t);
      SelfContainedRuns(a', ops[1..], b, ops', t);
    } else if ops' != [] && TenantOf(ops'[0]) != t {
      OtherStep(b, ops'[0], t);
      StepKeyed(b, ops'[0]);
      SameViewTransitive(a, b, Step(b, ops'[0]), t);
      SelfContainedRuns(a, ops, Step(b, ops'[0]), ops'[1..], t);
    } else if ops != [] {
      HeadsAgree(ops, ops', t);
      SelfContainedAlike(a, b, ops[0]);
      OwnStep(a, b, ops[0]);
      StepKeyed(a, ops[0]);
      StepKeyed(b, ops[0]);
      SelfContainedRuns(Step(a, ops[0]), ops[1..], Step(b, ops[0]), ops'[1..], t);
    }
  }

  /** Isolation under those guards: a tenant whose operations name its own ids, next to
      tenants that grant permissions to their own roles, cannot tell what they do. */
  lemma {:induction false} GuardedTenantsDoNotInterfere(a: Store, ops: seq<Op>, b: Store, ops': seq<Op>, t: Id)
    requires SameView(a, b, t) && Keyed(a) && Keyed(b)
    requires LegalRun(a, ops) && LegalRun(b, ops')
    requires OwnGrantsRun(a, ops) && OwnGrantsRun(b, ops')
    requires OwnOps(ops, t) == OwnOps(ops', t) && SelfContainedRun(a, ops, t)
    ensures SameView(Run(a, ops), Run(b, ops'), t)
    ensures OwnAnswers(a, ops, t) == OwnAnswers(b, ops', t)
  {
    hide SameView, Keyed, LegalRun, OwnOps, OwnGrantsRun, SelfContainedRun, Run, OwnAnswers;
    hide UnnoticedRun, NamedAlikeRuns;
    OwnGrantsUnnoticed(a, ops, t);
    OwnGrantsUnnoticed(b, ops', t);
    SelfContainedRuns(a, ops, b, ops', t);
    TenantsDoNotInterfere(a, ops, b, ops', t);
  }
}
