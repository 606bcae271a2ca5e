/** The administrative operations that write rows of their own and drop nothing from the
    cache: creating roles and permissions, and changing a user's attributes. */
module AdminSpec {
  import opened Domain
  import opened ClosureTable
  import opened Tables
  import opened HierarchySpec
  import opened Writes

  // ---------------------------------------------------------------------------
  // Roles and permissions
  // ---------------------------------------------------------------------------

  /** `id` is generated; a name the tenant has already is refused. */
  function CreateRoleTo(s: Store, t: Id, id: Id, name: string): Store {
    if RoleNameTaken(s, t, name) then s else s.(roles := s.roles[id := Role(t, name)])
  }

  function CreatePermissionTo(s: Store, t: Id, id: Id, name: string): Store {
    if PermissionNameTaken(s, t, name) then s else s.(permissions := s.permissions[id := Permission(t, name)])
  }

  lemma {:induction false} CreateRoleKeepsGrants(s: Store, t: Id, id: Id, name: string)
    requires GrantsValid(s) && RolesScoped(s) && id !in s.roles
    ensures GrantsValid(CreateRoleTo(s, t, id, name)) && RolesScoped(CreateRoleTo(s, t, id, name))
  {
    hide RoleNameTaken;
  }

  lemma {:induction false} CreatePermissionKeepsGrants(s: Store, t: Id, id: Id, name: string)
    requires GrantsValid(s) && RolesScoped(s) && id !in s.permissions
    ensures GrantsValid(CreatePermissionTo(s, t, id, name)) && RolesScoped(CreatePermissionTo(s, t, id, name))
  {
    hide PermissionNameTaken;
  }

  /** A new permission is granted to nobody: no role gets a name by it ... */
  lemma {:induction false} NewPermissionRoleNames(s: Store, t: Id, id: Id, name: string, r: Id)
    requires GrantsValid(s) && id !in s.permissions
    ensures RoleNames(CreatePermissionTo(s, t, id, name), r) == RoleNames(s, r)
  {
    hide PermissionNameTaken;
  }

  /** ... and a new role carries none. */
  lemma {:induction false} NewRoleNames(s: Store, id: Id)
    requires GrantsValid(s) && id !in s.roles
    ensures RoleNames(s, id) == {}
  {
  }

  /** So creating either changes no cached fact, and needs no invalidation. */
  lemma {:induction false} NewRoleTruth(s: Store, t: Id, id: Id, name: string, k: Key)
    ensures Truth(CreateRoleTo(s, t, id, name), k) == Truth(s, k)
  {
    hide RoleNameTaken;
  }

  lemma {:induction false} NewPermissionTruth(s: Store, t: Id, id: Id, name: string, k: Key)
    requires GrantsValid(s) && id !in s.permissions
    ensures Truth(CreatePermissionTo(s, t, id, name), k) == Truth(s, k)
  {
    hide PermissionNameTaken;
  }

  // ---------------------------------------------------------------------------
  // Attributes of users
  // ---------------------------------------------------------------------------

  /** A patch: an absent field stays as it is, a nullable one may be set to null.  The
      manager is not among them; it changes with the closure table only. */
  datatype UserChanges = UserChanges(
    email: Option<string>,
    departmentId: Option<Option<string>>,
    location: Option<Option<string>>,
    clearance: Option<Clearance>,
    status: Option<EmploymentStatus>)

  function Patch<T>(change: Option<T>, current: T): T {
    if change.Some? then change.value else current
  }

  function Patched(u: User, ch: UserChanges): User {
    User(u.tenantId, Patch(ch.email, u.email), u.managerId, Patch(ch.departmentId, u.departmentId),
         Patch(ch.location, u.location), Patch(ch.clearance, u.clearance), Patch(ch.status, u.status))
  }

  /** Another user of the tenant has the e-mail. */
  predicate EmailTakenByOther(s: Store, t: Id, email: string, id: Id) {
    exists u | u in s.users :: u != id && s.users[u].tenantId == t && s.users[u].email == email
  }

  predicate ChangeAccepted(s: Store, t: Id, id: Id, ch: UserChanges) {
    InTenant(s, t, id) && (ch.email.Some? ==> !EmailTakenByOther(s, t, ch.email.value, id))
  }

  function UpdateUserTo(s: Store, t: Id, id: Id, ch: UserChanges): Store {
    if ChangeAccepted(s, t, id, ch) then s.(users := s.users[id := Patched(s.users[id], ch)]) else s
  }

  /** The edges depend on tenant and manager alone. */
  lemma {:induction false} EdgesFrom(users: map<Id, User>, users': map<Id, User>, r: Id)
    requires users'.Keys == users.Keys
    requires forall u :: u in users ==>
               users'[u].tenantId == users[u].tenantId && users'[u].managerId == users[u].managerId
    ensures EdgesOf(users', r) == EdgesOf(users, r)
  {
    assert forall u :: u in users' <==> u in users;
  }

  lemma {:induction false} UpdateUserEdges(s: Store, t: Id, id: Id, ch: UserChanges, r: Id)
    ensures OrgOf(UpdateUserTo(s, t, id, ch), r) == OrgOf(s, r)
  {
    hide EmailTakenByOther, EdgesOf;
    EdgesFrom(s.users, UpdateUserTo(s, t, id, ch).users, r);
  }

  /** Changing attributes keeps every closure exact and every user registered. */
  lemma {:induction false} UpdateUserKeeps(s: Store, t: Id, id: Id, ch: UserChanges)
    requires OrgConsistent(s) && UsersRegistered(s)
    ensures OrgConsistent(UpdateUserTo(s, t, id, ch)) && UsersRegistered(UpdateUserTo(s, t, id, ch))
  {
    hide IsClosure, Slice, EdgesOf, EmailTakenByOther;
    var s' := UpdateUserTo(s, t, id, ch);
    forall r ensures IsClosure(TableOf(s', r), OrgOf(s', r)) { UpdateUserEdges(s, t, id, ch, r); }
  }
}
