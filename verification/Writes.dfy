/** The writes that change what the cache holds, the facts the cache holds, and
    which facts each write can change. */
module Writes {
  import opened Domain
  import opened Tables

  datatype Write =
    | GrantRole(tenant: Id, user: Id, role: Id)
    | GrantPermission(tenant: Id, role: Id, permission: Id)
    | AddPolicy(policy: Policy)

  /** Granting a role looks up both ends in the tenant.  Granting a permission looks
      up the permission in the tenant but leaves the role to the foreign key, which
      only asks that it exist.  A policy's name is unique in its tenant. */
  predicate Accepted(s: Store, w: Write) {
    match w
    case GrantRole(t, u, r) => RoleOf(s, t, r) && InTenant(s, t, u)
    case GrantPermission(t, r, p) => PermissionOf(s, t, p) && r in s.roles
    case AddPolicy(p) => (p.tenantId, p.name) !in s.policies
  }

  function Applied(s: Store, w: Write): Store {
    if !Accepted(s, w) then s
    else match w
      case GrantRole(t, u, r) => s.(userRoles := s.userRoles + {(t, u, r)})
      case GrantPermission(t, r, p) => s.(rolePermissions := s.rolePermissions + {(t, r, p)})
      case AddPolicy(p) => s.(policies := s.policies[(p.tenantId, p.name) := p])
  }

  function WriteTenant(w: Write): Id {
    match w
    case AddPolicy(p) => p.tenantId
    case _ => w.tenant
  }

  // ---------------------------------------------------------------------------
  // Cached facts
  // ---------------------------------------------------------------------------

  datatype Key = PermissionsOf(tenant: Id, user: Id)
               | PoliciesFor(tenant: Id, action: string, resourceType: string)

  datatype Fact = Names(names: set<string>) | Policies(policies: set<Policy>)

  /** What the database says about a key. */
  function Truth(s: Store, k: Key): Fact {
    match k
    case PermissionsOf(t, u) => Names(NamesOf(s, t, u))
    case PoliciesFor(t, a, r) => Policies(Applicable(s, t, a, r))
  }

  /** The keys dropped after a write: one user's, or a whole tenant's of one kind. */
  predicate Invalidates(w: Write, k: Key) {
    match w
    case GrantRole(t, u, _) => k == PermissionsOf(t, u)
    case GrantPermission(t, _, _) => k.PermissionsOf? && k.tenant == t
    case AddPolicy(p) => k.PoliciesFor? && k.tenant == p.tenantId
  }

  /** Users hold roles of their own tenant only. */
  ghost predicate RolesScoped(s: Store) {
    forall ur :: ur in s.userRoles ==> RoleOf(s, ur.0, ur.2)
  }

  /** Foreign keys of the grants. */
  ghost predicate GrantsValid(s: Store) {
    forall rp :: rp in s.rolePermissions ==> rp.1 in s.roles && rp.2 in s.permissions
  }

  /** Whoever gains the name of an accepted permission grant without being a user of the
      granting tenant had it before. */
  ghost predicate Contained(s: Store, w: Write) {
    w.GrantPermission? && Accepted(s, w) ==>
      forall t, u :: (t, u, w.role) in s.userRoles && t != w.tenant ==>
        s.permissions[w.permission].name in NamesOf(s, t, u)
  }

  lemma {:induction false} AppliedKeepsScope(s: Store, w: Write)
    requires RolesScoped(s)
    ensures RolesScoped(Applied(s, w))
  {
  }

  lemma {:induction false} AppliedKeepsGrants(s: Store, w: Write)
    requires GrantsValid(s)
    ensures GrantsValid(Applied(s, w))
  {
  }

  /** No grant ever takes a name away. */
  lemma {:induction false} WritesOnlyAdd(s: Store, w: Write, t: Id, u: Id)
    ensures NamesOf(s, t, u) <= NamesOf(Applied(s, w), t, u)
  {
  }

  lemma {:induction false} GrantRoleFrame(s: Store, t: Id, u: Id, r: Id, t': Id, u': Id)
    requires (t', u') != (t, u)
    ensures NamesOf(Applied(s, GrantRole(t, u, r)), t', u') == NamesOf(s, t', u')
  {
  }

  /** A role assignment gives the user the names of the role, and no other. */
  lemma {:induction false} GrantRoleEffect(s: Store, t: Id, u: Id, r: Id)
    requires Accepted(s, GrantRole(t, u, r))
    ensures NamesOf(Applied(s, GrantRole(t, u, r)), t, u) == NamesOf(s, t, u) + RoleNames(s, r)
  {
    hide NamesOf, RoleNames;
    var s' := Applied(s, GrantRole(t, u, r));
    forall name ensures name in NamesOf(s', t, u) <==> name in NamesOf(s, t, u) || name in RoleNames(s, r) {
      NamesByRole(s, t, u, name);
      NamesByRole(s', t, u, name);
      assert (t, u, r) in s'.userRoles;
      forall x ensures RoleNames(s', x) == RoleNames(s, x) { NamesFrom(s, s', x); }
    }
  }

  /** A user's names are the names of the roles it holds. */
  lemma {:induction false} NamesByRole(s: Store, t: Id, u: Id, name: string)
    ensures name in NamesOf(s, t, u) <==> exists r :: (t, u, r) in s.userRoles && name in RoleNames(s, r)
  {
    if name in NamesOf(s, t, u) {
      var ur, rp :| ur in s.userRoles && rp in s.rolePermissions && ur.0 == t && ur.1 == u
        && rp.1 == ur.2 && rp.2 in s.permissions && s.permissions[rp.2].name == name;
      assert (t, u, ur.2) in s.userRoles && name in RoleNames(s, ur.2);
    }
    if r :| (t, u, r) in s.userRoles && name in RoleNames(s, r) {
      var rp :| rp in s.rolePermissions && rp.1 == r && rp.2 in s.permissions && s.permissions[rp.2].name == name;
      assert (t, u, r).2 == rp.1;
    }
  }

  /** The names of a role depend on grants and permissions alone. */
  lemma {:induction false} NamesFrom(s: Store, s': Store, r: Id)
    requires s'.rolePermissions == s.rolePermissions && s'.permissions == s.permissions
    ensures RoleNames(s', r) == RoleNames(s, r)
  {
  }

  /** What a write does to the names of a role. */
  lemma {:induction false} RoleNamesEffect(s: Store, w: Write, r: Id)
    ensures RoleNames(Applied(s, w), r) == RoleNames(s, r)
      + if w.GrantPermission? && Accepted(s, w) && w.role == r then {s.permissions[w.permission].name} else {}
  {
    if w.GrantPermission? && Accepted(s, w) {
      var row := (w.tenant, w.role, w.permission);
      assert row in Applied(s, w).rolePermissions;
      forall name ensures name in RoleNames(Applied(s, w), r) <==>
        name in RoleNames(s, r) || (w.role == r && name == s.permissions[w.permission].name)
      {
        if name in RoleNames(s, r) {
          var rp :| rp in s.rolePermissions && rp.1 == r && rp.2 in s.permissions && s.permissions[rp.2].name == name;
          assert rp in Applied(s, w).rolePermissions;
        }
      }
    }
  }

  /** A permission grant adds one name to exactly the holders of the role. */
  lemma {:induction false} GrantPermissionEffect(s: Store, t: Id, r: Id, p: Id, t': Id, u': Id)
    requires Accepted(s, GrantPermission(t, r, p))
    ensures NamesOf(Applied(s, GrantPermission(t, r, p)), t', u')
         == NamesOf(s, t', u') + if (t', u', r) in s.userRoles then {s.permissions[p].name} else {}
  {
  }

  lemma {:induction false} AddPolicyEffect(s: Store, p: Policy, t: Id, a: string, r: string)
    requires Accepted(s, AddPolicy(p))
    ensures Applicable(Applied(s, AddPolicy(p)), t, a, r)
         == Applicable(s, t, a, r) + if Applies(p, t, a, r) then {p} else {}
  {
    var s' := Applied(s, AddPolicy(p));
    var k := (p.tenantId, p.name);
    forall x ensures x in Applicable(s', t, a, r) <==>
      x in Applicable(s, t, a, r) || (x == p && Applies(p, t, a, r))
    {
      if x in Applicable(s, t, a, r) {
        var j :| j in s.policies && Applies(s.policies[j], t, a, r) && s.policies[j] == x;
        assert j in s'.policies && s'.policies[j] == x;
      }
      if x == p && Applies(p, t, a, r) {
        assert k in s'.policies && s'.policies[k] == x;
      }
    }
  }

  /** In particular a grant that names no role of another tenant. */
  lemma {:induction false} OwnRoleContained(s: Store, w: Write)
    requires RolesScoped(s) && (w.GrantPermission? && w.role in s.roles ==> RoleOf(s, w.tenant, w.role))
    ensures Contained(s, w)
  {
    if w.GrantPermission? && w.role in s.roles {
      forall t, u | (t, u, w.role) in s.userRoles ensures t == w.tenant {
        assert RoleOf(s, (t, u, w.role).0, (t, u, w.role).2);
      }
    }
  }

  /** What a write changes, key by key: nothing it invalidates is missed, unless a
      permission grant gives a new name to a user of another tenant. */
  lemma {:induction false} UncoveredKey(s: Store, w: Write, k: Key)
    requires !Invalidates(w, k)
    ensures Truth(Applied(s, w), k) == Truth(s, k) <==>
      (w.GrantPermission? && Accepted(s, w) && k.PermissionsOf? && (k.tenant, k.user, w.role) in s.userRoles ==>
         s.permissions[w.permission].name in NamesOf(s, k.tenant, k.user))
  {
    hide NamesOf, Applicable;
    if Accepted(s, w) {
      match (w, k) {
        case (GrantRole(t, u, r), PermissionsOf(t', u')) => GrantRoleFrame(s, t, u, r, t', u');
        case (GrantPermission(t, r, p), PermissionsOf(t', u')) => GrantPermissionEffect(s, t, r, p, t', u');
        case (AddPolicy(p), PoliciesFor(t, a, r)) => AddPolicyEffect(s, p, t, a, r);
        case _ => OtherKind(s, w, k);
      }
    }
  }

  lemma {:induction false} OtherKind(s: Store, w: Write, k: Key)
    requires w.AddPolicy? <==> k.PermissionsOf?
    ensures Truth(Applied(s, w), k) == Truth(s, k)
  {
  }

  /** A write leaves every fact outside its invalidation unchanged exactly when it is
      contained: the invalidations of role grants and new policies never miss a key,
      and those of permission grants miss exactly the users of other tenants who gain
      the name. */
  lemma {:induction false} InvalidationCoversExactly(s: Store, w: Write)
    ensures (forall k :: !Invalidates(w, k) ==> Truth(Applied(s, w), k) == Truth(s, k)) <==> Contained(s, w)
  {
    hide Truth, NamesOf, Applied;
    forall k | !Invalidates(w, k) && Contained(s, w) ensures Truth(Applied(s, w), k) == Truth(s, k) {
      UncoveredKey(s, w, k);
    }
    if w.GrantPermission? && Accepted(s, w)
      && forall k :: !Invalidates(w, k) ==> Truth(Applied(s, w), k) == Truth(s, k)
    {
      forall t, u | (t, u, w.role) in s.userRoles && t != w.tenant
        ensures s.permissions[w.permission].name in NamesOf(s, t, u)
      {
        var k := PermissionsOf(t, u);
        assert !Invalidates(w, k);
        UncoveredKey(s, w, k);
      }
    }
  }
}
