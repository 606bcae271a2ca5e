/** Giving a user a permission from scratch: create a role and a permission, grant the one
    to the other, assign the role. */
module Provisioning {
  import opened Domain
  import opened Tables
  import opened Decisions
  import opened AccessSpec
  import opened Writes
  import opened HierarchySpec
  import opened SystemRuns

  /** The four operations, by one tenant. */
  function Provision(t: Id, r: Id, roleName: string, p: Id, name: string, u: Id): seq<Op> {
    [CreateRole(t, r, roleName), CreatePermission(t, p, name), AssignPermission(t, r, p), AssignRole(t, u, r)]
  }

  /** New ids, and names the tenant does not have. */
  predicate Provisionable(s: Store, t: Id, r: Id, roleName: string, p: Id, name: string, u: Id) {
    && r !in s.roles && p !in s.permissions && InTenant(s, t, u)
    && !RoleNameTaken(s, t, roleName) && !PermissionNameTaken(s, t, name)
  }

  /** The store after the four, field by field. */
  lemma {:induction false} Provisioned(s: Store, t: Id, r: Id, roleName: string, p: Id, name: string, u: Id)
    requires Provisionable(s, t, r, roleName, p, name, u)
    ensures Run(s, Provision(t, r, roleName, p, name, u)) == s.(
      roles := s.roles[r := Role(t, roleName)],
      permissions := s.permissions[p := Permission(t, name)],
      rolePermissions := s.rolePermissions + {(t, r, p)},
      userRoles := s.userRoles + {(t, u, r)})
  {
    hide Step, RoleNameTaken, PermissionNameTaken, Run;
    var s1 := s.(roles := s.roles[r := Role(t, roleName)]);
    var s2 := s1.(permissions := s1.permissions[p := Permission(t, name)]);
    var s3 := s2.(rolePermissions := s2.rolePermissions + {(t, r, p)});
    var s4 := s3.(userRoles := s3.userRoles + {(t, u, r)});
    RoleStep(s, t, r, roleName);
    assert !PermissionNameTaken(s1, t, name) by { SamePermissions(s, s1, t, name); }
    PermissionStep(s1, t, p, name);
    GrantStep(s2, t, r, p);
    AssignStep(s3, t, u, r);
    FourSteps(s, s1, s2, s3, s4, CreateRole(t, r, roleName), CreatePermission(t, p, name),
              AssignPermission(t, r, p), AssignRole(t, u, r));
  }

  lemma {:induction false} SamePermissions(s: Store, s': Store, t: Id, name: string)
    requires s'.permissions == s.permissions
    ensures PermissionNameTaken(s', t, name) == PermissionNameTaken(s, t, name)
  {
  }

  lemma {:induction false} RoleStep(s: Store, t: Id, r: Id, name: string)
    requires !RoleNameTaken(s, t, name)
    ensures Step(s, CreateRole(t, r, name)) == s.(roles := s.roles[r := Role(t, name)])
  {
    hide RoleNameTaken;
  }

  lemma {:induction false} PermissionStep(s: Store, t: Id, p: Id, name: string)
    requires !PermissionNameTaken(s, t, name)
    ensures Step(s, CreatePermission(t, p, name)) == s.(permissions := s.permissions[p := Permission(t, name)])
  {
    hide PermissionNameTaken;
  }

  lemma {:induction false} GrantStep(s: Store, t: Id, r: Id, p: Id)
    requires PermissionOf(s, t, p) && r in s.roles
    ensures Step(s, AssignPermission(t, r, p)) == s.(rolePermissions := s.rolePermissions + {(t, r, p)})
  {
  }

  lemma {:induction false} AssignStep(s: Store, t: Id, u: Id, r: Id)
    requires RoleOf(s, t, r) && InTenant(s, t, u)
    ensures Step(s, AssignRole(t, u, r)) == s.(userRoles := s.userRoles + {(t, u, r)})
  {
  }

  lemma {:induction false} FourSteps(s: Store, s1: Store, s2: Store, s3: Store, s4: Store, a: Op, b: Op, c: Op, d: Op)
    requires s1 == Step(s, a) && s2 == Step(s1, b) && s3 == Step(s2, c) && s4 == Step(s3, d)
    ensures Run(s, [a, b, c, d]) == s4
  {
    hide Step;
    assert [a, b, c, d][1..] == [b, c, d] && [b, c, d][1..] == [c, d] && [c, d][1..] == [d] && [d][1..] == [];
    assert Run(s4, []) == s4;
    assert Run(s3, [d]) == s4;
    assert Run(s2, [c, d]) == s4;
    assert Run(s1, [b, c, d]) == s4;
  }

  /** Provisioning gives exactly the one name to exactly the one user: from any consistent
      state the user's names grow by it, and nobody else's change. */
  lemma {:induction false} ProvisioningGivesExactly(
      s: Store, t: Id, r: Id, roleName: string, p: Id, name: string, u: Id, t': Id, u': Id)
    requires Inv(s) && Provisionable(s, t, r, roleName, p, name, u)
    ensures var s' := Run(s, Provision(t, r, roleName, p, name, u));
      NamesOf(s', t', u') == NamesOf(s, t', u') + if (t', u') == (t, u) then {name} else {}
  {
    hide OrgConsistent, UsersRegistered, NamesOf, RoleNames, Run, RoleNameTaken, PermissionNameTaken;
    var s' := Run(s, Provision(t, r, roleName, p, name, u));
    Provisioned(s, t, r, roleName, p, name, u);
    forall n ensures n in NamesOf(s', t', u') <==> n in NamesOf(s, t', u') || ((t', u') == (t, u) && n == name) {
      NamesByRole(s, t', u', n);
      NamesByRole(s', t', u', n);
      NewRoleCarries(s, s', t, r, p, name);
      forall x | x in s.roles ensures RoleNames(s', x) == RoleNames(s, x) { OldRoleCarries(s, s', t, r, p, name, x); }
      if x :| (t', u', x) in s.userRoles && n in RoleNames(s, x) {
        assert RoleOf(s, (t', u', x).0, (t', u', x).2);
        assert (t', u', x) in s'.userRoles && n in RoleNames(s', x);
      }
      if x :| (t', u', x) in s'.userRoles && n in RoleNames(s', x) {
        if (t', u', x) in s.userRoles { assert RoleOf(s, (t', u', x).0, (t', u', x).2); }
      }
      if (t', u') == (t, u) { assert (t', u', r) in s'.userRoles; }
    }
  }

  lemma {:induction false} NewRoleCarries(s: Store, s': Store, t: Id, r: Id, p: Id, name: string)
    requires GrantsValid(s) && r !in s.roles
    requires s'.rolePermissions == s.rolePermissions + {(t, r, p)}
    requires s'.permissions == s.permissions[p := Permission(t, name)]
    ensures RoleNames(s', r) == {name}
  {
    assert (t, r, p) in s'.rolePermissions;
  }

  lemma {:induction false} OldRoleCarries(s: Store, s': Store, t: Id, r: Id, p: Id, name: string, x: Id)
    requires GrantsValid(s) && r !in s.roles && p !in s.permissions && x in s.roles
    requires s'.rolePermissions == s.rolePermissions + {(t, r, p)}
    requires s'.permissions == s.permissions[p := Permission(t, name)]
    ensures RoleNames(s', x) == RoleNames(s, x)
  {
  }

  /** So afterwards the user holds the permission for a request exactly when it held it
      before or the name is the action's or one of the two wildcards that cover it. */
  lemma {:induction false} ProvisionedPermission(
      s: Store, t: Id, r: Id, roleName: string, p: Id, name: string, u: Id, q: Request)
    requires Inv(s) && Provisionable(s, t, r, roleName, p, name, u)
    requires q.tenantId == t && q.subjectUserId == u
    ensures HasPermission(Run(s, Provision(t, r, roleName, p, name, u)), q) <==>
      HasPermission(s, q) || name == "*" || name == q.action || name == q.resourceType + ".*"
  {
    hide Inv, NamesOf, Run, Provisionable;
    ProvisioningGivesExactly(s, t, r, roleName, p, name, u, t, u);
  }
}
