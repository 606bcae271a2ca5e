/** The assembled system, driven through whole histories: cached, table-backed, one
    operation at a time. */
module History {
  import opened Domain
  import opened Tables
  import opened Decisions
  import opened AccessSpec
  import opened CacheKeys
  import opened CacheService
  import opened CacheCoherence
  import opened Query
  import opened Writes
  import opened Database
  import opened PermissionServices
  import opened PolicyServices
  import opened UserServices
  import opened AuthorizationService
  import opened SystemRuns
  import opened HierarchySpec
  import opened AdminSpec

  /** The deletions of an administrative write reach every key in use whose fact it
      changes; they always do unless a permission crosses tenants. */
  ghost predicate Within(s: Store, op: Op, ks: set<Key>) {
    WriteOf(op).Some? ==> Reaches(s, WriteOf(op).value, ks)
  }

  ghost predicate WithinRun(s: Store, ops: seq<Op>, ks: set<Key>)
    decreases |ops|
  {
    ops == [] || (Within(s, ops[0], ks) && WithinRun(Step(s, ops[0]), ops[1..], ks))
  }

  /** The cache keys the checks of a history use. */
  function KeysUsed(ops: seq<Op>): set<Key> {
    set op, k | op in ops && op.CheckAccess? && k in KeysOfCheck(op.request) :: k
  }

  ghost predicate Agrees(d: Decision, a: Answer) {
    d.effect == a.effect && Lists(d.matchedPolicies, a.matched)
  }

  class Iam {
    const db: Database
    const cache: CacheService<Cached>
    const authorization: AuthorizationService
    const users: UsersService
    const roles: RolesService
    const permissions: PermissionsService
    const policies: PoliciesService

    constructor (s: Store)
      ensures Wired() && fresh(db) && fresh(cache) && fresh(authorization)
      ensures db.Snapshot() == s && db.audit == [] && cache.store == map[]
    {
      var db' := new Database(s);
      var cache' := new CacheService<Cached>();
      var authorization' := new AuthorizationService(db', cache');
      var users' := new UsersService(authorization'.hierarchy);
      var roles' := new RolesService(db', cache');
      var permissions' := new PermissionsService(authorization'.permissions);
      var policies' := new PoliciesService(db', cache');
      db, cache, authorization, users := db', cache', authorization', users';
      roles, permissions, policies := roles', permissions', policies';
    }

    predicate Wired() {
      && authorization.Wired() && authorization.db == db && authorization.cache == cache
      && users.db == db && users.hierarchy.db == db
      && roles.db == db && roles.cache == cache
      && permissions.repository.db == db && permissions.cache == cache
      && policies.db == db && policies.cache == cache
    }

    /** One administrative write through its service. */
    method PerformWrite(op: Op, ghost ks: set<Key>)
      requires Wired() && WriteOf(op).Some? && Within(db.Snapshot(), op, ks)
      requires Coherent(cache.store, db.Snapshot(), ks)
      modifies db`userRoles, db`rolePermissions, db`policies, cache
      ensures db.Snapshot() == Step(old(db.Snapshot()), op)
      ensures Coherent(cache.store, db.Snapshot(), ks)
    {
      hide Coherent, Applied, Accepted, Reaches;
      ghost var s, c := db.Snapshot(), cache.store;
      ghost var w := WriteOf(op).value;
      match op {
        case AssignRole(t, u, r) =>
          var _ := roles.AssignRole(t, u, r);
        case AssignPermission(t, r, p) =>
          var _ := permissions.AssignPermission(t, r, p);
        case CreatePolicy(t, input) =>
          var _ := policies.Create(t, input);
      }
      RefusedWrite(s, w);
      CoherentWrite(c, s, w, ks);
    }

    /** The creation of a role or a permission through its service. */
    method PerformCreation(op: Op)
      requires Wired() && (op.CreateRole? || op.CreatePermission?) && Legal(db.Snapshot(), op)
      modifies db`roles, db`permissions
      ensures db.Snapshot() == Step(old(db.Snapshot()), op)
    {
      hide RoleNameTaken, PermissionNameTaken;
      match op {
        case CreateRole(t, r, name) =>
          var _ := roles.Create(t, r, name);
        case CreatePermission(t, p, name) =>
          var _ := permissions.Create(t, p, name);
      }
    }

    /** One operation on users through its service. */
    method PerformUsers(op: Op)
      requires Wired() && (op.CreateUser? || op.AddNode? || op.AssignManager? || op.UpdateUser?)
      requires Legal(db.Snapshot(), op) && Inv(db.Snapshot())
      modifies db`users, db`closure
      ensures db.Snapshot() == Step(old(db.Snapshot()), op)
    {
      match op {
        case CreateUser(id, user, manager) =>
          var _ := users.Create(id, user, manager);
        case AddNode(t, u) =>
          var _ := users.hierarchy.AddNode(t, u);
        case AssignManager(t, u, x) =>
          var _ := users.AssignManager(t, u, x);
        case UpdateUser(t, u, changes) =>
          var _ := users.Update(t, u, changes);
      }
    }

    /** One operation of a history. */
    method Perform(op: Op, times: Times, ghost ks: set<Key>) returns (decision: Option<Decision>)
      requires Wired() && Legal(db.Snapshot(), op) && Within(db.Snapshot(), op, ks)
      requires Apart(ks) && (op.CheckAccess? ==> KeysOfCheck(op.request) <= ks)
      requires Inv(db.Snapshot()) && Coherent(cache.store, db.Snapshot(), ks)
      modifies db, cache, authorization
      ensures db.Snapshot() == Step(old(db.Snapshot()), op)
      ensures Inv(db.Snapshot()) && Coherent(cache.store, db.Snapshot(), ks)
      ensures decision.Some? <==> op.CheckAccess?
      ensures decision.Some? ==> Agrees(decision.value, Decide(old(db.Snapshot()), op.request))
      ensures |db.audit| == |old(db.audit)| + if op.CheckAccess? then 1 else 0
    {
      hide Coherent, Inv, Step, Decide, Within, Apart;
      ghost var s := db.Snapshot();
      StepKeeps(s, op);
      decision := None;
      if op.CheckAccess? {
        InvConsistent(s);
        var d := authorization.CheckAccess(op.request, times, ks);
        CheckIsNoStep(s, op);
        decision := Some(d);
      } else if op.CreateUser? || op.AddNode? || op.AssignManager? || op.UpdateUser? {
        PerformUsers(op);
        UsersStepRest(s, op);
        CoherentFrame(cache.store, s, db.Snapshot(), ks);
      } else if op.CreateRole? || op.CreatePermission? {
        PerformCreation(op);
        CreationCoherent(cache.store, s, op, ks);
      } else {
        PerformWrite(op, ks);
      }
    }

    /** Every history whose checks use keys that do not meet as strings, and whose writes
        delete those of the keys they change, with any clock readings: the cached system
        ends in the state, and gives the answers, of the system without a cache; and each
        check leaves one audit row.  The first condition is that of FillSafeExactly, the
        second that of WriteServesTrueExactly. */
    method Replay(ops: seq<Op>, clock: nat -> Times) returns (decisions: seq<Decision>)
      requires Wired() && Inv(db.Snapshot()) && LegalRun(db.Snapshot(), ops)
      requires Apart(KeysUsed(ops)) && WithinRun(db.Snapshot(), ops, KeysUsed(ops))
      requires Coherent(cache.store, db.Snapshot(), KeysUsed(ops))
      modifies db, cache, authorization
      ensures db.Snapshot() == Run(old(db.Snapshot()), ops)
      ensures |decisions| == |Answers(old(db.Snapshot()), ops)|
      ensures forall i :: 0 <= i < |decisions| ==>
        Agrees(decisions[i], Answers(old(db.Snapshot()), ops)[i])
      ensures |db.audit| == |old(db.audit)| + |decisions|
    {
      hide Coherent, Inv, Step, Decide, Legal, Run, LegalRun, Answers, Agrees, Apart, Within, WithinRun, KeysUsed;
      ghost var s, ks := db.Snapshot(), KeysUsed(ops);
      decisions := [];
      assert ops[0..] == ops;
      for i := 0 to |ops|
        invariant Inv(db.Snapshot()) && Coherent(cache.store, db.Snapshot(), ks)
        invariant LegalRun(db.Snapshot(), ops[i..]) && WithinRun(db.Snapshot(), ops[i..], ks)
        invariant Run(s, ops) == Run(db.Snapshot(), ops[i..])
        invariant |Answers(s, ops)| == |decisions| + |Answers(db.Snapshot(), ops[i..])|
        invariant Answers(s, ops)[|decisions|..] == Answers(db.Snapshot(), ops[i..])
        invariant forall j :: 0 <= j < |decisions| ==> Agrees(decisions[j], Answers(s, ops)[j])
        invariant |db.audit| == |old(db.audit)| + |decisions|
      {
        ghost var before := db.Snapshot();
        assert ops[i..][0] == ops[i] && ops[i..][1..] == ops[i + 1..];
        RunUnfolds(before, ops[i..]);
        WithinUnfolds(before, ops[i..], ks);
        if ops[i].CheckAccess? { KeysAreUsed(ops, ops[i]); }
        var decision := Perform(ops[i], clock(i), ks);
        if decision.Some? {
          assert Answers(s, ops)[|decisions|] == Answers(before, ops[i..])[0];
          decisions := decisions + [decision.value];
        }
      }
      assert ops[|ops|..] == [];
      RunEnds(db.Snapshot());
    }
  }

  lemma {:induction false} RunUnfolds(s: Store, ops: seq<Op>)
    requires ops != [] && LegalRun(s, ops)
    ensures Legal(s, ops[0]) && LegalRun(Step(s, ops[0]), ops[1..])
    ensures Run(s, ops) == Run(Step(s, ops[0]), ops[1..])
    ensures !ops[0].CheckAccess? ==> Answers(s, ops) == Answers(Step(s, ops[0]), ops[1..])
    ensures ops[0].CheckAccess? ==>
      Answers(s, ops) == [Decide(s, ops[0].request)] + Answers(Step(s, ops[0]), ops[1..])
  {
    hide Step, Decide, Legal;
  }

  lemma {:induction false} WithinUnfolds(s: Store, ops: seq<Op>, ks: set<Key>)
    requires ops != [] && WithinRun(s, ops, ks)
    ensures Within(s, ops[0], ks) && WithinRun(Step(s, ops[0]), ops[1..], ks)
  {
    hide Step, Within;
  }

  lemma {:induction false} KeysAreUsed(ops: seq<Op>, op: Op)
    requires op in ops && op.CheckAccess?
    ensures KeysOfCheck(op.request) <= KeysUsed(ops)
  {
    hide KeysOfCheck;
  }

  lemma {:induction false} RunEnds(s: Store)
    ensures Run(s, []) == s && Answers(s, []) == []
  {
  }

  lemma {:induction false} RefusedWrite(s: Store, w: Write)
    ensures !Accepted(s, w) ==> Applied(s, w) == s
  {
  }

  lemma {:induction false} InvConsistent(s: Store)
    requires Inv(s)
    ensures Consistent(s)
  {
  }

  lemma {:induction false} CheckIsNoStep(s: Store, op: Op)
    requires op.CheckAccess?
    ensures Step(s, op) == s
  {
  }

  lemma {:induction false} UsersStepRest(s: Store, op: Op)
    requires op.CreateUser? || op.AddNode? || op.AssignManager? || op.UpdateUser?
    ensures SameRest(s, Step(s, op))
  {
    hide CreateUserTo, AddNodeTo, AssignManagerTo, UpdateUserTo, SameRest;
    match op {
      case CreateUser(id, user, manager) => CreateUserRest(s, id, user, manager);
      case AddNode(t, u) => AddNodeRest(s, t, u);
      case AssignManager(t, u, x) =>
        AssignRest(s, t, u, x);
        SameRestReflexive(s);
      case UpdateUser(t, u, changes) => UpdateUserRest(s, t, u, changes);
    }
  }

  /** Creating a role or a permission drops nothing from the cache, and need not. */
  lemma {:induction false} CreationCoherent(c: CacheStore, s: Store, op: Op, ks: set<Key>)
    requires (op.CreateRole? || op.CreatePermission?) && Inv(s) && Legal(s, op) && Coherent(c, s, ks)
    ensures Coherent(c, Step(s, op), ks)
  {
    hide States, Render, Truth, CreateRoleTo, CreatePermissionTo, OrgConsistent, UsersRegistered;
    forall k | k in ks ensures Truth(Step(s, op), k) == Truth(s, k) {
      match op {
        case CreateRole(t, r, name) => NewRoleTruth(s, t, r, name, k);
        case CreatePermission(t, p, name) => NewPermissionTruth(s, t, p, name, k);
      }
    }
  }

  lemma {:induction false} SameRestReflexive(s: Store)
    ensures SameRest(s, s)
  {
  }

  /** The conditions of a replay from conditions on the operations: each permission is
      granted to a role of the granting tenant, in the state the grant meets, and the
      tenants and actions checked hold no colon. */
  lemma {:induction false} GuardedHistory(s: Store, ops: seq<Op>)
    requires Inv(s) && LegalRun(s, ops) && OwnGrantsRun(s, ops)
    requires forall op :: op in ops && op.CheckAccess? ==>
               ColonFree(op.request.tenantId) && ColonFree(op.request.action)
    ensures WithinRun(s, ops, KeysUsed(ops)) && Apart(KeysUsed(ops))
  {
    hide Inv, Apart, WithinRun, LegalRun, OwnGrantsRun;
    ColonFreeApart(KeysUsed(ops));
    OwnGrantsWithin(s, ops, KeysUsed(ops));
  }

  lemma {:induction false} OwnGrantsWithin(s: Store, ops: seq<Op>, ks: set<Key>)
    requires Inv(s) && LegalRun(s, ops) && OwnGrantsRun(s, ops)
    ensures WithinRun(s, ops, ks)
    decreases |ops|
  {
    hide OrgConsistent, UsersRegistered, PoliciesKeyed, RolesScoped, GrantsValid, Step, Legal, Contained, Reaches;
    if ops != [] {
      if WriteOf(ops[0]).Some? {
        OwnRoleContained(s, WriteOf(ops[0]).value);
        ContainedReaches(s, WriteOf(ops[0]).value, ks);
      }
      StepKeeps(s, ops[0]);
      OwnGrantsWithin(Step(s, ops[0]), ops[1..], ks);
    }
  }
}
