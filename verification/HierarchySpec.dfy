/** What the hierarchy operations do to the store, and what every one of them
    keeps. */
module HierarchySpec {
  import opened Domain
  import opened Forest
  import opened ClosureTable
  import opened Tables

  datatype Outcome = Done | SelfManager | WouldCycle | NoSuchUser

  /** The store with the rows of one tenant replaced. */
  function WithRows(s: Store, t: Id, rows: Table): Store {
    s.(closure := WithSlice(s.closure, t, rows))
  }

  function WithEdge(s: Store, t: Id, u: Id, x: Id): Store {
    s.(users := SetManager(s.users, t, u, x))
  }

  /** Registering a node; the foreign key refuses an id that is no user. */
  function AddNodeTo(s: Store, t: Id, u: Id): Store {
    if u in s.users then WithRows(s, t, WithNode(TableOf(s, t), u)) else s
  }

  function Registered(s: Store, t: Id, u: Id, x: Id): Table {
    WithNode(WithNode(TableOf(s, t), u), x)
  }

  function Moved(s: Store, t: Id, u: Id, x: Id): Table {
    Reparent(Registered(s, t, u, x), u, x)
  }

  function AssignOutcome(s: Store, t: Id, u: Id, x: Id): Outcome {
    if u == x then SelfManager
    else if u !in s.users || x !in s.users then NoSuchUser
    else if (u, x) in Registered(s, t, u, x) then WouldCycle
    else Done
  }

  /** Moving `u` under `x`.  A refusal is a thrown exception inside or before the
      transaction, so it leaves the store as it was. */
  function AssignManagerTo(s: Store, t: Id, u: Id, x: Id): Store {
    if AssignOutcome(s, t, u, x) == Done then
      WithEdge(WithRows(s, t, Moved(s, t, u, x)), t, u, x)
    else s
  }

  // ---------------------------------------------------------------------------
  // Replacing one tenant's rows
  // ---------------------------------------------------------------------------

  ghost predicate IdsIn(rows: Table, users: map<Id, User>) {
    forall k :: k in rows ==> k.0 in users && k.1 in users
  }

  lemma {:induction false} WithRowsKeys(s: Store, t: Id, rows: Table)
    requires KeysValid(s) && IdsIn(rows, s.users)
    ensures KeysValid(WithRows(s, t, rows))
  {
  }

  lemma {:induction false} WithRowsTable(s: Store, t: Id, rows: Table, r: Id)
    ensures TableOf(WithRows(s, t, rows), r) == if r == t then rows else TableOf(s, r)
  {
    SliceOfWithSlice(s.closure, t, rows, r);
  }

  lemma {:induction false} SetManagerEdges(users: map<Id, User>, t: Id, u: Id, x: Id, r: Id)
    ensures EdgesOf(SetManager(users, t, u, x), r)
         == if r == t && u in users && users[u].tenantId == t then EdgesOf(users, r)[u := x]
            else EdgesOf(users, r)
  {
  }

  lemma {:induction false} WithEdgeKeys(s: Store, t: Id, u: Id, x: Id)
    requires KeysValid(s)
    ensures KeysValid(WithEdge(s, t, u, x))
  {
  }

  lemma {:induction false} TableIds(s: Store, t: Id)
    requires KeysValid(s)
    ensures IdsIn(TableOf(s, t), s.users)
  {
  }

  lemma {:induction false} RegisteredIds(s: Store, t: Id, u: Id, x: Id)
    requires KeysValid(s) && u in s.users && x in s.users
    ensures IdsIn(Registered(s, t, u, x), s.users)
  {
  }

  lemma {:induction false} ReparentIds(r: Table, users: map<Id, User>, u: Id, x: Id)
    requires IdsIn(r, users)
    ensures IdsIn(Reparent(r, u, x), users)
  {
  }

  // ---------------------------------------------------------------------------
  // Every operation keeps every organization
  // ---------------------------------------------------------------------------

  lemma {:induction false} AddNodeKeepsKeys(s: Store, t: Id, u: Id)
    requires KeysValid(s)
    ensures KeysValid(AddNodeTo(s, t, u))
  {
    if u in s.users {
      TableIds(s, t);
      WithRowsKeys(s, t, WithNode(TableOf(s, t), u));
    }
  }

  lemma {:induction false} AddNodeKeeps(s: Store, t: Id, u: Id)
    requires OrgConsistent(s)
    ensures OrgConsistent(AddNodeTo(s, t, u))
  {
    if u in s.users {
      var rows := WithNode(TableOf(s, t), u);
      AddNodeKeepsKeys(s, t, u);
      WithNodeIsClosure(TableOf(s, t), OrgOf(s, t), u);
      forall r ensures IsClosure(TableOf(WithRows(s, t, rows), r), OrgOf(s, r)) {
        WithRowsTable(s, t, rows, r);
      }
    }
  }

  lemma {:induction false} RegisteredIsClosure(s: Store, t: Id, u: Id, x: Id)
    requires OrgConsistent(s)
    ensures IsClosure(Registered(s, t, u, x), OrgOf(s, t))
    ensures (u, u) in Registered(s, t, u, x) && (x, x) in Registered(s, t, u, x)
    ensures Nodes(Registered(s, t, u, x)) == Nodes(TableOf(s, t)) + {u, x}
  {
    WithNodeIsClosure(TableOf(s, t), OrgOf(s, t), u);
    WithNodeIsClosure(WithNode(TableOf(s, t), u), OrgOf(s, t), x);
  }

  lemma {:induction false} MovedIsClosure(s: Store, t: Id, u: Id, x: Id)
    requires OrgConsistent(s) && (u, x) !in Registered(s, t, u, x)
    ensures IsClosure(Moved(s, t, u, x), OrgOf(s, t)[u := x])
    ensures Nodes(Moved(s, t, u, x)) == Nodes(TableOf(s, t)) + {u, x}
  {
    RegisteredIsClosure(s, t, u, x);
    ReparentIsClosure(Registered(s, t, u, x), OrgOf(s, t), u, x);
  }

  lemma {:induction false} MoveEffect(s: Store, t: Id, u: Id, x: Id, rows: Table, s': Store, r: Id)
    requires OrgConsistent(s) && u in s.users && s.users[u].tenantId == t
    requires IsClosure(rows, OrgOf(s, t)[u := x])
    requires s' == WithEdge(WithRows(s, t, rows), t, u, x)
    ensures OrgOf(s', r) == if r == t then OrgOf(s, t)[u := x] else OrgOf(s, r)
    ensures TableOf(s', r) == if r == t then rows else TableOf(s, r)
    ensures IsClosure(TableOf(s', r), OrgOf(s', r))
  {
    WithRowsTable(s, t, rows, r);
    SetManagerEdges(s.users, t, u, x, r);
  }

  /** The effect of an accepted move on the edges: one edge of one tenant. */
  lemma {:induction false} AssignEdges(s: Store, t: Id, u: Id, x: Id, r: Id)
    requires AssignOutcome(s, t, u, x) == Done && s.users[u].tenantId == t
    ensures OrgOf(AssignManagerTo(s, t, u, x), r)
         == if r == t then OrgOf(s, t)[u := x] else OrgOf(s, r)
  {
    SetManagerEdges(s.users, t, u, x, r);
  }

  /** The effect on the nodes: the two users are registered. */
  lemma {:induction false} AssignNodes(s: Store, t: Id, u: Id, x: Id, r: Id)
    requires OrgConsistent(s) && AssignOutcome(s, t, u, x) == Done
    ensures Nodes(TableOf(AssignManagerTo(s, t, u, x), r))
         == Nodes(TableOf(s, r)) + if r == t then {u, x} else {}
  {
    hide OrgConsistent, Reparent, Registered, Slice, WithSlice, SetManager, Nodes;
    MovedIsClosure(s, t, u, x);
    WithRowsTable(s, t, Moved(s, t, u, x), r);
  }

  /** The effect on the tables: each is the closure of its tenant's new edges. */
  lemma {:induction false} AssignClosure(s: Store, t: Id, u: Id, x: Id, r: Id)
    requires OrgConsistent(s) && AssignOutcome(s, t, u, x) == Done
    requires s.users[u].tenantId == t
    ensures IsClosure(TableOf(AssignManagerTo(s, t, u, x), r), OrgOf(AssignManagerTo(s, t, u, x), r))
  {
    MovedIsClosure(s, t, u, x);
    MoveEffect(s, t, u, x, Moved(s, t, u, x), AssignManagerTo(s, t, u, x), r);
  }

  /** Moving a user of the tenant keeps every closure exact, whatever the answer. */
  lemma {:induction false} AssignKeeps(s: Store, t: Id, u: Id, x: Id)
    requires OrgConsistent(s)
    requires u in s.users ==> s.users[u].tenantId == t
    ensures OrgConsistent(AssignManagerTo(s, t, u, x))
  {
    if AssignOutcome(s, t, u, x) == Done {
      RegisteredIds(s, t, u, x);
      ReparentIds(Registered(s, t, u, x), s.users, u, x);
      WithRowsKeys(s, t, Moved(s, t, u, x));
      WithEdgeKeys(WithRows(s, t, Moved(s, t, u, x)), t, u, x);
      forall r { AssignClosure(s, t, u, x, r); }
    }
  }

  lemma {:induction false} NewManagerRow(r: Table, u: Id, x: Id)
    requires (u, u) in r && (x, x) in r
    ensures (x, u) in Reparent(r, u, x)
  {
  }

  lemma {:induction false} RowNeedsEdge(t: Table, m: Edges, a: Id, d: Id)
    requires IsClosure(t, m) && (a, d) in t && a != d
    ensures d in m
  {
  }

  /** The scope test is needed: an accepted call keeps the table and the stored
      edges together exactly when `u` is a user of the tenant. */
  lemma {:induction false} AssignKeepsExactly(s: Store, t: Id, u: Id, x: Id)
    requires OrgConsistent(s) && AssignOutcome(s, t, u, x) == Done
    ensures OrgConsistent(AssignManagerTo(s, t, u, x)) <==> s.users[u].tenantId == t
  {
    if s.users[u].tenantId == t {
      AssignKeeps(s, t, u, x);
    } else {
      var s' := AssignManagerTo(s, t, u, x);
      WithRowsTable(s, t, Moved(s, t, u, x), t);
      RegisteredIsClosure(s, t, u, x);
      NewManagerRow(Registered(s, t, u, x), u, x);
      if IsClosure(TableOf(s', t), OrgOf(s', t)) {
        // The row (x, u) is there, but tenant t stores no edge for u.
        RowNeedsEdge(TableOf(s', t), OrgOf(s', t), x, u);
      }
    }
  }

  /** The cycle test is sound and complete: a move between two existing users is
      refused exactly when the new manager is the user or already reports to it. */
  lemma {:induction false} RefusedExactly(s: Store, t: Id, u: Id, x: Id)
    requires OrgConsistent(s) && u in s.users && x in s.users
    ensures AssignOutcome(s, t, u, x) == Done <==> x != u && u !in Chain(OrgOf(s, t), x)
    ensures AssignOutcome(s, t, u, x) == Done <==> !Above(OrgOf(s, t), u, x)
    ensures AssignOutcome(s, t, u, x) != Done ==> AssignManagerTo(s, t, u, x) == s
  {
    CycleTestExact(TableOf(s, t), OrgOf(s, t), u, x);
    ClosureIsAcyclic(TableOf(s, t), OrgOf(s, t));
    ChainMembers(OrgOf(s, t), x, u);
    if u == x { assert Up(OrgOf(s, t), x, 0) == Some(u); }
  }

  /** Which refusal a move meets, in the order of the tests; in each case nothing is
      written. */
  lemma {:induction false} RefusalTold(s: Store, t: Id, u: Id, x: Id)
    requires OrgConsistent(s)
    ensures AssignOutcome(s, t, u, x) == SelfManager <==> u == x
    ensures AssignOutcome(s, t, u, x) == NoSuchUser <==> u != x && !(u in s.users && x in s.users)
    ensures AssignOutcome(s, t, u, x) == WouldCycle <==>
      u in s.users && x in s.users && u in Chain(OrgOf(s, t), x)
    ensures AssignOutcome(s, t, u, x) != Done ==> AssignManagerTo(s, t, u, x) == s
  {
    hide Registered, Moved;
    if u in s.users && x in s.users {
      RefusedExactly(s, t, u, x);
      if u == x {
        OrgChainFree(s, t, u);
      }
    }
  }

  lemma {:induction false} OrgChainFree(s: Store, t: Id, u: Id)
    requires OrgConsistent(s)
    ensures u !in Chain(OrgOf(s, t), u)
  {
    ClosureIsAcyclic(TableOf(s, t), OrgOf(s, t));
    ChainMembers(OrgOf(s, t), u, u);
  }

  /** An accepted move of a tenant's user writes the user's manager, and nothing else in
      any user row. */
  lemma {:induction false} MovedUsers(s: Store, t: Id, u: Id, x: Id)
    requires AssignOutcome(s, t, u, x) == Done && s.users[u].tenantId == t
    ensures var s' := AssignManagerTo(s, t, u, x);
      && s'.users.Keys == s.users.Keys
      && (forall v :: v in s.users && v != u ==> s'.users[v] == s.users[v])
      && s'.users[u].managerId == Some(x)
      && s'.users[u].(managerId := None) == s.users[u].(managerId := None)
  {
    hide Registered, Moved;
  }

  // ---------------------------------------------------------------------------
  // Every user is registered in its tenant
  // ---------------------------------------------------------------------------

  ghost predicate UsersRegistered(s: Store) {
    forall u :: u in s.users ==> (u, u) in TableOf(s, s.users[u].tenantId)
  }

  /** Registering one user more completes the picture. */
  lemma {:induction false} AddNodeRegisters(s: Store, t: Id, u: Id)
    requires forall v :: v in s.users && !(v == u && s.users[v].tenantId == t) ==>
               (v, v) in TableOf(s, s.users[v].tenantId)
    ensures UsersRegistered(AddNodeTo(s, t, u))
  {
    hide Slice;
    if u in s.users {
      forall v | v in s.users ensures (v, v) in TableOf(AddNodeTo(s, t, u), s.users[v].tenantId) {
        WithRowsTable(s, t, WithNode(TableOf(s, t), u), s.users[v].tenantId);
      }
    }
  }

  lemma {:induction false} MovedSelfRow(s: Store, t: Id, u: Id, x: Id, v: Id)
    requires OrgConsistent(s) && AssignOutcome(s, t, u, x) == Done && (v, v) in TableOf(s, t)
    ensures (v, v) in Moved(s, t, u, x)
  {
    hide OrgConsistent, Reparent, Registered, Slice, Nodes, IsClosure;
    MovedIsClosure(s, t, u, x);
    NodesAreSelfRows(TableOf(s, t), v);
    NodesAreSelfRows(Moved(s, t, u, x), v);
  }

  lemma {:induction false} AssignRegisters(s: Store, t: Id, u: Id, x: Id)
    requires OrgConsistent(s) && UsersRegistered(s)
    ensures UsersRegistered(AssignManagerTo(s, t, u, x))
  {
    hide OrgConsistent, Moved, Slice, WithSlice;
    if AssignOutcome(s, t, u, x) == Done {
      var s' := AssignManagerTo(s, t, u, x);
      forall v | v in s'.users ensures (v, v) in TableOf(s', s'.users[v].tenantId) {
        var r := s.users[v].tenantId;
        WithRowsTable(s, t, Moved(s, t, u, x), r);
        if r == t { MovedSelfRow(s, t, u, x, v); }
      }
    }
  }

  // ---------------------------------------------------------------------------
  // New users
  // ---------------------------------------------------------------------------

  function UserAdded(s: Store, id: Id, user: User): Store {
    s.(users := s.users[id := user.(managerId := None)])
  }

  /** A user row is written first and never taken back; the self row follows, and
      the manager, if one is given, is assigned in a transaction of its own. */
  function UserJoined(s: Store, id: Id, user: User, manager: Option<Id>): Store {
    var added := AddNodeTo(UserAdded(s, id, user), user.tenantId, id);
    if Truthy(manager) then AssignManagerTo(added, user.tenantId, id, manager.value) else added
  }

  /** The unique index refuses the user row if the tenant has the e-mail already. */
  function CreateUserTo(s: Store, id: Id, user: User, manager: Option<Id>): Store {
    if EmailTaken(s, user.tenantId, user.email) then s else UserJoined(s, id, user, manager)
  }

  lemma {:induction false} UserAddedKeeps(s: Store, id: Id, user: User)
    requires OrgConsistent(s) && id !in s.users && id != ""
    ensures OrgConsistent(UserAdded(s, id, user))
  {
    hide IsClosure, Slice;
    var s' := UserAdded(s, id, user);
    forall t ensures IsClosure(TableOf(s', t), OrgOf(s', t)) {
      assert OrgOf(s', t) == OrgOf(s, t);
    }
  }

  /** A fresh user, with or without a manager, keeps every closure exact. */
  lemma {:induction false} CreateUserKeeps(s: Store, id: Id, user: User, manager: Option<Id>)
    requires OrgConsistent(s) && id !in s.users && id != ""
    ensures OrgConsistent(CreateUserTo(s, id, user, manager))
  {
    hide OrgConsistent, AssignManagerTo, EmailTaken;
    UserAddedKeeps(s, id, user);
    AddNodeKeeps(UserAdded(s, id, user), user.tenantId, id);
    if Truthy(manager) {
      AssignKeeps(AddNodeTo(UserAdded(s, id, user), user.tenantId, id), user.tenantId, id, manager.value);
    }
  }

  /** A new user is registered, and everybody else stays so. */
  lemma {:induction false} CreateUserRegisters(s: Store, id: Id, user: User, manager: Option<Id>)
    requires OrgConsistent(s) && UsersRegistered(s) && id !in s.users && id != ""
    ensures UsersRegistered(CreateUserTo(s, id, user, manager))
  {
    hide OrgConsistent, AssignManagerTo, AddNodeTo, EmailTaken, Slice;
    var t, added := user.tenantId, UserAdded(s, id, user);
    UserAddedKeeps(s, id, user);
    assert forall v :: v in added.users && v != id ==> v in s.users && added.users[v] == s.users[v];
    AddNodeRegisters(added, t, id);
    AddNodeKeeps(added, t, id);
    if Truthy(manager) { AssignRegisters(AddNodeTo(added, t, id), t, id, manager.value); }
  }

  lemma {:induction false} AddNodeUsers(s: Store, t: Id, u: Id)
    ensures AddNodeTo(s, t, u).users == s.users
  {
  }

  lemma {:induction false} NewUserRows(s: Store, id: Id, user: User, x: Id)
    requires KeysValid(s) && id !in s.users && x != id
    ensures var table := TableOf(AddNodeTo(UserAdded(s, id, user), user.tenantId, id), user.tenantId);
      (x, id) !in table && (id, x) !in table
  {
    var t, s' := user.tenantId, UserAdded(s, id, user);
    WithRowsTable(s', t, WithNode(TableOf(s', t), id), t);
    SliceRow(s.closure, t, x, id);
    SliceRow(s.closure, t, id, x);
  }

  /** A new user is stored as asked, with the manager it names exactly when that manager
      exists, in whatever tenant; no other user row changes. */
  lemma {:induction false} CreatedUser(s: Store, id: Id, user: User, manager: Option<Id>)
    requires KeysValid(s) && id !in s.users && id != ""
    requires forall u :: u in s.users && s.users[u].tenantId == user.tenantId ==> s.users[u].email != user.email
    ensures CreateUserTo(s, id, user, manager).users == s.users[id := user.(managerId :=
      if manager.Some? && manager.value != "" && manager.value in s.users then manager else None)]
  {
    hide AddNodeTo, AssignManagerTo;
    var added := AddNodeTo(UserAdded(s, id, user), user.tenantId, id);
    AddNodeUsers(UserAdded(s, id, user), user.tenantId, id);
    if Truthy(manager) {
      NewUserManager(s, id, user, manager.value);
    }
  }

  lemma {:induction false} NewUserOutcome(s: Store, id: Id, user: User, x: Id)
    requires KeysValid(s) && id !in s.users && id != ""
    ensures AssignOutcome(AddNodeTo(UserAdded(s, id, user), user.tenantId, id), user.tenantId, id, x) == Done
       <==> x in s.users
  {
    hide AddNodeTo, Slice, KeysValid;
    AddNodeUsers(UserAdded(s, id, user), user.tenantId, id);
    if x != id { NewUserRows(s, id, user, x); }
  }

  lemma {:induction false} AssignedUsers(s: Store, t: Id, u: Id, x: Id)
    requires InTenant(s, t, u)
    ensures AssignManagerTo(s, t, u, x).users ==
      if AssignOutcome(s, t, u, x) == Done then s.users[u := s.users[u].(managerId := Some(x))] else s.users
  {
    hide AssignOutcome, Moved, WithSlice;
  }

  lemma {:induction false} NewUserManager(s: Store, id: Id, user: User, x: Id)
    requires KeysValid(s) && id !in s.users && id != ""
    ensures AssignManagerTo(AddNodeTo(UserAdded(s, id, user), user.tenantId, id), user.tenantId, id, x).users
         == s.users[id := user.(managerId := if x in s.users then Some(x) else None)]
  {
    hide AddNodeTo, AssignManagerTo, AssignOutcome, KeysValid;
    AddNodeUsers(UserAdded(s, id, user), user.tenantId, id);
    NewUserOutcome(s, id, user, x);
    AssignedUsers(AddNodeTo(UserAdded(s, id, user), user.tenantId, id), user.tenantId, id, x);
  }
}
