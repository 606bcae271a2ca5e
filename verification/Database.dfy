/** The database: one field per table, and the queries the services issue. */
module Database {
  import opened Domain
  import opened Decisions
  import opened Tables
  import opened ClosureRows
  import opened Query

  class Database {
    var tenants: map<Id, TenantStatus>
    var users: map<Id, User>
    var roles: map<Id, Role>
    var permissions: map<Id, Permission>
    var userRoles: set<(Id, Id, Id)>
    var rolePermissions: set<(Id, Id, Id)>
    var policies: map<(Id, string), Policy>
    var resources: map<(Id, string, string), Resource>
    var closure: Closure
    var audit: seq<AuditRow>

    /** A database with the given contents and an empty audit log. */
    constructor (s: Store)
      ensures Snapshot() == s && audit == []
    {
      tenants := s.tenants;
      users := s.users;
      roles := s.roles;
      permissions := s.permissions;
      userRoles := s.userRoles;
      rolePermissions := s.rolePermissions;
      policies := s.policies;
      resources := s.resources;
      closure := s.closure;
      audit := [];
    }

    function Snapshot(): Store
      reads this
    {
      Store(tenants, users, roles, permissions, userRoles, rolePermissions, policies, resources, closure)
    }

    /** `findMany` on the closure table, in no particular order. */
    method FindClosureRows(where: ClosureRow -> bool) returns (rows: seq<ClosureRow>)
      ensures Lists(rows, set r | r in RowsOf(closure) && where(r))
    {
      rows := Enumerate(set r | r in RowsOf(closure) && where(r));
    }

    /** `findMany` with `orderBy: { depth: 'asc' }`. */
    method FindClosureRowsByDepth(where: ClosureRow -> bool) returns (rows: seq<ClosureRow>)
      ensures Lists(rows, set r | r in RowsOf(closure) && where(r))
      ensures SortedBy(rows, (r: ClosureRow) => r.depth)
    {
      rows := EnumerateBy(set r | r in RowsOf(closure) && where(r), (r: ClosureRow) => r.depth);
    }

    /** `findFirst` without an order: any matching row. */
    method FindFirstClosureRow(where: ClosureRow -> bool) returns (row: Option<ClosureRow>)
      ensures row.Some? ==> row.value in RowsOf(closure) && where(row.value)
      ensures row.None? ==> forall r :: r in RowsOf(closure) ==> !where(r)
    {
      var matching := set r | r in RowsOf(closure) && where(r);
      if matching == {} {
        row := None;
        assert forall r :: r in RowsOf(closure) && where(r) ==> r in matching;
      } else {
        var r :| r in matching;
        row := Some(r);
      }
    }

    /** `createMany` with `skipDuplicates: true`.  The whole statement fails on a
        foreign key violation. */
    method CreateClosureRows(rows: seq<ClosureRow>) returns (ok: bool)
      modifies `closure
      ensures ok <==> forall r :: r in rows ==> r.ancestor in users && r.descendant in users
      ensures closure == if ok then InsertAll(old(closure), rows) else old(closure)
    {
      ok := forall r | r in rows :: r.ancestor in users && r.descendant in users;
      if ok {
        for i := 0 to |rows|
          invariant closure == InsertAll(old(closure), rows[..i])
        {
          assert rows[..i + 1][..i] == rows[..i];
          if rows[i].Key() !in closure {
            closure := closure[rows[i].Key() := rows[i].depth];
          }
        }
        assert rows[..|rows|] == rows;
      }
    }

    method DeleteClosureRows(where: ClosureRow -> bool)
      modifies `closure
      ensures closure == map k |
        k in old(closure) && !where(ClosureRow(k.0, k.1, k.2, old(closure)[k])) :: old(closure)[k]
    {
      closure := map k | k in closure && !where(ClosureRow(k.0, k.1, k.2, closure[k])) :: closure[k];
    }

    /** `updateMany` on users, scoped by id and tenant. */
    method SetManagerWhere(id: Id, tenantId: Id, managerId: Id)
      modifies `users
      ensures users == SetManager(old(users), tenantId, id, managerId)
    {
      if id in users && users[id].tenantId == tenantId {
        users := users[id := users[id].(managerId := Some(managerId))];
      }
    }
  }
}
