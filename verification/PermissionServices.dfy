/** Roles and permissions: the cached join that reads a user's permission names, and
    the two grants that invalidate it; and their creation, which does not. */
module PermissionServices {
  import opened Domain
  import opened CacheKeys
  import opened CacheService
  import opened CacheCoherence
  import opened Tables
  import opened Query
  import opened Writes
  import opened AdminSpec
  import opened Database

  datatype GrantOutcome = Granted | NotFound | BadRequest

  /** `name` comes with one of the listed role assignments. */
  ghost predicate NameFrom(s: Store, urs: seq<(Id, Id, Id)>, name: string) {
    exists ur, rp :: ur in urs && rp in s.rolePermissions && rp.1 == ur.2
      && rp.2 in s.permissions && s.permissions[rp.2].name == name
  }

  /** `name` is a permission of one of the listed grants. */
  ghost predicate NameIn(s: Store, rps: seq<(Id, Id, Id)>, name: string) {
    exists rp :: rp in rps && rp.2 in s.permissions && s.permissions[rp.2].name == name
  }

  lemma {:induction false} NamesFromRows(s: Store, t: Id, u: Id, urs: seq<(Id, Id, Id)>, name: string)
    requires Lists(urs, set ur | ur in s.userRoles && ur.0 == t && ur.1 == u)
    ensures NameFrom(s, urs, name) <==> name in NamesOf(s, t, u)
  {
  }

  class PermissionsRepository {
    const db: Database
    const cache: CacheService<Cached>

    constructor (db: Database, cache: CacheService<Cached>)
      ensures this.db == db && this.cache == cache
    {
      this.db := db;
      this.cache := cache;
    }

    /** The names granted by one role, added to those already found. */
    method AddRoleNames(role: Id, found: seq<string>) returns (names: seq<string>)
      requires NoDuplicates(found)
      ensures NoDuplicates(names)
      ensures forall name, t, u :: name in names <==>
        name in found || NameFrom(db.Snapshot(), [(t, u, role)], name)
    {
      ghost var s := db.Snapshot();
      names := found;
      var grants := Enumerate(set rp | rp in db.rolePermissions && rp.1 == role && rp.2 in db.permissions);
      for j := 0 to |grants|
        invariant NoDuplicates(names)
        invariant forall name :: name in names <==> name in found || NameIn(s, grants[..j], name)
      {
        assert grants[j] in grants;
        var name := db.permissions[grants[j].2].name;
        if name !in names {
          names := names + [name];
        }
        assert grants[..j + 1] == grants[..j] + [grants[j]];
      }
      assert grants[..|grants|] == grants;
      forall name, t, u ensures NameFrom(s, [(t, u, role)], name) <==> NameIn(s, grants, name) {
        assert (t, u, role) in [(t, u, role)];
      }
    }

    /** The uncached query: a set of names filled in nested loops. */
    method LoadNames(tenantId: Id, userId: Id) returns (names: seq<string>)
      ensures Lists(names, NamesOf(db.Snapshot(), tenantId, userId))
      ensures forall name :: name in names <==>
        exists r :: (tenantId, userId, r) in db.userRoles && name in RoleNames(db.Snapshot(), r)
    {
      ghost var s := db.Snapshot();
      var rows := Enumerate(set ur | ur in db.userRoles && ur.0 == tenantId && ur.1 == userId);
      names := [];
      for i := 0 to |rows|
        invariant NoDuplicates(names)
        invariant forall name :: name in names <==> NameFrom(s, rows[..i], name)
      {
        names := AddRoleNames(rows[i].2, names);
        assert rows[..i + 1] == rows[..i] + [rows[i]];
        assert forall name :: NameFrom(s, rows[..i + 1], name) <==>
          NameFrom(s, rows[..i], name) || NameFrom(s, [rows[i]], name);
      }
      assert rows[..|rows|] == rows;
      forall name ensures name in names <==> name in NamesOf(s, tenantId, userId) {
        NamesFromRows(s, tenantId, userId, rows, name);
        NamesByRole(s, tenantId, userId, name);
      }
    }

    /** The cache's get-or-load around that query: whatever the cache held, the
        answer is the database's, and the cache stays true for every key in use. */
    method PermissionNamesForUser(tenantId: Id, userId: Id, readAt: int, setAt: int, ghost ks: set<Key>)
      returns (names: seq<string>)
      requires Coherent(cache.store, db.Snapshot(), ks) && Apart(ks) && PermissionsOf(tenantId, userId) in ks
      modifies cache
      ensures Lists(names, NamesOf(db.Snapshot(), tenantId, userId))
      ensures Coherent(cache.store, db.Snapshot(), ks)
      ensures GotOrLoaded(old(cache.store), PermissionsKey(tenantId, userId), readAt,
                          CachedNames(names), setAt, cache.store)
    {
      ghost var s := db.Snapshot();
      ghost var k := PermissionsOf(tenantId, userId);
      var key := PermissionsKey(tenantId, userId);
      assert key == Render(k);
      ghost var before := cache.store;
      var cached := cache.Get(key, readAt);
      CoherentShrinks(before, cache.store, s, ks);
      if cached.Some? {
        assert States(cached.value, Truth(s, k));
        return cached.value.names;
      }
      names := LoadNames(tenantId, userId);
      CoherentFill(cache.store, s, ks, k, CachedNames(names), setAt + TTL_MS);
      cache.Set(key, CachedNames(names), TTL_MS, setAt);
    }

    /** The upsert of the join row; the foreign keys may refuse it. */
    method AssignPermissionToRole(tenantId: Id, roleId: Id, permissionId: Id) returns (ok: bool)
      modifies db`rolePermissions
      ensures ok <==> roleId in db.roles && permissionId in db.permissions
      ensures db.rolePermissions == old(db.rolePermissions) + if ok then {(tenantId, roleId, permissionId)} else {}
    {
      ok := roleId in db.roles && permissionId in db.permissions;
      if ok && (tenantId, roleId, permissionId) !in db.rolePermissions {
        db.rolePermissions := db.rolePermissions + {(tenantId, roleId, permissionId)};
      }
    }
  }

  class PermissionsService {
    const repository: PermissionsRepository
    const cache: CacheService<Cached>

    constructor (repository: PermissionsRepository)
      ensures this.repository == repository && cache == repository.cache
    {
      this.repository := repository;
      cache := repository.cache;
    }

    /** `id` is generated.  A second permission of the same name violates the unique
        index; nothing is dropped from the cache. */
    method Create(tenantId: Id, id: Id, name: string) returns (created: bool)
      requires id !in repository.db.permissions
      modifies repository.db`permissions
      ensures repository.db.Snapshot() == CreatePermissionTo(old(repository.db.Snapshot()), tenantId, id, name)
      ensures created <==> forall p :: p in old(repository.db.permissions) ==>
        old(repository.db.permissions)[p] != Permission(tenantId, name)
      ensures created ==> id in repository.db.permissions && repository.db.permissions[id].tenantId == tenantId
      ensures created ==> repository.db.permissions[id].name == name
    {
      var db := repository.db;
      if PermissionNameTaken(db.Snapshot(), tenantId, name) {
        return false;
      }
      db.permissions := db.permissions[id := Permission(tenantId, name)];
      return true;
    }

    /** Write, then drop the tenant's permission entries. */
    method AssignPermission(tenantId: Id, roleId: Id, permissionId: Id) returns (outcome: GrantOutcome)
      modifies repository.db`rolePermissions, cache
      ensures var w := GrantPermission(tenantId, roleId, permissionId);
        && repository.db.Snapshot() == Applied(old(repository.db.Snapshot()), w)
        && (outcome == NotFound <==> !PermissionOf(old(repository.db.Snapshot()), tenantId, permissionId))
        && (outcome == Granted <==> Accepted(old(repository.db.Snapshot()), w))
        && (outcome == BadRequest <==> PermissionOf(old(repository.db.Snapshot()), tenantId, permissionId)
                                       && roleId !in repository.db.roles)
        && (outcome == Granted ==> (tenantId, roleId, permissionId) in repository.db.rolePermissions)
        && cache.store == if outcome == Granted then Dropped(old(cache.store), w) else old(cache.store)
      ensures forall k :: k in cache.store <==>
        k in old(cache.store) && !(outcome == Granted && PermissionsPrefix(tenantId) <= k)
    {
      var db := repository.db;
      if !(permissionId in db.permissions && db.permissions[permissionId].tenantId == tenantId) {
        return NotFound;
      }
      ghost var w := GrantPermission(tenantId, roleId, permissionId);
      var ok := repository.AssignPermissionToRole(tenantId, roleId, permissionId);
      if !ok {
        return BadRequest;
      }
      cache.DelByPrefix(PermissionsPrefix(tenantId));
      return Granted;
    }
  }

  class RolesService {
    const db: Database
    const cache: CacheService<Cached>

    constructor (db: Database, cache: CacheService<Cached>)
      ensures this.db == db && this.cache == cache
    {
      this.db := db;
      this.cache := cache;
    }

    /** `id` is generated.  A second role of the same name violates the unique index. */
    method Create(tenantId: Id, id: Id, name: string) returns (created: bool)
      requires id !in db.roles
      modifies db`roles
      ensures db.Snapshot() == CreateRoleTo(old(db.Snapshot()), tenantId, id, name)
      ensures created <==> forall r :: r in old(db.roles) ==> old(db.roles)[r] != Role(tenantId, name)
      ensures created ==> id in db.roles && db.roles[id].tenantId == tenantId && db.roles[id].name == name
    {
      if RoleNameTaken(db.Snapshot(), tenantId, name) {
        return false;
      }
      db.roles := db.roles[id := Role(tenantId, name)];
      return true;
    }

    /** The idempotent upsert. */
    method AssignRoleToUser(tenantId: Id, userId: Id, roleId: Id)
      modifies db`userRoles
      ensures db.userRoles == old(db.userRoles) + {(tenantId, userId, roleId)}
    {
      if (tenantId, userId, roleId) !in db.userRoles {
        db.userRoles := db.userRoles + {(tenantId, userId, roleId)};
      }
    }

    /** Write, then drop the one user's entry. */
    method AssignRole(tenantId: Id, userId: Id, roleId: Id) returns (outcome: GrantOutcome)
      modifies db`userRoles, cache
      ensures var w := GrantRole(tenantId, userId, roleId);
        && db.Snapshot() == Applied(old(db.Snapshot()), w)
        && (outcome == NotFound <==> !RoleOf(old(db.Snapshot()), tenantId, roleId))
        && (outcome == Granted <==> Accepted(old(db.Snapshot()), w))
        && (outcome == BadRequest <==> RoleOf(old(db.Snapshot()), tenantId, roleId)
                                       && !InTenant(old(db.Snapshot()), tenantId, userId))
        && (outcome == Granted ==> (tenantId, userId, roleId) in db.userRoles)
        && cache.store == if outcome == Granted then Dropped(old(cache.store), w) else old(cache.store)
      ensures forall k :: k in cache.store <==>
        k in old(cache.store) && !(outcome == Granted && k == PermissionsKey(tenantId, userId))
    {
      if !(roleId in db.roles && db.roles[roleId].tenantId == tenantId) {
        return NotFound;
      }
      if !(userId in db.users && db.users[userId].tenantId == tenantId) {
        return BadRequest;
      }
      AssignRoleToUser(tenantId, userId, roleId);
      cache.Del(PermissionsKey(tenantId, userId));
      return Granted;
    }
  }
}
