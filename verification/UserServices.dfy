/** Users: the entry points that drive the closure table. */
module UserServices {
  import opened Domain
  import opened Tables
  import opened HierarchySpec
  import opened AdminSpec
  import opened Database
  import opened HierarchyService

  datatype UserOutcome = Saved | EmailInUse | UserNotFound | ManagerNotFound | Refused(why: Outcome)

  function Reported(answer: Outcome): UserOutcome {
    if answer == Done then Saved else Refused(answer)
  }

  ghost predicate HasEmail(users: map<Id, User>, u: Id, t: Id, email: string) {
    u in users && users[u].tenantId == t && users[u].email == email
  }

  /** Each field is the one asked for, or the one it was; tenant and manager stay. */
  ghost predicate Changed(before: User, ch: UserChanges, after: User) {
    && after.tenantId == before.tenantId && after.managerId == before.managerId
    && (if ch.email == None then after.email == before.email else Some(after.email) == ch.email)
    && (if ch.departmentId == None then after.departmentId == before.departmentId
        else Some(after.departmentId) == ch.departmentId)
    && (if ch.location == None then after.location == before.location else Some(after.location) == ch.location)
    && (if ch.clearance == None then after.clearance == before.clearance else Some(after.clearance) == ch.clearance)
    && (if ch.status == None then after.status == before.status else Some(after.status) == ch.status)
  }

  class UsersService {
    const db: Database
    const hierarchy: HierarchyService

    constructor (hierarchy: HierarchyService)
      ensures this.hierarchy == hierarchy && db == hierarchy.db
    {
      this.hierarchy := hierarchy;
      db := hierarchy.db;
    }

    /** `id` is the fresh identifier the database generates. */
    method Create(id: Id, user: User, managerId: Option<Id>) returns (outcome: UserOutcome)
      requires KeysValid(db.Snapshot()) && id !in db.users && id != "" && hierarchy.db == db
      modifies db`users, db`closure
      ensures db.Snapshot() == CreateUserTo(old(db.Snapshot()), id, user, managerId)
      ensures outcome == if EmailTaken(old(db.Snapshot()), user.tenantId, user.email) then EmailInUse
        else if !Truthy(managerId) then Saved
        else Reported(AssignOutcome(AddNodeTo(UserAdded(old(db.Snapshot()), id, user), user.tenantId, id),
                                    user.tenantId, id, managerId.value))
      ensures outcome == EmailInUse <==> exists u :: HasEmail(old(db.users), u, user.tenantId, user.email)
      ensures outcome == EmailInUse ==> db.Snapshot() == old(db.Snapshot())
      ensures outcome != EmailInUse ==> db.users == old(db.users)[id := user.(managerId :=
        if managerId.Some? && managerId.value != "" && managerId.value in old(db.users) then managerId else None)]
    {
      ghost var s := db.Snapshot();
      if !EmailTaken(s, user.tenantId, user.email) { CreatedUser(s, id, user, managerId); }
      if EmailTaken(db.Snapshot(), user.tenantId, user.email) {
        ghost var u :| u in db.users && db.users[u].tenantId == user.tenantId && db.users[u].email == user.email;
        assert HasEmail(db.users, u, user.tenantId, user.email);
        return EmailInUse;
      }
      db.users := db.users[id := user.(managerId := None)];
      assert db.Snapshot() == UserAdded(s, id, user);
      var _ := hierarchy.AddNode(user.tenantId, id);
      AddNodeKeepsKeys(UserAdded(s, id, user), user.tenantId, id);
      outcome := Saved;
      if Truthy(managerId) {
        var answer := hierarchy.AssignManager(user.tenantId, id, managerId.value);
        outcome := Reported(answer);
      }
    }

    /** Both ends are looked up in the tenant before the hierarchy is asked. */
    method AssignManager(tenantId: Id, userId: Id, managerId: Id) returns (outcome: UserOutcome)
      requires KeysValid(db.Snapshot()) && hierarchy.db == db
      modifies db`users, db`closure
      ensures var s := old(db.Snapshot());
        db.Snapshot() == if InTenant(s, tenantId, userId) && InTenant(s, tenantId, managerId)
          then AssignManagerTo(s, tenantId, userId, managerId) else s
      ensures outcome == if !InTenant(old(db.Snapshot()), tenantId, userId) then UserNotFound
        else if !InTenant(old(db.Snapshot()), tenantId, managerId) then ManagerNotFound
        else Reported(AssignOutcome(old(db.Snapshot()), tenantId, userId, managerId))
    {
      if !(userId in db.users && db.users[userId].tenantId == tenantId) {
        return UserNotFound;
      }
      if !(managerId in db.users && db.users[managerId].tenantId == tenantId) {
        return ManagerNotFound;
      }
      var answer := hierarchy.AssignManager(tenantId, userId, managerId);
      outcome := Reported(answer);
    }

    /** The scoped patch: no row of another tenant is touched, and an e-mail another user
        of the tenant has is refused. */
    method Update(tenantId: Id, userId: Id, changes: UserChanges) returns (outcome: UserOutcome)
      modifies db`users
      ensures db.Snapshot() == UpdateUserTo(old(db.Snapshot()), tenantId, userId, changes)
      ensures outcome == if !InTenant(old(db.Snapshot()), tenantId, userId) then UserNotFound
        else if ChangeAccepted(old(db.Snapshot()), tenantId, userId, changes) then Saved
        else EmailInUse
      ensures outcome == EmailInUse ==> changes.email.Some?
      ensures outcome != UserNotFound && changes.email.Some? ==>
        (outcome == EmailInUse <==>
         exists u :: u != userId && HasEmail(old(db.users), u, tenantId, changes.email.value))
      ensures outcome == Saved ==> userId in db.users && Changed(old(db.users)[userId], changes, db.users[userId])
      ensures forall u :: u in old(db.users) && u != userId ==> u in db.users && db.users[u] == old(db.users)[u]
    {
      if !(userId in db.users && db.users[userId].tenantId == tenantId) {
        return UserNotFound;
      }
      if changes.email.Some? && EmailTakenByOther(db.Snapshot(), tenantId, changes.email.value, userId) {
        ghost var u :| u in db.users && u != userId && db.users[u].tenantId == tenantId
          && db.users[u].email == changes.email.value;
        assert HasEmail(db.users, u, tenantId, changes.email.value);
        return EmailInUse;
      }
      db.users := db.users[userId := Patched(db.users[userId], changes)];
      return Saved;
    }
  }
}
