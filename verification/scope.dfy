/** The visibility rule the listing routes share: an admin sees everything,
    a manager sees what belongs to the users assigned to them, anyone else
    sees only what is their own. */
module Scope {
  import opened Common
  import opened Models

  /** Selected by `User.find({ assignedManager: managerId })`. */
  predicate ReportsTo(u: User, managerId: Id)
  {
    u.assignedManager == Some(managerId)
  }

  /** `ownerId` is among the `_id`s of the manager's team, the `$in` list the
      manager branches build. */
  predicate InTeam(us: seq<User>, managerId: Id, ownerId: Id)
  {
    exists i :: 0 <= i < |us| && us[i].id == ownerId && ReportsTo(us[i], managerId)
  }

  /** Whether the caller may see a sale or commission record owned by
      `ownerId`. */
  predicate MaySee(caller: Session, us: seq<User>, ownerId: Id)
  {
    if caller.role == AdminRole then true
    else if caller.role == ManagerRole then InTeam(us, caller.userId, ownerId)
    else ownerId == caller.userId
  }

  /** Whether the caller may see user `u` in the user listing. */
  predicate MaySeeUser(caller: Session, u: User)
  {
    if caller.role == AdminRole then true
    else if caller.role == ManagerRole then ReportsTo(u, caller.userId)
    else u.id == caller.userId
  }
}
