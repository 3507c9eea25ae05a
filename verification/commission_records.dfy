/** GET /api/commission/records: the caller's commission records, newest
    first. */
module CommissionRecords {
  import opened Common
  import opened Models
  import opened Seqs
  import opened Scope

  /** The sort key of `sort({ calculationDate: -1 })`. */
  function NewestKey(x: Record): real
  {
    -(x.calculationDate as real)
  }

  predicate NewestFirst(rs: seq<Record>)
  {
    forall i, j :: 0 <= i < j < |rs| ==> rs[i].calculationDate >= rs[j].calculationDate
  }

  /** The records the caller may see, each as often as it is stored,
      ordered by calculation date, newest first. Nothing is written. */
  function ListRecords(session: Option<Session>, s: Store): (r: Outcome<seq<Record>>)
    ensures session.None? <==> r == Fail(Unauthorized)
    ensures r.Ok? ==> NewestFirst(r.value)
    ensures r.Ok? ==> forall x: Record :: multiset(r.value)[x] ==
                        (if MaySee(session.value, s.users, x.salesExecutive) then multiset(s.records)[x] else 0)
    ensures r.Ok? ==> forall x: Record :: x in r.value <==>
      x in s.records && MaySee(session.value, s.users, x.salesExecutive)
  {
    match session
    case None => Fail(Unauthorized)
    case Some(caller) =>
      var visible := Filter(s.records, (x: Record) => MaySee(caller, s.users, x.salesExecutive));
      var sorted := SortBy(visible, NewestKey);
      assert forall x: Record :: x in sorted <==> x in multiset(sorted);
      assert forall x: Record :: x in visible <==> x in multiset(visible);
      Ok(sorted)
  }

  /** The three branches of the route, read off the contract: an admin gets
      every record, a manager exactly the records of the executives assigned
      to them, anyone else exactly their own. */
  lemma {:induction false} RecordScopes(caller: Session, s: Store)
    ensures caller.role == AdminRole ==>
      multiset(ListRecords(Some(caller), s).value) == multiset(s.records)
    ensures caller.role == ManagerRole ==> forall x: Record :: x in ListRecords(Some(caller), s).value <==>
      x in s.records && exists u :: u in s.users && u.id == x.salesExecutive && u.assignedManager == Some(caller.userId)
    ensures caller.role != AdminRole && caller.role != ManagerRole ==>
      forall x: Record :: x in ListRecords(Some(caller), s).value <==> x in s.records && x.salesExecutive == caller.userId
  {
    var r := ListRecords(Some(caller), s).value;
    if caller.role == AdminRole {
      assert forall x: Record :: multiset(r)[x] == multiset(s.records)[x];
    }
    if caller.role == ManagerRole {
      forall x: Record
        ensures InTeam(s.users, caller.userId, x.salesExecutive) <==>
          exists u :: u in s.users && u.id == x.salesExecutive && u.assignedManager == Some(caller.userId)
      {
        if exists u :: u in s.users && u.id == x.salesExecutive && u.assignedManager == Some(caller.userId) {
          var u :| u in s.users && u.id == x.salesExecutive && u.assignedManager == Some(caller.userId);
          var i :| 0 <= i < |s.users| && s.users[i] == u;
          assert s.users[i].id == x.salesExecutive && ReportsTo(s.users[i], caller.userId);
        }
      }
    }
  }
}
