/** How the routes act on one another through the store: what one route
    writes is what another later reads. */
module Workflows {
  import opened Common
  import opened Text
  import opened Models
  import opened Scope
  import opened Sales
  import opened Users
  import opened CommissionRecords
  import opened CommissionCalculate
  import opened RoleCycle

  /** A sale an executive records counts in full towards that executive's
      next commission, shows in their own sales listing, and changes no
      other executive's total. */
  lemma RecordedSaleRaisesTotal(session: Option<Session>, input: SaleInput, s: Store, env: Env, other: Id)
    ensures var r := CreateSale(session, input, s, env);
            r.outcome.Ok? ==>
              && SalesTotal(r.store.sales, session.value.userId)
                   == SalesTotal(s.sales, session.value.userId) + input.saleAmount.value
              && (other != session.value.userId ==> SalesTotal(r.store.sales, other) == SalesTotal(s.sales, other))
              && r.outcome.value in ListSales(session, r.store).value
  {
    var r := CreateSale(session, input, s, env);
    if r.outcome.Ok? {
      var x := r.outcome.value;
      SaleCountsForItsOwnerOnly(s.sales, x, session.value.userId);
      SaleCountsForItsOwnerOnly(s.sales, x, other);
      assert x in r.store.sales;
    }
  }

  /** The record a calculation saves is listed for the executive it is
      about, and for every admin. */
  lemma CalculatedRecordVisible(session: Option<Session>, executiveId: Option<Id>, s: Store, env: Env, admin: Session)
    requires admin.role == AdminRole
    ensures var r := Calculate(session, executiveId, s, env);
            r.outcome.Ok? ==>
              var x := r.store.records[|s.records|];
              && x in ListRecords(Some(Session(executiveId.value, ExecutiveRole)), r.store).value
              && x in ListRecords(Some(admin), r.store).value
  {
    var r := Calculate(session, executiveId, s, env);
    if r.outcome.Ok? {
      var x := r.store.records[|s.records|];
      assert x in r.store.records;
      assert x.salesExecutive == executiveId.value;
      StoredRecordVisible(r.store, x, admin);
    }
  }

  /** Every stored record is listed for its executive and for an admin. */
  lemma StoredRecordVisible(st: Store, x: Record, admin: Session)
    requires admin.role == AdminRole && x in st.records
    ensures x in ListRecords(Some(Session(x.salesExecutive, ExecutiveRole)), st).value
    ensures x in ListRecords(Some(admin), st).value
  {
    assert MaySee(Session(x.salesExecutive, ExecutiveRole), st.users, x.salesExecutive);
  }

  /** Setting a role a second time changes nothing more. */
  lemma ChangeRoleIdempotent(session: Option<Session>, userId: Option<Id>, newRole: Option<string>, s: Store)
    ensures var r := ChangeRole(session, userId, newRole, s);
            r.outcome.Ok? ==> ChangeRole(session, userId, newRole, r.store) == r
  {
    var r := ChangeRole(session, userId, newRole, s);
    if r.outcome.Ok? {
      var k := FindUser(s.users, userId.value).value;
      var role := ParseRole(newRole.value).value;
      var updated := s.users[k].(role := role);
      assert r == Reply(Ok(Strip(updated)), s.(users := s.users[k := updated]));
      assert forall i :: 0 <= i < |s.users| ==> r.store.users[i].id == s.users[i].id;
      assert FindUser(r.store.users, userId.value) == Some(k);
      assert r.store.users[k].(role := role) == updated;
      assert r.store.users[k := updated] == r.store.users;
    }
  }

  /** Sending the same profile update twice leaves the store as the first
      update left it. */
  lemma UpdateProfileIdempotent(session: Option<Session>, name: Option<string>, phone: Option<string>,
                                profilePicture: Option<string>, s: Store)
    ensures var r := UpdateProfile(session, name, phone, profilePicture, s);
            r.outcome.Ok? ==> UpdateProfile(session, name, phone, profilePicture, r.store) == r
  {
    var r := UpdateProfile(session, name, phone, profilePicture, s);
    if r.outcome.Ok? {
      var k := FindUser(s.users, session.value.userId).value;
      UpdateProfileTwiceAt(session.value, name, phone, profilePicture, s, k);
    }
  }

  /** The idempotence step once the caller's record is found at `k`. */
  lemma UpdateProfileTwiceAt(caller: Session, name: Option<string>, phone: Option<string>,
                             profilePicture: Option<string>, s: Store, k: nat)
    requires TruthyText(name) && FindUser(s.users, caller.userId) == Some(k)
    ensures var r := UpdateProfile(Some(caller), name, phone, profilePicture, s);
            UpdateProfile(Some(caller), name, phone, profilePicture, r.store) == r
  {
    var updated := EditProfile(s.users[k], name.value, phone, profilePicture);
    var s' := s.(users := s.users[k := updated]);
    UpdateProfileAt(caller, name, phone, profilePicture, s, k);
    FindUserReplace(s.users, k, updated);
    UpdateProfileAt(caller, name, phone, profilePicture, s', k);
    assert EditProfile(updated, name.value, phone, profilePicture) == updated;
    assert s'.users[k := updated] == s'.users;
  }

  /** Once a profile update has blanked a user's name, the role-cycle script
      can no longer save that user: the store stays as the update left it. */
  lemma BlankedUserKeepsRole(caller: Session, s: Store, email: string)
    requires UsersDistinct(s.users)
    requires exists i :: 0 <= i < |s.users| && s.users[i].id == caller.userId
                         && s.users[i].email == NormalizeEmail(email)
    ensures var r := UpdateProfile(Some(caller), Some("  "), None, None, s);
            UpdateUserRole(r.store, email) == r.store
  {
    var r := UpdateProfile(Some(caller), Some("  "), None, None, s);
    var i :| 0 <= i < |s.users| && s.users[i].id == caller.userId && s.users[i].email == NormalizeEmail(email);
    BlankedUserFacts(caller, s, i);
    InvalidUserNotSaved(r.store, email, i);
  }

  /** What the blank-name update leaves behind: the same emails, and an
      invalid record at position `i`. */
  lemma BlankedUserFacts(caller: Session, s: Store, i: nat)
    requires UsersDistinct(s.users)
    requires i < |s.users| && s.users[i].id == caller.userId
    ensures var r := UpdateProfile(Some(caller), Some("  "), None, None, s);
            && r.outcome.Ok? && |r.store.users| == |s.users|
            && r.store.users[i].email == s.users[i].email
            && !UserValid(r.store.users[i])
            && forall j :: 0 <= j < |s.users| && j != i ==> r.store.users[j].email != r.store.users[i].email
  {
    BlankNameStoredEmpty(caller, s);
    var r := UpdateProfile(Some(caller), Some("  "), None, None, s);
    assert forall j :: 0 <= j < |s.users| ==> r.store.users[j].email == s.users[j].email;
  }
}
