/** The user routes that read or update existing users: the role-scoped
    listing (GET /api/users), an admin changing a role
    (POST /api/test-role-change) and a user editing their own profile
    (PUT /api/users/profile). `findByIdAndUpdate` runs the schema's setters
    (so `trim` applies) but not its validators, and drops keys whose value
    is `undefined`. */
module Users {
  import opened Common
  import opened Text
  import opened Models
  import opened Seqs
  import opened Scope

  function StripAll(us: seq<User>): (ps: seq<PublicUser>)
    ensures |ps| == |us| && forall i :: 0 <= i < |us| ==> ps[i] == Strip(us[i])
  {
    seq(|us|, i requires 0 <= i < |us| => Strip(us[i]))
  }

  /** The stripped listing holds exactly the stripped forms of the users. */
  lemma StripAllMembers(us: seq<User>)
    ensures forall p: PublicUser :: p in StripAll(us) <==> exists u :: u in us && Strip(u) == p
  {
    var ps := StripAll(us);
    forall p: PublicUser
      ensures p in ps <==> exists u :: u in us && Strip(u) == p
    {
      if p in ps {
        var i :| 0 <= i < |ps| && ps[i] == p;
        assert us[i] in us;
      }
      if exists u :: u in us && Strip(u) == p {
        var u :| u in us && Strip(u) == p;
        var i :| 0 <= i < |us| && us[i] == u;
        assert ps[i] == p;
      }
    }
  }

  /** GET /api/users: the users the caller may see, without passwords.
      Nothing is written. */
  function ListUsers(session: Option<Session>, s: Store): (r: Outcome<seq<PublicUser>>)
    ensures session.None? <==> r == Fail(Unauthorized)
    ensures r.Ok? ==> forall p: PublicUser :: p in r.value <==>
      exists u :: u in s.users && MaySeeUser(session.value, u) && Strip(u) == p
    ensures r.Ok? ==>
      multiset(r.value) == multiset(StripAll(Filter(s.users, (u: User) => MaySeeUser(session.value, u))))
  {
    match session
    case None => Fail(Unauthorized)
    case Some(caller) =>
      var visible := Filter(s.users, (u: User) => MaySeeUser(caller, u));
      StripAllMembers(visible);
      var ps := StripAll(visible);
      Ok(ps)
  }

  /** Stripping counts a user as often as it occurs, when no other user
      looks the same once stripped. */
  lemma {:induction false} StripAllCount(vs: seq<User>, u: User)
    requires forall v :: v in vs && Strip(v) == Strip(u) ==> v == u
    ensures multiset(StripAll(vs))[Strip(u)] == multiset(vs)[u]
    decreases |vs|
  {
    if vs != [] {
      var n := |vs| - 1;
      assert vs == vs[..n] + [vs[n]];
      assert StripAll(vs) == StripAll(vs[..n]) + [Strip(vs[n])];
      StripAllCount(vs[..n], u);
    }
  }

  /** With distinct ids, each stored user occurs once. */
  lemma DistinctUserOnce(us: seq<User>, i: nat)
    requires UsersDistinct(us) && i < |us|
    ensures multiset(us)[us[i]] == 1
  {
    assert us == us[..i] + [us[i]] + us[i + 1..];
    assert us[i] !in us[..i];
    assert us[i] !in us[i + 1..];
  }

  /** On a store with distinct ids, every user the caller may see is
      listed exactly once. */
  lemma ListUsersOnceEach(caller: Session, s: Store, i: nat)
    requires UsersDistinct(s.users) && i < |s.users| && MaySeeUser(caller, s.users[i])
    ensures multiset(ListUsers(Some(caller), s).value)[Strip(s.users[i])] == 1
  {
    var u := s.users[i];
    var visible := Filter(s.users, (v: User) => MaySeeUser(caller, v));
    DistinctUserOnce(s.users, i);
    forall v | v in visible && Strip(v) == Strip(u)
      ensures v == u
    {
      var j :| 0 <= j < |s.users| && s.users[j] == v;
      assert v.id == u.id;
    }
    StripAllCount(visible, u);
  }

  /** The three branches of the route, read off the contract: an admin's
      listing holds every user, a manager's exactly their direct reports
      (so the manager only when assigned to themself), anyone else's only
      their own record. */
  lemma {:induction false} UserScopes(caller: Session, s: Store, u: User)
    requires u in s.users
    ensures caller.role == AdminRole ==> Strip(u) in ListUsers(Some(caller), s).value
    ensures caller.role == ManagerRole ==>
      (Strip(u) in ListUsers(Some(caller), s).value <==> u.assignedManager == Some(caller.userId))
    ensures caller.role != AdminRole && caller.role != ManagerRole ==>
      (Strip(u) in ListUsers(Some(caller), s).value <==> u.id == caller.userId)
  {
    var r := ListUsers(Some(caller), s).value;
    if Strip(u) in r {
      var v :| v in s.users && MaySeeUser(caller, v) && Strip(v) == Strip(u);
      assert v.id == u.id && v.assignedManager == u.assignedManager;
    }
  }

  /** POST /api/test-role-change: an admin sets one user's role to one of
      the three valid roles. */
  function ChangeRole(session: Option<Session>, userId: Option<Id>, newRole: Option<string>, s: Store)
    : (r: Reply<PublicUser>)
    ensures r.outcome.Fail? ==> r.store == s
    ensures session.None? ==> r.outcome == Fail(Unauthorized)
    ensures session.Some? && session.value.role != AdminRole ==> r.outcome == Fail(Forbidden)
    ensures session.Some? && session.value.role == AdminRole && !(TruthyText(userId) && TruthyText(newRole))
            ==> r.outcome == Fail(BadRequest)
    ensures (session.Some? && session.value.role == AdminRole && TruthyText(userId) && TruthyText(newRole)
             && ParseRole(newRole.value).None?) ==> r.outcome == Fail(BadRequest)
    ensures r.outcome == Fail(NotFound) <==>
      && session.Some? && session.value.role == AdminRole && TruthyText(userId) && TruthyText(newRole)
      && ParseRole(newRole.value).Some?
      && forall i :: 0 <= i < |s.users| ==> s.users[i].id != userId.value
    ensures r.outcome.Ok? <==>
      && session.Some? && session.value.role == AdminRole && TruthyText(userId) && TruthyText(newRole)
      && ParseRole(newRole.value).Some?
      && exists i :: 0 <= i < |s.users| && s.users[i].id == userId.value
    ensures r.outcome.Ok? ==>
      && session.value.role == AdminRole
      && r.store == s.(users := r.store.users)
      && |r.store.users| == |s.users|
      && RoleName(r.outcome.value.role) == newRole.value
      && r.outcome.value.id == userId.value
    ensures r.outcome.Ok? ==>
      exists k :: 0 <= k < |s.users| && s.users[k].id == userId.value && r.outcome.value == Strip(r.store.users[k])
    ensures r.outcome.Ok? && UsersDistinct(s.users) ==>
      forall i :: 0 <= i < |s.users| ==>
        r.store.users[i] == if s.users[i].id == userId.value
                            then s.users[i].(role := r.outcome.value.role)
                            else s.users[i]
    ensures StoreValid(s) ==> StoreValid(r.store)
  {
    match session
    case None => Reply(Fail(Unauthorized), s)
    case Some(caller) =>
      if caller.role != AdminRole then Reply(Fail(Forbidden), s)
      else if !(TruthyText(userId) && TruthyText(newRole)) then Reply(Fail(BadRequest), s)
      else
        match ParseRole(newRole.value)
        case None => Reply(Fail(BadRequest), s)
        case Some(role) =>
          match FindUser(s.users, userId.value)
          case None => Reply(Fail(NotFound), s)
          case Some(k) =>
            var updated := s.users[k].(role := role);
            var s' := s.(users := s.users[k := updated]);
            ReplaceUserKeepsValid(s, k, updated);
            Reply(Ok(Strip(updated)), s')
  }

  /** PUT /api/users/profile: the caller rewrites the name, phone and
      profile picture of their own record, and nothing else. */
  function UpdateProfile(session: Option<Session>, name: Option<string>, phone: Option<string>,
                         profilePicture: Option<string>, s: Store): (r: Reply<PublicUser>)
    ensures r.outcome.Fail? ==> r.store == s
    ensures session.None? ==> r.outcome == Fail(Unauthorized)
    ensures session.Some? && !TruthyText(name) ==> r.outcome == Fail(BadRequest)
    ensures r.outcome == Fail(NotFound) <==>
      session.Some? && TruthyText(name) && forall i :: 0 <= i < |s.users| ==> s.users[i].id != session.value.userId
    ensures r.outcome.Ok? <==>
      session.Some? && TruthyText(name) && exists i :: 0 <= i < |s.users| && s.users[i].id == session.value.userId
    ensures r.outcome.Ok? ==>
      && r.store == s.(users := r.store.users)
      && |r.store.users| == |s.users|
      && r.outcome.value.id == session.value.userId
      && r.outcome.value.name == Trim(name.value)
    ensures r.outcome.Ok? ==>
      exists k :: 0 <= k < |s.users| && s.users[k].id == session.value.userId
                  && r.outcome.value == Strip(r.store.users[k])
    ensures r.outcome.Ok? && UsersDistinct(s.users) ==>
      forall i :: 0 <= i < |s.users| ==>
        var before := s.users[i];
        var after := r.store.users[i];
        if before.id != session.value.userId then after == before
        else
          && after == before.(name := after.name, phone := after.phone, profilePicture := after.profilePicture)
          && after.name == Trim(name.value)
          && after.phone == (if phone.Some? then phone else before.phone)
          && after.profilePicture == (if profilePicture.Some? then profilePicture else before.profilePicture)
    ensures StoreValid(s) && TruthyText(name) && Trim(name.value) != "" ==> StoreValid(r.store)
  {
    match session
    case None => Reply(Fail(Unauthorized), s)
    case Some(caller) =>
      if !TruthyText(name) then Reply(Fail(BadRequest), s)
      else
        match FindUser(s.users, caller.userId)
        case None => Reply(Fail(NotFound), s)
        case Some(k) =>
          var updated := EditProfile(s.users[k], name.value, phone, profilePicture);
          var s' := s.(users := s.users[k := updated]);
          ReplaceUserKeepsValid(s, k, updated);
          assert s'.users[k] == updated;
          assert UsersDistinct(s.users) ==>
            forall i :: 0 <= i < |s.users| && s.users[i].id == caller.userId ==> i == k;
          Reply(Ok(Strip(updated)), s')
  }

  /** The record the profile update writes: the trimmed name, and the phone
      and picture when they were sent (`undefined` keys are dropped). */
  function EditProfile(u: User, name: string, phone: Option<string>, profilePicture: Option<string>): (e: User)
    ensures e == u.(name := e.name, phone := e.phone, profilePicture := e.profilePicture)
    ensures e.name == Trim(name)
    ensures e.phone == (if phone.Some? then phone else u.phone)
    ensures e.profilePicture == (if profilePicture.Some? then profilePicture else u.profilePicture)
  {
    u.(name := Trim(name),
       phone := if phone.Some? then phone else u.phone,
       profilePicture := if profilePicture.Some? then profilePicture else u.profilePicture)
  }

  /** The route, once the caller's record is found at `k`. */
  lemma UpdateProfileAt(caller: Session, name: Option<string>, phone: Option<string>,
                        profilePicture: Option<string>, s: Store, k: nat)
    requires TruthyText(name) && FindUser(s.users, caller.userId) == Some(k)
    ensures var updated := EditProfile(s.users[k], name.value, phone, profilePicture);
            UpdateProfile(Some(caller), name, phone, profilePicture, s)
              == Reply(Ok(Strip(updated)), s.(users := s.users[k := updated]))
  {
  }

  /** A name of only white space is truthy, so it passes the route's check,
      and the trim setter stores it as the empty string: the required
      validator of the schema never sees it. */
  lemma BlankNameStoredEmpty(caller: Session, s: Store)
    requires exists i :: 0 <= i < |s.users| && s.users[i].id == caller.userId
    ensures var r := UpdateProfile(Some(caller), Some("  "), None, None, s);
            r.outcome.Ok? && r.outcome.value.name == "" && !StoreValid(r.store)
  {
    assert Trim("  ") == "" by {
      TrimEmptyIff("  ");
    }
    var r := UpdateProfile(Some(caller), Some("  "), None, None, s);
    var k := FindUser(s.users, caller.userId).value;
    assert !UserValid(r.store.users[k]);
  }
}
