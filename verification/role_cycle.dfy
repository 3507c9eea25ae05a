/** The maintenance script that moves one user, looked up by email, one
    step along the role cycle executive → manager → admin → executive. */
module RoleCycle {
  import opened Common
  import opened Text
  import opened Models

  /** The step the script takes from the user's current role. */
  function NextRole(r: Role): (n: Role)
    ensures n != r
    ensures r == Executive ==> n == Manager
    ensures r == Manager ==> n == Admin
    ensures r == Admin ==> n == Executive
  {
    match r
    case Executive => Manager
    case Manager => Admin
    case Admin => Executive
  }

  /** Three steps bring every role back, and every role is the step after
      exactly one role, so the script cycles through all three. */
  lemma CycleReturns(r: Role)
    ensures NextRole(NextRole(NextRole(r))) == r
    ensures forall q: Role :: NextRole(q) == NextRole(r) ==> q == r
  {
  }

  /** The first user whose stored email is exactly `e`. */
  function FindStoredEmail(us: seq<User>, e: string): (r: Option<nat>)
    ensures r.Some? ==> r.value < |us| && us[r.value].email == e
    ensures r.Some? ==> forall j :: 0 <= j < r.value ==> us[j].email != e
    ensures r.None? <==> forall i :: 0 <= i < |us| ==> us[i].email != e
  {
    if us == [] then None
    else if us[0].email == e then Some(0)
    else
      match FindStoredEmail(us[1..], e)
      case None =>
        assert forall i :: 1 <= i < |us| ==> us[i] == us[1..][i - 1];
        None
      case Some(k) =>
        assert forall j :: 1 <= j < k + 1 ==> us[j] == us[1..][j - 1];
        Some(k + 1)
  }

  /** `User.findOne({ email })`: the first user whose stored email equals
      the lookup's normalised email. */
  function FindByEmail(us: seq<User>, email: string): (r: Option<nat>)
    ensures r.Some? ==> r.value < |us| && us[r.value].email == NormalizeEmail(email)
    ensures r.Some? ==> forall j :: 0 <= j < r.value ==> us[j].email != NormalizeEmail(email)
    ensures r.None? <==> !EmailTaken(us, email)
  {
    FindStoredEmail(us, NormalizeEmail(email))
  }

  /** The script's effect: an unknown email changes nothing; otherwise the
      first user with that email has its role advanced one step and nothing
      else changes, unless the loaded record no longer passes the schema's
      validators (a name stored as "" by the trim setter, say): then `save`
      throws, the script only logs the error, and the store is unchanged. */
  function UpdateUserRole(s: Store, email: string): (s': Store)
    ensures !EmailTaken(s.users, email) ==> s' == s
    ensures EmailTaken(s.users, email) ==>
      exists k :: && 0 <= k < |s.users| && s.users[k].email == NormalizeEmail(email)
                  && (forall j :: 0 <= j < k ==> s.users[j].email != NormalizeEmail(email))
                  && (UserValid(s.users[k]) ==>
                        s' == s.(users := s.users[k := s.users[k].(role := NextRole(s.users[k].role))]))
                  && (!UserValid(s.users[k]) ==> s' == s)
    ensures StoreValid(s) ==> StoreValid(s')
    ensures StoreValid(s) && EmailTaken(s.users, email) ==> s' != s
  {
    match FindByEmail(s.users, email)
    case None => s
    case Some(k) =>
      var updated := s.users[k].(role := NextRole(s.users[k].role));
      if !UserValid(updated) then s
      else
        ReplaceUserKeepsValid(s, k, updated);
        assert s.users[k := updated][k].role != s.users[k].role;
        s.(users := s.users[k := updated])
  }

  /** The script leaves the store unchanged when the user it finds fails
      validation. */
  lemma InvalidUserNotSaved(s: Store, email: string, i: nat)
    requires i < |s.users| && s.users[i].email == NormalizeEmail(email) && !UserValid(s.users[i])
    requires forall j :: 0 <= j < |s.users| && j != i ==> s.users[j].email != s.users[i].email
    ensures UpdateUserRole(s, email) == s
  {
    assert EmailTaken(s.users, email);
  }
}
