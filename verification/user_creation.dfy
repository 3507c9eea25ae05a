/** The two routes that create an account: an admin creating a user
    (POST /api/admin/users) and public self-registration
    (POST /api/auth/register). Both check the email is free, generate an
    employee ID, store the bcrypt digest of the password and answer with
    the password-free view of the new user. */
module UserCreation {
  import opened Common
  import opened Text
  import opened Models
  import opened EmployeeIdGenerator

  /** The JSON body of POST /api/admin/users. */
  datatype AdminUserInput = AdminUserInput(
    name: Option<string>,
    email: Option<string>,
    password: Option<string>,
    role: Option<string>,
    phone: Option<string>,
    assignedTarget: Option<real>,
    assignedManager: Option<Id>)

  /** The `role` of the registration body, where JSON `null` and a missing
      key take different paths: only a missing key gets the default. */
  datatype RoleField = Absent | NullRole | Given(text: string)

  /** The JSON body of POST /api/auth/register. */
  datatype RegisterInput = RegisterInput(
    name: Option<string>,
    email: Option<string>,
    password: Option<string>,
    phone: Option<string>,
    role: RoleField)

  /** Whether `save` accepts the document built for a free email, apart
      from its employee ID: the role is one of the schema's enum values, the
      trimmed name and normalised email are non-empty, the digest is
      non-empty and the new `_id` is unused. */
  predicate AccountSaves(name: string, email: string, role: string, s: Store, env: Env)
  {
    && ParseRole(role).Some?
    && Trim(name) != ""
    && NormalizeEmail(email) != ""
    && env.digest != ""
    && forall i :: 0 <= i < |s.users| ==> s.users[i].id != env.newId
  }

  /** Whether `save` accepts the employee ID: it is required, and the
      unique index refuses one a stored user already has. */
  predicate IdSaves(employeeId: string, s: Store)
  {
    employeeId != "" && forall i :: 0 <= i < |s.users| ==> s.users[i].employeeId != employeeId
  }

  /** The document `new User({...})` stores, given the fields both routes
      pass and the employee ID; `profilePicture` is absent and `isActive`
      is true. */
  predicate IsAccountDocument(u: User, name: string, email: string, role: string, employeeId: string,
                              phone: Option<string>, assignedTarget: Option<real>, assignedManager: Option<Id>,
                              env: Env)
  {
    && u.id == env.newId
    && u.name == Trim(name)
    && u.email == NormalizeEmail(email)
    && u.password == env.digest
    && RoleName(u.role) == role
    && u.employeeId == employeeId
    && u.assignedManager == assignedManager
    && u.assignedTarget == assignedTarget
    && u.phone == phone
    && u.profilePicture == None
    && u.isActive
  }

  /** The document the routes store, with the ID from the corrected
      generator. */
  predicate IsNewAccount(u: User, name: string, email: string, role: string, phone: Option<string>,
                         assignedTarget: Option<real>, assignedManager: Option<Id>, s: Store, env: Env)
  {
    IsAccountDocument(u, name, email, role, Generate(role, EmployeeIds(s.users)),
                      phone, assignedTarget, assignedManager, env)
  }

  /** The corrected generator's ID always passes `save`'s checks. */
  lemma GeneratedIdUnused(role: string, s: Store)
    ensures IdSaves(Generate(role, EmployeeIds(s.users)), s)
  {
    var ids := EmployeeIds(s.users);
    forall i | 0 <= i < |s.users|
      ensures s.users[i].employeeId != Generate(role, ids)
    {
      assert ids[i] == s.users[i].employeeId;
    }
  }

  /** For a free email, saving the new document succeeds exactly when
      `AccountSaves` and `IdSaves` hold. */
  lemma NewAccountSaves(u: User, name: string, email: string, role: string, employeeId: string,
                        phone: Option<string>, assignedTarget: Option<real>, assignedManager: Option<Id>,
                        s: Store, env: Env)
    requires IsAccountDocument(u, name, email, role, employeeId, phone, assignedTarget, assignedManager, env)
    requires !EmailTaken(s.users, email)
    ensures InsertUser(s, u).Ok? <==> AccountSaves(name, email, role, s, env) && IdSaves(employeeId, s)
  {
    assert ParseRole(role).Some? by {
      RoleNameRoundTrip(u.role);
    }
  }

  /** The part both routes share once the body has passed their checks:
      refuse a taken email, then build and save the user with the given
      employee ID. The password itself is not needed: the document stores
      `env.digest`. */
  function CreateAccount(name: string, email: string, role: string, employeeId: string, phone: Option<string>,
                         assignedTarget: Option<real>, assignedManager: Option<Id>, s: Store, env: Env)
    : (r: Reply<PublicUser>)
    ensures r.outcome.Fail? ==> r.store == s
    ensures r.outcome == Fail(BadRequest) <==> EmailTaken(s.users, email)
    ensures r.outcome.Ok? <==>
      !EmailTaken(s.users, email) && AccountSaves(name, email, role, s, env) && IdSaves(employeeId, s)
    ensures r.outcome.Fail? && !EmailTaken(s.users, email) ==> r.outcome == Fail(Internal)
    ensures r.outcome.Ok? ==>
      && |r.store.users| == |s.users| + 1
      && r.store == s.(users := s.users + [r.store.users[|s.users|]])
      && IsAccountDocument(r.store.users[|s.users|], name, email, role, employeeId,
                           phone, assignedTarget, assignedManager, env)
      && r.outcome.value == Strip(r.store.users[|s.users|])
    ensures StoreValid(s) ==> StoreValid(r.store)
  {
    if EmailTaken(s.users, email) then Reply(Fail(BadRequest), s)
    else
      match ParseRole(role)
      case None => Reply(Fail(Internal), s)
      case Some(parsed) =>
        var u := User(env.newId, Trim(name), NormalizeEmail(email), env.digest, parsed, employeeId,
                      assignedManager, assignedTarget, phone, None, true);
        NewAccountSaves(u, name, email, role, employeeId, phone, assignedTarget, assignedManager, s, env);
        match InsertUser(s, u)
        case Ok(s') => Reply(Ok(Strip(u)), s')
        case Fail(e) => Reply(Fail(e), s)
  }

  /** `CreateAccount` with the ID from the corrected generator, which never
      fails the employee-ID checks. */
  function SaveAccount(name: string, email: string, role: string, phone: Option<string>,
                       assignedTarget: Option<real>, assignedManager: Option<Id>, s: Store, env: Env)
    : (r: Reply<PublicUser>)
    ensures r.outcome.Fail? ==> r.store == s
    ensures r.outcome == Fail(BadRequest) <==> EmailTaken(s.users, email)
    ensures r.outcome.Ok? <==> !EmailTaken(s.users, email) && AccountSaves(name, email, role, s, env)
    ensures r.outcome.Fail? && !EmailTaken(s.users, email) ==> r.outcome == Fail(Internal)
    ensures r.outcome.Ok? ==>
      && |r.store.users| == |s.users| + 1
      && r.store == s.(users := s.users + [r.store.users[|s.users|]])
      && IsNewAccount(r.store.users[|s.users|], name, email, role, phone, assignedTarget, assignedManager, s, env)
      && r.outcome.value == Strip(r.store.users[|s.users|])
    ensures StoreValid(s) ==> StoreValid(r.store)
  {
    GeneratedIdUnused(role, s);
    CreateAccount(name, email, role, Generate(role, EmployeeIds(s.users)),
                  phone, assignedTarget, assignedManager, s, env)
  }

  /** The generator as written, at the level of the routes: with `E999`
      and `E1000` stored it hands out `E1000` again, so creating an
      executive answers 500 and stores nothing, where the corrected
      generator's ID saves. */
  lemma AsWrittenCreateFailsPastE1000(name: string, email: string, phone: Option<string>,
                                      assignedTarget: Option<real>, assignedManager: Option<Id>,
                                      s: Store, env: Env)
    requires EmployeeIds(s.users) == ["E999", "E1000"]
    requires !EmailTaken(s.users, email)
    ensures var r := CreateAccount(name, email, ExecutiveRole, GenerateAsWritten(ExecutiveRole, EmployeeIds(s.users)),
                                   phone, assignedTarget, assignedManager, s, env);
            r.outcome == Fail(Internal) && r.store == s
    ensures AccountSaves(name, email, ExecutiveRole, s, env) ==>
              SaveAccount(name, email, ExecutiveRole, phone, assignedTarget, assignedManager, s, env).outcome.Ok?
  {
    AsWrittenRepeatsAnId();
    assert s.users[1].employeeId == EmployeeIds(s.users)[1] == "E1000";
  }

  /** POST /api/admin/users: only an admin may create a user; name, email,
      password and role must be truthy; the manager reference is kept only
      when truthy. */
  function AdminCreateUser(session: Option<Session>, input: AdminUserInput, s: Store, env: Env)
    : (r: Reply<PublicUser>)
    ensures r.outcome.Fail? ==> r.store == s
    ensures session.None? ==> r.outcome == Fail(Unauthorized)
    ensures session.Some? && session.value.role != AdminRole ==> r.outcome == Fail(Forbidden)
    ensures r.outcome == Fail(BadRequest) <==>
      && session.Some? && session.value.role == AdminRole
      && (!(TruthyText(input.name) && TruthyText(input.email) && TruthyText(input.password) && TruthyText(input.role))
          || EmailTaken(s.users, input.email.value))
    ensures r.outcome.Ok? <==>
      && session.Some? && session.value.role == AdminRole
      && TruthyText(input.name) && TruthyText(input.email) && TruthyText(input.password) && TruthyText(input.role)
      && !EmailTaken(s.users, input.email.value)
      && AccountSaves(input.name.value, input.email.value, input.role.value, s, env)
    ensures r.outcome.Ok? ==>
      && |r.store.users| == |s.users| + 1
      && r.store == s.(users := s.users + [r.store.users[|s.users|]])
      && IsNewAccount(r.store.users[|s.users|], input.name.value, input.email.value, input.role.value,
                      input.phone, input.assignedTarget, OrUndefined(input.assignedManager), s, env)
      && r.outcome.value == Strip(r.store.users[|s.users|])
    ensures StoreValid(s) ==> StoreValid(r.store)
  {
    match session
    case None => Reply(Fail(Unauthorized), s)
    case Some(caller) =>
      if caller.role != AdminRole then Reply(Fail(Forbidden), s)
      else if !(TruthyText(input.name) && TruthyText(input.email) && TruthyText(input.password)
                && TruthyText(input.role)) then
        Reply(Fail(BadRequest), s)
      else
        SaveAccount(input.name.value, input.email.value, input.role.value,
                    input.phone, input.assignedTarget, OrUndefined(input.assignedManager), s, env)
  }

  /** The destructuring default `role = 'executive'`: it applies only when
      the key is absent. A `null` role stays `null`, which is no role text
      at all (`None`). */
  function RoleOrDefault(role: RoleField): (r: Option<string>)
    ensures role.Absent? ==> r == Some(ExecutiveRole)
    ensures role.Given? ==> r == Some(role.text)
    ensures role.NullRole? <==> r.None?
  {
    match role
    case Absent => Some(ExecutiveRole)
    case NullRole => None
    case Given(text) => Some(text)
  }

  /** POST /api/auth/register: no session is needed; name, email and
      password must be truthy; the role defaults to executive but is
      otherwise taken from the body, admin included. A `null` role reaches
      `save`, whose required validator refuses it: 500. */
  function Register(input: RegisterInput, s: Store, env: Env): (r: Reply<PublicUser>)
    ensures r.outcome.Fail? ==> r.store == s
    ensures r.outcome != Fail(Unauthorized) && r.outcome != Fail(Forbidden) && r.outcome != Fail(NotFound)
    ensures r.outcome == Fail(BadRequest) <==>
      (!(TruthyText(input.name) && TruthyText(input.email) && TruthyText(input.password))
       || EmailTaken(s.users, input.email.value))
    ensures r.outcome.Ok? <==>
      && TruthyText(input.name) && TruthyText(input.email) && TruthyText(input.password)
      && !EmailTaken(s.users, input.email.value)
      && RoleOrDefault(input.role).Some?
      && AccountSaves(input.name.value, input.email.value, RoleOrDefault(input.role).value, s, env)
    ensures (&& input.role.NullRole?
             && TruthyText(input.name) && TruthyText(input.email) && TruthyText(input.password)
             && !EmailTaken(s.users, input.email.value))
            ==> r == Reply(Fail(Internal), s)
    ensures r.outcome.Ok? ==>
      && |r.store.users| == |s.users| + 1
      && r.store == s.(users := s.users + [r.store.users[|s.users|]])
      && IsNewAccount(r.store.users[|s.users|], input.name.value, input.email.value, RoleOrDefault(input.role).value,
                      input.phone, None, None, s, env)
      && r.outcome.value == Strip(r.store.users[|s.users|])
    ensures StoreValid(s) ==> StoreValid(r.store)
  {
    if !(TruthyText(input.name) && TruthyText(input.email) && TruthyText(input.password)) then
      Reply(Fail(BadRequest), s)
    else
      match RoleOrDefault(input.role)
      case None =>
        if EmailTaken(s.users, input.email.value) then Reply(Fail(BadRequest), s)
        else Reply(Fail(Internal), s)
      case Some(role) =>
        SaveAccount(input.name.value, input.email.value, role, input.phone, None, None, s, env)
  }

  /** Registering without a role yields an executive whose employee ID
      carries the `E` prefix. */
  lemma RegisterDefaultsToExecutive(input: RegisterInput, s: Store, env: Env)
    requires input.role.Absent?
    ensures var r := Register(input, s, env);
            r.outcome.Ok? ==> r.outcome.value.role == Executive && r.outcome.value.employeeId[0] == 'E'
  {
  }

  /** Any visitor may register as an admin: the role in the body is stored
      as given whenever the account saves. */
  lemma RegisterAcceptsAdmin(input: RegisterInput, s: Store, env: Env)
    requires input.role == Given(AdminRole)
    requires TruthyText(input.name) && TruthyText(input.email) && TruthyText(input.password)
    requires !EmailTaken(s.users, input.email.value)
    requires AccountSaves(input.name.value, input.email.value, AdminRole, s, env)
    ensures Register(input, s, env).outcome.Ok?
    ensures Register(input, s, env).outcome.value.role == Admin
  {
  }

  /** Once an account is created its email is taken: the same body is
      refused with 400 on a second attempt, and nothing more is stored. */
  lemma RegisterTwiceRefused(input: RegisterInput, s: Store, env: Env, env': Env)
    ensures var r := Register(input, s, env);
            r.outcome.Ok? ==>
              Register(input, r.store, env').outcome == Fail(BadRequest)
              && Register(input, r.store, env').store == r.store
  {
    var r := Register(input, s, env);
    if r.outcome.Ok? {
      var k := |s.users|;
      assert r.store.users[k].email == NormalizeEmail(input.email.value);
      assert EmailTaken(r.store.users, input.email.value);
    }
  }

  /** The same for the admin route. */
  lemma AdminCreateTwiceRefused(session: Option<Session>, input: AdminUserInput, s: Store, env: Env, env': Env)
    ensures var r := AdminCreateUser(session, input, s, env);
            r.outcome.Ok? ==>
              AdminCreateUser(session, input, r.store, env').outcome == Fail(BadRequest)
              && AdminCreateUser(session, input, r.store, env').store == r.store
  {
    var r := AdminCreateUser(session, input, s, env);
    if r.outcome.Ok? {
      var k := |s.users|;
      assert r.store.users[k].email == NormalizeEmail(input.email.value);
      assert EmailTaken(r.store.users, input.email.value);
    }
  }

  /** A role outside the schema's enum passes the admin route's checks and
      the generator, and then fails validation on save: the answer is 500
      and nothing is stored. */
  lemma UnknownRoleIsServerError(session: Session, input: AdminUserInput, s: Store, env: Env)
    requires session.role == AdminRole
    requires TruthyText(input.name) && TruthyText(input.email) && TruthyText(input.password) && TruthyText(input.role)
    requires !EmailTaken(s.users, input.email.value)
    requires ParseRole(input.role.value).None?
    ensures AdminCreateUser(Some(session), input, s, env) == Reply(Fail(Internal), s)
  {
  }

  /** A JSON `null` role is not replaced by the default: with the fields
      present and the email free, the request ends in 500 and nothing is
      stored, where a body without the key registers an executive. */
  lemma NullRoleIsServerError(input: RegisterInput, s: Store, env: Env)
    requires TruthyText(input.name) && TruthyText(input.email) && TruthyText(input.password)
    requires !EmailTaken(s.users, input.email.value)
    requires AccountSaves(input.name.value, input.email.value, ExecutiveRole, s, env)
    ensures Register(input.(role := NullRole), s, env) == Reply(Fail(Internal), s)
    ensures Register(input.(role := Absent), s, env).outcome.Ok?
  {
  }
}
