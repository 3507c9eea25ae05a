/** The four Mongoose models (User, Sale, CommissionRule, CommissionRecord),
    the schema constraints `save` enforces on them, and the store the
    routes read and write. A failed `save` (a validator or a unique index)
    throws, which every route turns into a 500. */
module Models {
  import opened Common
  import opened Text

  /** The `role` enum of the User schema. */
  datatype Role = Admin | Manager | Executive

  function RoleName(r: Role): (name: string)
  {
    match r
    case Admin => AdminRole
    case Manager => ManagerRole
    case Executive => ExecutiveRole
  }

  /** Enum validation of a role string. */
  function ParseRole(s: string): (r: Option<Role>)
    ensures r.Some? <==> s in {AdminRole, ManagerRole, ExecutiveRole}
    ensures r.Some? ==> RoleName(r.value) == s
  {
    if s == AdminRole then Some(Admin)
    else if s == ManagerRole then Some(Manager)
    else if s == ExecutiveRole then Some(Executive)
    else None
  }

  lemma RoleNameRoundTrip(r: Role)
    ensures ParseRole(RoleName(r)) == Some(r)
  {
  }

  /** The `status` enum of the Sale schema. */
  datatype SaleStatus = Sold | NotSold

  function ParseSaleStatus(s: string): (r: Option<SaleStatus>)
    ensures r.Some? <==> s == "sold" || s == "not_sold"
    ensures r == Some(Sold) <==> s == "sold"
  {
    if s == "sold" then Some(Sold)
    else if s == "not_sold" then Some(NotSold)
    else None
  }

  /** A user document. `password` holds the bcrypt digest. */
  datatype User = User(
    id: Id,
    name: string,
    email: string,
    password: string,
    role: Role,
    employeeId: string,
    assignedManager: Option<Id>,
    assignedTarget: Option<real>,
    phone: Option<string>,
    profilePicture: Option<string>,
    isActive: bool)

  /** A sale document, owned by the executive in `salesExecutive`. */
  datatype Sale = Sale(
    id: Id,
    salesExecutive: Id,
    productName: string,
    saleAmount: real,
    quantity: int,
    saleDate: Time,
    status: SaleStatus,
    productImage: Option<string>)

  /** `targetTo` as a loaded document shows it: the path was never set
      (`undefined`), it was stored as `null`, or it holds a number. */
  datatype UpperBound = Unset | Null | UpTo(limit: real)

  /** A commission tier: achievement percentages from `targetFrom` up to
      `targetTo` earn `commissionRate` percent. */
  datatype Tier = Tier(id: Id, targetFrom: real, targetTo: UpperBound, commissionRate: real)

  /** A commission record. The schema has no status path, so none is kept. */
  datatype Record = Record(
    id: Id,
    salesExecutive: Id,
    amount: real,
    calculatedBy: Id,
    calculationDate: Time,
    salesTotal: real,
    targetAchievement: real,
    commissionRate: real)

  /** The four collections. */
  datatype Store = Store(users: seq<User>, sales: seq<Sale>, tiers: seq<Tier>, records: seq<Record>)

  /** The User schema's validators: required strings are non-empty. */
  predicate UserValid(u: User)
  {
    u.name != "" && u.email != "" && u.password != "" && u.employeeId != ""
  }

  /** The Sale schema's validators. */
  predicate SaleValid(s: Sale)
  {
    s.productName != "" && s.saleAmount >= 0.0 && s.quantity >= 1
  }

  /** The CommissionRule schema's validators; there is no constraint
      relating `targetTo` to `targetFrom`. */
  predicate TierValid(t: Tier)
  {
    && t.targetFrom >= 0.0
    && (t.targetTo.UpTo? ==> t.targetTo.limit >= 0.0)
    && 0.0 <= t.commissionRate <= 100.0
  }

  /** The CommissionRecord schema's validators. */
  predicate RecordValid(r: Record)
  {
    r.amount >= 0.0 && r.salesTotal >= 0.0 && r.targetAchievement >= 0.0 && r.commissionRate >= 0.0
  }

  /** The unique indexes on users: `_id`, `email` and `employeeId`. */
  predicate UsersDistinct(us: seq<User>)
  {
    forall i, j :: 0 <= i < j < |us| ==>
      us[i].id != us[j].id && us[i].email != us[j].email && us[i].employeeId != us[j].employeeId
  }

  predicate SalesDistinct(ss: seq<Sale>)
  {
    forall i, j :: 0 <= i < j < |ss| ==> ss[i].id != ss[j].id
  }

  predicate TiersDistinct(ts: seq<Tier>)
  {
    forall i, j :: 0 <= i < j < |ts| ==> ts[i].id != ts[j].id
  }

  predicate RecordsDistinct(rs: seq<Record>)
  {
    forall i, j :: 0 <= i < j < |rs| ==> rs[i].id != rs[j].id
  }

  /** Everything MongoDB and the schemas guarantee about stored documents. */
  predicate StoreValid(s: Store)
  {
    && (forall i :: 0 <= i < |s.users| ==> UserValid(s.users[i]))
    && (forall i :: 0 <= i < |s.sales| ==> SaleValid(s.sales[i]))
    && (forall i :: 0 <= i < |s.tiers| ==> TierValid(s.tiers[i]))
    && (forall i :: 0 <= i < |s.records| ==> RecordValid(s.records[i]))
    && UsersDistinct(s.users)
    && SalesDistinct(s.sales)
    && TiersDistinct(s.tiers)
    && RecordsDistinct(s.records)
  }

  /** `User.findById(id)`: the position of the first user with that id. */
  function FindUser(us: seq<User>, id: Id): (r: Option<nat>)
    ensures r.Some? ==> r.value < |us| && us[r.value].id == id
    ensures r.Some? ==> forall j :: 0 <= j < r.value ==> us[j].id != id
    ensures r.None? <==> forall j :: 0 <= j < |us| ==> us[j].id != id
  {
    if us == [] then None
    else if us[0].id == id then Some(0)
    else
      match FindUser(us[1..], id)
      case None => None
      case Some(k) => Some(k + 1)
  }

  /** Replacing the record found for an id by one with the same id leaves
      it the record found. */
  lemma FindUserReplace(us: seq<User>, k: nat, u: User)
    requires FindUser(us, u.id) == Some(k)
    ensures FindUser(us[k := u], u.id) == Some(k)
  {
    assert us[k := u][k].id == u.id;
  }

  function EmployeeIds(us: seq<User>): (ids: seq<string>)
    ensures |ids| == |us| && forall i :: 0 <= i < |us| ==> ids[i] == us[i].employeeId
  {
    seq(|us|, i requires 0 <= i < |us| => us[i].employeeId)
  }

  /** `User.findOne({ email })`; Mongoose casts the query value through the
      same lowercase/trim setters as the stored value. */
  predicate EmailTaken(us: seq<User>, email: string)
  {
    exists i :: 0 <= i < |us| && us[i].email == NormalizeEmail(email)
  }

  /** `new User(u).save()`. */
  function InsertUser(s: Store, u: User): (r: Outcome<Store>)
    ensures r.Fail? ==> r.status == Internal
    ensures r.Ok? <==>
      && UserValid(u)
      && forall i :: 0 <= i < |s.users| ==>
           s.users[i].id != u.id && s.users[i].email != u.email && s.users[i].employeeId != u.employeeId
    ensures r.Ok? ==> r.value.users == s.users + [u] && r.value == s.(users := r.value.users)
    ensures r.Ok? && StoreValid(s) ==> StoreValid(r.value)
  {
    if UserValid(u)
       && forall i :: 0 <= i < |s.users| ==>
            s.users[i].id != u.id && s.users[i].email != u.email && s.users[i].employeeId != u.employeeId
    then Ok(s.(users := s.users + [u]))
    else Fail(Internal)
  }

  /** `new Sale(x).save()`. */
  function InsertSale(s: Store, x: Sale): (r: Outcome<Store>)
    ensures r.Fail? ==> r.status == Internal
    ensures r.Ok? <==> SaleValid(x) && forall i :: 0 <= i < |s.sales| ==> s.sales[i].id != x.id
    ensures r.Ok? ==> r.value.sales == s.sales + [x] && r.value == s.(sales := r.value.sales)
    ensures r.Ok? && StoreValid(s) ==> StoreValid(r.value)
  {
    if SaleValid(x) && forall i :: 0 <= i < |s.sales| ==> s.sales[i].id != x.id
    then Ok(s.(sales := s.sales + [x]))
    else Fail(Internal)
  }

  /** `new CommissionRule(t).save()`. */
  function InsertTier(s: Store, t: Tier): (r: Outcome<Store>)
    ensures r.Fail? ==> r.status == Internal
    ensures r.Ok? <==> TierValid(t) && forall i :: 0 <= i < |s.tiers| ==> s.tiers[i].id != t.id
    ensures r.Ok? ==> r.value.tiers == s.tiers + [t] && r.value == s.(tiers := r.value.tiers)
    ensures r.Ok? && StoreValid(s) ==> StoreValid(r.value)
  {
    if TierValid(t) && forall i :: 0 <= i < |s.tiers| ==> s.tiers[i].id != t.id
    then Ok(s.(tiers := s.tiers + [t]))
    else Fail(Internal)
  }

  /** `new CommissionRecord(x).save()`. */
  function InsertRecord(s: Store, x: Record): (r: Outcome<Store>)
    ensures r.Fail? ==> r.status == Internal
    ensures r.Ok? <==> RecordValid(x) && forall i :: 0 <= i < |s.records| ==> s.records[i].id != x.id
    ensures r.Ok? ==> r.value.records == s.records + [x] && r.value == s.(records := r.value.records)
    ensures r.Ok? && StoreValid(s) ==> StoreValid(r.value)
  {
    if RecordValid(x) && forall i :: 0 <= i < |s.records| ==> s.records[i].id != x.id
    then Ok(s.(records := s.records + [x]))
    else Fail(Internal)
  }

  /** Rewriting one user in place keeps the store valid when the new
      document is valid and keeps the indexed keys of the old one. */
  lemma ReplaceUserKeepsValid(s: Store, k: nat, u: User)
    requires k < |s.users|
    requires u.id == s.users[k].id && u.email == s.users[k].email && u.employeeId == s.users[k].employeeId
    ensures StoreValid(s) && UserValid(u) ==> StoreValid(s.(users := s.users[k := u]))
  {
  }

  /** A handler's answer together with the store it leaves behind. */
  datatype Reply<+T> = Reply(outcome: Outcome<T>, store: Store)

  /** The password-free view of a user that responses carry. */
  datatype PublicUser = PublicUser(
    id: Id,
    name: string,
    email: string,
    role: Role,
    employeeId: string,
    assignedManager: Option<Id>,
    assignedTarget: Option<real>,
    phone: Option<string>,
    profilePicture: Option<string>,
    isActive: bool)

  /** `user.toObject()` followed by `delete userObj.password`. */
  function Strip(u: User): (p: PublicUser)
  {
    PublicUser(u.id, u.name, u.email, u.role, u.employeeId, u.assignedManager,
               u.assignedTarget, u.phone, u.profilePicture, u.isActive)
  }

  /** Stripping loses only the password: two users that differ only in
      their password digests look the same in a response, and any other
      difference shows. */
  lemma StripForgetsOnlyPassword(u: User, v: User)
    ensures Strip(u) == Strip(v) <==> u.(password := v.password) == v
  {
  }
}
