/** /api/sales: the role-scoped sales listing (GET) and an executive
    recording a sale of their own (POST). */
module Sales {
  import opened Common
  import opened Text
  import opened Models
  import opened Seqs
  import opened Scope

  /** GET: the sales the caller may see, in stored order (the route imposes
      no sort). Nothing is written. */
  function ListSales(session: Option<Session>, s: Store): (r: Outcome<seq<Sale>>)
    ensures session.None? <==> r == Fail(Unauthorized)
    ensures r.Ok? ==> forall x: Sale :: multiset(r.value)[x] ==
                        (if MaySee(session.value, s.users, x.salesExecutive) then multiset(s.sales)[x] else 0)
    ensures r.Ok? ==> forall x: Sale :: x in r.value <==>
      x in s.sales && MaySee(session.value, s.users, x.salesExecutive)
  {
    match session
    case None => Fail(Unauthorized)
    case Some(caller) => Ok(Filter(s.sales, (x: Sale) => MaySee(caller, s.users, x.salesExecutive)))
  }

  /** The JSON body of POST /api/sales. There is no owner field: whatever
      the body says about `salesExecutive` is ignored. */
  datatype SaleInput = SaleInput(
    productName: Option<string>,
    saleAmount: Option<real>,
    quantity: Option<int>,
    saleDate: Option<Time>,
    status: Option<string>,
    productImage: Option<string>)

  /** `status || 'sold'`. */
  function StatusText(status: Option<string>): string
  {
    if TruthyText(status) then status.value else "sold"
  }

  /** Everything `save` checks on the document the route builds. */
  predicate SaleSaves(input: SaleInput, s: Store, env: Env)
    requires TruthyText(input.productName) && TruthyReal(input.saleAmount) && TruthyInt(input.quantity)
  {
    && Trim(input.productName.value) != ""
    && input.saleAmount.value >= 0.0
    && input.quantity.value >= 1
    && ParseSaleStatus(StatusText(input.status)).Some?
    && forall i :: 0 <= i < |s.sales| ==> s.sales[i].id != env.newId
  }

  /** POST: only an executive may record a sale; product name, amount and
      quantity must be truthy; the sale belongs to the caller, with the
      status defaulting to sold and the date to now. */
  function CreateSale(session: Option<Session>, input: SaleInput, s: Store, env: Env): (r: Reply<Sale>)
    ensures r.outcome.Fail? ==> r.store == s
    ensures session.None? ==> r.outcome == Fail(Unauthorized)
    ensures session.Some? && session.value.role != ExecutiveRole ==> r.outcome == Fail(Forbidden)
    ensures session.Some? && session.value.role == ExecutiveRole
            && !(TruthyText(input.productName) && TruthyReal(input.saleAmount) && TruthyInt(input.quantity))
            ==> r.outcome == Fail(BadRequest)
    ensures r.outcome.Ok? <==>
      && session.Some? && session.value.role == ExecutiveRole
      && TruthyText(input.productName) && TruthyReal(input.saleAmount) && TruthyInt(input.quantity)
      && SaleSaves(input, s, env)
    ensures r.outcome.Ok? ==>
      var x := r.outcome.value;
      && r.store == s.(sales := s.sales + [x])
      && x.id == env.newId
      && x.salesExecutive == session.value.userId
      && x.productName == Trim(input.productName.value)
      && x.saleAmount == input.saleAmount.value
      && x.quantity == input.quantity.value
      && (TruthyText(input.status) ==> ParseSaleStatus(input.status.value) == Some(x.status))
      && (!TruthyText(input.status) ==> x.status == Sold)
      && (!TruthyInt(input.saleDate) ==> x.saleDate == env.now)
      && (TruthyInt(input.saleDate) ==> x.saleDate == input.saleDate.value)
      && (x.productImage.Some? <==> TruthyText(input.productImage))
      && x.productImage == OrUndefined(input.productImage)
    ensures (&& session.Some? && session.value.role == ExecutiveRole
             && TruthyText(input.productName) && TruthyReal(input.saleAmount) && TruthyInt(input.quantity)
             && r.outcome.Fail?)
            ==> r.outcome == Fail(Internal)
    ensures StoreValid(s) ==> StoreValid(r.store)
  {
    match session
    case None => Reply(Fail(Unauthorized), s)
    case Some(caller) =>
      if caller.role != ExecutiveRole then Reply(Fail(Forbidden), s)
      else if !(TruthyText(input.productName) && TruthyReal(input.saleAmount) && TruthyInt(input.quantity)) then
        Reply(Fail(BadRequest), s)
      else
        match ParseSaleStatus(StatusText(input.status))
        case None => Reply(Fail(Internal), s)
        case Some(status) =>
          var x := Sale(
            env.newId,
            caller.userId,
            Trim(input.productName.value),
            input.saleAmount.value,
            input.quantity.value,
            if TruthyInt(input.saleDate) then input.saleDate.value else env.now,
            status,
            OrUndefined(input.productImage));
          match InsertSale(s, x)
          case Ok(s') => Reply(Ok(x), s')
          case Fail(e) => Reply(Fail(e), s)
  }
}
