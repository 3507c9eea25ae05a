/** POST /api/commission/calculate: an admin or a manager computes an
    executive's commission. The sales of the executive are summed (whatever
    their status), the sum is compared with the executive's target (10000
    when none is set), the first tier in ascending `targetFrom` order whose
    range holds the achievement percentage is chosen (the last tier when
    none does), and one commission record is appended. */
module CommissionCalculate {
  import opened Common
  import opened Models
  import opened Seqs
  import opened CommissionRules

  /** The target used when the executive has none (or a zero one). */
  const DefaultTarget: real := 10000.0

  /** Whether a tier's range holds the achievement. A `targetTo` that was
      never set reads as `undefined`, which is neither `null` nor an upper
      bound any number lies below, so such a tier never matches. */
  predicate Matches(t: Tier, achievement: real)
  {
    && achievement >= t.targetFrom
    && match t.targetTo
       case Null => true
       case UpTo(limit) => achievement <= limit
       case Unset => false
  }

  /** `commissionRules.find(...)`: the position of the first matching tier. */
  function FirstMatch(rules: seq<Tier>, achievement: real): (r: Option<nat>)
    ensures r.Some? ==> r.value < |rules| && Matches(rules[r.value], achievement)
    ensures r.Some? ==> forall j :: 0 <= j < r.value ==> !Matches(rules[j], achievement)
    ensures r.None? <==> forall j :: 0 <= j < |rules| ==> !Matches(rules[j], achievement)
  {
    if rules == [] then None
    else if Matches(rules[0], achievement) then Some(0)
    else
      match FirstMatch(rules[1..], achievement)
      case None => None
      case Some(k) => Some(k + 1)
  }

  /** The first matching tier, or else the last tier of the list, or
      nothing when there are no tiers. */
  function ApplicableTier(rules: seq<Tier>, achievement: real): (r: Option<Tier>)
    ensures r.None? <==> rules == []
    ensures r.Some? ==> r.value in rules
    ensures (exists i :: 0 <= i < |rules| && Matches(rules[i], achievement)) ==>
      exists k :: && 0 <= k < |rules| && r == Some(rules[k]) && Matches(rules[k], achievement)
                  && forall j :: 0 <= j < k ==> !Matches(rules[j], achievement)
    ensures (forall i :: 0 <= i < |rules| ==> !Matches(rules[i], achievement)) && rules != [] ==>
      r == Some(rules[|rules| - 1])
  {
    match FirstMatch(rules, achievement)
    case Some(k) => Some(rules[k])
    case None => if rules == [] then None else Some(rules[|rules| - 1])
  }

  /** What the chosen tier is, stated over the stored tiers without
      reference to their order: nothing without tiers; otherwise a stored
      tier that, when some tier matches, matches and has the lowest
      `targetFrom` of all matching tiers, and when none matches has the
      highest `targetFrom` of all. */
  predicate TierChoice(tiers: seq<Tier>, achievement: real, chosen: Option<Tier>)
  {
    && (chosen.None? <==> tiers == [])
    && (chosen.Some? ==> chosen.value in tiers)
    && ((exists t :: t in tiers && Matches(t, achievement)) ==>
          && chosen.Some? && Matches(chosen.value, achievement)
          && forall t :: t in tiers && Matches(t, achievement) ==> chosen.value.targetFrom <= t.targetFrom)
    && ((forall t :: t in tiers ==> !Matches(t, achievement)) && chosen.Some? ==>
          forall t :: t in tiers ==> t.targetFrom <= chosen.value.targetFrom)
  }

  predicate AscendingFrom(rules: seq<Tier>)
  {
    forall i, j :: 0 <= i < j < |rules| ==> rules[i].targetFrom <= rules[j].targetFrom
  }

  /** When some tier matches, the first match in an ascending list has the
      lowest `targetFrom` of all matching tiers. */
  lemma FirstMatchIsLowest(rules: seq<Tier>, achievement: real)
    requires AscendingFrom(rules)
    requires exists t :: t in rules && Matches(t, achievement)
    ensures var chosen := ApplicableTier(rules, achievement);
            && chosen.Some? && Matches(chosen.value, achievement)
            && forall t :: t in rules && Matches(t, achievement) ==> chosen.value.targetFrom <= t.targetFrom
  {
    var chosen := ApplicableTier(rules, achievement);
    var t :| t in rules && Matches(t, achievement);
    var i :| 0 <= i < |rules| && rules[i] == t;
    var k :| && 0 <= k < |rules| && chosen == Some(rules[k]) && Matches(rules[k], achievement)
             && forall j :: 0 <= j < k ==> !Matches(rules[j], achievement);
    forall u | u in rules && Matches(u, achievement)
      ensures rules[k].targetFrom <= u.targetFrom
    {
      var m :| 0 <= m < |rules| && rules[m] == u;
      assert k <= m;
    }
  }

  /** When no tier matches, the fallback (the last tier of an ascending
      list) has the highest `targetFrom` of all. */
  lemma FallbackIsHighest(rules: seq<Tier>, achievement: real)
    requires AscendingFrom(rules)
    requires rules != []
    requires forall t :: t in rules ==> !Matches(t, achievement)
    ensures var chosen := ApplicableTier(rules, achievement);
            chosen.Some? && forall t :: t in rules ==> t.targetFrom <= chosen.value.targetFrom
  {
    forall u | u in rules
      ensures u.targetFrom <= rules[|rules| - 1].targetFrom
    {
      var m :| 0 <= m < |rules| && rules[m] == u;
    }
  }

  /** The route's choice, over the tiers in ascending order, is the choice
      `TierChoice` describes. */
  lemma ApplicableTierChoice(tiers: seq<Tier>, achievement: real)
    ensures TierChoice(tiers, achievement, ApplicableTier(TiersInOrder(tiers), achievement))
  {
    var rules := TiersInOrder(tiers);
    assert forall t :: t in rules <==> t in tiers;
    if exists t :: t in tiers && Matches(t, achievement) {
      FirstMatchIsLowest(rules, achievement);
    } else if tiers != [] {
      FallbackIsHighest(rules, achievement);
    }
  }

  /** An achievement below the lowest `targetFrom` matches no tier, so the
      executive is paid at the rate of the tier with the highest
      `targetFrom`. */
  lemma BelowEveryTierGetsTopTier(tiers: seq<Tier>, achievement: real)
    requires tiers != []
    requires forall t :: t in tiers ==> achievement < t.targetFrom
    ensures var chosen := ApplicableTier(TiersInOrder(tiers), achievement);
            chosen.Some? && forall t :: t in tiers ==> t.targetFrom <= chosen.value.targetFrom
  {
    var rules := TiersInOrder(tiers);
    assert forall t :: t in rules <==> t in tiers;
    FallbackIsHighest(rules, achievement);
  }

  /** `Sale.find({ salesExecutive: id })`: every sale of the executive,
      sold or not. */
  function OwnSales(sales: seq<Sale>, id: Id): (r: seq<Sale>)
    ensures forall x :: x in r <==> x in sales && x.salesExecutive == id
  {
    Filter(sales, (x: Sale) => x.salesExecutive == id)
  }

  /** `sales.reduce((sum, sale) => sum + sale.saleAmount, 0)`. */
  function Total(xs: seq<Sale>): real
  {
    if xs == [] then 0.0 else Total(xs[..|xs| - 1]) + xs[|xs| - 1].saleAmount
  }

  lemma {:induction false} TotalConcat(a: seq<Sale>, b: seq<Sale>)
    ensures Total(a + b) == Total(a) + Total(b)
    decreases |b|
  {
    if b == [] {
      assert a + b == a;
    } else {
      var front := b[..|b| - 1];
      assert (a + b)[..|a + b| - 1] == a + front;
      TotalConcat(a, front);
    }
  }

  lemma {:induction false} TotalNonNegative(xs: seq<Sale>)
    requires forall i :: 0 <= i < |xs| ==> xs[i].saleAmount >= 0.0
    ensures Total(xs) >= 0.0
    decreases |xs|
  {
    if xs != [] {
      TotalNonNegative(xs[..|xs| - 1]);
    }
  }

  /** The executive's sales total. */
  function SalesTotal(sales: seq<Sale>, id: Id): real
  {
    Total(OwnSales(sales, id))
  }

  /** A new sale raises its owner's total by its amount and leaves every
      other executive's total as it was. */
  lemma SaleCountsForItsOwnerOnly(sales: seq<Sale>, x: Sale, id: Id)
    ensures SalesTotal(sales + [x], id) == SalesTotal(sales, id) + (if x.salesExecutive == id then x.saleAmount else 0.0)
  {
    var p := (y: Sale) => y.salesExecutive == id;
    FilterConcat(sales, [x], p);
    assert Filter([x], p) == (if x.salesExecutive == id then [x] else []) by {
      assert [x][1..] == [];
    }
    TotalConcat(Filter(sales, p), Filter([x], p));
    if x.salesExecutive == id {
      assert Total([x]) == Total([]) + x.saleAmount by {
        assert [x][..0] == [];
      }
    }
  }

  /** The total depends only on each sale's owner and amount: two sales
      lists that agree on those, position by position, give every executive
      the same total. In particular a sale's status does not count. */
  lemma {:induction false} SameAmountsSameTotal(a: seq<Sale>, b: seq<Sale>, id: Id)
    requires |a| == |b|
    requires forall i :: 0 <= i < |a| ==>
      a[i].salesExecutive == b[i].salesExecutive && a[i].saleAmount == b[i].saleAmount
    ensures SalesTotal(a, id) == SalesTotal(b, id)
    decreases |a|
  {
    if a != [] {
      var n := |a| - 1;
      assert a == a[..n] + [a[n]];
      assert b == b[..n] + [b[n]];
      SameAmountsSameTotal(a[..n], b[..n], id);
      SaleCountsForItsOwnerOnly(a[..n], a[n], id);
      SaleCountsForItsOwnerOnly(b[..n], b[n], id);
    }
  }

  /** Marking a sale as not sold leaves every total unchanged. */
  lemma StatusDoesNotCount(sales: seq<Sale>, i: nat, status: SaleStatus, id: Id)
    requires i < |sales|
    ensures SalesTotal(sales[i := sales[i].(status := status)], id) == SalesTotal(sales, id)
  {
    SameAmountsSameTotal(sales[i := sales[i].(status := status)], sales, id);
  }

  /** `executive.assignedTarget || 10000`. */
  function TargetOf(u: User): (target: real)
    ensures u.assignedTarget.None? || u.assignedTarget == Some(0.0) ==> target == DefaultTarget
    ensures u.assignedTarget.Some? && u.assignedTarget.value != 0.0 ==> target == u.assignedTarget.value
    ensures target <= 0.0 <==> u.assignedTarget.Some? && u.assignedTarget.value < 0.0
  {
    if TruthyReal(u.assignedTarget) then u.assignedTarget.value else DefaultTarget
  }

  /** `target > 0 ? (totalSales / target) * 100 : 0`. */
  function Achievement(total: real, target: real): (a: real)
    ensures target > 0.0 ==> a * target == total * 100.0
    ensures target <= 0.0 ==> a == 0.0
    ensures total >= 0.0 ==> a >= 0.0
  {
    if target > 0.0 then (total / target) * 100.0 else 0.0
  }

  /** `applicableRule?.commissionRate || 0`. */
  function RateOf(tier: Option<Tier>): (rate: real)
    ensures tier.Some? ==> rate == tier.value.commissionRate
    ensures tier.None? ==> rate == 0.0
  {
    if tier.Some? && tier.value.commissionRate != 0.0 then tier.value.commissionRate else 0.0
  }

  /** `totalSales * (commissionRate / 100)`: the rate is a percentage of
      the total, so for a rate in [0, 100] and a non-negative total the
      commission lies between 0 and the total. */
  function CommissionAmount(total: real, rate: real): (amount: real)
    ensures amount * 100.0 == total * rate
    ensures total >= 0.0 && 0.0 <= rate <= 100.0 ==> 0.0 <= amount <= total
  {
    total * (rate / 100.0)
  }

  /** One line of the response's sales breakdown. */
  datatype SaleLine = SaleLine(productName: string, amount: real, quantity: int, date: Time)

  /** The response body of a successful calculation. */
  datatype Calculation = Calculation(
    executiveId: Id,
    executiveName: string,
    employeeId: string,
    target: real,
    total: real,
    count: nat,
    breakdown: seq<SaleLine>,
    achievement: real,
    rate: real,
    amount: real,
    tier: Option<Tier>)

  /** The breakdown line of one sale. */
  function LineOf(x: Sale): SaleLine
  {
    SaleLine(x.productName, x.saleAmount, x.quantity, x.saleDate)
  }

  /** `sales.map(...)` building the breakdown, one line per sale, in order. */
  function Breakdown(xs: seq<Sale>): (lines: seq<SaleLine>)
    ensures |lines| == |xs|
    ensures forall i :: 0 <= i < |xs| ==> lines[i] == LineOf(xs[i])
  {
    seq(|xs|, i requires 0 <= i < |xs| => LineOf(xs[i]))
  }

  /** The sum of the amounts on a breakdown's lines. */
  function LinesTotal(lines: seq<SaleLine>): real
  {
    if lines == [] then 0.0 else LinesTotal(lines[..|lines| - 1]) + lines[|lines| - 1].amount
  }

  /** The breakdown of a list of sales adds up to the list's total. */
  lemma {:induction false} BreakdownAddsUp(xs: seq<Sale>)
    ensures LinesTotal(Breakdown(xs)) == Total(xs)
    decreases |xs|
  {
    if xs != [] {
      var n := |xs| - 1;
      var lines := Breakdown(xs);
      assert lines[..n] == Breakdown(xs[..n]);
      BreakdownAddsUp(xs[..n]);
    }
  }

  /** What a calculation for executive `u` means over the store: the total
      of all of `u`'s sales, one breakdown line per such sale, the target
      rule, the achievement as the total's percentage of the target (see
      `Achievement`), the tier described by `TierChoice`, its rate, and that
      rate's percentage of the total (see `CommissionAmount`). */
  predicate IsCalculationFor(c: Calculation, u: User, s: Store)
  {
    && c.executiveId == u.id && c.executiveName == u.name && c.employeeId == u.employeeId
    && c.total == SalesTotal(s.sales, u.id)
    && c.count == |OwnSales(s.sales, u.id)|
    && |c.breakdown| == c.count
    && (forall i :: 0 <= i < c.count ==> c.breakdown[i] == LineOf(OwnSales(s.sales, u.id)[i]))
    && c.target == TargetOf(u)
    && c.achievement == Achievement(c.total, c.target)
    && TierChoice(s.tiers, c.achievement, c.tier)
    && c.rate == (if c.tier.Some? then c.tier.value.commissionRate else 0.0)
    && c.amount == CommissionAmount(c.total, c.rate)
  }

  /** The response's breakdown lists exactly the executive's sales, and
      their amounts add up to the response's total. */
  lemma CalculationAddsUp(c: Calculation, u: User, s: Store)
    requires IsCalculationFor(c, u, s)
    ensures c.breakdown == Breakdown(OwnSales(s.sales, u.id))
    ensures LinesTotal(c.breakdown) == c.total
  {
    BreakdownAddsUp(OwnSales(s.sales, u.id));
  }

  /** The figures the route computes for executive `u`. */
  function Figures(u: User, s: Store): (c: Calculation)
    ensures IsCalculationFor(c, u, s)
  {
    var own := OwnSales(s.sales, u.id);
    var total := Total(own);
    var target := TargetOf(u);
    var achievement := Achievement(total, target);
    var tier := ApplicableTier(TiersInOrder(s.tiers), achievement);
    ApplicableTierChoice(s.tiers, achievement);
    var rate := RateOf(tier);
    Calculation(u.id, u.name, u.employeeId, target, total, |own|, Breakdown(own),
                achievement, rate, CommissionAmount(total, rate), tier)
  }

  /** The record saved for a calculation. */
  predicate IsRecordOf(x: Record, c: Calculation, caller: Session, env: Env)
  {
    && x.id == env.newId
    && x.salesExecutive == c.executiveId
    && x.amount == c.amount
    && x.calculatedBy == caller.userId
    && x.calculationDate == env.now
    && x.salesTotal == c.total
    && x.targetAchievement == c.achievement
    && x.commissionRate == c.rate
  }

  /** POST: executives are refused; `executiveId` must be truthy and name
      a user; a manager may only calculate for a user assigned to them,
      while an admin (or any other non-executive role) may calculate for
      anyone. The target user's own role is not checked. */
  function Calculate(session: Option<Session>, executiveId: Option<Id>, s: Store, env: Env)
    : (r: Reply<Calculation>)
    ensures r.outcome.Fail? ==> r.store == s
    ensures session.None? <==> r.outcome == Fail(Unauthorized)
    ensures session.Some? && session.value.role == ExecutiveRole ==> r.outcome == Fail(Forbidden)
    ensures session.Some? && session.value.role != ExecutiveRole && !TruthyText(executiveId)
            ==> r.outcome == Fail(BadRequest)
    ensures r.outcome == Fail(NotFound) <==>
      && session.Some? && session.value.role != ExecutiveRole && TruthyText(executiveId)
      && forall i :: 0 <= i < |s.users| ==> s.users[i].id != executiveId.value
    ensures (&& session.Some? && session.value.role == ManagerRole && TruthyText(executiveId)
             && (exists i :: 0 <= i < |s.users| && s.users[i].id == executiveId.value)
             && forall i :: 0 <= i < |s.users| && s.users[i].id == executiveId.value ==>
                  s.users[i].assignedManager != Some(session.value.userId))
            ==> r.outcome == Fail(Forbidden)
    ensures r.outcome.Ok? ==>
      && session.Some? && session.value.role != ExecutiveRole && TruthyText(executiveId)
      && exists k :: && 0 <= k < |s.users| && s.users[k].id == executiveId.value
                     && (session.value.role == ManagerRole ==> s.users[k].assignedManager == Some(session.value.userId))
                     && IsCalculationFor(r.outcome.value, s.users[k], s)
    ensures r.outcome.Ok? ==>
      && |r.store.records| == |s.records| + 1
      && r.store == s.(records := s.records + [r.store.records[|s.records|]])
      && IsRecordOf(r.store.records[|s.records|], r.outcome.value, session.value, env)
    ensures (&& session.Some? && session.value.role != ExecutiveRole && TruthyText(executiveId)
             && FindUser(s.users, executiveId.value).Some?
             && (session.value.role == ManagerRole ==>
                   s.users[FindUser(s.users, executiveId.value).value].assignedManager == Some(session.value.userId))
             && r.outcome.Fail?)
            ==> r.outcome == Fail(Internal)
    ensures StoreValid(s) ==> StoreValid(r.store)
  {
    match session
    case None => Reply(Fail(Unauthorized), s)
    case Some(caller) =>
      if caller.role == ExecutiveRole then Reply(Fail(Forbidden), s)
      else if !TruthyText(executiveId) then Reply(Fail(BadRequest), s)
      else
        match FindUser(s.users, executiveId.value)
        case None => Reply(Fail(NotFound), s)
        case Some(k) =>
          var u := s.users[k];
          if caller.role == ManagerRole && u.assignedManager != Some(caller.userId) then Reply(Fail(Forbidden), s)
          else
            var c := Figures(u, s);
            var x := Record(env.newId, u.id, c.amount, caller.userId, env.now, c.total, c.achievement, c.rate);
            match InsertRecord(s, x)
            case Ok(s') => Reply(Ok(c), s')
            case Fail(e) => Reply(Fail(e), s)
  }

  /** On a valid store every figure the record schema bounds is
      non-negative, and the rate is a stored tier's, so at most 100. */
  lemma FiguresInRange(u: User, s: Store)
    requires StoreValid(s)
    ensures var c := Figures(u, s);
            && c.total >= 0.0 && c.achievement >= 0.0 && 0.0 <= c.rate <= 100.0
            && 0.0 <= c.amount <= c.total
  {
    var own := OwnSales(s.sales, u.id);
    forall i | 0 <= i < |own|
      ensures own[i].saleAmount >= 0.0
    {
      assert own[i] in s.sales;
    }
    TotalNonNegative(own);
    var c := Figures(u, s);
    if c.tier.Some? {
      assert c.tier.value in s.tiers;
    }
  }

  /** On a valid store, with an unused record id, a caller who passes the
      route's checks always gets a calculation: the save cannot fail. */
  lemma CalculationSucceeds(session: Option<Session>, executiveId: Option<Id>, s: Store, env: Env)
    requires StoreValid(s)
    requires forall i :: 0 <= i < |s.records| ==> s.records[i].id != env.newId
    requires session.Some? && session.value.role != ExecutiveRole && TruthyText(executiveId)
    requires exists i :: 0 <= i < |s.users| && s.users[i].id == executiveId.value
    requires session.value.role == ManagerRole ==>
      forall i :: 0 <= i < |s.users| && s.users[i].id == executiveId.value ==>
        s.users[i].assignedManager == Some(session.value.userId)
    ensures Calculate(session, executiveId, s, env).outcome.Ok?
  {
    var caller := session.value;
    var k := FindUser(s.users, executiveId.value).value;
    var u := s.users[k];
    FiguresInRange(u, s);
    var c := Figures(u, s);
    var x := Record(env.newId, u.id, c.amount, caller.userId, env.now, c.total, c.achievement, c.rate);
    assert RecordValid(x);
    assert InsertRecord(s, x).Ok?;
  }

  /** Nothing stops the same commission being recorded twice: calculating
      again gives the same figures and appends a second record. */
  lemma RepeatedCalculationDuplicates(session: Option<Session>, executiveId: Option<Id>, s: Store, env: Env, env': Env)
    requires Calculate(session, executiveId, s, env).outcome.Ok?
    requires var s1 := Calculate(session, executiveId, s, env).store;
             forall i :: 0 <= i < |s1.records| ==> s1.records[i].id != env'.newId
    ensures var r1 := Calculate(session, executiveId, s, env);
            var r2 := Calculate(session, executiveId, r1.store, env');
            && r2.outcome == r1.outcome
            && |r2.store.records| == |s.records| + 2
            && r2.store.records[|s.records| + 1].amount == r2.store.records[|s.records|].amount
            && r2.store.records[|s.records| + 1].salesExecutive == r2.store.records[|s.records|].salesExecutive
  {
    var r1 := Calculate(session, executiveId, s, env);
    var k := FindUser(s.users, executiveId.value).value;
    assert r1.store.users == s.users && r1.store.sales == s.sales && r1.store.tiers == s.tiers;
    assert Figures(s.users[k], r1.store) == Figures(s.users[k], s);
  }
}
