/** /api/commission/rules: listing the commission tiers in ascending
    `targetFrom` order (GET) and adding a tier (POST). Any signed-in role
    other than executive may do both. */
module CommissionRules {
  import opened Common
  import opened Models
  import opened Seqs

  /** The sort key of `sort({ targetFrom: 1 })`. */
  function TierFrom(t: Tier): real
  {
    t.targetFrom
  }

  /** `CommissionRule.find().sort({ targetFrom: 1 })`: every stored tier,
      each as often as stored, lowest `targetFrom` first. */
  function TiersInOrder(tiers: seq<Tier>): (r: seq<Tier>)
    ensures |r| == |tiers|
    ensures forall i, j :: 0 <= i < j < |r| ==> r[i].targetFrom <= r[j].targetFrom
    ensures multiset(r) == multiset(tiers)
    ensures forall t :: t in r <==> t in tiers
  {
    var r := SortBy(tiers, TierFrom);
    assert |r| == |multiset(r)| == |multiset(tiers)| == |tiers|;
    assert forall t :: t in r <==> t in multiset(r);
    assert forall t :: t in tiers <==> t in multiset(tiers);
    r
  }

  /** GET: executives are refused; everyone else gets all tiers in order.
      Nothing is written. */
  function ListRules(session: Option<Session>, s: Store): (r: Outcome<seq<Tier>>)
    ensures session.None? <==> r == Fail(Unauthorized)
    ensures session.Some? && session.value.role == ExecutiveRole <==> r == Fail(Forbidden)
    ensures r.Ok? ==> multiset(r.value) == multiset(s.tiers)
    ensures r.Ok? ==> forall i, j :: 0 <= i < j < |r.value| ==> r.value[i].targetFrom <= r.value[j].targetFrom
  {
    match session
    case None => Fail(Unauthorized)
    case Some(caller) =>
      if caller.role == ExecutiveRole then Fail(Forbidden)
      else Ok(TiersInOrder(s.tiers))
  }

  /** POST: executives are refused; `targetFrom` and `commissionRate` must
      be truthy, so a tier from 0 or at rate 0 cannot be created; `targetTo`
      is stored as sent, unchecked against `targetFrom`; the schema's bounds
      are enforced by `save`. */
  function CreateRule(session: Option<Session>, targetFrom: Option<real>, targetTo: UpperBound,
                      commissionRate: Option<real>, s: Store, env: Env): (r: Reply<Tier>)
    ensures r.outcome.Fail? ==> r.store == s
    ensures session.None? ==> r.outcome == Fail(Unauthorized)
    ensures session.Some? && session.value.role == ExecutiveRole ==> r.outcome == Fail(Forbidden)
    ensures session.Some? && session.value.role != ExecutiveRole && !(TruthyReal(targetFrom) && TruthyReal(commissionRate))
            ==> r.outcome == Fail(BadRequest)
    ensures r.outcome.Ok? <==>
      && session.Some? && session.value.role != ExecutiveRole
      && TruthyReal(targetFrom) && TruthyReal(commissionRate)
      && targetFrom.value >= 0.0
      && (targetTo.UpTo? ==> targetTo.limit >= 0.0)
      && 0.0 <= commissionRate.value <= 100.0
      && forall i :: 0 <= i < |s.tiers| ==> s.tiers[i].id != env.newId
    ensures r.outcome.Ok? ==>
      && r.store == s.(tiers := s.tiers + [r.outcome.value])
      && r.outcome.value == Tier(env.newId, targetFrom.value, targetTo, commissionRate.value)
    ensures (&& session.Some? && session.value.role != ExecutiveRole
             && TruthyReal(targetFrom) && TruthyReal(commissionRate)
             && r.outcome.Fail?)
            ==> r.outcome == Fail(Internal)
    ensures StoreValid(s) ==> StoreValid(r.store)
  {
    match session
    case None => Reply(Fail(Unauthorized), s)
    case Some(caller) =>
      if caller.role == ExecutiveRole then Reply(Fail(Forbidden), s)
      else if !(TruthyReal(targetFrom) && TruthyReal(commissionRate)) then Reply(Fail(BadRequest), s)
      else
        var t := Tier(env.newId, targetFrom.value, targetTo, commissionRate.value);
        match InsertTier(s, t)
        case Ok(s') => Reply(Ok(t), s')
        case Fail(e) => Reply(Fail(e), s)
  }

  /** Nothing relates a new tier to the stored ones: a tier overlapping an
      existing one, or with `targetTo` below its own `targetFrom`, is
      accepted like any other. */
  lemma OverlapAccepted(session: Session, s: Store, env: Env, from: real, to: real, rate: real)
    requires session.role != ExecutiveRole
    requires from > 0.0 && 0.0 <= to < from && 0.0 < rate <= 100.0
    requires forall i :: 0 <= i < |s.tiers| ==> s.tiers[i].id != env.newId
    ensures CreateRule(Some(session), Some(from), UpTo(to), Some(rate), s, env).outcome.Ok?
  {
  }
}
