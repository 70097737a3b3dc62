/**
 What each settlement step does to the rows (backend/services/payouts.py and the payout, top-up
 and dispute routes): when it is accepted, which rows it changes, and in what amounts.
 */
module PayoutRules {
  import opened Money
  import opened Tariffs
  import opened Settlement

  /** The fee is the percentage of the gross, to half a cent. */
  lemma FeeIsThePercentage(gross: int, feePct: real)
    requires 0 <= gross <= MAX_MONEY && 0.0 <= feePct <= 100.0
    ensures -0.5 <= FeeOf(gross, feePct) as real - gross as real * feePct / 100.0 <= 0.5
    ensures NetOf(gross, feePct) == gross - FeeOf(gross, feePct)
  {
    FeeAndNetFoot(gross, feePct);
    PercentBounds(gross as real, feePct);
    ToMoneyError(Percent(gross as real, feePct));
  }

  /** A finished session is one more row, unsettled. */
  lemma FinishAddsASession(b: Books, tenant: int, coins: nat, now: int)
    ensures Apply(b, Finish(tenant, coins), now)
         == b.(clock := now, sessions := b.sessions + [Session(tenant, coins, None)])
  {
  }

  /** A tenant's row is held by a top-up that has taken it and not yet ended. */
  predicate Held(b: Books, tenant: int) {
    exists k :: 0 <= k < |b.pending| && b.pending[k].Holding? && b.pending[k].tenant == tenant
  }

  /**
   A refund is approved exactly when its session's tenant is not held by a top-up and it is positive
   and, with those before it, no more than the session's coins; then it is one more row.
   */
  lemma RefundIff(b: Books, session: nat, coins: int, now: int)
    ensures Apply(b, ApproveRefund(session, coins), now) ==
            if session < |b.sessions| && !Held(b, b.sessions[session].tenant) && 0 < coins
               && RefundedOn(b.refunds, session) + coins <= b.sessions[session].coins
            then b.(clock := now, refunds := b.refunds + [Refund(session, coins, now)])
            else b.(clock := now)
  {
  }

  /** The refunds of a session add up: none more, or by each one approved. */
  lemma {:induction false} RefundsAddUp(refunds: seq<Refund>, r: Refund, session: nat)
    ensures RefundedOn([], session) == 0
    ensures RefundedOn(refunds + [r], session)
         == RefundedOn(refunds, session) + if r.session == session then r.coins else 0
  {
    assert (refunds + [r])[..|refunds|] == refunds;
  }

  /** A session, refund or top-up counts for its own tenant, in its own window, and for no other. */
  lemma {:induction false} RowsCountForTheirTenant(b: Books, tenant: int, s: Session, r: Refund, t: Topup,
      from: int, to: int)
    requires r.session < |b.sessions|
    ensures UnsettledSum([], tenant) == 0 == RefundsIn([], b.sessions, tenant, from, to)
    ensures TopupsIn([], tenant, from, to) == 0
    ensures UnsettledSum(b.sessions + [s], tenant) - UnsettledSum(b.sessions, tenant)
         == if s.tenant == tenant && s.owner.None? then s.coins else 0
    ensures RefundsIn(b.refunds + [r], b.sessions, tenant, from, to)
          - RefundsIn(b.refunds, b.sessions, tenant, from, to)
         == if b.sessions[r.session].tenant == tenant && from <= r.resolvedAt < to then r.coins else 0
    ensures TopupsIn(b.topups + [t], tenant, from, to) - TopupsIn(b.topups, tenant, from, to)
         == if t.tenant == tenant && from <= t.createdAt < to then t.coins else 0
  {
    assert (b.sessions + [s])[..|b.sessions|] == b.sessions && (b.refunds + [r])[..|b.refunds|] == b.refunds;
    assert (b.topups + [t])[..|b.topups|] == b.topups;
  }

  /** A tenant's watermark is the latest end of its live payouts, or the epoch. */
  lemma {:induction false} WatermarkIsLatestEnd(payouts: seq<Payout>, tenant: int)
    ensures var w := Watermark(payouts, tenant);
            && 0 <= w
            && (forall p :: p in payouts && p.tenant == tenant && p.status != Cancelled ==> p.end <= w)
            && (w == 0 || exists p :: p in payouts && p.tenant == tenant && p.status != Cancelled && p.end == w)
  {
    if payouts != [] {
      var rest, last := payouts[..|payouts| - 1], payouts[|payouts| - 1];
      WatermarkIsLatestEnd(rest, tenant);
      assert forall p :: p in payouts <==> p in rest || p == last;
    }
  }

  /** A top-up that fails lets go of its tenant and leaves no row; the others under way stay. */
  lemma AbortIs(b: Books, k: nat, now: int)
    requires k < |b.pending|
    ensures Apply(b, AbortTopup(k), now) == b.(clock := now, pending := b.pending[..k] + b.pending[k + 1..])
  {
  }

  predicate Pending(b: Books, tenant: int) {
    exists i :: 0 <= i < |b.payouts| && b.payouts[i].tenant == tenant && b.payouts[i].status == Requested
  }

  /** What there is to pay: coins less refunds since the last live payout, less the fee and the top-ups since then. */
  function Payable(b: Books, tenant: int, now: int): Payout {
    var mark := Watermark(b.payouts, tenant);
    var coins, refunds := UnsettledSum(b.sessions, tenant), RefundsIn(b.refunds, b.sessions, tenant, mark, now);
    var collected := if coins <= 999_999_999_999 then coins else 999_999_999_999;
    var gross := if refunds < collected then collected - refunds else 0;
    var net := gross - FeeOf(gross, b.feePct) - TopupsIn(b.topups, tenant, mark, now);
    Payout(tenant, mark, now, gross, FeeOf(gross, b.feePct), if net > 0 then net else 0, Requested)
  }

  lemma DraftIsPayable(b: Books, tenant: int, now: int)
    requires WrittenByNow(b) && 0.0 <= b.feePct
    ensures Draft(b, tenant, now) == Payable(b, tenant, now)
  {
    SumsNonNegative(b, tenant, Watermark(b.payouts, tenant), now);
    FeeAndNetFoot(UnsettledPreview(b, tenant, now), b.feePct);
  }

  /**
   A payout is granted exactly when its tenant has none pending, is not held by a top-up and has
   something payable. It then claims every unsettled session of the tenant and no other, and runs
   from the last live payout's end to now.
   */
  lemma RequestIff(b: Books, tenant: int, now: int)
    requires WrittenByNow(b) && b.clock <= now && 0.0 <= b.feePct
    ensures var b' := Apply(b, RequestPayout(tenant), now);
            if !Pending(b, tenant) && !Held(b, tenant) && 0 < Payable(b, tenant, now).net
            then
              && b' == b.(clock := now, sessions := b'.sessions, payouts := b.payouts + [Payable(b, tenant, now)])
              && |b'.sessions| == |b.sessions|
              && forall i :: 0 <= i < |b.sessions| ==>
                   b'.sessions[i] == if b.sessions[i].tenant == tenant && b.sessions[i].owner.None?
                                     then b.sessions[i].(owner := Some(|b.payouts|)) else b.sessions[i]
            else b' == b.(clock := now)
  {
    RequestIsGrant(b, tenant, now);
    DraftIsPayable(b, tenant, now);
    SameGuards(b, tenant);
    GrantIs(b, tenant, now);
  }

  lemma SameGuards(b: Books, tenant: int)
    ensures TenantLocked(b.pending, tenant) == Held(b, tenant) && HasRequested(b.payouts, tenant) == Pending(b, tenant)
  {
  }

  lemma GrantIs(b: Books, tenant: int, now: int)
    ensures var b' := Grant(b, tenant, now).(clock := now);
            && b' == b.(clock := now, sessions := b'.sessions, payouts := b.payouts + [Draft(b, tenant, now)])
            && |b'.sessions| == |b.sessions|
            && forall i :: 0 <= i < |b.sessions| ==>
                 b'.sessions[i] == if b.sessions[i].tenant == tenant && b.sessions[i].owner.None?
                                   then b.sessions[i].(owner := Some(|b.payouts|)) else b.sessions[i]
  {
  }

  lemma RequestIsGrant(b: Books, tenant: int, now: int)
    ensures Apply(b, RequestPayout(tenant), now) ==
            if TenantLocked(b.pending, tenant) || HasRequested(b.payouts, tenant) || Draft(b, tenant, now).net <= 0
            then b.(clock := now) else Grant(b, tenant, now).(clock := now)
  {
    assert Draft(b.(clock := now), tenant, now) == Draft(b, tenant, now);
  }

  /** A pending payout is marked paid, and nothing else; one that is not pending stays as it is. */
  lemma MarkPaidIff(b: Books, i: nat, now: int)
    ensures Apply(b, MarkPaid(i), now) ==
            if i < |b.payouts| && b.payouts[i].status == Requested
            then b.(clock := now, payouts := b.payouts[i := b.payouts[i].(status := Paid)]) else b.(clock := now)
  {
  }

  /** Cancelling a pending payout frees exactly what it claimed, and nothing else changes. */
  lemma CancelIff(b: Books, i: nat, now: int)
    ensures var b' := Apply(b, Cancel(i), now);
            if i < |b.payouts| && b.payouts[i].status == Requested
            then
              && b' == b.(clock := now, sessions := b'.sessions,
                   payouts := b.payouts[i := b.payouts[i].(status := Cancelled)])
              && |b'.sessions| == |b.sessions|
              && forall k :: 0 <= k < |b.sessions| ==>
                   b'.sessions[k]
                   == if b.sessions[k].owner == Some(i) then b.sessions[k].(owner := None) else b.sessions[k]
            else b' == b.(clock := now)
  {
  }

  /**
   A top-up that meets no other step, of a tenant nobody holds, is issued exactly when it is positive
   and within the tenant's pool; then it is one row, stamped with its beginning.
   */
  lemma TopupIff(b: Books, tenant: int, coins: int, begun: int, now: int)
    requires !Held(b, tenant) && b.clock == now
    ensures var k := |b.pending|;
            var started := Apply(b, BeginTopup, begun);
            var locked := Apply(started, LockTopup(k, tenant), now);
            && started == b.(clock := begun, pending := b.pending + [Begun(begun)])
            && locked == b.(pending := b.pending + [Holding(begun, tenant, Nothing)])
            && Apply(TopupPoolRead(locked, k, now), CommitTopup(k, coins), now) ==
               if 0 < coins <= AvailablePool(b, tenant, now)
               then b.(topups := b.topups + [Topup(tenant, coins, begun, |b.payouts|)])
               else b.(pending := b.pending + [Holding(begun, tenant, Pool(AvailablePool(b, tenant, now)))])
  {
    var k := |b.pending|;
    var started := Apply(b, BeginTopup, begun);
    assert forall j :: 0 <= j < |b.pending| ==> started.pending[j] == b.pending[j];
    var locked := b.(pending := b.pending + [Holding(begun, tenant, Nothing)]);
    assert Apply(started, LockTopup(k, tenant), now) == locked;
    FiveReads(b, tenant, begun, now);
    assert Without(b.pending + [Holding(begun, tenant, Pool(AvailablePool(b, tenant, now)))], k) == b.pending;
  }

  function TopupPoolRead(b: Books, k: nat, now: int): Books {
    Apply(Apply(Apply(Apply(Apply(b, ReadSummary(k), now), ReadSummary(k), now), ReadSummary(k), now),
                ReadSummary(k), now), ReadSummary(k), now)
  }

  /** Five statements, one pool. */
  lemma FiveReads(b: Books, tenant: int, begun: int, now: int)
    requires b.clock == now
    ensures TopupPoolRead(b.(pending := b.pending + [Holding(begun, tenant, Nothing)]), |b.pending|, now)
         == b.(pending := b.pending + [Holding(begun, tenant, Pool(AvailablePool(b, tenant, now)))])
  {
    var w, coins := Watermark(b.payouts, tenant), Clamp(UnsettledSum(b.sessions, tenant));
    OneRead(b, tenant, begun, Nothing, now);
    OneRead(b, tenant, begun, FirstMark(w, now), now);
    OneRead(b, tenant, begun, BothMarks(w, now, w, now), now);
    OneRead(b, tenant, begun, Collected(w, now, w, now, coins), now);
    OneRead(b, tenant, begun, Refunded(w, now, UnsettledPreview(b, tenant, now)), now);
  }

  lemma OneRead(b: Books, tenant: int, begun: int, read: Summary, now: int)
    requires b.clock == now
    ensures Apply(b.(pending := b.pending + [Holding(begun, tenant, read)]), ReadSummary(|b.pending|), now)
         == b.(pending := b.pending + [Holding(begun, tenant, ReadOne(b, tenant, read, now))])
  {
    var p := Holding(begun, tenant, read);
    assert (b.pending + [p])[|b.pending| := p.(read := ReadOne(b, tenant, read, now))]
        == b.pending + [p.(read := ReadOne(b, tenant, read, now))];
  }

  /** The pool is what a payout would pay. */
  lemma PoolIsPayable(b: Books, tenant: int, now: int)
    requires WrittenByNow(b) && 0.0 <= b.feePct
    ensures AvailablePool(b, tenant, now) == Payable(b, tenant, now).net
  {
    DraftIsPayable(b, tenant, now);
  }
}
