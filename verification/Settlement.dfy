/**
 CPO settlement (backend/services/payouts.py and the payout, top-up and dispute routes): finished
 sessions are claimed by payouts row by row, refunds and cash top-ups are counted by the window
 between a payout's predecessor and itself.

 A request, a refund and a top-up take the tenant's row lock; finishing a session, marking a
 payout paid and cancelling it do not, and may fall anywhere. A top-up's row is stamped with the
 instant its transaction began, before it waits for that lock. Instants never decrease.
 */
module Settlement {
  import opened Money
  import opened Tariffs

  const EPOCH: int := 0

  /** A COMPLETED or PAID session; `owner` is the payout that claimed it (settled_payout_id). */
  datatype Session = Session(tenant: int, coins: int, owner: Option<nat>)
  /** An APPROVED dispute. */
  datatype Refund = Refund(session: nat, coins: int, resolvedAt: int)
  /** `after` is how many payouts had been requested when the row committed. */
  datatype Topup = Topup(tenant: int, coins: int, createdAt: int, after: nat)
  /**
   How far a top-up has got with its tenant's earnings summary: the watermark and clock for the
   top-up window, the same again for the refund window, the unsettled coins, those less refunds,
   and the pool. Each is a statement of its own.
   */
  datatype Summary =
    | Nothing
    | FirstMark(mark: int, now: int)
    | BothMarks(mark: int, now: int, refundMark: int, refundNow: int)
    | Collected(mark: int, now: int, refundMark: int, refundNow: int, coins: int)
    | Refunded(mark: int, now: int, gross: int)
    | Pool(pool: int)
  /** A top-up transaction: begun and waiting, or holding its tenant's row. */
  datatype Pending = Begun(stamp: int) | Holding(stamp: int, tenant: int, read: Summary)
  datatype Status = Requested | Paid | Cancelled
  datatype Payout = Payout(tenant: int, start: int, end: int, gross: int, fee: int, net: int, status: Status)

  datatype Books = Books(
    sessions: seq<Session>, refunds: seq<Refund>, topups: seq<Topup>, payouts: seq<Payout>,
    pending: seq<Pending>, clock: int, feePct: real)

  predicate Live(p: Payout) { p.status != Cancelled }

  // -------------------------------------------------------------------- sums

  function UnsettledSum(sessions: seq<Session>, tenant: int): int {
    if sessions == [] then 0 else
    var rest, s := sessions[..|sessions| - 1], sessions[|sessions| - 1];
    UnsettledSum(rest, tenant) + if s.tenant == tenant && s.owner.None? then s.coins else 0
  }

  function FinishedSum(sessions: seq<Session>, tenant: int): int {
    if sessions == [] then 0 else
    var rest, s := sessions[..|sessions| - 1], sessions[|sessions| - 1];
    FinishedSum(rest, tenant) + if s.tenant == tenant then s.coins else 0
  }

  function OwnedSum(sessions: seq<Session>, payout: nat): int {
    if sessions == [] then 0 else
    var rest, s := sessions[..|sessions| - 1], sessions[|sessions| - 1];
    OwnedSum(rest, payout) + if s.owner == Some(payout) then s.coins else 0
  }

  function RefundsIn(refunds: seq<Refund>, sessions: seq<Session>, tenant: int, from: int, to: int): int {
    if refunds == [] then 0 else
    var rest, r := refunds[..|refunds| - 1], refunds[|refunds| - 1];
    RefundsIn(rest, sessions, tenant, from, to)
      + if r.session < |sessions| && sessions[r.session].tenant == tenant && from <= r.resolvedAt < to
        then r.coins else 0
  }

  function RefundedOn(refunds: seq<Refund>, session: nat): int {
    if refunds == [] then 0 else
    var rest, r := refunds[..|refunds| - 1], refunds[|refunds| - 1];
    RefundedOn(rest, session) + if r.session == session then r.coins else 0
  }

  function TopupsIn(topups: seq<Topup>, tenant: int, from: int, to: int): int {
    if topups == [] then 0 else
    var rest, t := topups[..|topups| - 1], topups[|topups| - 1];
    TopupsIn(rest, tenant, from, to) + if t.tenant == tenant && from <= t.createdAt < to then t.coins else 0
  }

  /** Top-ups of the window that had committed before payout `i` was requested. */
  function OnTimeIn(topups: seq<Topup>, i: nat, tenant: int, from: int, to: int): int {
    if topups == [] then 0 else
    var rest, t := topups[..|topups| - 1], topups[|topups| - 1];
    OnTimeIn(rest, i, tenant, from, to)
      + if t.tenant == tenant && from <= t.createdAt < to && t.after <= i then t.coins else 0
  }

  /** The latest end of a live payout of the tenant, or the epoch. */
  function Watermark(payouts: seq<Payout>, tenant: int): (w: int) {
    if payouts == [] then EPOCH else
    var w, p := Watermark(payouts[..|payouts| - 1], tenant), payouts[|payouts| - 1];
    if p.tenant == tenant && Live(p) && p.end > w then p.end else w
  }

  // -------------------------------------------------------------- arithmetic

  function NonNegative(n: int): int { if n < 0 then 0 else n }

  /** Coins collected, less refunds, never below zero. */
  function Gross(collected: int, refunds: int): int {
    Clamp(NonNegative(Clamp(collected) - Clamp(refunds)))
  }

  function Percent(x: real, pct: real): real {
    x * pct / 100.0
  }

  function FeeOf(gross: int, feePct: real): int {
    ToMoney(Percent(gross as real, feePct))
  }

  function NetOf(gross: int, feePct: real): int {
    Clamp(gross - FeeOf(gross, feePct))
  }

  lemma PercentBounds(x: real, pct: real)
    requires 0.0 <= x && 0.0 <= pct
    ensures 0.0 <= Percent(x, pct)
    ensures pct <= 100.0 ==> Percent(x, pct) <= x
  {
    assert x * pct >= 0.0;
    assert x * 100.0 - x * pct == x * (100.0 - pct);
  }

  /** Fee and net foot to the gross, and a fee of at most the whole leaves a net between nothing and the gross. */
  lemma FeeAndNetFoot(gross: int, feePct: real)
    requires 0 <= gross <= MAX_MONEY && 0.0 <= feePct
    ensures FeeOf(gross, feePct) + NetOf(gross, feePct) == gross
    ensures 0 <= FeeOf(gross, feePct) && (feePct <= 100.0 ==> FeeOf(gross, feePct) <= gross)
  {
    PercentBounds(gross as real, feePct);
    ToMoneyMonotone(0.0, Percent(gross as real, feePct));
    ToMoneyError(Percent(gross as real, feePct));
    if feePct <= 100.0 {
      ToMoneyMonotone(Percent(gross as real, feePct), gross as real);
      ToMoneyOfCents(gross);
    }
  }

  // -------------------------------------------------------------------- reads

  /** The unsettled gross a dashboard shows: it claims nothing. */
  function UnsettledPreview(b: Books, tenant: int, now: int): int {
    Gross(UnsettledSum(b.sessions, tenant), RefundsIn(b.refunds, b.sessions, tenant, Watermark(b.payouts, tenant), now))
  }

  /** What is left to top up from a gross once the fee and earlier top-ups are taken. */
  function PoolOf(feePct: real, gross: int, topups: int): int {
    Clamp(NonNegative(NetOf(gross, feePct) - Clamp(topups)))
  }

  function AvailablePool(b: Books, tenant: int, now: int): int {
    PoolOf(b.feePct, UnsettledPreview(b, tenant, now), TopupsIn(b.topups, tenant, Watermark(b.payouts, tenant), now))
  }

  /** The next statement of a summary, on the books as committed when it runs. */
  function ReadOne(b: Books, tenant: int, read: Summary, now: int): Summary {
    match read
    case Nothing => FirstMark(Watermark(b.payouts, tenant), now)
    case FirstMark(m, n) => BothMarks(m, n, Watermark(b.payouts, tenant), now)
    case BothMarks(m, n, rm, rn) => Collected(m, n, rm, rn, Clamp(UnsettledSum(b.sessions, tenant)))
    case Collected(m, n, rm, rn, coins) =>
      Refunded(m, n, Clamp(NonNegative(coins - Clamp(RefundsIn(b.refunds, b.sessions, tenant, rm, rn)))))
    case Refunded(m, n, gross) => Pool(PoolOf(b.feePct, gross, TopupsIn(b.topups, tenant, m, n)))
    case Pool(_) => read
  }

  // -------------------------------------------------------------------- steps

  datatype Step =
    | Finish(tenant: int, coins: int)
    | ApproveRefund(session: nat, coins: int)
    | BeginTopup
    | LockTopup(k: nat, tenant: int)
    | ReadSummary(k: nat)
    | CommitTopup(k: nat, coins: int)
    | AbortTopup(k: nat)
    | RequestPayout(tenant: int)
    | MarkPaid(payout: nat)
    | Cancel(payout: nat)

  function Claim(sessions: seq<Session>, tenant: int, payout: nat): (r: seq<Session>)
    ensures |r| == |sessions|
    ensures forall i :: 0 <= i < |r| ==>
              r[i] == if sessions[i].tenant == tenant && sessions[i].owner.None?
                      then sessions[i].(owner := Some(payout)) else sessions[i]
  {
    seq(|sessions|, i requires 0 <= i < |sessions| =>
      if sessions[i].tenant == tenant && sessions[i].owner.None?
      then sessions[i].(owner := Some(payout)) else sessions[i])
  }

  function Free(sessions: seq<Session>, payout: nat): (r: seq<Session>)
    ensures |r| == |sessions|
    ensures forall i :: 0 <= i < |r| ==>
              r[i] == if sessions[i].owner == Some(payout) then sessions[i].(owner := None) else sessions[i]
  {
    seq(|sessions|, i requires 0 <= i < |sessions| =>
      if sessions[i].owner == Some(payout) then sessions[i].(owner := None) else sessions[i])
  }

  predicate HasRequested(payouts: seq<Payout>, tenant: int) {
    exists i :: 0 <= i < |payouts| && payouts[i].tenant == tenant && payouts[i].status == Requested
  }

  predicate TenantLocked(pending: seq<Pending>, tenant: int) {
    exists k :: 0 <= k < |pending| && pending[k].Holding? && pending[k].tenant == tenant
  }

  /** The top-up has read its whole summary, and the pool it read is enough. */
  predicate MayCommit(b: Books, k: nat, coins: int) {
    k < |b.pending| && b.pending[k].Holding? && b.pending[k].read.Pool? && 0 < coins <= b.pending[k].read.pool
  }

  function Without(pending: seq<Pending>, k: nat): seq<Pending>
    requires k < |pending|
  {
    pending[..k] + pending[k + 1..]
  }

  /** What a request made at `now` would pay out, having claimed everything unsettled. */
  function Draft(b: Books, tenant: int, now: int): Payout {
    var mark := Watermark(b.payouts, tenant);
    var gross := UnsettledPreview(b, tenant, now);
    var net := NetOf(gross, b.feePct);
    var payable := Clamp(NonNegative(net - Clamp(TopupsIn(b.topups, tenant, mark, now))));
    Payout(tenant, mark, now, gross, FeeOf(gross, b.feePct), payable, Requested)
  }

  /** The claim and the payout row, committed together. */
  function Grant(b: Books, tenant: int, now: int): Books {
    b.(sessions := Claim(b.sessions, tenant, |b.payouts|), payouts := b.payouts + [Draft(b, tenant, now)])
  }

  /** The books after the step at `now`; a refused step, or one whose lock is taken, leaves the rows alone. */
  function Apply(b: Books, step: Step, now: int): Books {
    var b := b.(clock := now);
    match step
    case Finish(tenant, coins) =>
      if coins < 0 then b else b.(sessions := b.sessions + [Session(tenant, coins, None)])
    case ApproveRefund(session, coins) =>
      if session >= |b.sessions| || TenantLocked(b.pending, b.sessions[session].tenant) || coins <= 0
         || RefundedOn(b.refunds, session) + coins > b.sessions[session].coins then b
      else b.(refunds := b.refunds + [Refund(session, coins, now)])
    case BeginTopup =>
      b.(pending := b.pending + [Begun(now)])
    case LockTopup(k, tenant) =>
      if k >= |b.pending| || !b.pending[k].Begun? || TenantLocked(b.pending, tenant) then b
      else b.(pending := b.pending[k := Holding(b.pending[k].stamp, tenant, Nothing)])
    case ReadSummary(k) =>
      if k >= |b.pending| || !b.pending[k].Holding? then b
      else b.(pending := b.pending[k := b.pending[k].(read := ReadOne(b, b.pending[k].tenant, b.pending[k].read, now))])
    case CommitTopup(k, coins) =>
      if !MayCommit(b, k, coins) then b
      else
        var row := Topup(b.pending[k].tenant, coins, b.pending[k].stamp, |b.payouts|);
        b.(topups := b.topups + [row], pending := Without(b.pending, k))
    case AbortTopup(k) =>
      if k < |b.pending| then b.(pending := Without(b.pending, k)) else b
    case RequestPayout(tenant) =>
      if TenantLocked(b.pending, tenant) || HasRequested(b.payouts, tenant) then b
      else
        if Draft(b, tenant, now).net <= 0 then b else Grant(b, tenant, now)
    case MarkPaid(i) =>
      if i >= |b.payouts| || b.payouts[i].status != Requested then b
      else b.(payouts := b.payouts[i := b.payouts[i].(status := Paid)])
    case Cancel(i) =>
      if i >= |b.payouts| || b.payouts[i].status != Requested then b
      else b.(sessions := Free(b.sessions, i), payouts := b.payouts[i := b.payouts[i].(status := Cancelled)])
  }

  // --------------------------------------------------------------- invariant

  /** A claimed session belongs to a live payout of its own tenant. */
  ghost predicate OwnersAreLive(b: Books) {
    forall s :: s in b.sessions && s.owner.Some? ==>
      s.owner.value < |b.payouts| && Live(b.payouts[s.owner.value]) && b.payouts[s.owner.value].tenant == s.tenant
  }

  /** Each live payout starts where the live payouts before it end; only a tenant's last may be pending. */
  ghost predicate WindowsChain(b: Books) {
    && (forall i :: 0 <= i < |b.payouts| && Live(b.payouts[i]) ==>
          && b.payouts[i].start == Watermark(b.payouts[..i], b.payouts[i].tenant)
          && b.payouts[i].start <= b.payouts[i].end <= b.clock)
    && (forall i, j :: 0 <= i < j < |b.payouts| && b.payouts[i].tenant == b.payouts[j].tenant ==>
         b.payouts[i].status != Requested)
  }

  /** Every row was written at or before the clock, and refunds name a session. */
  ghost predicate WrittenByNow(b: Books) {
    && EPOCH <= b.clock
    && (forall r :: r in b.refunds ==> r.session < |b.sessions| && 0 < r.coins && EPOCH <= r.resolvedAt <= b.clock)
    && (forall t :: t in b.topups ==> 0 < t.coins && EPOCH <= t.createdAt <= b.clock && t.after <= |b.payouts|)
    && (forall p :: p in b.pending ==> EPOCH <= p.stamp <= b.clock)
    && (forall s :: s in b.sessions ==> 0 <= s.coins)
  }

  /** What payout `i` claimed, and what its row says became of it: top-ups committed since do not show in it. */
  ghost predicate Accounted(b: Books, i: nat)
    requires i < |b.payouts|
  {
    var p := b.payouts[i];
    var refunds := Clamp(RefundsIn(b.refunds, b.sessions, p.tenant, p.start, p.end));
    var topups := Clamp(OnTimeIn(b.topups, i, p.tenant, p.start, p.end));
    && 0 < p.net && 0 <= p.fee && 0 <= p.gross <= MAX_MONEY
    && p.gross == Clamp(OwnedSum(b.sessions, i)) - refunds
    && p.gross == p.fee + p.net + topups
    && p.fee == FeeOf(p.gross, b.feePct)
  }

  ghost predicate Inv(b: Books) {
    && 0.0 <= b.feePct
    && OwnersAreLive(b) && WindowsChain(b) && WrittenByNow(b)
    && forall i :: 0 <= i < |b.payouts| && Live(b.payouts[i]) ==> Accounted(b, i)
  }

  // -------------------------------------------------------------- sum lemmas

  /** Refund sums read only which tenant a session belongs to. */
  lemma {:induction false} RefundsStable(refunds: seq<Refund>, a: seq<Session>, b: seq<Session>, tenant: int,
      from: int, to: int)
    requires |a| <= |b| && forall i :: 0 <= i < |a| ==> a[i].tenant == b[i].tenant
    requires forall r :: r in refunds ==> r.session < |a|
    ensures RefundsIn(refunds, a, tenant, from, to) == RefundsIn(refunds, b, tenant, from, to)
  {
    if refunds != [] {
      assert refunds[|refunds| - 1] in refunds;
      RefundsStable(refunds[..|refunds| - 1], a, b, tenant, from, to);
    }
  }

  lemma {:induction false} ClaimSums(sessions: seq<Session>, tenant: int, payout: nat, other: nat)
    requires other != payout && forall s :: s in sessions ==> s.owner != Some(payout)
    ensures OwnedSum(Claim(sessions, tenant, payout), payout) == UnsettledSum(sessions, tenant)
    ensures OwnedSum(Claim(sessions, tenant, payout), other) == OwnedSum(sessions, other)
  {
    if sessions != [] {
      var n := |sessions| - 1;
      assert sessions[n] in sessions;
      assert Claim(sessions, tenant, payout)[..n] == Claim(sessions[..n], tenant, payout);
      ClaimSums(sessions[..n], tenant, payout, other);
    }
  }

  lemma {:induction false} FreeSums(sessions: seq<Session>, payout: nat, other: nat)
    requires other != payout
    ensures OwnedSum(Free(sessions, payout), other) == OwnedSum(sessions, other)
  {
    if sessions != [] {
      var n := |sessions| - 1;
      assert Free(sessions, payout)[..n] == Free(sessions[..n], payout);
      FreeSums(sessions[..n], payout, other);
    }
  }

  /** Re-marking a payout leaves other tenants' watermarks alone, and its own unless it stops being live. */
  lemma {:induction false} WatermarkUpdate(payouts: seq<Payout>, i: nat, status: Status, tenant: int)
    requires i < |payouts|
    requires payouts[i].tenant != tenant || (Live(payouts[i]) && status != Cancelled)
    ensures Watermark(payouts[i := payouts[i].(status := status)], tenant) == Watermark(payouts, tenant)
  {
    var n := |payouts| - 1;
    var updated := payouts[i := payouts[i].(status := status)];
    if i == n {
      assert updated[..n] == payouts[..n];
    } else {
      assert updated[..n] == payouts[..n][i := payouts[i].(status := status)];
      WatermarkUpdate(payouts[..n], i, status, tenant);
    }
  }

  lemma {:induction false} WatermarkBounds(payouts: seq<Payout>, tenant: int, clock: int)
    requires EPOCH <= clock && forall p :: p in payouts && Live(p) ==> p.end <= clock
    ensures EPOCH <= Watermark(payouts, tenant) <= clock
    ensures forall p :: p in payouts && Live(p) && p.tenant == tenant ==> p.end <= Watermark(payouts, tenant)
  {
    if payouts != [] {
      assert payouts[|payouts| - 1] in payouts;
      assert forall p :: p in payouts[..|payouts| - 1] ==> p in payouts;
      WatermarkBounds(payouts[..|payouts| - 1], tenant, clock);
      assert forall p :: p in payouts ==> p in payouts[..|payouts| - 1] || p == payouts[|payouts| - 1];
    }
  }

  // ------------------------------------------------------------ preservation

  /** An account of payout `i` survives any change that keeps its claims and what happened in its window. */
  lemma AccountedStable(b: Books, b': Books, i: nat)
    requires i < |b.payouts| && i < |b'.payouts| && Accounted(b, i) && WrittenByNow(b)
    requires b'.payouts[i] == b.payouts[i].(status := b'.payouts[i].status)
    requires b'.feePct == b.feePct && OwnedSum(b'.sessions, i) == OwnedSum(b.sessions, i)
    requires |b.sessions| <= |b'.sessions|
    requires forall k :: 0 <= k < |b.sessions| ==> b.sessions[k].tenant == b'.sessions[k].tenant
    requires var p := b.payouts[i];
             && RefundsIn(b'.refunds, b'.sessions, p.tenant, p.start, p.end)
                  == RefundsIn(b.refunds, b'.sessions, p.tenant, p.start, p.end)
             && OnTimeIn(b'.topups, i, p.tenant, p.start, p.end) == OnTimeIn(b.topups, i, p.tenant, p.start, p.end)
    ensures Accounted(b', i)
  {
    var p := b.payouts[i];
    RefundsStable(b.refunds, b.sessions, b'.sessions, p.tenant, p.start, p.end);
  }

  lemma FinishKeepsInv(b: Books, tenant: int, coins: int, now: int)
    requires Inv(b) && b.clock <= now
    ensures Inv(Apply(b, Finish(tenant, coins), now))
  {
    var b' := Apply(b, Finish(tenant, coins), now);
    if coins >= 0 {
      assert b'.sessions[..|b.sessions|] == b.sessions;
    }
    forall i | 0 <= i < |b'.payouts| && Live(b'.payouts[i])
      ensures Accounted(b', i)
    {
      AccountedStable(b, b', i);
    }
  }

  lemma RefundKeepsInv(b: Books, session: nat, coins: int, now: int)
    requires Inv(b) && b.clock <= now
    ensures Inv(Apply(b, ApproveRefund(session, coins), now))
  {
    var b' := Apply(b, ApproveRefund(session, coins), now);
    if b'.refunds != b.refunds {
      assert b'.refunds[..|b.refunds|] == b.refunds;
    }
    forall i | 0 <= i < |b'.payouts| && Live(b'.payouts[i])
      ensures Accounted(b', i)
    {
      AccountedStable(b, b', i);
    }
  }

  lemma TopupKeepsInv(b: Books, k: nat, coins: int, now: int)
    requires Inv(b) && b.clock <= now
    ensures Inv(Apply(b, CommitTopup(k, coins), now))
  {
    var b' := Apply(b, CommitTopup(k, coins), now);
    if b'.topups != b.topups {
      assert b'.topups[..|b.topups|] == b.topups;
      assert b.pending[k] in b.pending;
    }
    forall i | 0 <= i < |b'.payouts| && Live(b'.payouts[i])
      ensures Accounted(b', i)
    {
      AccountedStable(b, b', i);
    }
  }

  lemma PendingKeepsInv(b: Books, pending: seq<Pending>, now: int)
    requires Inv(b) && b.clock <= now && forall p :: p in pending ==> EPOCH <= p.stamp <= now
    ensures Inv(b.(clock := now, pending := pending))
  {
    forall i | 0 <= i < |b.payouts| && Live(b.payouts[i])
      ensures Accounted(b.(clock := now, pending := pending), i)
    {
      AccountedStable(b, b.(clock := now, pending := pending), i);
    }
  }

  lemma ClockKeepsInv(b: Books, now: int)
    requires Inv(b) && b.clock <= now
    ensures Inv(b.(clock := now))
  {
    forall i | 0 <= i < |b.payouts| && Live(b.payouts[i])
      ensures Accounted(b.(clock := now), i)
    {
      AccountedStable(b, b.(clock := now), i);
    }
  }

  lemma RequestKeepsInv(b: Books, tenant: int, now: int)
    requires Inv(b) && b.clock <= now
    ensures Inv(Apply(b, RequestPayout(tenant), now))
  {
    ClockKeepsInv(b, now);
    var b1 := b.(clock := now);
    if !TenantLocked(b.pending, tenant) && !HasRequested(b.payouts, tenant) && Draft(b1, tenant, now).net > 0 {
      GrantChains(b1, tenant, now);
      GrantAccounts(b1, tenant, now);
    }
  }

  lemma GrantChains(b: Books, tenant: int, now: int)
    requires Inv(b) && b.clock == now && !HasRequested(b.payouts, tenant)
    ensures WindowsChain(Grant(b, tenant, now))
  {
    var n, b' := |b.payouts|, Grant(b, tenant, now);
    WatermarkBounds(b.payouts, tenant, now);
    assert b'.payouts[..n] == b.payouts;
    forall i | 0 <= i < n
      ensures b'.payouts[..i] == b.payouts[..i]
    {
    }
  }

  lemma GrantAccounts(b: Books, tenant: int, now: int)
    requires Inv(b) && b.clock == now && Draft(b, tenant, now).net > 0
    ensures var b' := Grant(b, tenant, now);
            forall i :: 0 <= i < |b'.payouts| && Live(b'.payouts[i]) ==> Accounted(b', i)
  {
    var n, b' := |b.payouts|, Grant(b, tenant, now);
    forall i | 0 <= i < |b'.payouts| && Live(b'.payouts[i])
      ensures Accounted(b', i)
    {
      if i < n {
        ClaimSums(b.sessions, tenant, n, i);
        AccountedStable(b, b', i);
      } else {
        GrantedRequest(b, tenant, now);
      }
    }
  }

  /** The new payout's row accounts for exactly what it claimed. */
  lemma GrantedRequest(b: Books, tenant: int, now: int)
    requires 0.0 <= b.feePct && WrittenByNow(b) && OwnersAreLive(b)
    requires Draft(b, tenant, now).net > 0
    ensures Accounted(Grant(b, tenant, now), |b.payouts|)
  {
    var n, p := |b.payouts|, Draft(b, tenant, now);
    ClaimSums(b.sessions, tenant, n, n + 1);
    RequestIsAccounted(b, tenant, now);
    AllOnTime(b.topups, n, tenant, p.start, p.end);
    RefundsStable(b.refunds, b.sessions, Claim(b.sessions, tenant, n), tenant, p.start, p.end);
  }

  /** A payout counts every top-up committed before it. */
  lemma {:induction false} AllOnTime(topups: seq<Topup>, n: nat, tenant: int, from: int, to: int)
    requires forall t :: t in topups ==> t.after <= n
    ensures OnTimeIn(topups, n, tenant, from, to) == TopupsIn(topups, tenant, from, to)
  {
    if topups != [] {
      assert topups[|topups| - 1] in topups;
      AllOnTime(topups[..|topups| - 1], n, tenant, from, to);
    }
  }

  /** A draft with something to pay was not clamped at zero on the way. */
  lemma RequestIsAccounted(b: Books, tenant: int, now: int)
    requires 0.0 <= b.feePct && WrittenByNow(b) && Draft(b, tenant, now).net > 0
    ensures var p := Draft(b, tenant, now);
            && 0 <= p.fee && 0 <= p.gross <= MAX_MONEY
            && p.gross == Clamp(UnsettledSum(b.sessions, tenant))
                          - Clamp(RefundsIn(b.refunds, b.sessions, tenant, p.start, now))
            && p.gross == p.fee + p.net + Clamp(TopupsIn(b.topups, tenant, p.start, now))
  {
    var p := Draft(b, tenant, now);
    SumsNonNegative(b, tenant, p.start, now);
    FeeAndNetFoot(p.gross, b.feePct);
  }

  lemma SumsNonNegative(b: Books, tenant: int, from: int, to: int)
    requires WrittenByNow(b)
    ensures 0 <= UnsettledSum(b.sessions, tenant)
    ensures 0 <= RefundsIn(b.refunds, b.sessions, tenant, from, to)
    ensures 0 <= TopupsIn(b.topups, tenant, from, to)
  {
    UnsettledNonNegative(b.sessions, tenant);
    RefundsNonNegative(b.refunds, b.sessions, tenant, from, to);
    TopupsNonNegative(b.topups, tenant, from, to);
  }

  lemma UnsettledNonNegative(sessions: seq<Session>, tenant: int)
    requires forall s :: s in sessions ==> 0 <= s.coins
    ensures 0 <= UnsettledSum(sessions, tenant)
  {
  }

  lemma RefundsNonNegative(refunds: seq<Refund>, sessions: seq<Session>, tenant: int, from: int, to: int)
    requires forall r :: r in refunds ==> 0 < r.coins
    ensures 0 <= RefundsIn(refunds, sessions, tenant, from, to)
  {
  }

  lemma TopupsNonNegative(topups: seq<Topup>, tenant: int, from: int, to: int)
    requires forall t :: t in topups ==> 0 < t.coins
    ensures 0 <= TopupsIn(topups, tenant, from, to)
  {
  }

  /** The books with payout `i` re-marked and, if it stops being live, its sessions freed. */
  function Remark(b: Books, i: nat, status: Status): Books
    requires i < |b.payouts|
  {
    b.(sessions := if status == Cancelled then Free(b.sessions, i) else b.sessions,
       payouts := b.payouts[i := b.payouts[i].(status := status)])
  }

  lemma RemarkChains(b: Books, i: nat, status: Status)
    requires Inv(b) && i < |b.payouts| && b.payouts[i].status == Requested && status != Requested
    ensures WindowsChain(Remark(b, i, status))
  {
    var b' := Remark(b, i, status);
    forall j | 0 <= j < |b'.payouts| && Live(b'.payouts[j])
      ensures b'.payouts[j].start == Watermark(b'.payouts[..j], b'.payouts[j].tenant)
    {
      if i < j {
        WatermarkUpdate(b.payouts[..j], i, status, b.payouts[j].tenant);
        assert b'.payouts[..j] == b.payouts[..j][i := b.payouts[i].(status := status)];
      } else {
        assert b'.payouts[..j] == b.payouts[..j];
      }
    }
  }

  lemma RemarkAccounts(b: Books, i: nat, status: Status)
    requires Inv(b) && i < |b.payouts| && b.payouts[i].status == Requested && status != Requested
    ensures var b' := Remark(b, i, status);
            forall j :: 0 <= j < |b'.payouts| && Live(b'.payouts[j]) ==> Accounted(b', j)
  {
    var b' := Remark(b, i, status);
    forall j | 0 <= j < |b'.payouts| && Live(b'.payouts[j])
      ensures Accounted(b', j)
    {
      if status == Cancelled {
        FreeSums(b.sessions, i, j);
      }
      AccountedStable(b, b', j);
    }
  }

  lemma MarkPaidKeepsInv(b: Books, i: nat, now: int)
    requires Inv(b) && b.clock <= now
    ensures Inv(Apply(b, MarkPaid(i), now))
  {
    ClockKeepsInv(b, now);
    if i < |b.payouts| && b.payouts[i].status == Requested {
      RemarkChains(b.(clock := now), i, Paid);
      RemarkAccounts(b.(clock := now), i, Paid);
    }
  }

  lemma CancelKeepsInv(b: Books, i: nat, now: int)
    requires Inv(b) && b.clock <= now
    ensures Inv(Apply(b, Cancel(i), now))
  {
    ClockKeepsInv(b, now);
    if i < |b.payouts| && b.payouts[i].status == Requested {
      RemarkChains(b.(clock := now), i, Cancelled);
      RemarkAccounts(b.(clock := now), i, Cancelled);
    }
  }

  lemma StepKeepsInv(b: Books, step: Step, now: int)
    requires Inv(b) && b.clock <= now
    ensures Inv(Apply(b, step, now))
  {
    match step
    case Finish(tenant, coins) => FinishKeepsInv(b, tenant, coins, now);
    case ApproveRefund(session, coins) => RefundKeepsInv(b, session, coins, now);
    case BeginTopup => PendingKeepsInv(b, Apply(b, step, now).pending, now);
    case LockTopup(k, tenant) => PendingKeepsInv(b, Apply(b, step, now).pending, now);
    case ReadSummary(k) => PendingKeepsInv(b, Apply(b, step, now).pending, now);
    case CommitTopup(k, coins) => TopupKeepsInv(b, k, coins, now);
    case AbortTopup(k) => PendingKeepsInv(b, Apply(b, step, now).pending, now);
    case RequestPayout(tenant) => RequestKeepsInv(b, tenant, now);
    case MarkPaid(i) => MarkPaidKeepsInv(b, i, now);
    case Cancel(i) => CancelKeepsInv(b, i, now);
  }

  // -------------------------------------------------------------- whole runs

  datatype Timed = Timed(step: Step, at: int)

  function Run(b: Books, steps: seq<Timed>): Books {
    if steps == [] then b else
    Apply(Run(b, steps[..|steps| - 1]), steps[|steps| - 1].step, steps[|steps| - 1].at)
  }

  predicate InOrder(b: Books, steps: seq<Timed>) {
    steps == [] ||
    (InOrder(b, steps[..|steps| - 1]) && Run(b, steps[..|steps| - 1]).clock <= steps[|steps| - 1].at)
  }

  function Opening(feePct: real): Books {
    Books([], [], [], [], [], EPOCH, feePct)
  }

  lemma {:induction false} RunKeepsInv(b: Books, steps: seq<Timed>)
    requires Inv(b) && InOrder(b, steps)
    ensures Inv(Run(b, steps))
  {
    if steps != [] {
      RunKeepsInv(b, steps[..|steps| - 1]);
      StepKeepsInv(Run(b, steps[..|steps| - 1]), steps[|steps| - 1].step, steps[|steps| - 1].at);
    }
  }

  /** What the live payouts of a tenant claimed, over the first `n` payouts. */
  function LiveOwned(b: Books, tenant: int, n: nat): int
    requires n <= |b.payouts|
  {
    if n == 0 then 0 else
    LiveOwned(b, tenant, n - 1)
      + if b.payouts[n - 1].tenant == tenant && Live(b.payouts[n - 1]) then OwnedSum(b.sessions, n - 1) else 0
  }

  /** The same sum read off the payout rows and the windows they cover. */
  function LivePaidOut(b: Books, tenant: int, n: nat): int
    requires n <= |b.payouts|
  {
    if n == 0 then 0 else
    var p := b.payouts[n - 1];
    LivePaidOut(b, tenant, n - 1)
      + if p.tenant == tenant && Live(p) then
          p.fee + p.net + TopupsIn(b.topups, tenant, p.start, p.end)
            + RefundsIn(b.refunds, b.sessions, tenant, p.start, p.end)
        else 0
  }

  lemma {:induction false} OneMoreSession(b: Books, s: Session, tenant: int, n: nat)
    requires n <= |b.payouts|
    ensures LiveOwned(b.(sessions := b.sessions + [s]), tenant, n) == LiveOwned(b, tenant, n) +
            if s.owner.Some? && s.owner.value < n
               && b.payouts[s.owner.value].tenant == tenant && Live(b.payouts[s.owner.value])
            then s.coins else 0
  {
    if n > 0 {
      OneMoreSession(b, s, tenant, n - 1);
      assert (b.sessions + [s])[..|b.sessions|] == b.sessions;
    }
  }

  lemma {:induction false} NothingOwned(b: Books, tenant: int, n: nat)
    requires n <= |b.payouts| && b.sessions == []
    ensures LiveOwned(b, tenant, n) == 0
  {
    if n > 0 {
      NothingOwned(b, tenant, n - 1);
    }
  }

  predicate ClaimedBy(b: Books, s: Session, i: nat) {
    i < |b.payouts| && Live(b.payouts[i]) && b.payouts[i].tenant == s.tenant && s.owner == Some(i)
  }

  /**
   Each finished session is unsettled or in exactly one live payout of its tenant, and the coins add
   up accordingly.
   */
  lemma {:induction false} SessionsPartition(b: Books, tenant: int)
    requires OwnersAreLive(b)
    ensures forall s :: s in b.sessions ==> (s.owner.None? <==> forall i :: !ClaimedBy(b, s, i))
    ensures forall s, i, j :: ClaimedBy(b, s, i) && ClaimedBy(b, s, j) ==> i == j
    ensures FinishedSum(b.sessions, tenant) == UnsettledSum(b.sessions, tenant) + LiveOwned(b, tenant, |b.payouts|)
    decreases |b.sessions|
  {
    if b.sessions == [] {
      NothingOwned(b, tenant, |b.payouts|);
    } else {
      var rest, s := b.sessions[..|b.sessions| - 1], b.sessions[|b.sessions| - 1];
      var fewer := b.(sessions := rest);
      assert s in b.sessions && forall x :: x in rest ==> x in b.sessions;
      forall x | x in b.sessions ensures x.owner.None? <==> forall i :: !ClaimedBy(b, x, i) {
        assert x.owner.Some? ==> ClaimedBy(b, x, x.owner.value);
      }
      SessionsPartition(fewer, tenant);
      OneMoreSession(fewer, s, tenant, |b.payouts|);
      assert rest + [s] == b.sessions;
    }
  }

  function RowTotal(b: Books, i: nat): int
    requires i < |b.payouts|
  {
    var p := b.payouts[i];
    p.fee + p.net + TopupsIn(b.topups, p.tenant, p.start, p.end)
      + RefundsIn(b.refunds, b.sessions, p.tenant, p.start, p.end)
  }

  lemma OwnedNonNegative(sessions: seq<Session>, payout: nat)
    requires forall s :: s in sessions ==> 0 <= s.coins
    ensures 0 <= OwnedSum(sessions, payout)
  {
  }

  /** Coins of top-ups that fell into payout `i`'s window after it was requested. */
  function LateIn(b: Books, i: nat): int
    requires i < |b.payouts|
  {
    var p := b.payouts[i];
    TopupsIn(b.topups, p.tenant, p.start, p.end) - OnTimeIn(b.topups, i, p.tenant, p.start, p.end)
  }

  /** Coins of payout `i`'s claim beyond what a money column holds. */
  function LostIn(b: Books, i: nat): int
    requires i < |b.payouts|
  {
    OwnedSum(b.sessions, i) - Clamp(OwnedSum(b.sessions, i))
  }

  predicate IsLate(b: Books, t: Topup, i: nat) {
    && i < |b.payouts| && Live(b.payouts[i]) && t.tenant == b.payouts[i].tenant
    && b.payouts[i].start <= t.createdAt < b.payouts[i].end && i < t.after
  }

  lemma {:induction false} LateIffSome(topups: seq<Topup>, i: nat, tenant: int, from: int, to: int)
    requires forall t :: t in topups ==> 0 < t.coins
    ensures OnTimeIn(topups, i, tenant, from, to) <= TopupsIn(topups, tenant, from, to)
    ensures OnTimeIn(topups, i, tenant, from, to) == TopupsIn(topups, tenant, from, to) <==>
              forall t :: t in topups && t.tenant == tenant && from <= t.createdAt < to ==> t.after <= i
  {
    if topups != [] {
      var n := |topups| - 1;
      LateIffSome(topups[..n], i, tenant, from, to);
      assert topups[n] in topups;
      assert forall t :: t in topups <==> t in topups[..n] || t == topups[n];
    }
  }

  /**
   A payout's row accounts for its claim, less what did not fit the column, plus what was topped up
   behind its back.
   */
  lemma RowFoots(b: Books, i: nat)
    requires Inv(b) && i < |b.payouts| && Live(b.payouts[i])
    ensures RowTotal(b, i) + LostIn(b, i) == OwnedSum(b.sessions, i) + LateIn(b, i)
    ensures 0 <= LostIn(b, i) && 0 <= LateIn(b, i)
    ensures LostIn(b, i) == 0 <==> OwnedSum(b.sessions, i) <= MAX_MONEY
    ensures LateIn(b, i) == 0 <==> forall t :: t in b.topups ==> !IsLate(b, t, i)
  {
    var p := b.payouts[i];
    SumsNonNegative(b, p.tenant, p.start, p.end);
    OwnedNonNegative(b.sessions, i);
    OnTimeNonNegative(b.topups, i, p.tenant, p.start, p.end);
    LateIffSome(b.topups, i, p.tenant, p.start, p.end);
    assert Accounted(b, i);
  }

  lemma OnTimeNonNegative(topups: seq<Topup>, i: nat, tenant: int, from: int, to: int)
    requires forall t :: t in topups ==> 0 < t.coins
    ensures 0 <= OnTimeIn(topups, i, tenant, from, to)
  {
  }

  /** A payout's row accounts for all it claimed exactly when its claim's excess over the column is its late top-ups. */
  lemma ClaimAccountedIff(b: Books, i: nat)
    requires Inv(b) && i < |b.payouts| && Live(b.payouts[i])
    ensures RowTotal(b, i) == OwnedSum(b.sessions, i) <==> LostIn(b, i) == LateIn(b, i)
    ensures (forall t :: t in b.topups ==> !IsLate(b, t, i)) ==>
              (RowTotal(b, i) == OwnedSum(b.sessions, i) <==> OwnedSum(b.sessions, i) <= MAX_MONEY)
  {
    RowFoots(b, i);
  }

  function LostCoins(b: Books, tenant: int, n: nat): int
    requires n <= |b.payouts|
  {
    if n == 0 then 0 else
    LostCoins(b, tenant, n - 1)
      + if b.payouts[n - 1].tenant == tenant && Live(b.payouts[n - 1]) then LostIn(b, n - 1) else 0
  }

  function LateCoins(b: Books, tenant: int, n: nat): int
    requires n <= |b.payouts|
  {
    if n == 0 then 0 else
    LateCoins(b, tenant, n - 1)
      + if b.payouts[n - 1].tenant == tenant && Live(b.payouts[n - 1]) then LateIn(b, n - 1) else 0
  }

  ghost predicate ClaimsFit(b: Books, tenant: int, n: nat)
    requires n <= |b.payouts|
  {
    forall i :: 0 <= i < n && b.payouts[i].tenant == tenant && Live(b.payouts[i]) ==>
      OwnedSum(b.sessions, i) <= MAX_MONEY
  }

  ghost predicate NoneLate(b: Books, tenant: int, n: nat)
    requires n <= |b.payouts|
  {
    forall i, t :: 0 <= i < n && b.payouts[i].tenant == tenant && t in b.topups ==> !IsLate(b, t, i)
  }

  lemma {:induction false} RowsAddUp(b: Books, tenant: int, n: nat)
    requires Inv(b) && n <= |b.payouts|
    ensures LivePaidOut(b, tenant, n) + LostCoins(b, tenant, n) == LiveOwned(b, tenant, n) + LateCoins(b, tenant, n)
  {
    if n > 0 {
      RowsAddUp(b, tenant, n - 1);
      if b.payouts[n - 1].tenant == tenant && Live(b.payouts[n - 1]) {
        RowFoots(b, n - 1);
      }
    }
  }

  lemma LostIff(b: Books, i: nat)
    requires i < |b.payouts| && forall s :: s in b.sessions ==> 0 <= s.coins
    ensures 0 <= LostIn(b, i) && (LostIn(b, i) == 0 <==> OwnedSum(b.sessions, i) <= MAX_MONEY)
  {
    OwnedNonNegative(b.sessions, i);
  }

  lemma {:induction false} NothingLostIff(b: Books, tenant: int, n: nat)
    requires n <= |b.payouts| && forall s :: s in b.sessions ==> 0 <= s.coins
    ensures 0 <= LostCoins(b, tenant, n) && (LostCoins(b, tenant, n) == 0 <==> ClaimsFit(b, tenant, n))
  {
    if n > 0 {
      NothingLostIff(b, tenant, n - 1);
      LostIff(b, n - 1);
    }
  }

  lemma NoneLateSplits(b: Books, tenant: int, n: nat)
    requires 0 < n <= |b.payouts|
    ensures NoneLate(b, tenant, n) <==>
              && NoneLate(b, tenant, n - 1)
              && (b.payouts[n - 1].tenant == tenant ==> forall t :: t in b.topups ==> !IsLate(b, t, n - 1))
  {
  }

  lemma {:induction false} NothingLateIff(b: Books, tenant: int, n: nat)
    requires Inv(b) && n <= |b.payouts|
    ensures 0 <= LateCoins(b, tenant, n) && (LateCoins(b, tenant, n) == 0 <==> NoneLate(b, tenant, n))
  {
    if n > 0 {
      NothingLateIff(b, tenant, n - 1);
      var p := b.payouts[n - 1];
      if p.tenant == tenant && Live(p) {
        RowFoots(b, n - 1);
      }
      NoneLateSplits(b, tenant, n);
    }
  }

  ghost predicate Conserved(b: Books, tenant: int) {
    FinishedSum(b.sessions, tenant) == UnsettledSum(b.sessions, tenant) + LivePaidOut(b, tenant, |b.payouts|)
  }

  /**
   Every coin over every run: a tenant's finished coins are what is still unsettled plus, for each
   live payout, its fee, its net, and the top-ups and refunds of its window, plus what claims lost
   to the column's ceiling, less what late top-ups drew a second time. So coins are conserved
   exactly when those two agree: with every claim fitting, exactly when no top-up is late.
   */
  lemma CoinsAreConserved(feePct: real, steps: seq<Timed>, tenant: int)
    requires 0.0 <= feePct && InOrder(Opening(feePct), steps)
    ensures var b := Run(Opening(feePct), steps);
            var n := |b.payouts|;
            && FinishedSum(b.sessions, tenant) + LateCoins(b, tenant, n)
                 == UnsettledSum(b.sessions, tenant) + LivePaidOut(b, tenant, n) + LostCoins(b, tenant, n)
            && (Conserved(b, tenant) <==> LateCoins(b, tenant, n) == LostCoins(b, tenant, n))
            && (ClaimsFit(b, tenant, n) ==> (Conserved(b, tenant) <==> NoneLate(b, tenant, n)))
            && (NoneLate(b, tenant, n) ==> (Conserved(b, tenant) <==> ClaimsFit(b, tenant, n)))
  {
    RunKeepsInv(Opening(feePct), steps);
    var b := Run(Opening(feePct), steps);
    SessionsPartition(b, tenant);
    RowsAddUp(b, tenant, |b.payouts|);
    NothingLostIff(b, tenant, |b.payouts|);
    NothingLateIff(b, tenant, |b.payouts|);
  }

  // ---------------------------------------------------------------- late top-ups

  predicate InWindow(b: Books, tenant: int, stamp: int, i: nat) {
    && i < |b.payouts| && Live(b.payouts[i]) && b.payouts[i].tenant == tenant
    && b.payouts[i].start <= stamp < b.payouts[i].end
  }

  predicate InSomeWindow(b: Books, tenant: int, stamp: int, n: nat) {
    exists i :: 0 <= i < n && InWindow(b, tenant, stamp, i)
  }

  lemma OneMoreWindow(b: Books, tenant: int, stamp: int, n: nat)
    requires 0 < n
    ensures InSomeWindow(b, tenant, stamp, n) <==>
              InSomeWindow(b, tenant, stamp, n - 1) || InWindow(b, tenant, stamp, n - 1)
  {
    if InSomeWindow(b, tenant, stamp, n - 1) {
      var i :| 0 <= i < n - 1 && InWindow(b, tenant, stamp, i);
      assert InWindow(b, tenant, stamp, i);
    }
  }

  /** A live payout moves its tenant's watermark from its start to its end. */
  lemma WatermarkMoves(b: Books, tenant: int, n: nat)
    requires WindowsChain(b) && 0 < n <= |b.payouts|
    ensures var p := b.payouts[n - 1];
            if Live(p) && p.tenant == tenant
            then Watermark(b.payouts[..n - 1], tenant) == p.start && Watermark(b.payouts[..n], tenant) == p.end
            else Watermark(b.payouts[..n], tenant) == Watermark(b.payouts[..n - 1], tenant)
  {
    assert b.payouts[..n][..n - 1] == b.payouts[..n - 1];
  }

  /** The live windows leave no gap: an instant lies in one exactly when it is before the watermark. */
  lemma {:induction false} BehindWatermarkIff(b: Books, tenant: int, stamp: int, n: nat)
    requires WindowsChain(b) && EPOCH <= stamp && n <= |b.payouts|
    ensures stamp < Watermark(b.payouts[..n], tenant) <==> InSomeWindow(b, tenant, stamp, n)
  {
    if n > 0 {
      BehindWatermarkIff(b, tenant, stamp, n - 1);
      OneMoreWindow(b, tenant, stamp, n);
      WatermarkMoves(b, tenant, n);
      assert Live(b.payouts[n - 1]) ==> b.payouts[n - 1].start <= b.payouts[n - 1].end;
    }
  }

  /** A top-up is late at its commit exactly when its stamp is behind its tenant's watermark there. */
  lemma LateAtCommitIff(b: Books, k: nat, coins: int, now: int)
    requires Inv(b) && b.clock <= now && MayCommit(b, k, coins)
    ensures var b' := Apply(b, CommitTopup(k, coins), now);
            var t := Topup(b.pending[k].tenant, coins, b.pending[k].stamp, |b.payouts|);
            && b'.topups == b.topups + [t]
            && ((exists i :: 0 <= i < |b'.payouts| && IsLate(b', t, i)) <==>
                 b.pending[k].stamp < Watermark(b.payouts, b.pending[k].tenant))
  {
    var b' := Apply(b, CommitTopup(k, coins), now);
    var t := Topup(b.pending[k].tenant, coins, b.pending[k].stamp, |b.payouts|);
    assert b.pending[k] in b.pending;
    BehindWatermarkIff(b, t.tenant, t.createdAt, |b.payouts|);
    assert b.payouts[..|b.payouts|] == b.payouts;
    assert forall i: nat :: IsLate(b', t, i) == InWindow(b, t.tenant, t.createdAt, i);
  }

  /** Every top-up of the run commits with a stamp at or after its tenant's watermark. */
  ghost predicate TopupsOnTime(b: Books, steps: seq<Timed>) {
    forall k :: 0 <= k < |steps| ==> OnTime(Run(b, steps[..k]), steps[k].step)
  }

  predicate OnTime(b: Books, step: Step) {
    step.CommitTopup? && step.k < |b.pending| && b.pending[step.k].Holding? ==>
      Watermark(b.payouts, b.pending[step.k].tenant) <= b.pending[step.k].stamp
  }

  /** Then none is ever late, and coins are conserved exactly when every claim fits. */
  lemma OnTimeIsConserved(feePct: real, steps: seq<Timed>, tenant: int)
    requires 0.0 <= feePct && InOrder(Opening(feePct), steps) && TopupsOnTime(Opening(feePct), steps)
    ensures var b := Run(Opening(feePct), steps);
            NoneLate(b, tenant, |b.payouts|) && (Conserved(b, tenant) <==> ClaimsFit(b, tenant, |b.payouts|))
  {
    NoneBecomesLate(Opening(feePct), steps, tenant);
    CoinsAreConserved(feePct, steps, tenant);
  }

  lemma {:induction false} NoneBecomesLate(b: Books, steps: seq<Timed>, tenant: int)
    requires Inv(b) && InOrder(b, steps) && TopupsOnTime(b, steps) && NoneLate(b, tenant, |b.payouts|)
    ensures NoneLate(Run(b, steps), tenant, |Run(b, steps).payouts|)
  {
    if steps != [] {
      var n := |steps| - 1;
      forall k | 0 <= k < n ensures OnTime(Run(b, steps[..n][..k]), steps[..n][k].step) {
        assert steps[..n][..k] == steps[..k];
        assert OnTime(Run(b, steps[..k]), steps[k].step);
      }
      NoneBecomesLate(b, steps[..n], tenant);
      RunKeepsInv(b, steps[..n]);
      assert OnTime(Run(b, steps[..n]), steps[n].step);
      StepMakesNoneLate(Run(b, steps[..n]), steps[n].step, steps[n].at, tenant);
    }
  }

  lemma StepMakesNoneLate(b: Books, step: Step, now: int, tenant: int)
    requires Inv(b) && b.clock <= now && OnTime(b, step) && NoneLate(b, tenant, |b.payouts|)
    ensures NoneLate(Apply(b, step, now), tenant, |Apply(b, step, now).payouts|)
  {
    var b' := Apply(b, step, now);
    forall i, t | 0 <= i < |b'.payouts| && b'.payouts[i].tenant == tenant && t in b'.topups ensures !IsLate(b', t, i) {
      if t in b.topups {
        assert i < |b.payouts| ==> !IsLate(b, t, i);
      } else {
        LateAtCommitIff(b, step.k, step.coins, now);
      }
    }
  }

  /**
   A top-up that began before a payout and commits after it, against coins finished since: the
   payout's row and window now account for more than it claimed.
   */
  lemma LateTopupIsDrawnTwice(b: Books, k: nat, coins: int, now: int, i: nat)
    requires Inv(b) && b.clock <= now && MayCommit(b, k, coins)
    requires InWindow(b, b.pending[k].tenant, b.pending[k].stamp, i)
    ensures var b' := Apply(b, CommitTopup(k, coins), now);
            RowTotal(b', i) == RowTotal(b, i) + coins && OwnedSum(b'.sessions, i) == OwnedSum(b.sessions, i)
  {
    var b' := Apply(b, CommitTopup(k, coins), now);
    assert b'.topups[..|b.topups|] == b.topups;
  }

  /** Live payouts of one tenant with no live one between them share an edge; the first starts at the epoch. */
  lemma LiveWindowsAreContiguous(b: Books, i: int, j: nat)
    requires Inv(b) && -1 <= i < j < |b.payouts| && Live(b.payouts[j])
    requires i >= 0 ==> Live(b.payouts[i]) && b.payouts[i].tenant == b.payouts[j].tenant
    requires forall k :: i < k < j && b.payouts[k].tenant == b.payouts[j].tenant ==> !Live(b.payouts[k])
    ensures b.payouts[j].start == if i >= 0 then b.payouts[i].end else EPOCH
  {
    var tenant := b.payouts[j].tenant;
    WatermarkSkips(b.payouts, tenant, i + 1, j);
    if i >= 0 {
      assert b.payouts[..i + 1][..i] == b.payouts[..i];
    }
  }

  lemma {:induction false} WatermarkSkips(payouts: seq<Payout>, tenant: int, i: nat, j: nat)
    requires i <= j <= |payouts|
    requires forall k :: i <= k < j && payouts[k].tenant == tenant ==> !Live(payouts[k])
    ensures Watermark(payouts[..j], tenant) == Watermark(payouts[..i], tenant)
  {
    if i < j {
      assert payouts[..j][..j - 1] == payouts[..j - 1];
      WatermarkSkips(payouts, tenant, i, j - 1);
    }
  }

  ghost predicate InPaidPayout(b: Books, k: nat, payout: nat) {
    && k < |b.sessions| && b.sessions[k].owner == Some(payout)
    && payout < |b.payouts| && b.payouts[payout].status == Paid
  }

  /** A session inside a paid payout stays there for good: it is never claimed again. */
  lemma {:induction false} PaidSessionsStayPaid(b: Books, steps: seq<Timed>, k: nat, payout: nat)
    requires InPaidPayout(b, k, payout)
    ensures InPaidPayout(Run(b, steps), k, payout)
  {
    if steps != [] {
      PaidSessionsStayPaid(b, steps[..|steps| - 1], k, payout);
      StepKeepsPaid(Run(b, steps[..|steps| - 1]), steps[|steps| - 1], k, payout);
    }
  }

  lemma StepKeepsPaid(b: Books, step: Timed, k: nat, payout: nat)
    requires InPaidPayout(b, k, payout)
    ensures InPaidPayout(Apply(b, step.step, step.at), k, payout)
  {
  }

  /** A claim of more than the column holds: two sessions of the largest amount are claimed as one. */
  lemma OversizedClaimLosesCoins()
    ensures var s := Session(1, MAX_MONEY, None);
            var b := Grant(Books([s, s], [], [], [], [], 3, 10.0), 1, 3);
            OwnedSum(b.sessions, 0) == 2 * MAX_MONEY && b.payouts[0].gross == MAX_MONEY
  {
    var s := Session(1, MAX_MONEY, None);
    assert [s, s][..|[s, s]| - 1] == [s] && [s][..|[s]| - 1] == [];
    assert UnsettledSum([s], 1) == MAX_MONEY;
    ClaimSums([s, s], 1, 0, 1);
  }

  // ---------------------------------------------------------- the tables, in place

  class Ledger {
    var sessions: seq<Session>
    var refunds: seq<Refund>
    var topups: seq<Topup>
    var payouts: seq<Payout>
    var pending: seq<Pending>
    var clock: int
    const feePct: real

    constructor (feePct: real)
      ensures State() == Opening(feePct)
    {
      sessions, refunds, topups, payouts, pending, clock := [], [], [], [], [], EPOCH;
      this.feePct := feePct;
    }

    function State(): Books
      reads this
    {
      Books(sessions, refunds, topups, payouts, pending, clock, feePct)
    }

    /** One UPDATE ... RETURNING: what is summed is exactly what is claimed. */
    method MarkUnsettledAndSumGross(tenant: int, payout: nat, refundFrom: int, refundTo: int) returns (gross: int)
      modifies this`sessions
      ensures sessions == Claim(old(sessions), tenant, payout)
      ensures gross == Gross(UnsettledSum(old(sessions), tenant),
                RefundsIn(refunds, old(sessions), tenant, refundFrom, refundTo))
    {
      var collected := 0;
      var before := sessions;
      for i := 0 to |before|
        invariant |sessions| == |before|
        invariant collected == UnsettledSum(before[..i], tenant)
        invariant forall k :: 0 <= k < i ==> sessions[k] == Claim(before, tenant, payout)[k]
        invariant forall k :: i <= k < |before| ==> sessions[k] == before[k]
      {
        if sessions[i].tenant == tenant && sessions[i].owner.None? {
          collected := collected + sessions[i].coins;
          sessions := sessions[i := sessions[i].(owner := Some(payout))];
        }
        assert before[..i + 1][..i] == before[..i];
      }
      assert before[..|before|] == before;
      var refunded := RefundsIn(refunds, before, tenant, refundFrom, refundTo);
      gross := Clamp(NonNegative(Clamp(collected) - Clamp(refunded)));
    }

    /** Insert the row, claim, and only then look at the payable amount: nothing to pay rolls both back. */
    method RequestPayout(tenant: int, now: int) returns (requested: bool)
      modifies this
      ensures State() == Apply(old(State()), Step.RequestPayout(tenant), now)
      ensures requested <==> payouts != old(payouts)
      ensures requested ==> payouts[|old(payouts)|].gross == UnsettledPreview(old(State()), tenant, now)
    {
      clock := now;
      if TenantLocked(pending, tenant) || HasRequested(payouts, tenant) {
        return false;
      }
      var savedSessions, savedPayouts := sessions, payouts;
      var watermark := Watermark(payouts, tenant);
      var id := |payouts|;
      payouts := payouts + [Payout(tenant, watermark, now, 0, 0, 0, Requested)];
      var gross := MarkUnsettledAndSumGross(tenant, id, watermark, now);
      var fee, net := FeeOf(gross, feePct), NetOf(gross, feePct);
      var payable := Clamp(NonNegative(net - Clamp(TopupsIn(topups, tenant, watermark, now))));
      if payable <= 0 {
        sessions, payouts := savedSessions, savedPayouts;
        return false;
      }
      payouts := payouts[id := payouts[id].(gross := gross, fee := fee, net := payable)];
      requested := true;
    }

    /** Free every session the payout had claimed. */
    method CancelPayout(payout: nat, now: int) returns (cancelled: bool)
      modifies this
      ensures State() == Apply(old(State()), Cancel(payout), now)
      ensures cancelled <==> old(payout < |payouts| && payouts[payout].status == Requested)
    {
      clock := now;
      if payout >= |payouts| || payouts[payout].status != Requested {
        return false;
      }
      var before := sessions;
      for i := 0 to |before|
        invariant |sessions| == |before|
        invariant forall k :: 0 <= k < i ==> sessions[k] == Free(before, payout)[k]
        invariant forall k :: i <= k < |before| ==> sessions[k] == before[k]
        invariant payouts == old(payouts) && refunds == old(refunds) && topups == old(topups) && pending == old(pending)
        invariant clock == now
      {
        if sessions[i].owner == Some(payout) {
          sessions := sessions[i := sessions[i].(owner := None)];
        }
      }
      payouts := payouts[payout := payouts[payout].(status := Cancelled)];
      cancelled := true;
    }
  }
}
