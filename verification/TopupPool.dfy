/**
 The pool a top-up reads from its tenant's earnings summary (backend/services/payouts.py,
 tenant_earnings_summary), statement by statement: top-ups that commit behind a payout's back, and
 payouts cancelled while the summary is being read.
 */
module TopupPool {
  import opened Money
  import opened Tariffs
  import opened Settlement

  // -------------------------------------------------------------- a late top-up

  lemma OneMoreStep(b: Books, steps: seq<Timed>, step: Timed)
    requires InOrder(b, steps) && Run(b, steps).clock <= step.at
    ensures InOrder(b, steps + [step]) && Run(b, steps + [step]) == Apply(Run(b, steps), step.step, step.at)
  {
    assert (steps + [step])[..|steps + [step]| - 1] == steps;
  }

  /** The first half of such a run: 10.00 finish, a top-up begins, the payout is requested. */
  lemma RequestOvertakes() returns (steps: seq<Timed>)
    ensures InOrder(Opening(10.0), steps)
    ensures Run(Opening(10.0), steps)
              == Books([Session(1, 1000, Some(0))], [], [],
                       [Payout(1, 0, 3, 1000, 100, 900, Requested)], [Begun(2)], 3, 10.0)
  {
    var o := Opening(10.0);
    steps := FinishThenBegin();
    WholeDraft(Run(o, steps));
    OneMoreStep(o, steps, Timed(RequestPayout(1), 3));
    steps := steps + [Timed(RequestPayout(1), 3)];
  }

  lemma FinishThenBegin() returns (steps: seq<Timed>)
    ensures InOrder(Opening(10.0), steps)
    ensures Run(Opening(10.0), steps) == Books([Session(1, 1000, None)], [], [], [], [Begun(2)], 2, 10.0)
  {
    var o := Opening(10.0);
    steps := [];
    OneMoreStep(o, steps, Timed(Finish(1, 1000), 1));
    steps := steps + [Timed(Finish(1, 1000), 1)];
    OneMoreStep(o, steps, Timed(BeginTopup, 2));
    steps := steps + [Timed(BeginTopup, 2)];
  }

  lemma WholeDraft(b: Books)
    requires b == Books([Session(1, 1000, None)], [], [], [], [Begun(2)], 2, 10.0)
    ensures Draft(b.(clock := 3), 1, 3) == Payout(1, 0, 3, 1000, 100, 900, Requested)
    ensures Claim(b.sessions, 1, 0) == [Session(1, 1000, Some(0))]
  {
    assert b.sessions[..0] == [];
    assert UnsettledSum(b.sessions, 1) == 1000;
    assert FeeOf(1000, 10.0) == 100;
  }

  /** More coins finish and the top-up gets its tenant's row. */
  lemma TopupHolds() returns (steps: seq<Timed>)
    ensures InOrder(Opening(10.0), steps)
    ensures Run(Opening(10.0), steps) == Books([Session(1, 1000, Some(0)), Session(1, 1000, None)], [], [],
                                               [Payout(1, 0, 3, 1000, 100, 900, Requested)],
                                               [Holding(2, 1, Nothing)], 5, 10.0)
  {
    var o := Opening(10.0);
    steps := RequestOvertakes();
    OneMoreStep(o, steps, Timed(Finish(1, 1000), 4));
    steps := steps + [Timed(Finish(1, 1000), 4)];
    OneMoreStep(o, steps, Timed(LockTopup(0, 1), 5));
    steps := steps + [Timed(LockTopup(0, 1), 5)];
  }

  lemma PoolLeft(b: Books)
    requires b == Books([Session(1, 1000, Some(0)), Session(1, 1000, None)], [], [],
                        [Payout(1, 0, 3, 1000, 100, 900, Requested)], [Holding(2, 1, Nothing)], 5, 10.0)
    ensures AvailablePool(b, 1, 5) == 900
  {
    TwoSums();
    assert b.payouts[..0] == [];
    assert FeeOf(1000, 10.0) == 100;
  }

  /** It reads its summary undisturbed. */
  lemma TopupReads() returns (steps: seq<Timed>)
    ensures InOrder(Opening(10.0), steps)
    ensures Run(Opening(10.0), steps) == Books([Session(1, 1000, Some(0)), Session(1, 1000, None)], [], [],
                                               [Payout(1, 0, 3, 1000, 100, 900, Requested)],
                                               [Holding(2, 1, Pool(900))], 5, 10.0)
  {
    steps := TopupHolds();
    PoolLeft(Run(Opening(10.0), steps));
    steps := ReadInRun(Opening(10.0), steps, 0);
  }

  /** The whole of it: 10.00 more finish, and the top-up takes 5.00 of them, stamped before the payout's end. */
  lemma LateTopupRun() returns (steps: seq<Timed>)
    ensures InOrder(Opening(10.0), steps)
    ensures var b := Run(Opening(10.0), steps);
            && ClaimsFit(b, 1, |b.payouts|) && !NoneLate(b, 1, |b.payouts|) && !Conserved(b, 1)
            && |b.payouts| == 1 && RowTotal(b, 0) == OwnedSum(b.sessions, 0) + 500
  {
    var o := Opening(10.0);
    steps := TopupReads();
    RunKeepsInv(o, steps);
    LateCommit(Run(o, steps));
    OneMoreStep(o, steps, Timed(CommitTopup(0, 500), 6));
    steps := steps + [Timed(CommitTopup(0, 500), 6)];
    CoinsAreConserved(10.0, steps, 1);
  }

  lemma LateCommit(b: Books)
    requires Inv(b)
    requires b == Books([Session(1, 1000, Some(0)), Session(1, 1000, None)], [], [],
                        [Payout(1, 0, 3, 1000, 100, 900, Requested)], [Holding(2, 1, Pool(900))], 5, 10.0)
    ensures var b' := Apply(b, CommitTopup(0, 500), 6);
            && |b'.payouts| == 1 && ClaimsFit(b', 1, 1) && !NoneLate(b', 1, 1)
            && RowTotal(b', 0) == OwnedSum(b'.sessions, 0) + 500
  {
    RowBefore(b);
    LateTopupIsDrawnTwice(b, 0, 500, 6, 0);
    LateBooks(b);
    OneIsLate(Apply(b, CommitTopup(0, 500), 6));
  }

  lemma LateBooks(b: Books)
    requires b == Books([Session(1, 1000, Some(0)), Session(1, 1000, None)], [], [],
                        [Payout(1, 0, 3, 1000, 100, 900, Requested)], [Holding(2, 1, Pool(900))], 5, 10.0)
    ensures Apply(b, CommitTopup(0, 500), 6) == Books(b.sessions, [], [Topup(1, 500, 2, 1)], b.payouts, [], 6, 10.0)
  {
  }

  lemma RowBefore(b: Books)
    requires b.sessions == [Session(1, 1000, Some(0)), Session(1, 1000, None)] && b.refunds == [] && b.topups == []
    requires b.payouts == [Payout(1, 0, 3, 1000, 100, 900, Requested)]
    ensures RowTotal(b, 0) == OwnedSum(b.sessions, 0)
  {
    TwoSums();
  }

  lemma OneIsLate(b: Books)
    requires b == Books([Session(1, 1000, Some(0)), Session(1, 1000, None)], [], [Topup(1, 500, 2, 1)],
                        [Payout(1, 0, 3, 1000, 100, 900, Requested)], [], 6, 10.0)
    ensures ClaimsFit(b, 1, 1) && !NoneLate(b, 1, 1)
  {
    TwoSums();
    assert b.topups[0] == Topup(1, 500, 2, 1);
    assert IsLate(b, b.topups[0], 0);
  }

  lemma TwoSums()
    ensures var sessions := [Session(1, 1000, Some(0)), Session(1, 1000, None)];
            UnsettledSum(sessions, 1) == 1000 && OwnedSum(sessions, 0) == 1000
  {
    var sessions := [Session(1, 1000, Some(0)), Session(1, 1000, None)];
    assert sessions[..1] == [Session(1, 1000, Some(0))] && sessions[..1][..0] == [];
  }

  // -------------------------------------------- a cancel inside a top-up's summary

  const STATEMENTS: nat := 5

  /** The books after `n` statements of top-up `k`'s summary, all at `now`. */
  function ReadN(b: Books, k: nat, n: nat, now: int): Books {
    if n == 0 then b else Apply(ReadN(b, k, n - 1, now), ReadSummary(k), now)
  }

  function ReadTimes(b: Books, tenant: int, read: Summary, n: nat, now: int): Summary {
    if n == 0 then read else ReadOne(b, tenant, ReadTimes(b, tenant, read, n - 1, now), now)
  }

  /** Statements of a summary change nothing but what it has read. */
  lemma {:induction false} ReadsAlone(b: Books, k: nat, n: nat, now: int)
    requires k < |b.pending| && b.pending[k].Holding? && b.clock == now
    ensures var p := b.pending[k];
            ReadN(b, k, n, now) == b.(pending := b.pending[k := p.(read := ReadTimes(b, p.tenant, p.read, n, now))])
  {
    if n > 0 {
      ReadsAlone(b, k, n - 1, now);
    }
  }

  /** The statements of a summary as steps of a run. */
  lemma ReadInRun(b: Books, before: seq<Timed>, k: nat) returns (steps: seq<Timed>)
    requires InOrder(b, before) && k < |Run(b, before).pending|
    requires Run(b, before).pending[k].Holding? && Run(b, before).pending[k].read.Nothing?
    ensures var s := Run(b, before);
            InOrder(b, steps) && Run(b, steps) == s.(pending := s.pending[k := s.pending[k].(
                                                       read := Pool(AvailablePool(s, s.pending[k].tenant, s.clock)))])
  {
    var s := Run(b, before);
    steps := RunReads(b, before, k, STATEMENTS);
    ReadsAlone(s, k, STATEMENTS, s.clock);
    FirstReads(s, s.pending[k].tenant, STATEMENTS, s.clock);
  }

  lemma {:induction false} RunReads(b: Books, before: seq<Timed>, k: nat, n: nat) returns (steps: seq<Timed>)
    requires InOrder(b, before) && k < |Run(b, before).pending| && Run(b, before).pending[k].Holding?
    ensures InOrder(b, steps) && Run(b, steps) == ReadN(Run(b, before), k, n, Run(b, before).clock)
  {
    if n == 0 {
      steps := before;
    } else {
      steps := RunReads(b, before, k, n - 1);
      steps := OneMoreRead(b, steps, k, Run(b, before), n - 1);
    }
  }

  lemma OneMoreRead(b: Books, before: seq<Timed>, k: nat, s: Books, n: nat) returns (steps: seq<Timed>)
    requires InOrder(b, before) && Run(b, before) == ReadN(s, k, n, s.clock)
    requires k < |s.pending| && s.pending[k].Holding?
    ensures InOrder(b, steps) && Run(b, steps) == ReadN(s, k, n + 1, s.clock)
  {
    ReadsAlone(s, k, n, s.clock);
    var step := Timed(ReadSummary(k), s.clock);
    OneMoreStep(b, before, step);
    steps := before + [step];
  }

  /** What the first statements of a summary leave, all on the same books. */
  lemma FirstReads(b: Books, tenant: int, n: nat, now: int)
    requires n <= STATEMENTS
    ensures var w, coins := Watermark(b.payouts, tenant), Clamp(UnsettledSum(b.sessions, tenant));
            ReadTimes(b, tenant, Nothing, n, now) ==
            if n == 0 then Nothing else if n == 1 then FirstMark(w, now) else if n == 2 then BothMarks(w, now, w, now)
            else if n == 3 then Collected(w, now, w, now, coins)
            else if n == 4 then Refunded(w, now, UnsettledPreview(b, tenant, now))
            else Pool(AvailablePool(b, tenant, now))
  {
    if n > 0 {
      FirstReads(b, tenant, n - 1, now);
    }
  }

  function Left(read: Summary): nat {
    match read
    case Nothing => 5
    case FirstMark(_, _) => 4
    case BothMarks(_, _, _, _) => 3
    case Collected(_, _, _, _, _) => 2
    case Refunded(_, _, _) => 1
    case Pool(_) => 0
  }

  /** What a summary comes to when its statements left all run on these books. */
  function Finished(b: Books, tenant: int, read: Summary, now: int): Summary {
    match read
    case Nothing => Pool(AvailablePool(b, tenant, now))
    case FirstMark(m, n) => Pool(PoolOf(b.feePct, UnsettledPreview(b, tenant, now), TopupsIn(b.topups, tenant, m, n)))
    case BothMarks(m, n, rm, rn) =>
      Pool(PoolOf(b.feePct, Gross(UnsettledSum(b.sessions, tenant), RefundsIn(b.refunds, b.sessions, tenant, rm, rn)),
                  TopupsIn(b.topups, tenant, m, n)))
    case Collected(m, n, rm, rn, coins) =>
      Pool(PoolOf(b.feePct, Clamp(NonNegative(coins - Clamp(RefundsIn(b.refunds, b.sessions, tenant, rm, rn)))),
                  TopupsIn(b.topups, tenant, m, n)))
    case Refunded(m, n, gross) => Pool(PoolOf(b.feePct, gross, TopupsIn(b.topups, tenant, m, n)))
    case Pool(_) => read
  }

  lemma {:induction false} FirstThenRest(b: Books, tenant: int, read: Summary, n: nat, now: int)
    ensures ReadTimes(b, tenant, read, n + 1, now) == ReadTimes(b, tenant, ReadOne(b, tenant, read, now), n, now)
  {
    if n > 0 {
      FirstThenRest(b, tenant, read, n - 1, now);
    }
  }

  lemma {:induction false} ReadsFinish(b: Books, tenant: int, read: Summary, now: int)
    ensures ReadTimes(b, tenant, read, Left(read), now) == Finished(b, tenant, read, now)
    decreases Left(read)
  {
    if !read.Pool? {
      FirstThenRest(b, tenant, read, Left(read) - 1, now);
      ReadsFinish(b, tenant, ReadOne(b, tenant, read, now), now);
    }
  }

  /** The two books' sessions give one tenant's refunds the same sums. */
  ghost predicate SameRefunds(b: Books, b': Books, tenant: int) {
    forall from, to ::
      RefundsIn(b.refunds, b'.sessions, tenant, from, to) == RefundsIn(b.refunds, b.sessions, tenant, from, to)
  }

  /** What the summary comes to when its first `stage` statements ran on books `b` and the others on `b'`. */
  lemma LaterReads(b: Books, b': Books, tenant: int, stage: nat, now: int)
    requires stage <= STATEMENTS && b'.refunds == b.refunds && b'.topups == b.topups && b'.feePct == b.feePct
    requires SameRefunds(b, b', tenant)
    ensures var w, w' := Watermark(b.payouts, tenant), Watermark(b'.payouts, tenant);
            var coins := UnsettledSum(if stage >= 3 then b.sessions else b'.sessions, tenant);
            var refunds := RefundsIn(b.refunds, b.sessions, tenant, if stage >= 2 then w else w', now);
            var topups := TopupsIn(b.topups, tenant, if stage >= 1 then w else w', now);
            ReadTimes(b', tenant, ReadTimes(b, tenant, Nothing, stage, now), STATEMENTS - stage, now)
            == Pool(PoolOf(b.feePct, Gross(coins, refunds), topups))
  {
    FirstReads(b, tenant, stage, now);
    ReadsFinish(b', tenant, ReadTimes(b, tenant, Nothing, stage, now), now);
  }

  /** A pending payout is its tenant's last, so cancelling it moves the watermark from its end back to its start. */
  lemma CancelMovesWatermark(b: Books, i: nat)
    requires WindowsChain(b) && i < |b.payouts| && b.payouts[i].status == Requested
    ensures var p := b.payouts[i];
            && Watermark(b.payouts, p.tenant) == p.end
            && Watermark(b.payouts[i := p.(status := Cancelled)], p.tenant) == p.start
  {
    var p := b.payouts[i];
    var after := b.payouts[i := p.(status := Cancelled)];
    WatermarkSkips(b.payouts, p.tenant, i + 1, |b.payouts|);
    assert b.payouts[..|b.payouts|] == b.payouts && b.payouts[..i + 1][..i] == b.payouts[..i];
    WatermarkSkips(after, p.tenant, i, |b.payouts|);
    assert after[..|after|] == after && after[..i] == b.payouts[..i];
  }

  lemma {:induction false} FreeAdds(sessions: seq<Session>, payout: nat, tenant: int)
    requires forall s :: s in sessions && s.owner == Some(payout) ==> s.tenant == tenant
    ensures UnsettledSum(Free(sessions, payout), tenant) == UnsettledSum(sessions, tenant) + OwnedSum(sessions, payout)
  {
    if sessions != [] {
      var n := |sessions| - 1;
      assert sessions[n] in sessions;
      assert Free(sessions, payout)[..n] == Free(sessions[..n], payout);
      FreeAdds(sessions[..n], payout, tenant);
    }
  }

  /** The books when payout `i` is cancelled after `stage` statements of top-up `k`'s summary. */
  function Landed(b: Books, k: nat, i: nat, stage: nat, now: int): Books
    requires stage <= STATEMENTS
  {
    ReadN(Apply(ReadN(b, k, stage, now), Cancel(i), now), k, STATEMENTS - stage, now)
  }

  /** The pool such a summary comes to: each sum is over the freed window too, or not, by when it was read. */
  function PoolAcross(b: Books, i: nat, stage: nat, now: int): int
    requires i < |b.payouts|
  {
    var p := b.payouts[i];
    var coins := UnsettledSum(b.sessions, p.tenant) + if stage <= 2 then OwnedSum(b.sessions, i) else 0;
    var refunds := RefundsIn(b.refunds, b.sessions, p.tenant, if stage <= 1 then p.start else p.end, now);
    var topups := TopupsIn(b.topups, p.tenant, if stage == 0 then p.start else p.end, now);
    PoolOf(b.feePct, Gross(coins, refunds), topups)
  }

  /** For every landing point: the pool read, and the true one, which is the pool read after the cancel. */
  lemma LandedReads(b: Books, k: nat, i: nat, stage: nat, now: int)
    requires Inv(b) && b.clock == now && stage <= STATEMENTS
    requires i < |b.payouts| && b.payouts[i].status == Requested
    requires k < |b.pending| && b.pending[k].Holding? && b.pending[k].read.Nothing?
    requires b.pending[k].tenant == b.payouts[i].tenant
    ensures var after := Landed(b, k, i, stage, now);
            && after.clock == now
            && after.pending == b.pending[k := b.pending[k].(read := Pool(PoolAcross(b, i, stage, now)))]
            && AvailablePool(after, b.pending[k].tenant, now) == PoolAcross(b, i, 0, now)
  {
    var tenant := b.payouts[i].tenant;
    var cancelled := Apply(b, Cancel(i), now);
    LandedIs(b, k, i, stage, now);
    CancelledPools(b, i, stage, now);
    SamePool(cancelled, Landed(b, k, i, stage, now).pending, tenant, now);
  }

  lemma LandedIs(b: Books, k: nat, i: nat, stage: nat, now: int)
    requires b.clock == now && stage <= STATEMENTS
    requires k < |b.pending| && b.pending[k].Holding? && b.pending[k].read.Nothing?
    ensures var p, cancelled := b.pending[k], Apply(b, Cancel(i), now);
            var first := ReadTimes(b, p.tenant, Nothing, stage, now);
            var read := ReadTimes(cancelled, p.tenant, first, STATEMENTS - stage, now);
            && Landed(b, k, i, stage, now) == cancelled.(pending := b.pending[k := p.(read := read)])
            && cancelled.clock == now
  {
    var tenant, cancelled := b.pending[k].tenant, Apply(b, Cancel(i), now);
    var read := ReadTimes(b, tenant, Nothing, stage, now);
    var pending := b.pending[k := b.pending[k].(read := read)];
    FirstHalf(b, k, i, stage, now);
    SecondHalf(cancelled, pending, k, STATEMENTS - stage, now);
    assert pending[k := pending[k].(read := ReadTimes(cancelled, tenant, read, STATEMENTS - stage, now))]
        == b.pending[k := b.pending[k].(read := ReadTimes(cancelled, tenant, read, STATEMENTS - stage, now))];
  }

  lemma FirstHalf(b: Books, k: nat, i: nat, stage: nat, now: int)
    requires b.clock == now && k < |b.pending| && b.pending[k].Holding? && b.pending[k].read.Nothing?
    ensures var p, cancelled := b.pending[k], Apply(b, Cancel(i), now);
            && Apply(ReadN(b, k, stage, now), Cancel(i), now)
               == cancelled.(pending := b.pending[k := p.(read := ReadTimes(b, p.tenant, Nothing, stage, now))])
            && cancelled.clock == now
  {
    ReadsAlone(b, k, stage, now);
    var p := b.pending[k];
    CancelAside(b, b.pending[k := p.(read := ReadTimes(b, p.tenant, Nothing, stage, now))], i, now);
  }

  lemma SecondHalf(b: Books, pending: seq<Pending>, k: nat, n: nat, now: int)
    requires b.clock == now && k < |pending| && pending[k].Holding?
    ensures var p := pending[k];
            ReadN(b.(pending := pending), k, n, now)
            == b.(pending := pending[k := p.(read := ReadTimes(b, p.tenant, p.read, n, now))])
  {
    ReadsAlone(b.(pending := pending), k, n, now);
    SameBooks(b, pending, pending[k].tenant, pending[k].read, n, now);
  }

  lemma SamePool(b: Books, pending: seq<Pending>, tenant: int, now: int)
    ensures AvailablePool(b.(pending := pending), tenant, now) == AvailablePool(b, tenant, now)
  {
  }

  lemma CancelAside(b: Books, pending: seq<Pending>, i: nat, now: int)
    requires b.clock == now
    ensures Apply(b.(pending := pending), Cancel(i), now) == Apply(b, Cancel(i), now).(pending := pending)
    ensures Apply(b, Cancel(i), now).clock == now
  {
  }

  lemma CancelledPools(b: Books, i: nat, stage: nat, now: int)
    requires Inv(b) && stage <= STATEMENTS && i < |b.payouts| && b.payouts[i].status == Requested
    ensures var tenant, cancelled := b.payouts[i].tenant, Apply(b, Cancel(i), now);
            && ReadTimes(cancelled, tenant, ReadTimes(b, tenant, Nothing, stage, now), STATEMENTS - stage, now)
                 == Pool(PoolAcross(b, i, stage, now))
            && AvailablePool(cancelled, tenant, now) == PoolAcross(b, i, 0, now)
  {
    CancelledSums(b, i, now);
    LaterReads(b, Apply(b, Cancel(i), now), b.payouts[i].tenant, stage, now);
  }

  /** A summary reads nothing of the other requests in flight. */
  lemma {:induction false} SameBooks(b: Books, pending: seq<Pending>, tenant: int, read: Summary, n: nat, now: int)
    ensures ReadTimes(b.(pending := pending), tenant, read, n, now) == ReadTimes(b, tenant, read, n, now)
  {
    if n > 0 {
      SameBooks(b, pending, tenant, read, n - 1, now);
    }
  }

  lemma CancelledBooks(b: Books, i: nat, now: int)
    requires i < |b.payouts| && b.payouts[i].status == Requested
    ensures Apply(b, Cancel(i), now) == b.(clock := now, sessions := Free(b.sessions, i),
                                           payouts := b.payouts[i := b.payouts[i].(status := Cancelled)])
  {
  }

  lemma CancelledSums(b: Books, i: nat, now: int)
    requires Inv(b) && i < |b.payouts| && b.payouts[i].status == Requested
    ensures var p, b' := b.payouts[i], Apply(b, Cancel(i), now);
            && Watermark(b.payouts, p.tenant) == p.end && Watermark(b'.payouts, p.tenant) == p.start
            && UnsettledSum(b'.sessions, p.tenant) == UnsettledSum(b.sessions, p.tenant) + OwnedSum(b.sessions, i)
            && b'.refunds == b.refunds && b'.topups == b.topups && b'.feePct == b.feePct
            && SameRefunds(b, b', p.tenant)
  {
    var p, b' := b.payouts[i], Apply(b, Cancel(i), now);
    CancelledBooks(b, i, now);
    CancelMovesWatermark(b, i);
    FreeAdds(b.sessions, i, p.tenant);
    FreeKeepsRefunds(b, i, p.tenant, b');
  }

  lemma FreeKeepsRefunds(b: Books, i: nat, tenant: int, b': Books)
    requires WrittenByNow(b) && b'.sessions == Free(b.sessions, i)
    ensures SameRefunds(b, b', tenant)
  {
    forall from, to
      ensures RefundsIn(b.refunds, b'.sessions, tenant, from, to) == RefundsIn(b.refunds, b.sessions, tenant, from, to)
    {
      RefundsStable(b.refunds, b.sessions, b'.sessions, tenant, from, to);
    }
  }

  /** A larger gross carries no smaller a fee, and no more of it than the difference. */
  lemma FeeGrowth(g: int, g': int, feePct: real)
    requires 0 <= g <= g' <= MAX_MONEY && 0.0 <= feePct <= 100.0
    ensures 0 <= FeeOf(g', feePct) - FeeOf(g, feePct) <= g' - g
  {
    var x, y := Percent(g as real, feePct), Percent(g' as real, feePct);
    PercentBounds(g as real, feePct);
    PercentBounds(g' as real, feePct);
    PercentBounds((g' - g) as real, feePct);
    PercentSum(g as real, (g' - g) as real, feePct);
    RoundMonotone(x, y);
    RoundMonotone(y, x + (g' - g) as real);
    RoundShift(x, g' - g);
    RoundMonotone(y, g' as real);
    RoundMonotone(0.0, x);
  }

  lemma PercentSum(x: real, y: real, pct: real)
    ensures Percent(x + y, pct) == Percent(x, pct) + Percent(y, pct)
  {
    assert (x + y) * pct == x * pct + y * pct;
  }

  lemma PercentGrowth(x: real, pct: real)
    requires 0.0 <= x && 100.0 <= pct
    ensures x <= Percent(x, pct)
  {
    assert x * (pct - 100.0) >= 0.0;
    assert x * pct == x * (pct - 100.0) + x * 100.0;
  }

  /** A fee of more than the whole leaves nothing. */
  lemma NothingLeft(g: int, feePct: real)
    requires 0 <= g <= MAX_MONEY && 100.0 < feePct
    ensures NetOf(g, feePct) <= 0
  {
    PercentGrowth(g as real, feePct);
    ToMoneyMonotone(g as real, Percent(g as real, feePct));
    ToMoneyOfCents(g);
    ToMoneyError(Percent(g as real, feePct));
  }

  /**
   More gross and fewer top-ups never make a pool smaller, and leave it the same exactly when it is
   empty anyway, or the top-ups agree and the fee takes all the difference of the gross.
   */
  lemma PoolsCompare(feePct: real, g: int, topups: int, g': int, topups': int)
    requires 0 <= g <= g' <= MAX_MONEY && 0 <= topups' <= topups && 0.0 <= feePct
    ensures PoolOf(feePct, g, topups) <= PoolOf(feePct, g', topups')
    ensures PoolOf(feePct, g, topups) == PoolOf(feePct, g', topups') <==>
              || PoolOf(feePct, g', topups') == 0
              || (topups == topups' && FeeOf(g', feePct) - FeeOf(g, feePct) == g' - g)
  {
    if feePct <= 100.0 {
      FeeGrowth(g, g', feePct);
      FeeGrowth(0, g, feePct);
      FeeAndNetFoot(g, feePct);
      FeeAndNetFoot(g', feePct);
    } else {
      NothingLeft(g, feePct);
      NothingLeft(g', feePct);
    }
  }

  /** Refunds of a window lower the gross exactly when there are any and they are not beyond the coins already. */
  lemma GrossesCompare(coins: int, refunds: int, more: int)
    requires 0 <= coins && 0 <= refunds && 0 <= more
    ensures 0 <= Gross(coins, refunds + more) <= Gross(coins, refunds) <= MAX_MONEY
    ensures Gross(coins, refunds + more) == Gross(coins, refunds) <==> more == 0 || Clamp(coins) <= refunds
  {
  }

  /** The same for top-ups alone, and for a smaller gross as well. */
  lemma EarlyPools(feePct: real, g: int, topups: int, g': int, topups': int)
    requires 0 <= g <= g' <= MAX_MONEY && 0 <= topups' <= topups && 0.0 <= feePct
    ensures var truth := PoolOf(feePct, g, topups);
            && truth <= PoolOf(feePct, g, topups') && truth <= PoolOf(feePct, g', topups')
            && (PoolOf(feePct, g, topups') != truth <==> PoolOf(feePct, g, topups') > 0 && topups' < topups)
            && (PoolOf(feePct, g', topups') != truth <==>
                PoolOf(feePct, g', topups') > 0 && (topups' < topups || FeeOf(g', feePct) - FeeOf(g, feePct) != g' - g))
  {
    PoolsCompare(feePct, g, topups, g, topups');
    PoolsCompare(feePct, g, topups, g', topups');
  }

  /**
   A cancel that lands early in a summary: before its first statement the pool read is right.
   After the first only the top-ups of the freed window are missed, after the second its refunds
   too. Then the pool read is never too small, and is too large exactly when it is not empty and
   there is such a top-up, or such refunds lower the gross by more than the fee gives back.
   */
  lemma EarlyCancelIff(b: Books, i: nat, stage: nat, now: int)
    requires Inv(b) && b.clock == now && i < |b.payouts| && b.payouts[i].status == Requested && stage <= 2
    ensures var p, read := b.payouts[i], PoolAcross(b, i, stage, now);
            var truth, freed := PoolAcross(b, i, 0, now), TopupsIn(b.topups, p.tenant, p.start, p.end);
            var g, g' := GrossSince(b, i, p.start, now), GrossSince(b, i, p.end, now);
            && truth <= read
            && (stage == 0 ==> read == truth)
            && (stage == 1 ==> (read != truth <==> read > 0 && freed > 0))
            && (stage == 2 ==>
                  (read != truth <==>
                   read > 0 && (freed > 0 || FeeOf(g', b.feePct) - FeeOf(g, b.feePct) != g' - g)))
  {
    WindowSums(b, i, now);
    FreedRefundsLowerGross(b, i, now);
    EarlyStages(b, i, stage, now);
  }

  lemma EarlyStages(b: Books, i: nat, stage: nat, now: int)
    requires i < |b.payouts| && 0.0 <= b.feePct && stage <= 2
    requires var p := b.payouts[i];
             && 0 <= TopupsIn(b.topups, p.tenant, p.start, p.end) && 0 <= TopupsIn(b.topups, p.tenant, p.end, now)
             && TopupsIn(b.topups, p.tenant, p.start, now)
                == TopupsIn(b.topups, p.tenant, p.start, p.end) + TopupsIn(b.topups, p.tenant, p.end, now)
             && 0 <= GrossSince(b, i, p.start, now) <= GrossSince(b, i, p.end, now) <= MAX_MONEY
    ensures var p, read := b.payouts[i], PoolAcross(b, i, stage, now);
            var truth, freed := PoolAcross(b, i, 0, now), TopupsIn(b.topups, p.tenant, p.start, p.end);
            var g, g' := GrossSince(b, i, p.start, now), GrossSince(b, i, p.end, now);
            && truth <= read
            && (stage == 0 ==> read == truth)
            && (stage == 1 ==> (read != truth <==> read > 0 && freed > 0))
            && (stage == 2 ==>
                  (read != truth <==>
                   read > 0 && (freed > 0 || FeeOf(g', b.feePct) - FeeOf(g, b.feePct) != g' - g)))
  {
    EarlyFrom(b, i, now);
  }

  lemma EarlyFrom(b: Books, i: nat, now: int)
    requires i < |b.payouts| && 0.0 <= b.feePct
    requires var p := b.payouts[i];
             && 0 <= TopupsIn(b.topups, p.tenant, p.start, p.end) && 0 <= TopupsIn(b.topups, p.tenant, p.end, now)
             && TopupsIn(b.topups, p.tenant, p.start, now)
                == TopupsIn(b.topups, p.tenant, p.start, p.end) + TopupsIn(b.topups, p.tenant, p.end, now)
             && 0 <= GrossSince(b, i, p.start, now) <= GrossSince(b, i, p.end, now) <= MAX_MONEY
    ensures var p, truth := b.payouts[i], PoolAcross(b, i, 0, now);
            var one, two := PoolAcross(b, i, 1, now), PoolAcross(b, i, 2, now);
            var freed := TopupsIn(b.topups, p.tenant, p.start, p.end);
            var g, g' := GrossSince(b, i, p.start, now), GrossSince(b, i, p.end, now);
            && truth <= one && (one != truth <==> one > 0 && freed > 0)
            && truth <= two
            && (two != truth <==> two > 0 && (freed > 0 || FeeOf(g', b.feePct) - FeeOf(g, b.feePct) != g' - g))
  {
    var p := b.payouts[i];
    EarlyAcross(b, i, now);
    EarlyPools(b.feePct, GrossSince(b, i, p.start, now), TopupsIn(b.topups, p.tenant, p.start, now),
               GrossSince(b, i, p.end, now), TopupsIn(b.topups, p.tenant, p.end, now));
  }

  lemma EarlyAcross(b: Books, i: nat, now: int)
    requires i < |b.payouts|
    ensures var p := b.payouts[i];
            var g, g' := GrossSince(b, i, p.start, now), GrossSince(b, i, p.end, now);
            && PoolAcross(b, i, 0, now) == PoolOf(b.feePct, g, TopupsIn(b.topups, p.tenant, p.start, now))
            && PoolAcross(b, i, 1, now) == PoolOf(b.feePct, g, TopupsIn(b.topups, p.tenant, p.end, now))
            && PoolAcross(b, i, 2, now) == PoolOf(b.feePct, g', TopupsIn(b.topups, p.tenant, p.end, now))
  {
  }

  /** The gross a summary comes to that counts the freed sessions, with refunds since `mark`. */
  function GrossSince(b: Books, i: nat, mark: int, now: int): int
    requires i < |b.payouts|
  {
    Gross(UnsettledSum(b.sessions, b.payouts[i].tenant) + OwnedSum(b.sessions, i),
          RefundsIn(b.refunds, b.sessions, b.payouts[i].tenant, mark, now))
  }

  /** Refunds of the freed window lower that gross exactly when there are any and later ones have not used it up. */
  lemma FreedRefundsLowerGross(b: Books, i: nat, now: int)
    requires Inv(b) && b.clock == now && i < |b.payouts| && Live(b.payouts[i])
    ensures var p := b.payouts[i];
            && 0 <= GrossSince(b, i, p.start, now) <= GrossSince(b, i, p.end, now) <= MAX_MONEY
            && (GrossSince(b, i, p.start, now) < GrossSince(b, i, p.end, now) <==>
                && RefundsIn(b.refunds, b.sessions, p.tenant, p.start, p.end) > 0
                && RefundsIn(b.refunds, b.sessions, p.tenant, p.end, now)
                   < Clamp(UnsettledSum(b.sessions, p.tenant) + OwnedSum(b.sessions, i)))
  {
    var p := b.payouts[i];
    WindowSums(b, i, now);
    GrossesCompare(UnsettledSum(b.sessions, p.tenant) + OwnedSum(b.sessions, i),
                   RefundsIn(b.refunds, b.sessions, p.tenant, p.end, now),
                   RefundsIn(b.refunds, b.sessions, p.tenant, p.start, p.end));
  }

  /** At a fee of at most half, the fee gives back a difference of one cent at most. */
  lemma FeeGivesBackACent(g: int, g': int, feePct: real)
    requires 0 <= g <= g' <= MAX_MONEY && 0.0 <= feePct <= 50.0 && FeeOf(g', feePct) - FeeOf(g, feePct) == g' - g
    ensures g' <= g + 1
  {
    var d := g' - g;
    PercentBounds(g as real, feePct);
    PercentBounds(g' as real, feePct);
    PercentSum(g as real, d as real, feePct);
    HalfBounds(d as real, feePct);
    RoundMonotone(Percent(g as real, feePct), g as real);
    RoundMonotone(Percent(g' as real, feePct), g' as real);
  }

  lemma HalfBounds(x: real, pct: real)
    requires 0.0 <= x && 0.0 <= pct <= 50.0
    ensures Percent(x, pct) <= x / 2.0
  {
    assert x * (50.0 - pct) >= 0.0;
    assert x * 50.0 - x * pct == x * (50.0 - pct);
  }

  /** Sums since a payout's start are its window's and those since its end. */
  lemma WindowSums(b: Books, i: nat, now: int)
    requires Inv(b) && b.clock == now && i < |b.payouts| && Live(b.payouts[i])
    ensures var p := b.payouts[i];
            && TopupsIn(b.topups, p.tenant, p.start, now)
               == TopupsIn(b.topups, p.tenant, p.start, p.end) + TopupsIn(b.topups, p.tenant, p.end, now)
            && RefundsIn(b.refunds, b.sessions, p.tenant, p.start, now)
                 == RefundsIn(b.refunds, b.sessions, p.tenant, p.start, p.end)
                    + RefundsIn(b.refunds, b.sessions, p.tenant, p.end, now)
            && 0 <= TopupsIn(b.topups, p.tenant, p.start, p.end) && 0 <= TopupsIn(b.topups, p.tenant, p.end, now)
            && 0 <= RefundsIn(b.refunds, b.sessions, p.tenant, p.start, p.end)
            && 0 <= RefundsIn(b.refunds, b.sessions, p.tenant, p.end, now)
            && 0 <= UnsettledSum(b.sessions, p.tenant) && 0 <= OwnedSum(b.sessions, i)
  {
    var p := b.payouts[i];
    TopupsSplit(b.topups, p.tenant, p.start, p.end, now);
    RefundsSplit(b.refunds, b.sessions, p.tenant, p.start, p.end, now);
    SumsNonNegative(b, p.tenant, p.start, p.end);
    SumsNonNegative(b, p.tenant, p.end, now);
    OwnedNonNegative(b.sessions, i);
  }

  lemma {:induction false} RefundsSplit(refunds: seq<Refund>, sessions: seq<Session>, tenant: int, from: int,
      mid: int, to: int)
    requires from <= mid <= to
    ensures RefundsIn(refunds, sessions, tenant, from, to)
         == RefundsIn(refunds, sessions, tenant, from, mid) + RefundsIn(refunds, sessions, tenant, mid, to)
  {
    if refunds != [] {
      RefundsSplit(refunds[..|refunds| - 1], sessions, tenant, from, mid, to);
    }
  }

  /** The fee on two grosses together against the fees on each: a cent more, a cent less, or the same. */
  function FeeCent(g: int, gross: int, feePct: real): int {
    FeeOf(g + gross, feePct) - FeeOf(g, feePct) - FeeOf(gross, feePct)
  }

  lemma FeeCentIsACent(g: int, gross: int, feePct: real)
    requires 0 <= g && 0 <= gross && g + gross <= MAX_MONEY && 0.0 <= feePct <= 100.0
    ensures -1 <= FeeCent(g, gross, feePct) <= 1
  {
    PercentSum(g as real, gross as real, feePct);
    PercentBounds(g as real, feePct);
    PercentBounds(gross as real, feePct);
    PercentBounds((g + gross) as real, feePct);
    RoundSum(Percent(g as real, feePct), Percent(gross as real, feePct));
    FeeAndNetFoot(g, feePct);
    FeeAndNetFoot(gross, feePct);
    ToMoneyError(Percent((g + gross) as real, feePct));
    RoundMonotone(Percent((g + gross) as real, feePct), (g + gross) as real);
    RoundMonotone(Percent(g as real, feePct), g as real);
    RoundMonotone(Percent(gross as real, feePct), gross as real);
  }

  /** Unsettled coins less refunds, on the books before the cancel, without a floor at zero. */
  function LeftGross(b: Books, i: nat, now: int): int
    requires i < |b.payouts|
  {
    var p := b.payouts[i];
    UnsettledSum(b.sessions, p.tenant) - RefundsIn(b.refunds, b.sessions, p.tenant, p.end, now)
  }

  /** What is left to draw of it, again without a floor. */
  function LeftBefore(b: Books, i: nat, now: int): int
    requires i < |b.payouts|
  {
    NetOf(LeftGross(b, i, now), b.feePct) - TopupsIn(b.topups, b.payouts[i].tenant, b.payouts[i].end, now)
  }

  /** What a cancel gives back to the pool: the payout's net, less late top-ups, up to the fee's cent. */
  function GivenBack(b: Books, i: nat, now: int): int
    requires i < |b.payouts|
  {
    b.payouts[i].net - LateIn(b, i) - FeeCent(LeftGross(b, i, now), b.payouts[i].gross, b.feePct)
  }

  /**
   A cancel that lands after the sessions are summed: the summary shows the pool of the books
   before it, and what the cancel gives back is missing. The pool read is too small exactly when
   that is more than nothing and leaves something to draw, and too large exactly when it is less
   than nothing, late top-ups of the freed window exceeding its net, and the pool read is not empty.
   */
  lemma LateCancelIff(b: Books, i: nat, stage: nat, now: int)
    requires Inv(b) && b.clock == now && i < |b.payouts| && b.payouts[i].status == Requested && 3 <= stage
    requires UnsettledSum(b.sessions, b.payouts[i].tenant) + OwnedSum(b.sessions, i) <= MAX_MONEY
    requires 0 <= LeftGross(b, i, now)
    ensures var read, truth := PoolAcross(b, i, stage, now), PoolAcross(b, i, 0, now);
            var left, back := LeftBefore(b, i, now), GivenBack(b, i, now);
            && read == NonNegative(left) && truth == NonNegative(left + back)
            && (read < truth <==> back > 0 && left + back > 0)
            && (read > truth <==> back < 0 && left > 0)
  {
    LateReads(b, i, stage, now);
  }

  lemma LateReads(b: Books, i: nat, stage: nat, now: int)
    requires Inv(b) && b.clock == now && i < |b.payouts| && Live(b.payouts[i]) && 3 <= stage
    requires UnsettledSum(b.sessions, b.payouts[i].tenant) + OwnedSum(b.sessions, i) <= MAX_MONEY
    requires 0 <= LeftGross(b, i, now)
    ensures PoolAcross(b, i, stage, now) == NonNegative(LeftBefore(b, i, now))
    ensures PoolAcross(b, i, 0, now) == NonNegative(LeftBefore(b, i, now) + GivenBack(b, i, now))
  {
    WindowSums(b, i, now);
    PendingAccount(b, i, now);
    LateAcross(b, i, stage, now);
    LateReadsFrom(b, i, stage, now);
  }

  lemma LateReadsFrom(b: Books, i: nat, stage: nat, now: int)
    requires i < |b.payouts| && 0.0 <= b.feePct <= 100.0 && 0 <= b.payouts[i].gross
    requires 0 <= TopupsIn(b.topups, b.payouts[i].tenant, b.payouts[i].start, b.payouts[i].end)
    requires 0 <= TopupsIn(b.topups, b.payouts[i].tenant, b.payouts[i].end, now)
    requires var p := b.payouts[i];
             var g, topups := LeftGross(b, i, now), TopupsIn(b.topups, p.tenant, p.end, now);
             var freed := TopupsIn(b.topups, p.tenant, p.start, p.end);
             && 0 <= g && g + p.gross <= MAX_MONEY && p.gross == FeeOf(p.gross, b.feePct) + p.net + freed - LateIn(b, i)
             && PoolAcross(b, i, stage, now) == PoolOf(b.feePct, g, topups)
             && PoolAcross(b, i, 0, now) == PoolOf(b.feePct, g + p.gross, topups + freed)
    ensures PoolAcross(b, i, stage, now) == NonNegative(LeftBefore(b, i, now))
    ensures PoolAcross(b, i, 0, now) == NonNegative(LeftBefore(b, i, now) + GivenBack(b, i, now))
  {
    var p := b.payouts[i];
    LatePools(b.feePct, LeftGross(b, i, now), p.gross, p.net,
              TopupsIn(b.topups, p.tenant, p.end, now), TopupsIn(b.topups, p.tenant, p.start, p.end), LateIn(b, i));
  }

  /** What a live payout's row says of its window, in whole coins. */
  lemma PendingAccount(b: Books, i: nat, now: int)
    requires Inv(b) && b.clock == now && i < |b.payouts| && Live(b.payouts[i]) && OwnedSum(b.sessions, i) <= MAX_MONEY
    ensures var p := b.payouts[i];
            && 0 <= p.gross == OwnedSum(b.sessions, i) - RefundsIn(b.refunds, b.sessions, p.tenant, p.start, p.end)
            && p.gross == FeeOf(p.gross, b.feePct) + p.net + TopupsIn(b.topups, p.tenant, p.start, p.end) - LateIn(b, i)
            && 0.0 <= b.feePct <= 100.0
  {
    var p := b.payouts[i];
    assert Accounted(b, i);
    WindowSums(b, i, now);
    OnTimeNonNegative(b.topups, i, p.tenant, p.start, p.end);
    if 100.0 < b.feePct {
      NothingLeft(p.gross, b.feePct);
      assert false;
    }
  }

  lemma LateAcross(b: Books, i: nat, stage: nat, now: int)
    requires Inv(b) && b.clock == now && i < |b.payouts| && Live(b.payouts[i]) && 3 <= stage
    requires UnsettledSum(b.sessions, b.payouts[i].tenant) + OwnedSum(b.sessions, i) <= MAX_MONEY
    requires 0 <= LeftGross(b, i, now)
    ensures var p := b.payouts[i];
            var g, topups := LeftGross(b, i, now), TopupsIn(b.topups, p.tenant, p.end, now);
            && g + p.gross <= MAX_MONEY
            && PoolAcross(b, i, stage, now) == PoolOf(b.feePct, g, topups)
            && PoolAcross(b, i, 0, now)
                 == PoolOf(b.feePct, g + p.gross, topups + TopupsIn(b.topups, p.tenant, p.start, p.end))
  {
    WindowSums(b, i, now);
    PendingAccount(b, i, now);
    var p := b.payouts[i];
    LateAcrossFrom(b, i, stage, now, RefundsIn(b.refunds, b.sessions, p.tenant, p.end, now),
                   RefundsIn(b.refunds, b.sessions, p.tenant, p.start, p.end));
  }

  lemma LateAcrossFrom(b: Books, i: nat, stage: nat, now: int, since: int, freed: int)
    requires i < |b.payouts| && 3 <= stage && 0 <= since && 0 <= freed && 0 <= OwnedSum(b.sessions, i)
    requires var p, coins := b.payouts[i], UnsettledSum(b.sessions, b.payouts[i].tenant);
             && since == RefundsIn(b.refunds, b.sessions, p.tenant, p.end, now) && since <= coins
             && since + freed == RefundsIn(b.refunds, b.sessions, p.tenant, p.start, now)
             && coins + OwnedSum(b.sessions, i) <= MAX_MONEY && 0 <= p.gross == OwnedSum(b.sessions, i) - freed
    requires var p := b.payouts[i];
             TopupsIn(b.topups, p.tenant, p.start, now)
             == TopupsIn(b.topups, p.tenant, p.start, p.end) + TopupsIn(b.topups, p.tenant, p.end, now)
    ensures var p := b.payouts[i];
            var g, topups := LeftGross(b, i, now), TopupsIn(b.topups, p.tenant, p.end, now);
            && g + p.gross <= MAX_MONEY
            && PoolAcross(b, i, stage, now) == PoolOf(b.feePct, g, topups)
            && PoolAcross(b, i, 0, now)
                 == PoolOf(b.feePct, g + p.gross, topups + TopupsIn(b.topups, p.tenant, p.start, p.end))
  {
    var coins := UnsettledSum(b.sessions, b.payouts[i].tenant);
    GrossIsExact(coins, since);
    GrossIsExact(coins + OwnedSum(b.sessions, i), since + freed);
  }

  lemma GrossIsExact(coins: int, refunds: int)
    requires 0 <= refunds <= coins <= MAX_MONEY
    ensures Gross(coins, refunds) == coins - refunds
  {
  }

  /** The two pools in numbers: a payout's gross joins what is left, and its window's top-ups what was drawn. */
  lemma LatePools(feePct: real, g: int, gross: int, net: int, topups: int, freed: int, late: int)
    requires 0.0 <= feePct <= 100.0 && 0 <= g && 0 <= gross && g + gross <= MAX_MONEY && 0 <= topups && 0 <= freed
    requires gross == FeeOf(gross, feePct) + net + freed - late
    ensures var left, back := NetOf(g, feePct) - topups, net - late - FeeCent(g, gross, feePct);
            && PoolOf(feePct, g, topups) == NonNegative(left)
            && PoolOf(feePct, g + gross, topups + freed) == NonNegative(left + back)
  {
    FeeAndNetFoot(g, feePct);
    FeeAndNetFoot(g + gross, feePct);
  }

  /**
   With more refunds than coins since, the summary shows nothing, and that is wrong exactly when the
   cancel frees something to draw.
   */
  lemma LateCancelOverRefunded(b: Books, i: nat, stage: nat, now: int)
    requires Inv(b) && b.clock == now && i < |b.payouts| && b.payouts[i].status == Requested && 3 <= stage
    requires LeftGross(b, i, now) < 0
    ensures PoolAcross(b, i, stage, now) == 0
    ensures PoolAcross(b, i, stage, now) != PoolAcross(b, i, 0, now) <==> PoolAcross(b, i, 0, now) > 0
  {
    var p := b.payouts[i];
    WindowSums(b, i, now);
    assert Gross(UnsettledSum(b.sessions, p.tenant), RefundsIn(b.refunds, b.sessions, p.tenant, p.end, now)) == 0;
    PoolsCompare(b.feePct, 0, TopupsIn(b.topups, p.tenant, p.end, now), 0, 0);
    FeeOfNothing(b.feePct);
  }

  lemma FeeOfNothing(feePct: real)
    requires 0.0 <= feePct
    ensures NetOf(0, feePct) == 0
  {
    assert Percent(0.0, feePct) == 0.0;
  }

  /** Such a landing as steps of a run. */
  lemma LandedIsRun(o: Books, before: seq<Timed>, k: nat, i: nat, stage: nat) returns (steps: seq<Timed>)
    requires InOrder(o, before) && stage <= STATEMENTS
    requires var b := Run(o, before); k < |b.pending| && b.pending[k].Holding?
    ensures InOrder(o, steps) && Run(o, steps) == Landed(Run(o, before), k, i, stage, Run(o, before).clock)
  {
    var b := Run(o, before);
    ReadsAlone(b, k, stage, b.clock);
    steps := RunReads(o, before, k, stage);
    OneMoreStep(o, steps, Timed(Cancel(i), b.clock));
    steps := steps + [Timed(Cancel(i), b.clock)];
    steps := RunReads(o, steps, k, STATEMENTS - stage);
  }

  /** 10.00 finish, 4.00 of them are refunded, the rest is requested, and a top-up takes its tenant's row. */
  lemma RefundedAndRequested() returns (steps: seq<Timed>)
    ensures InOrder(Opening(10.0), steps)
    ensures Run(Opening(10.0), steps) == Books([Session(1, 1000, Some(0))], [Refund(0, 400, 2)], [],
                                               [Payout(1, 0, 3, 600, 60, 540, Requested)],
                                               [Holding(4, 1, Nothing)], 5, 10.0)
  {
    var o := Opening(10.0);
    steps := RefundThenRequest();
    OneMoreStep(o, steps, Timed(BeginTopup, 4));
    steps := steps + [Timed(BeginTopup, 4)];
    OneMoreStep(o, steps, Timed(LockTopup(0, 1), 5));
    steps := steps + [Timed(LockTopup(0, 1), 5)];
  }

  lemma RefundThenRequest() returns (steps: seq<Timed>)
    ensures InOrder(Opening(10.0), steps)
    ensures Run(Opening(10.0), steps) == Books([Session(1, 1000, Some(0))], [Refund(0, 400, 2)], [],
                                               [Payout(1, 0, 3, 600, 60, 540, Requested)], [], 3, 10.0)
  {
    steps := FinishThenRefund();
    RefundedDraft(Run(Opening(10.0), steps));
    OneMoreStep(Opening(10.0), steps, Timed(RequestPayout(1), 3));
    steps := steps + [Timed(RequestPayout(1), 3)];
  }

  lemma FinishThenRefund() returns (steps: seq<Timed>)
    ensures InOrder(Opening(10.0), steps)
    ensures Run(Opening(10.0), steps) == Books([Session(1, 1000, None)], [Refund(0, 400, 2)], [], [], [], 2, 10.0)
  {
    var o := Opening(10.0);
    steps := [];
    OneMoreStep(o, steps, Timed(Finish(1, 1000), 1));
    steps := steps + [Timed(Finish(1, 1000), 1)];
    OneMoreStep(o, steps, Timed(ApproveRefund(0, 400), 2));
    steps := steps + [Timed(ApproveRefund(0, 400), 2)];
  }

  lemma RefundedDraft(b: Books)
    requires b == Books([Session(1, 1000, None)], [Refund(0, 400, 2)], [], [], [], 2, 10.0)
    ensures Draft(b, 1, 3) == Payout(1, 0, 3, 600, 60, 540, Requested) && Draft(b.(clock := 3), 1, 3) == Draft(b, 1, 3)
    ensures Claim(b.sessions, 1, 0) == [Session(1, 1000, Some(0))]
  {
    assert b.sessions[..0] == [] && b.refunds[..0] == [];
    assert UnsettledSum(b.sessions, 1) == 1000 && RefundsIn(b.refunds, b.sessions, 1, 0, 3) == 400;
    assert FeeOf(600, 10.0) == 60;
  }

  /**
   The payout is cancelled between the summary's second statement and its third: with no top-up at
   all it shows 9.00 where 5.40 is left, and the top-up may take it.
   */
  lemma OverstatedRun() returns (steps: seq<Timed>)
    ensures InOrder(Opening(10.0), steps)
    ensures var b := Run(Opening(10.0), steps);
            |b.pending| == 1 && AvailablePool(b, 1, b.clock) == 540 && MayCommit(b, 0, 900)
  {
    var before := RefundedAndRequested();
    var b := Run(Opening(10.0), before);
    RunKeepsInv(Opening(10.0), before);
    steps := LandedIsRun(Opening(10.0), before, 0, 0, 2);
    LandedReads(b, 0, 0, 2, 5);
    OverstatedPool(b);
  }

  lemma OverstatedPool(b: Books)
    requires b == Books([Session(1, 1000, Some(0))], [Refund(0, 400, 2)], [],
                        [Payout(1, 0, 3, 600, 60, 540, Requested)], [Holding(4, 1, Nothing)], 5, 10.0)
    ensures PoolAcross(b, 0, 2, 5) == 900 && PoolAcross(b, 0, 0, 5) == 540
  {
    assert b.sessions[..0] == [] && b.refunds[..0] == [];
    assert UnsettledSum(b.sessions, 1) == 0 && OwnedSum(b.sessions, 0) == 1000;
    assert RefundsIn(b.refunds, b.sessions, 1, 0, 5) == 400 && RefundsIn(b.refunds, b.sessions, 1, 3, 5) == 0;
    assert FeeOf(600, 10.0) == 60 && FeeOf(1000, 10.0) == 100;
  }

  lemma {:induction false} TopupsSplit(topups: seq<Topup>, tenant: int, from: int, mid: int, to: int)
    requires from <= mid <= to
    ensures TopupsIn(topups, tenant, from, to)
         == TopupsIn(topups, tenant, from, mid) + TopupsIn(topups, tenant, mid, to)
  {
    if topups != [] {
      TopupsSplit(topups[..|topups| - 1], tenant, from, mid, to);
    }
  }
}
