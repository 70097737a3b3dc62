/**
 Authorization holds (backend/services/session_start.py, backend/routers/sessions.py
 update_session_limits, backend/services/wallet.py available_balance): how much a session
 reserves when it starts, what re-sizing does to it, and whether it covers the final bill.
 */
module Holds {
  import opened Money
  import opened Tariffs
  import opened Rates
  import opened Billing
  import opened MaxRate
  import opened Repricing

  // ------------------------------------------------- does the hold cover the bill?

  /** The billing moments of a run of telemetry frames. */
  function TickOf(w: Live, e: Event, envRate: Price): Tick
    requires e.Frame?
  {
    var after := Step(w, e, envRate);
    Tick(after.energy,
         if Due(w.row, e.at) && w.row.rate != Some(RateAt(w.basis, e.at))
         then Some(NewRate(RateAt(w.basis, e.at), ResolveRateWindow(w.basis, e.at).until)) else None)
  }

  ghost predicate OnlyFrames(events: seq<Event>) {
    forall e :: e in events ==> e.Frame?
  }

  function TicksOf(w: Live, events: seq<Event>, envRate: Price): seq<Tick>
    requires OnlyFrames(events)
  {
    if events == [] then [] else
    var rest, e := events[..|events| - 1], events[|events| - 1];
    TicksOf(w, rest, envRate) + [TickOf(Run(w, rest, envRate), e, envRate)]
  }

  /** Rows that differ at most in when they are next due. */
  predicate SameMoney(a: Accrual, b: Accrual) {
    a.rate == b.rate && a.settled == b.settled && a.start == b.start
  }

  /** One frame does to the rows what its tick does. */
  lemma TickBillsTheFrame(w: Live, s: Accrual, e: Event, envRate: Price)
    requires e.Frame? && SameMoney(w.row, s)
    ensures SameMoney(Step(w, e, envRate).row, Apply(s, TickOf(w, e, envRate), envRate))
    ensures Step(w, e, envRate).basis == w.basis
    ensures Step(w, e, envRate).energy == TickOf(w, e, envRate).energy >= w.energy
  {
  }

  lemma {:induction false} TicksBillTheRun(w: Live, events: seq<Event>, envRate: Price)
    requires OnlyFrames(events) && w.energy == 0.0
    ensures var ticks := TicksOf(w, events, envRate);
            && SameMoney(Run(w, events, envRate).row, After(w.row, ticks, envRate))
            && Run(w, events, envRate).energy == EnergyAfter(0.0, ticks)
            && Run(w, events, envRate).basis == w.basis
            && NeverFalls(0.0, ticks)
  {
    if events != [] {
      var rest, e := events[..|events| - 1], events[|events| - 1];
      TicksBillTheRun(w, rest, envRate);
      var ticks := TicksOf(w, events, envRate);
      assert ticks[..|ticks| - 1] == TicksOf(w, rest, envRate);
      assert e in events;
      TickBillsTheFrame(Run(w, rest, envRate), After(w.row, TicksOf(w, rest, envRate), envRate), e, envRate);
    }
  }

  /** No rate the ticks bill at exceeds `r`. */
  predicate RatesWithin(s: Accrual, ticks: seq<Tick>, r: Price, envRate: Price) {
    CurrentRate(s, envRate) <= r && forall t :: t in ticks && t.close.Some? ==> t.close.value.rate <= r
  }

  lemma {:induction false} ExactWithin(s: Accrual, ticks: seq<Tick>, r: Price, envRate: Price)
    requires RatesWithin(s, ticks, r, envRate) && NeverFalls(0.0, ticks)
    ensures CurrentRate(After(s, ticks, envRate), envRate) <= r
    ensures 0.0 <= EnergyAfter(0.0, ticks)
    ensures ExactCharge(s, 0.0, ticks, envRate) <= Charge(EnergyAfter(0.0, ticks), r)
  {
    if ticks == [] {
      assert Charge(0.0, r) == 0.0;
    } else {
      var rest, tick := ticks[..|ticks| - 1], ticks[|ticks| - 1];
      ExactWithin(s, rest, r, envRate);
      var before := EnergyAfter(0.0, rest);
      ChargeMonotone(tick.energy - before, tick.energy - before, CurrentRate(After(s, rest, envRate), envRate), r);
      ChargeSum(before, tick.energy - before, r);
    }
  }

  /**
   Billing within `maxKwh` at rates up to `r` costs at most that product, plus one cent per two
   closes, rounded up.
   */
  lemma CostWithin(s: Accrual, ticks: seq<Tick>, maxKwh: real, r: Price, envRate: Price)
    requires Opening(s) && NeverFalls(0.0, ticks) && RatesWithin(s, ticks, r, envRate)
    requires EnergyAfter(0.0, ticks) <= maxKwh
    ensures SessionCost(After(s, ticks, envRate), EnergyAfter(0.0, ticks), envRate)
         <= EnergyCost(maxKwh, r) + (Closes(ticks) + 1) / 2
  {
    var whole := CostIsNearExact(s, ticks, envRate);
    ExactWithin(s, ticks, r, envRate);
    var most := Charge(maxKwh, r);
    ChargeMonotone(EnergyAfter(0.0, ticks), maxKwh, r, r);
    RoundIsNearest(most, Round(most));
    SlackArithmetic(whole, Round(most), most, Closes(ticks));
  }

  lemma SlackArithmetic(whole: int, rounded: int, most: real, closes: nat)
    requires whole as real <= most + (closes + 1) as real / 2.0
    requires most < rounded as real + 0.5 || most == rounded as real - 0.5
    ensures whole <= rounded + (closes + 1) / 2
  {
    assert 2 * whole < 2 * rounded + closes + 2 by {
      assert 2.0 * whole as real < 2.0 * rounded as real + closes as real + 2.0;
    }
  }

  /**
   A session whose frames all fall inside the window its hold was sized for, or at any time when
   that was a day or more, and which stays within its energy limit, owes at most the sized amount
   plus one cent for every two segment
   closes, rounded up: the part of the hold that rounding each segment can overrun.
   */
  lemma HoldCoversSession(b: Basis, startAt: int, duration: int, events: seq<Event>, maxKwh: real, r: Price,
      envRate: Price)
    requires IsMaxRate(b, startAt, duration, r) && 0 < duration
    requires OnlyFrames(events) && forall e :: e in events ==> duration >= DAY || startAt <= e.at < startAt + duration
    requires Run(Live(StartRow(b, startAt), 0.0, b, startAt), events, envRate).energy <= maxKwh
    ensures var w := Live(StartRow(b, startAt), 0.0, b, startAt);
            var after := Run(w, events, envRate);
            SessionCost(after.row, after.energy, envRate)
              <= EnergyCost(maxKwh, r) + (Closes(TicksOf(w, events, envRate)) + 1) / 2
  {
    var w := Live(StartRow(b, startAt), 0.0, b, startAt);
    var ticks := TicksOf(w, events, envRate);
    TicksBillTheRun(w, events, envRate);
    MaxRateBoundsWindow(b, startAt, duration, r, startAt);
    TickRatesWithin(w, events, startAt, duration, r, envRate);
    CostWithin(w.row, ticks, maxKwh, r, envRate);
  }

  lemma {:induction false} TickRatesWithin(w: Live, events: seq<Event>, startAt: int, duration: int, r: Price,
      envRate: Price)
    requires IsMaxRate(w.basis, startAt, duration, r) && w.energy == 0.0
    requires OnlyFrames(events) && forall e :: e in events ==> duration >= DAY || startAt <= e.at < startAt + duration
    ensures forall t :: t in TicksOf(w, events, envRate) && t.close.Some? ==> t.close.value.rate <= r
  {
    if events != [] {
      var rest, e := events[..|events| - 1], events[|events| - 1];
      TickRatesWithin(w, rest, startAt, duration, r, envRate);
      TicksBillTheRun(w, rest, envRate);
      if duration >= DAY {
        DayLongBoundsForever(w.basis, startAt, duration, r, e.at);
      } else {
        MaxRateBoundsWindow(w.basis, startAt, duration, r, e.at);
      }
    }
  }

  /** The slack is real: two half-cent segments cost 2 cents where the hold for their energy is 1. */
  lemma RoundingCanOverrunTheHold()
    ensures var s := Accrual(Some(4), Some(0), Some(0.0), None);
            var ticks := [Tick(0.125, Some(NewRate(5, None))), Tick(0.225, None)];
            && RatesWithin(s, ticks, 5, 0)
            && SessionCost(After(s, ticks, 0), EnergyAfter(0.0, ticks), 0) == 2
            && EnergyCost(0.225, 5) == 1
  {
    var s := Accrual(Some(4), Some(0), Some(0.0), None);
    var first, second := Tick(0.125, Some(NewRate(5, None))), Tick(0.225, None);
    var ticks := [first, second];
    assert ticks[..1] == [first] && [first][..0] == [];
    assert Above(0.125, 0.0) == 0.125 && Above(0.225, 0.125) == 0.1;
    assert Charge(0.125, 4) == 0.5 && Charge(0.1, 5) == 0.5 && Charge(0.225, 5) == 1.125;
    assert Round(0.5) == 1 && Round(1.125) == 1;
    assert After(s, [first], 0) == Apply(s, first, 0);
    assert After(s, ticks, 0) == Apply(s, first, 0);
  }

  // ------------------------------------------------ holds of one user, over a run

  const MIN_START_BALANCE: int := 5_000

  /** An ACTIVE session; a NULL limit means none was set. */
  datatype Session = Session(row: Accrual, energy: real, hold: int, maxKwh: Option<real>, maxDuration: Option<int>)

  datatype Account = Account(balance: int, sessions: seq<Session>, envRate: Price)

  function Held(sessions: seq<Session>): int {
    if sessions == [] then 0 else Held(sessions[..|sessions| - 1]) + sessions[|sessions| - 1].hold
  }

  function Available(a: Account): int {
    ToMoney((a.balance - Held(a.sessions)) as real)
  }

  function Accrued(a: Account, s: Session): int {
    SessionCost(s.row, s.energy, a.envRate)
  }

  function Min(x: int, y: int): int { if x <= y then x else y }

  function Max(x: int, y: int): int { if x >= y then x else y }

  /** What this session may reserve: what is free, plus what it holds already. */
  function Headroom(a: Account, s: Session): int {
    Available(a) + s.hold
  }

  function ResizedHold(a: Account, s: Session, maxKwh: real, maxRate: Price): int {
    var resized := ToMoney(Min(Headroom(a, s), EnergyCost(maxKwh, maxRate)) as real);
    ToMoney(Max(Accrued(a, s), resized) as real)
  }

  datatype Action =
    | Start(row: Accrual, maxKwh: Option<real>, maxDuration: Option<int>, maxRate: Price)
    | Meter(i: nat, energy: real)
    | Expire(i: nat, at: int)
    | Resolve(i: nat, basis: Basis, at: int)
    | Patch(i: nat, newKwh: Option<real>, newDuration: Option<int>, maxRate: Price)
    | Finish(i: nat)
    | Credit(amount: int)
    | Debit(amount: int)

  datatype Outcome = Done(account: Account) | Refused

  function StartSession(a: Account, row: Accrual, maxKwh: Option<real>, maxDuration: Option<int>,
      maxRate: Price): Outcome {
    var available := Available(a);
    if available < MIN_START_BALANCE then Refused
    else
      var hold := if maxKwh.None? then ToMoney(available as real)
                  else ToMoney(Min(available, EnergyCost(maxKwh.value, maxRate)) as real);
      Done(a.(sessions := a.sessions + [Session(row, 0.0, hold, maxKwh, maxDuration)]))
  }

  function PatchLimits(a: Account, i: nat, newKwh: Option<real>, newDuration: Option<int>, maxRate: Price): Outcome {
    if newKwh.None? && newDuration.None? then Refused
    else if i >= |a.sessions| then Refused
    else if newKwh.Some? && newKwh.value < a.sessions[i].energy then Refused
    else
      var s := a.sessions[i];
      var s' := s.(maxKwh := if newKwh.Some? then newKwh else s.maxKwh,
                   maxDuration := if newDuration.Some? then newDuration else s.maxDuration);
      Done(a.(sessions := a.sessions[i :=
        if s'.maxKwh.None? then s' else s'.(hold := ResizedHold(a, s, s'.maxKwh.value, maxRate))]))
  }

  /** The debit requested when a session stops is capped by its hold, and again by the wallet. */
  function FinishSession(a: Account, i: nat): Outcome {
    if i >= |a.sessions| then Refused
    else
      var s := a.sessions[i];
      var debit := Min(Min(Accrued(a, s), s.hold), a.balance);
      Done(a.(balance := a.balance - debit, sessions := a.sessions[..i] + a.sessions[i + 1..]))
  }

  function Act(a: Account, action: Action): Outcome {
    match action
    case Start(row, maxKwh, maxDuration, maxRate) => StartSession(a, row, maxKwh, maxDuration, maxRate)
    case Meter(i, energy) =>
      if i >= |a.sessions| then Refused
      else
        var s := a.sessions[i];
        Done(a.(sessions := a.sessions[i := s.(energy := if energy > s.energy then energy else s.energy)]))
    case Expire(i, at) =>
      // an operator's edit of the prices marks the session due
      if i >= |a.sessions| then Refused
      else Done(a.(sessions := a.sessions[i := a.sessions[i].(row := a.sessions[i].row.(validUntil := Some(at)))]))
    case Resolve(i, basis, at) =>
      if i >= |a.sessions| then Refused
      else
        var s := a.sessions[i];
        Done(a.(sessions := a.sessions[i := s.(row := Reprice(s.row, basis, at, s.energy, a.envRate))]))
    case Patch(i, newKwh, newDuration, maxRate) => PatchLimits(a, i, newKwh, newDuration, maxRate)
    case Finish(i) => FinishSession(a, i)
    case Credit(amount) =>
      // a balance beyond the column is a database error, so nothing is written
      if amount < 0 || a.balance + amount > MAX_MONEY then Refused else Done(a.(balance := a.balance + amount))
    case Debit(amount) =>
      // a refund clawed back or an admin debit: clamped to the balance, blind to the holds
      if amount < 0 then Refused else Done(a.(balance := a.balance - Min(amount, a.balance)))
  }

  /** Every hold is at least zero, and together they fit in the wallet. */
  ghost predicate Backed(a: Account) {
    && 0 <= Held(a.sessions) <= a.balance <= MAX_MONEY
    && forall s :: s in a.sessions ==> SoundSession(s)
  }

  predicate SoundSession(s: Session) {
    0 <= s.hold && 0.0 <= s.energy && (s.maxKwh.Some? ==> 0.0 <= s.maxKwh.value) && 0 <= SettledOf(s.row)
  }

  lemma {:induction false} HeldUpdate(sessions: seq<Session>, i: nat, s: Session)
    requires i < |sessions|
    ensures Held(sessions[i := s]) == Held(sessions) - sessions[i].hold + s.hold
  {
    var n := |sessions| - 1;
    if i == n {
      assert sessions[i := s][..n] == sessions[..n];
    } else {
      assert sessions[i := s][..n] == sessions[..n][i := s];
      HeldUpdate(sessions[..n], i, s);
    }
  }

  lemma {:induction false} HeldRemove(sessions: seq<Session>, i: nat)
    requires i < |sessions|
    ensures Held(sessions[..i] + sessions[i + 1..]) == Held(sessions) - sessions[i].hold
  {
    var n := |sessions| - 1;
    var removed := sessions[..i] + sessions[i + 1..];
    if i == n {
      assert removed == sessions[..n];
    } else {
      assert removed[..n - 1] == sessions[..n][..i] + sessions[..n][i + 1..];
      HeldRemove(sessions[..n], i);
    }
  }

  lemma {:induction false} HeldAtLeast(sessions: seq<Session>, i: nat)
    requires i < |sessions| && forall s :: s in sessions ==> 0 <= s.hold
    ensures sessions[i].hold <= Held(sessions) && 0 <= Held(sessions)
  {
    var rest := sessions[..|sessions| - 1];
    if i < |rest| {
      HeldAtLeast(rest, i);
    } else if rest != [] {
      HeldAtLeast(rest, 0);
    }
  }

  /**
   Re-sizing never leaves the hold below what is already owed. It keeps the holds within the
   wallet exactly when what is owed still fits beside the other sessions' holds.
   */
  lemma PatchIff(a: Account, i: nat, newKwh: Option<real>, newDuration: Option<int>, maxRate: Price)
    requires Backed(a) && PatchLimits(a, i, newKwh, newDuration, maxRate).Done?
    requires newKwh.Some? || a.sessions[i].maxKwh.Some?
    requires newKwh.Some? ==> 0.0 <= newKwh.value
    ensures var a' := PatchLimits(a, i, newKwh, newDuration, maxRate).account;
            var s := a.sessions[i];
            && Accrued(a, s) <= a'.sessions[i].hold
            && (Backed(a') <==> Accrued(a, s) <= Headroom(a, s))
            && (Accrued(a, s) <= s.hold ==> Backed(a'))
  {
    var s := a.sessions[i];
    var s' := PatchLimits(a, i, newKwh, newDuration, maxRate).account.sessions[i];
    HeldUpdate(a.sessions, i, s');
    HeldAtLeast(a.sessions, i);
    ToMoneyOfCents(a.balance - Held(a.sessions));
    assert s in a.sessions;
    var cost := EnergyCost(s'.maxKwh.value, maxRate);
    EnergyCostMonotone(0.0, s'.maxKwh.value, maxRate, maxRate);
    CostBounds(s.row, s.energy, a.envRate);
    ToMoneyOfCents(Min(Headroom(a, s), cost));
    ToMoneyOfCents(Max(Accrued(a, s), Min(Headroom(a, s), cost)));
    ToMoneyError(Charge(s'.maxKwh.value, maxRate));
    var a' := PatchLimits(a, i, newKwh, newDuration, maxRate).account;
    forall x | x in a'.sessions
      ensures SoundSession(x)
    {
      var k :| 0 <= k < |a'.sessions| && a'.sessions[k] == x;
      assert k != i ==> x == a.sessions[k] && x in a.sessions;
    }
  }

  /** One re-sizing that breaks it: 80.00 owed on a hold of 30.00, beside a hold of 50.00, in a wallet of 100.00. */
  lemma PatchCanUnback()
    ensures var s := Session(Accrual(Some(500), Some(8_000), Some(10.0), None), 10.0, 3_000, Some(30.0), None);
            var other := Session(Accrual(Some(500), Some(0), Some(0.0), None), 0.0, 5_000, None, None);
            var a := Account(10_000, [s, other], 0);
            && Backed(a) && PatchLimits(a, 0, Some(20.0), None, 500).Done?
            && !Backed(PatchLimits(a, 0, Some(20.0), None, 500).account)
  {
    var s := Session(Accrual(Some(500), Some(8_000), Some(10.0), None), 10.0, 3_000, Some(30.0), None);
    var other := Session(Accrual(Some(500), Some(0), Some(0.0), None), 0.0, 5_000, None, None);
    var a := Account(10_000, [s, other], 0);
    assert [s, other][..1] == [s] && [s][..0] == [];
    assert Held([s]) == 3_000;
    assert Held(a.sessions) == 8_000;
    forall x | x in a.sessions ensures SoundSession(x) {
      assert x == s || x == other;
    }
    ZeroEnergyCostsNothing(500);
    ToMoneyOfCents(8_000);
    ToMoneyOfCents(2_000);
    assert PatchLimits(a, 0, Some(20.0), None, 500).Done?;
    PatchIff(a, 0, Some(20.0), None, 500);
  }

  lemma CostBounds(row: Accrual, energy: real, envRate: Price)
    ensures -MAX_MONEY <= SessionCost(row, energy, envRate) <= MAX_MONEY
  {
    if row.start.Some? {
      ToMoneyError((SettledOf(row) + EnergyCost(Above(energy, row.start.value), CurrentRate(row, envRate))) as real);
    } else {
      ToMoneyError(Charge(energy, CurrentRate(row, envRate)));
    }
  }

  lemma AccruedNonNegative(a: Account, s: Session)
    requires SoundSession(s)
    ensures 0 <= Accrued(a, s)
  {
    var rate := CurrentRate(s.row, a.envRate);
    if s.row.start.None? {
      EnergyCostMonotone(0.0, s.energy, rate, rate);
    } else {
      var open := Above(s.energy, s.row.start.value);
      EnergyCostMonotone(0.0, open, rate, rate);
      ToMoneyMonotone(0.0, (SettledOf(s.row) + EnergyCost(open, rate)) as real);
    }
  }

  lemma StartStaysBacked(a: Account, row: Accrual, maxKwh: Option<real>, maxDuration: Option<int>, maxRate: Price)
    requires Backed(a) && 0 <= SettledOf(row) && (maxKwh.Some? ==> 0.0 <= maxKwh.value)
    requires StartSession(a, row, maxKwh, maxDuration, maxRate).Done?
    ensures Backed(StartSession(a, row, maxKwh, maxDuration, maxRate).account)
  {
    var a' := StartSession(a, row, maxKwh, maxDuration, maxRate).account;
    assert a'.sessions[..|a.sessions|] == a.sessions;
    StartHoldFits(a, maxKwh, maxRate);
  }

  /**
   What a start makes: refused exactly when less than 50.00 is free; else one more session, metered
   at nothing, that holds everything free when it has no limit or a dearer one, and otherwise the
   price of its limit at the dearest rate, to half a cent. Nothing else changes.
   */
  lemma StartReserves(a: Account, row: Accrual, maxKwh: Option<real>, maxDuration: Option<int>, maxRate: Price)
    requires Backed(a) && (maxKwh.Some? ==> 0.0 <= maxKwh.value)
    ensures var o, free := StartSession(a, row, maxKwh, maxDuration, maxRate), a.balance - Held(a.sessions);
            && (o.Refused? <==> free < 5_000)
            && (o.Done? ==>
                  var n, a' := |a.sessions|, o.account;
                  && a'.balance == a.balance && a'.envRate == a.envRate && |a'.sessions| == n + 1
                  && a'.sessions[..n] == a.sessions
                  && var s := a'.sessions[n];
                     && s.row == row && s.energy == 0.0 && s.maxKwh == maxKwh && s.maxDuration == maxDuration
                     && (maxKwh.None? || maxKwh.value * maxRate as real >= free as real ==> s.hold == free)
                     && (maxKwh.Some? && maxKwh.value * maxRate as real <= free as real ==>
                           -0.5 <= s.hold as real - maxKwh.value * maxRate as real <= 0.5))
  {
    StartHoldFits(a, maxKwh, maxRate);
    if maxKwh.Some? {
      var price := Charge(maxKwh.value, maxRate);
      var free := a.balance - Held(a.sessions);
      ToMoneyError(price);
      ToMoneyOfCents(Min(free, EnergyCost(maxKwh.value, maxRate)));
      if price <= free as real {
        ToMoneyMonotone(price, free as real);
        ToMoneyOfCents(free);
      } else {
        ToMoneyMonotone(free as real, price);
        ToMoneyOfCents(free);
      }
    }
    ToMoneyOfCents(a.balance - Held(a.sessions));
  }

  /** The started session after its frames, in the account as it then stands. */
  function AfterFrames(a: Account, b: Basis, startAt: int, events: seq<Event>): Account
    requires a.sessions != []
  {
    var n := |a.sessions| - 1;
    var end := Run(Live(StartRow(b, startAt), 0.0, b, startAt), events, a.envRate);
    a.(sessions := a.sessions[n := a.sessions[n].(row := end.row, energy := end.energy)])
  }

  /**
   A start whose limit could be paid for at the dearest rate of its window: whatever frames follow
   inside window and limit, stopping debits the whole bill, up to a cent for every two closes.
   */
  lemma StartPaysTheBill(a: Account, b: Basis, startAt: int, duration: int, maxKwh: real, maxDuration: Option<int>,
                         r: Price, events: seq<Event>)
    requires Backed(a) && 0.0 <= maxKwh && IsMaxRate(b, startAt, duration, r) && 0 < duration
    requires EnergyCost(maxKwh, r) <= a.balance - Held(a.sessions)
    requires StartSession(a, StartRow(b, startAt), Some(maxKwh), maxDuration, r).Done?
    requires OnlyFrames(events) && forall e :: e in events ==> duration >= DAY || startAt <= e.at < startAt + duration
    requires Run(Live(StartRow(b, startAt), 0.0, b, startAt), events, a.envRate).energy <= maxKwh
    ensures var w := Live(StartRow(b, startAt), 0.0, b, startAt);
            var end := Run(w, events, a.envRate);
            var bill := SessionCost(end.row, end.energy, a.envRate);
            var before := AfterFrames(StartSession(a, StartRow(b, startAt), Some(maxKwh), maxDuration, r).account,
                                      b, startAt, events);
            var paid := before.balance - FinishSession(before, |a.sessions|).account.balance;
            && before.balance == a.balance
            && bill - (Closes(TicksOf(w, events, a.envRate)) + 1) / 2 <= paid <= bill
  {
    var w := Live(StartRow(b, startAt), 0.0, b, startAt);
    var started := StartSession(a, w.row, Some(maxKwh), maxDuration, r).account;
    var before := AfterFrames(started, b, startAt, events);
    StartReserves(a, w.row, Some(maxKwh), maxDuration, r);
    StartHoldFits(a, Some(maxKwh), r);
    StartStaysBacked(a, w.row, Some(maxKwh), maxDuration, r);
    FramesStaySound(b, startAt, events, a.envRate);
    assert started.sessions[|a.sessions|] in started.sessions;
    ReplaceStaysBacked(started, |a.sessions|, before.sessions[|a.sessions|]);
    FinishStaysBacked(before, |a.sessions|);
    HoldCoversSession(b, startAt, duration, events, maxKwh, r, a.envRate);
    EnergyCostMonotone(0.0, maxKwh, r, r);
    ToMoneyOfCents(EnergyCost(maxKwh, r));
  }

  /** Readings and repricings settle no negative coins and meter no negative energy. */
  lemma {:induction false} FramesStaySound(b: Basis, startAt: int, events: seq<Event>, envRate: Price)
    ensures var end := Run(Live(StartRow(b, startAt), 0.0, b, startAt), events, envRate);
            0 <= SettledOf(end.row) && 0.0 <= end.energy
  {
    if events != [] {
      var rest, last := events[..|events| - 1], events[|events| - 1];
      FramesStaySound(b, startAt, rest, envRate);
      if last.Frame? {
        var w := Run(Live(StartRow(b, startAt), 0.0, b, startAt), rest, envRate);
        var window := ResolveRateWindow(w.basis, last.at);
        CloseSettlesNoLess(w.row, window.rate, Step(w, last, envRate).energy, window.until, envRate);
      }
    }
  }

  /** A reading reaches the session it is of, and no other. */
  lemma MeterReads(a: Account, i: nat, energy: real)
    requires i < |a.sessions|
    ensures var o, was := Act(a, Meter(i, energy)), a.sessions[i].energy;
            && o.Done? && |o.account.sessions| == |a.sessions| && o.account.balance == a.balance
            && o.account.sessions[i].energy >= energy && o.account.sessions[i].energy >= was
            && (o.account.sessions[i].energy == energy || o.account.sessions[i].energy == was)
            && o.account.sessions[i].row == a.sessions[i].row && o.account.sessions[i].hold == a.sessions[i].hold
            && forall j :: 0 <= j < |a.sessions| && j != i ==> o.account.sessions[j] == a.sessions[j]
  {
  }

  /** The hold a start reserves, between nothing and what is free. */
  lemma StartHoldFits(a: Account, maxKwh: Option<real>, maxRate: Price)
    requires 0 <= Held(a.sessions) <= a.balance <= MAX_MONEY && (maxKwh.Some? ==> 0.0 <= maxKwh.value)
    ensures var available := Available(a);
            var hold := if maxKwh.None? then ToMoney(available as real)
                        else ToMoney(Min(available, EnergyCost(maxKwh.value, maxRate)) as real);
            available == a.balance - Held(a.sessions) && 0 <= hold <= available
  {
    ToMoneyOfCents(a.balance - Held(a.sessions));
    if maxKwh.Some? {
      EnergyCostMonotone(0.0, maxKwh.value, maxRate, maxRate);
      ToMoneyOfCents(Min(Available(a), EnergyCost(maxKwh.value, maxRate)));
    }
  }

  /** Stopping debits exactly what is owed up to the hold: the wallet is never what falls short. */
  lemma FinishStaysBacked(a: Account, i: nat)
    requires Backed(a) && i < |a.sessions|
    ensures var a' := FinishSession(a, i).account;
            Backed(a') && a.balance - a'.balance == Min(Accrued(a, a.sessions[i]), a.sessions[i].hold)
  {
    HeldAtLeast(a.sessions, i);
    HeldRemove(a.sessions, i);
    assert a.sessions[i] in a.sessions;
    AccruedNonNegative(a, a.sessions[i]);
    var left := a.sessions[..i] + a.sessions[i + 1..];
    assert forall s :: s in left ==> s in a.sessions;
    if left != [] {
      HeldAtLeast(left, 0);
    }
  }

  /** A debit keeps the holds backed exactly when it leaves them covered, or there are none. */
  lemma DebitKeepsIff(a: Account, amount: nat)
    requires Backed(a)
    ensures Backed(Act(a, Debit(amount)).account) <==> amount <= a.balance - Held(a.sessions) || Held(a.sessions) == 0
  {
  }

  /**
   Inputs the routes admit, patches of sessions whose cost still fits beside the other holds, and
   debits that leave the holds covered: the last two are what PatchIff and DebitKeepsIff show is needed.
   */
  ghost predicate Admitted(a: Account, action: Action) {
    match action
    case Start(row, maxKwh, _, _) => 0 <= SettledOf(row) && (maxKwh.Some? ==> 0.0 <= maxKwh.value)
    case Patch(i, newKwh, _, _) =>
      (newKwh.Some? ==> 0.0 <= newKwh.value)
      && (i < |a.sessions| && (newKwh.Some? || a.sessions[i].maxKwh.Some?) ==>
           Accrued(a, a.sessions[i]) <= Headroom(a, a.sessions[i]))
    case Debit(amount) => amount <= a.balance - Held(a.sessions) || Held(a.sessions) == 0
    case _ => true
  }

  function RunActions(a: Account, actions: seq<Action>): Account {
    if actions == [] then a else
    var before := RunActions(a, actions[..|actions| - 1]);
    var o := Act(before, actions[|actions| - 1]);
    if o.Done? then o.account else before
  }

  ghost predicate AllAdmitted(a: Account, actions: seq<Action>) {
    actions == [] ||
    (var rest := actions[..|actions| - 1];
     AllAdmitted(a, rest) && Admitted(RunActions(a, rest), actions[|actions| - 1]))
  }

  /** Repricing a session in place leaves what it owes and what it holds as they were. */
  lemma RepriceOwesTheSame(a: Account, i: nat, basis: Basis, at: int)
    requires i < |a.sessions| && SoundSession(a.sessions[i])
    ensures var s' := Act(a, Resolve(i, basis, at)).account.sessions[i];
            SoundSession(s') && s'.hold == a.sessions[i].hold && Accrued(a, s') == Accrued(a, a.sessions[i])
  {
    var s := a.sessions[i];
    var w := ResolveRateWindow(basis, at);
    CloseKeepsCost(s.row, w.rate, s.energy, w.until, a.envRate);
    CloseSettlesNoLess(s.row, w.rate, s.energy, w.until, a.envRate);
  }

  lemma CloseSettlesNoLess(row: Accrual, rate: Price, energy: real, until: Option<int>, envRate: Price)
    requires 0 <= SettledOf(row) && 0.0 <= energy
    ensures 0 <= SettledOf(CloseOut(row, rate, energy, until, envRate))
  {
    var start := if row.start.None? then 0.0 else row.start.value;
    EnergyCostMonotone(0.0, Above(energy, start), CurrentRate(row, envRate), CurrentRate(row, envRate));
  }

  /**
   Over any run of starts, readings, edits, repricings, limit changes, stops, credits and debits so
   admitted the holds stay within the wallet.
   */
  lemma {:induction false} HoldsStayBacked(a: Account, actions: seq<Action>)
    requires Backed(a) && AllAdmitted(a, actions)
    ensures Backed(RunActions(a, actions))
  {
    if actions != [] {
      var rest, action := actions[..|actions| - 1], actions[|actions| - 1];
      HoldsStayBacked(a, rest);
      var before := RunActions(a, rest);
      if Act(before, action).Done? {
        ActStaysBacked(before, action);
      }
    }
  }

  lemma ActStaysBacked(a: Account, action: Action)
    requires Backed(a) && Admitted(a, action) && Act(a, action).Done?
    ensures Backed(Act(a, action).account)
  {
    match action
    case Start(row, maxKwh, maxDuration, maxRate) => StartStaysBacked(a, row, maxKwh, maxDuration, maxRate);
    case Meter(i, energy) =>
      var s := a.sessions[i];
      assert s in a.sessions;
      ReplaceStaysBacked(a, i, s.(energy := if energy > s.energy then energy else s.energy));
    case Expire(i, at) =>
      assert a.sessions[i] in a.sessions;
      ReplaceStaysBacked(a, i, Act(a, action).account.sessions[i]);
    case Resolve(i, basis, at) =>
      assert a.sessions[i] in a.sessions;
      RepriceOwesTheSame(a, i, basis, at);
      ReplaceStaysBacked(a, i, Act(a, action).account.sessions[i]);
    case Patch(i, newKwh, newDuration, maxRate) =>
      assert a.sessions[i] in a.sessions;
      if newKwh.Some? || a.sessions[i].maxKwh.Some? {
        PatchIff(a, i, newKwh, newDuration, maxRate);
      } else {
        ReplaceStaysBacked(a, i, Act(a, action).account.sessions[i]);
      }
    case Finish(i) => FinishStaysBacked(a, i);
    case Credit(_) =>
    case Debit(amount) => DebitKeepsIff(a, amount);
  }

  lemma ReplaceStaysBacked(a: Account, i: nat, s: Session)
    requires Backed(a) && i < |a.sessions| && SoundSession(s) && s.hold == a.sessions[i].hold
    ensures Backed(a.(sessions := a.sessions[i := s]))
  {
    HeldUpdate(a.sessions, i, s);
  }

  /**
   A patch is refused exactly when it sends nothing, names no session, or sends less than is metered
   already. Otherwise it sets what it sends, sizes the hold if there is a limit, and changes no more.
   */
  lemma PatchIs(a: Account, i: nat, newKwh: Option<real>, newDuration: Option<int>, maxRate: Price)
    ensures var o := PatchLimits(a, i, newKwh, newDuration, maxRate);
            && (o.Refused? <==>
                || (newKwh.None? && newDuration.None?) || i >= |a.sessions|
                || (newKwh.Some? && newKwh.value < a.sessions[i].energy))
            && (o.Done? ==>
                  var s, s' := a.sessions[i], o.account.sessions[i];
                  && o.account == a.(sessions := a.sessions[i := s'])
                  && s' == s.(hold := s'.hold, maxKwh := s'.maxKwh, maxDuration := s'.maxDuration)
                  && s'.maxKwh == (if newKwh.Some? then newKwh else s.maxKwh)
                  && s'.maxDuration == (if newDuration.Some? then newDuration else s.maxDuration)
                  && (s'.maxKwh.None? ==> s'.hold == s.hold))
  {
  }

  /**
   A re-sized hold is the price of the limit at the dearest rate, to half a cent, but no more than is
   free with the session's own hold, and never less than what is owed.
   */
  lemma PatchSizes(a: Account, i: nat, newKwh: Option<real>, newDuration: Option<int>, maxRate: Price,
      maxKwh: real, hold: int)
    requires Backed(a) && PatchLimits(a, i, newKwh, newDuration, maxRate).Done? && 0.0 <= maxKwh
    requires var s' := PatchLimits(a, i, newKwh, newDuration, maxRate).account.sessions[i];
             s'.maxKwh == Some(maxKwh) && s'.hold == hold
    ensures var owed, free := Accrued(a, a.sessions[i]), a.balance - Held(a.sessions) + a.sessions[i].hold;
            var price := maxKwh * maxRate as real;
            && owed <= hold
            && (price >= free as real && owed <= free ==> hold == free)
            && (price <= free as real ==> hold == owed || -0.5 <= hold as real - price <= 0.5)
            && (hold == owed || hold <= free)
  {
    PatchedHold(a, i, newKwh, newDuration, maxRate);
    PatchSizesTo(a, i, maxKwh, maxRate);
  }

  lemma PatchedHold(a: Account, i: nat, newKwh: Option<real>, newDuration: Option<int>, maxRate: Price)
    requires PatchLimits(a, i, newKwh, newDuration, maxRate).Done?
    ensures var s' := PatchLimits(a, i, newKwh, newDuration, maxRate).account.sessions[i];
            s'.maxKwh.Some? ==>
              && s'.maxKwh.value == (if newKwh.Some? then newKwh.value else a.sessions[i].maxKwh.value)
              && s'.hold == ResizedHold(a, a.sessions[i], s'.maxKwh.value, maxRate)
  {
  }

  lemma PatchSizesTo(a: Account, i: nat, maxKwh: real, maxRate: Price)
    requires Backed(a) && i < |a.sessions| && 0.0 <= maxKwh
    ensures var hold := ResizedHold(a, a.sessions[i], maxKwh, maxRate);
            var owed, free := Accrued(a, a.sessions[i]), a.balance - Held(a.sessions) + a.sessions[i].hold;
            var price := maxKwh * maxRate as real;
            && owed <= hold
            && (price >= free as real && owed <= free ==> hold == free)
            && (price <= free as real ==> hold == owed || -0.5 <= hold as real - price <= 0.5)
            && (hold == owed || hold <= free)
  {
    ResizedIs(a, i, maxKwh, maxRate);
    HeadroomIs(a, i);
    SizedHold(Accrued(a, a.sessions[i]), Headroom(a, a.sessions[i]), maxKwh, maxRate);
  }

  lemma HeadroomIs(a: Account, i: nat)
    requires Backed(a) && i < |a.sessions|
    ensures Headroom(a, a.sessions[i]) == a.balance - Held(a.sessions) + a.sessions[i].hold
    ensures 0 <= Headroom(a, a.sessions[i]) <= MAX_MONEY
  {
    ToMoneyOfCents(a.balance - Held(a.sessions));
    HeadroomBounds(a, i);
  }

  lemma SizedHold(owed: int, free: int, maxKwh: real, maxRate: Price)
    requires 0 <= free <= MAX_MONEY && 0.0 <= maxKwh
    ensures var hold := Max(owed, Min(free, EnergyCost(maxKwh, maxRate)));
            var price := Charge(maxKwh, maxRate);
            && owed <= hold && (hold == owed || hold <= free)
            && (price >= free as real && owed <= free ==> hold == free)
            && (price <= free as real ==> hold == owed || -0.5 <= hold as real - price <= 0.5)
  {
    var price := Charge(maxKwh, maxRate);
    ChargeMonotone(0.0, maxKwh, maxRate, maxRate);
    ToMoneyError(price);
    ToMoneyOfCents(free);
    if price <= free as real {
      ToMoneyMonotone(price, free as real);
    } else {
      ToMoneyMonotone(free as real, price);
    }
  }

  /** Stopping removes the session and leaves the others as they were. */
  lemma FinishRemoves(a: Account, i: nat)
    requires i < |a.sessions|
    ensures var o := FinishSession(a, i);
            o.Done? && o.account.sessions == a.sessions[..i] + a.sessions[i + 1..] && o.account.envRate == a.envRate
  {
  }

  /** A credit adds to the balance unless that would pass what the column holds; a debit takes what there is of it. */
  lemma MoneyMoves(a: Account, amount: nat)
    requires 0 <= a.balance <= 999_999_999_999
    ensures Act(a, Credit(amount)) ==
            if a.balance + amount <= 999_999_999_999 then Done(a.(balance := a.balance + amount)) else Refused
    ensures Act(a, Debit(amount)) == Done(a.(balance := if amount <= a.balance then a.balance - amount else 0))
  {
  }

  /** A session that is due is repriced to the rate of its basis at that instant; one that is not keeps its row. */
  lemma ResolveResolves(a: Account, i: nat, basis: Basis, at: int)
    requires i < |a.sessions|
    ensures var s, o := a.sessions[i], Act(a, Resolve(i, basis, at));
            && o.Done? && o.account == a.(sessions := a.sessions[i := s.(row := o.account.sessions[i].row)])
            && (Due(s.row, at) ==> o.account.sessions[i].row.rate == Some(RateAt(basis, at)))
            && (!Due(s.row, at) ==> o.account == a)
            && !Due(Act(a, Expire(i, at)).account.sessions[i].row, at - 1)
            && Due(Act(a, Expire(i, at)).account.sessions[i].row, at)
  {
  }

  // ------------------------------------- what a re-sized hold does not cover

  /** The bill if every remaining kWh up to the limit costs `maxRate`. */
  function WorstBill(a: Account, s: Session, maxKwh: real, maxRate: Price): int {
    Accrued(a, s) + EnergyCost(Above(maxKwh, s.energy), maxRate)
  }

  lemma HeadroomBounds(a: Account, i: nat)
    requires Backed(a) && i < |a.sessions|
    ensures 0 <= Headroom(a, a.sessions[i]) <= MAX_MONEY
  {
    HeldAtLeast(a.sessions, i);
    ToMoneyOfCents(a.balance - Held(a.sessions));
  }

  /** The price of a limit against the price of its two parts: a cent more, a cent less, or the same. */
  lemma LimitSplits(energy: real, rest: real, rate: Price)
    requires 0.0 <= energy && 0.0 <= rest
    ensures EnergyCost(energy + rest, rate)
         == Clamp(Round(Charge(energy, rate)) + Round(Charge(rest, rate))
                  + Carry(Charge(energy, rate), Charge(rest, rate)))
    ensures 0 <= Round(Charge(energy, rate)) && 0 <= Round(Charge(rest, rate))
    ensures Carry(Charge(energy, rate), Charge(rest, rate)) == -1 ==>
              1 <= Round(Charge(energy, rate)) && 1 <= Round(Charge(rest, rate))
  {
    ChargeSum(energy, rest, rate);
    ChargeMonotone(0.0, energy, rate, rate);
    ChargeMonotone(0.0, rest, rate, rate);
    RoundSum(Charge(energy, rate), Charge(rest, rate));
    FloorHalf(Charge(energy, rate));
    FloorHalf(Charge(rest, rate));
  }

  /**
   A re-sized hold covers the worst bill exactly when nothing more can be owed, or that bill fits
   the headroom and what is owed so far is no more than the energy so far would cost at the dearest
   rate still to come, up to the cent by which rounding the two parts apart can differ.
   */
  lemma ResizedHoldCoversIff(a: Account, i: nat, maxKwh: real, maxRate: Price)
    requires Backed(a) && i < |a.sessions| && a.sessions[i].energy <= maxKwh
    ensures var s := a.sessions[i];
            var rest := maxKwh - s.energy;
            WorstBill(a, s, maxKwh, maxRate) <= ResizedHold(a, s, maxKwh, maxRate) <==>
            || EnergyCost(rest, maxRate) == 0
            || (&& WorstBill(a, s, maxKwh, maxRate) <= Headroom(a, s)
                && Accrued(a, s) <= EnergyCost(s.energy, maxRate)
                     + Carry(Charge(s.energy, maxRate), Charge(rest, maxRate)))
  {
    var s := a.sessions[i];
    HeadroomBounds(a, i);
    AccruedNonNegative(a, s);
    CostBounds(s.row, s.energy, a.envRate);
    LimitSplits(s.energy, maxKwh - s.energy, maxRate);
    ResizedIs(a, i, maxKwh, maxRate);
  }

  /** Between bounds a money column keeps, re-sizing is the larger of what is owed and what may be reserved. */
  lemma ResizedIs(a: Account, i: nat, maxKwh: real, maxRate: Price)
    requires Backed(a) && i < |a.sessions| && 0.0 <= maxKwh
    ensures var s := a.sessions[i];
            ResizedHold(a, s, maxKwh, maxRate) == Max(Accrued(a, s), Min(Headroom(a, s), EnergyCost(maxKwh, maxRate)))
  {
    var s := a.sessions[i];
    HeadroomBounds(a, i);
    AccruedNonNegative(a, s);
    CostBounds(s.row, s.energy, a.envRate);
    EnergyCostMonotone(0.0, maxKwh, maxRate, maxRate);
    ToMoneyError(Charge(maxKwh, maxRate));
    ToMoneyOfCents(Min(Headroom(a, s), EnergyCost(maxKwh, maxRate)));
    ToMoneyOfCents(Max(Accrued(a, s), Min(Headroom(a, s), EnergyCost(maxKwh, maxRate))));
  }

  /** 10 kWh at 50.00, then a fall to 5.00 and the limit set to 20 kWh: the hold shrinks to what is owed already. */
  lemma PriceDropUncoversTheRest()
    ensures var s := Session(Accrual(Some(500), Some(50_000), Some(10.0), None), 10.0, 100_000, Some(30.0), None);
            var a := Account(200_000, [s], 0);
            && Accrued(a, s) == 50_000
            && PatchLimits(a, 0, Some(20.0), None, 500).account.sessions[0].hold == 50_000
            && WorstBill(a, s, 20.0, 500) == 55_000
  {
    var s := Session(Accrual(Some(500), Some(50_000), Some(10.0), None), 10.0, 100_000, Some(30.0), None);
    var a := Account(200_000, [s], 0);
    assert a.sessions[..0] == [];
    ToMoneyOfCents(100_000);
    ZeroEnergyCostsNothing(500);
    ToMoneyOfCents(50_000);
    WholeCost(20.0, 500, 10_000);
    WholeCost(10.0, 500, 5_000);
    ToMoneyOfCents(10_000);
  }

  // --------------------------------------------------------------- the route, in place

  class Driver {
    var balance: int
    var sessions: seq<Session>
    const envRate: Price

    constructor (balance: int, envRate: Price)
      ensures State() == Account(balance, [], envRate)
    {
      this.balance, this.sessions, this.envRate := balance, [], envRate;
    }

    function State(): Account
      reads this
    {
      Account(balance, sessions, envRate)
    }

    method UpdateSessionLimits(i: nat, newKwh: Option<real>, newDuration: Option<int>,
        maxRate: Price) returns (updated: bool)
      modifies this`sessions
      ensures var o := PatchLimits(old(State()), i, newKwh, newDuration, maxRate);
              updated == o.Done? && State() == if updated then o.account else old(State())
    {
      if (newKwh.None? && newDuration.None?) || i >= |sessions| {
        return false;
      }
      var s := sessions[i];
      if newKwh.Some? && newKwh.value < s.energy {
        return false;
      }
      var maxKwh := s.maxKwh;
      if newDuration.Some? {
        s := s.(maxDuration := newDuration);
      }
      if newKwh.Some? {
        maxKwh := newKwh;
        s := s.(maxKwh := newKwh);
      }
      if maxKwh.Some? {
        var headroom := Available(State()) + s.hold;
        var accruedFloor := SessionCost(s.row, s.energy, envRate);
        var resized := ToMoney(Min(headroom, EnergyCost(maxKwh.value, maxRate)) as real);
        s := s.(hold := ToMoney(Max(accruedFloor, resized) as real));
      }
      sessions := sessions[i := s];
      updated := true;
    }
  }
}
