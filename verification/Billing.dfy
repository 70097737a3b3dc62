/**
 Segmented, forward-only billing of one session (backend/services/billing.py).
 */
module Billing {
  import opened Money
  import opened Tariffs

  /** The billing columns of a session row; each may be NULL. */
  datatype Accrual = Accrual(rate: Option<Price>, settled: Option<int>, start: Option<real>, validUntil: Option<int>)

  function CurrentRate(s: Accrual, envRate: Price): Price {
    if s.rate.Some? then s.rate.value else envRate
  }

  function Above(energy: real, start: real): real {
    if energy > start then energy - start else 0.0
  }

  function SettledOf(s: Accrual): int {
    if s.settled.Some? then s.settled.value else 0
  }

  function SessionCost(s: Accrual, energy: real, envRate: Price): int {
    if s.start.None? then EnergyCost(energy, CurrentRate(s, envRate))
    else
      var open := EnergyCost(Above(energy, s.start.value), CurrentRate(s, envRate));
      ToMoney((SettledOf(s) + open) as real)
  }

  /** The columns once the open segment is closed at `atEnergy` and one at `newRate` is opened. */
  function CloseOut(s: Accrual, newRate: Price, atEnergy: real, validUntil: Option<int>, envRate: Price): Accrual {
    var settled := if s.start.None? then 0 else SettledOf(s);
    var start := if s.start.None? then 0.0 else s.start.value;
    var accrued := EnergyCost(Above(atEnergy, start), CurrentRate(s, envRate));
    Accrual(Some(newRate), Some(ToMoney((settled + accrued) as real)), Some(atEnergy), validUntil)
  }

  // -------------------------------------------------------- one close, one cost

  /** Closing a segment does not change what is owed at that energy, for legacy rows too. */
  lemma CloseKeepsCost(s: Accrual, newRate: Price, energy: real, validUntil: Option<int>, envRate: Price)
    requires energy >= 0.0
    ensures SessionCost(CloseOut(s, newRate, energy, validUntil, envRate), energy, envRate)
              == SessionCost(s, energy, envRate)
  {
    var settled := if s.start.None? then 0 else SettledOf(s);
    var start := if s.start.None? then 0.0 else s.start.value;
    var accrued := EnergyCost(Above(energy, start), CurrentRate(s, envRate));
    ToMoneyOfCents(settled + accrued);
    ToMoneyOfCents(Clamp(settled + accrued));
    ToMoneyError(Charge(Above(energy, start), CurrentRate(s, envRate)));
    assert Above(energy, energy) == 0.0;
    ZeroEnergyCostsNothing(newRate);
  }

  lemma ZeroEnergyCostsNothing(rate: Price)
    ensures EnergyCost(0.0, rate) == 0
  {
    assert Charge(0.0, rate) == 0.0;
  }

  /** More energy never costs less. */
  lemma CostMonotone(s: Accrual, energy: real, energy': real, envRate: Price)
    requires 0.0 <= energy <= energy'
    ensures SessionCost(s, energy, envRate) <= SessionCost(s, energy', envRate)
  {
    var rate := CurrentRate(s, envRate);
    if s.start.None? {
      EnergyCostMonotone(energy, energy', rate, rate);
    } else {
      var open, open' := Above(energy, s.start.value), Above(energy', s.start.value);
      EnergyCostMonotone(open, open', rate, rate);
      ToMoneyMonotone((SettledOf(s) + EnergyCost(open, rate)) as real,
        (SettledOf(s) + EnergyCost(open', rate)) as real);
    }
  }

  /**
   The energy billed by a close at `atEnergy` and a reading at `energy` after it is the energy above
   the segment's start exactly when the close is not below that start; below it, the helpers clamp
   the closing slice at zero but move the start back, and just that slice is billed again.
   */
  lemma CloseBillsOnceIff(start: real, atEnergy: real, energy: real)
    requires start <= energy && atEnergy <= energy
    ensures Above(atEnergy, start) + Above(energy, atEnergy) == Above(energy, start) <==> start <= atEnergy
    ensures atEnergy < start ==>
              Above(atEnergy, start) + Above(energy, atEnergy) == Above(energy, start) + (start - atEnergy)
  {
  }

  /** In coins: reclosing at 3 kWh a segment begun at 5 kWh bills two of them again. */
  lemma CloseBelowStartBillsTwice()
    ensures var s := Accrual(Some(1000), Some(5000), Some(5.0), None);
            var reclosed := CloseOut(s, 1000, 3.0, None, 0);
            SessionCost(s, 6.0, 0) == 6000 && SessionCost(reclosed, 6.0, 0) == 8000
  {
    var s := Accrual(Some(1000), Some(5000), Some(5.0), None);
    var reclosed := CloseOut(s, 1000, 3.0, None, 0);
    assert Above(3.0, 5.0) == 0.0;
    ZeroEnergyCostsNothing(1000);
    WholeCost(1.0, 1000, 1000);
    WholeCost(3.0, 1000, 3000);
    ToMoneyOfCents(5000);
    ToMoneyOfCents(6000);
    ToMoneyOfCents(8000);
  }

  lemma WholeCost(energy: real, rate: Price, cents: nat)
    requires cents <= MAX_MONEY && energy * rate as real == cents as real
    ensures EnergyCost(energy, rate) == cents
  {
    ToMoneyOfCents(cents);
  }

  // ------------------------------------------------------------- whole sessions

  /** A moment of a session: the energy read, and the segment close it triggers, if any. */
  datatype Tick = Tick(energy: real, close: Option<NewRate>)
  datatype NewRate = NewRate(rate: Price, validUntil: Option<int>)

  function Apply(s: Accrual, tick: Tick, envRate: Price): Accrual {
    if tick.close.None? then s
    else CloseOut(s, tick.close.value.rate, tick.energy, tick.close.value.validUntil, envRate)
  }

  /** The row after the ticks, oldest first. */
  function After(s: Accrual, ticks: seq<Tick>, envRate: Price): Accrual {
    if ticks == [] then s else Apply(After(s, ticks[..|ticks| - 1], envRate), ticks[|ticks| - 1], envRate)
  }

  function EnergyAfter(energy: real, ticks: seq<Tick>): real {
    if ticks == [] then energy else ticks[|ticks| - 1].energy
  }

  predicate NeverFalls(energy: real, ticks: seq<Tick>) {
    ticks == [] ||
    (NeverFalls(energy, ticks[..|ticks| - 1])
     && EnergyAfter(energy, ticks[..|ticks| - 1]) <= ticks[|ticks| - 1].energy)
  }

  /** The unrounded amount: every increment of energy times the rate in force when it was metered. */
  function ExactCharge(s: Accrual, energy: real, ticks: seq<Tick>, envRate: Price): real {
    if ticks == [] then 0.0 else
    var rest, tick := ticks[..|ticks| - 1], ticks[|ticks| - 1];
    ExactCharge(s, energy, rest, envRate)
      + Charge(tick.energy - EnergyAfter(energy, rest), CurrentRate(After(s, rest, envRate), envRate))
  }

  function Closes(ticks: seq<Tick>): nat {
    if ticks == [] then 0 else Closes(ticks[..|ticks| - 1]) + if ticks[|ticks| - 1].close.Some? then 1 else 0
  }

  /** A row at the start of its energy: freshly opened, or legacy with NULL segment columns. */
  predicate Opening(s: Accrual) {
    s.start.None? || (s.start == Some(0.0) && SettledOf(s) == 0)
  }

  /**
   `whole` is what the closed segments cost without the column ceiling, and differs from the exact
   charge `exact` so far, less the open segment, by at most half a cent per closed segment.
   */
  predicate Tracks(s: Accrual, energy: real, whole: int, exact: real, closes: nat, envRate: Price) {
    var start := if s.start.None? then 0.0 else s.start.value;
    var open := Charge(energy - start, CurrentRate(s, envRate));
    && 0.0 <= start <= energy
    && whole >= 0
    && (if s.start.None? then whole == 0 else SettledOf(s) == Clamp(whole))
    && -(closes as real) / 2.0 <= whole as real - (exact - open) <= closes as real / 2.0
  }

  lemma {:induction false} RunTracks(s: Accrual, ticks: seq<Tick>, envRate: Price) returns (whole: int)
    requires Opening(s) && NeverFalls(0.0, ticks)
    ensures Tracks(After(s, ticks, envRate), EnergyAfter(0.0, ticks), whole,
                   ExactCharge(s, 0.0, ticks, envRate), Closes(ticks), envRate)
  {
    if ticks == [] {
      whole := 0;
      assert Charge(0.0, CurrentRate(s, envRate)) == 0.0;
      ToMoneyOfCents(0);
    } else {
      var rest, tick := ticks[..|ticks| - 1], ticks[|ticks| - 1];
      whole := RunTracks(s, rest, envRate);
      var before, energy := After(s, rest, envRate), EnergyAfter(0.0, rest);
      var exact := ExactCharge(s, 0.0, rest, envRate);
      ReadingTracks(before, energy, tick.energy, whole, exact, Closes(rest), envRate);
      if tick.close.Some? {
        whole := CloseTracks(before, tick, whole, ExactCharge(s, 0.0, ticks, envRate), Closes(rest), envRate);
      }
    }
  }

  lemma ReadingTracks(s: Accrual, energy: real, energy': real, whole: int, exact: real, closes: nat, envRate: Price)
    requires Tracks(s, energy, whole, exact, closes, envRate) && energy <= energy'
    ensures Tracks(s, energy', whole, exact + Charge(energy' - energy, CurrentRate(s, envRate)), closes, envRate)
  {
    var start := if s.start.None? then 0.0 else s.start.value;
    ChargeSum(energy - start, energy' - energy, CurrentRate(s, envRate));
  }

  lemma CloseTracks(s: Accrual, tick: Tick, whole: int, exact: real, closes: nat, envRate: Price) returns (whole': int)
    requires tick.close.Some? && Tracks(s, tick.energy, whole, exact, closes, envRate)
    ensures Tracks(Apply(s, tick, envRate), tick.energy, whole', exact, closes + 1, envRate)
  {
    var start := if s.start.None? then 0.0 else s.start.value;
    var open := Charge(Above(tick.energy, start), CurrentRate(s, envRate));
    assert Above(tick.energy, start) == tick.energy - start;
    ChargeMonotone(0.0, tick.energy - start, CurrentRate(s, envRate), CurrentRate(s, envRate));
    whole' := whole + Round(open);
    RoundIsNearest(open, Round(open));
    ClampSum(whole, Round(open));
    ToMoneyOfCents(Clamp(whole) + Clamp(Round(open)));
    ToMoneyOfCents(Clamp(Round(open)));
    assert Charge(tick.energy - tick.energy, tick.close.value.rate) == 0.0;
  }

  /**
   Whatever segments a session went through, it owes the exact charge up to half a cent per
   segment, cut off only at the largest amount the column can hold.
   */
  lemma CostIsNearExact(s: Accrual, ticks: seq<Tick>, envRate: Price) returns (whole: int)
    requires Opening(s) && NeverFalls(0.0, ticks)
    ensures SessionCost(After(s, ticks, envRate), EnergyAfter(0.0, ticks), envRate) == Clamp(whole)
    ensures var exact := ExactCharge(s, 0.0, ticks, envRate);
            var segments := Closes(ticks) + 1;
            0 <= whole && -(segments as real) / 2.0 <= whole as real - exact <= segments as real / 2.0
  {
    var closed := RunTracks(s, ticks, envRate);
    var row, energy := After(s, ticks, envRate), EnergyAfter(0.0, ticks);
    whole := OpenSegment(row, energy, closed, ExactCharge(s, 0.0, ticks, envRate), Closes(ticks), envRate);
  }

  lemma OpenSegment(s: Accrual, energy: real, closed: int, exact: real, closes: nat,
      envRate: Price) returns (whole: int)
    requires Tracks(s, energy, closed, exact, closes, envRate)
    ensures SessionCost(s, energy, envRate) == Clamp(whole) && whole >= closed
    ensures var segments := closes + 1;
            -(segments as real) / 2.0 <= whole as real - exact <= segments as real / 2.0
  {
    var start := if s.start.None? then 0.0 else s.start.value;
    var open := Charge(energy - start, CurrentRate(s, envRate));
    assert Above(energy, start) == energy - start;
    ChargeMonotone(0.0, energy - start, CurrentRate(s, envRate), CurrentRate(s, envRate));
    whole := closed + Round(open);
    RoundIsNearest(open, Round(open));
    ClampSum(closed, Round(open));
    ToMoneyOfCents(Clamp(closed) + Clamp(Round(open)));
  }

  /** Over a whole session what is owed never goes down. */
  lemma {:induction false} CostNeverFalls(s: Accrual, ticks: seq<Tick>, n: nat, envRate: Price)
    requires NeverFalls(0.0, ticks) && n <= |ticks|
    ensures 0.0 <= EnergyAfter(0.0, ticks)
    ensures SessionCost(After(s, ticks[..n], envRate), EnergyAfter(0.0, ticks[..n]), envRate)
         <= SessionCost(After(s, ticks, envRate), EnergyAfter(0.0, ticks), envRate)
  {
    if n == |ticks| {
      assert ticks[..n] == ticks;
      if n > 0 {
        CostNeverFalls(s, ticks[..n - 1], n - 1, envRate);
      }
    } else {
      var rest, tick := ticks[..|ticks| - 1], ticks[|ticks| - 1];
      assert rest[..n] == ticks[..n];
      CostNeverFalls(s, rest, n, envRate);
      var row := After(s, rest, envRate);
      CostMonotone(row, EnergyAfter(0.0, rest), tick.energy, envRate);
      if tick.close.Some? {
        CloseKeepsCost(row, tick.close.value.rate, tick.energy, tick.close.value.validUntil, envRate);
      }
    }
  }
}
