/**
 What a session owes, said of the readings themselves (backend/services/mqtt/telemetry.py,
 backend/services/billing.py, backend/services/pricing.py): telemetry readings and price edits on
 one side, the bill on the other, and nothing of how the row got there.
 */
module Metering {
  import opened Money
  import opened Tariffs
  import opened Rates
  import opened Billing
  import opened Repricing

  /** The largest reading so far, and no less than the opening one. */
  function HighWater(opening: real, events: seq<Event>): real {
    if events == [] then opening else
    var before, last := HighWater(opening, events[..|events| - 1]), events[|events| - 1];
    if last.Frame? && last.kwh > before then last.kwh else before
  }

  /** The rate at the last reading, or at the start: the one energy is metered at until the next reading. */
  function LastRate(b: Basis, at: int, events: seq<Event>): Price {
    if events == [] then RateAt(b, at) else
    var rest, last := events[..|events| - 1], events[|events| - 1];
    if last.Frame? then RateAt(BasisAfter(b, rest), last.at) else LastRate(b, at, rest)
  }

  /** Every rise of the readings times the rate it was metered at, unrounded. */
  function ReadCharge(b: Basis, at: int, events: seq<Event>): real {
    if events == [] then 0.0 else
    var rest := events[..|events| - 1];
    ReadCharge(b, at, rest) + Charge(HighWater(0.0, events) - HighWater(0.0, rest), LastRate(b, at, rest))
  }

  /** How often that rate changed from one reading to the next. */
  function RateChanges(b: Basis, at: int, events: seq<Event>): nat {
    if events == [] then 0 else
    var rest := events[..|events| - 1];
    RateChanges(b, at, rest) + if LastRate(b, at, events) != LastRate(b, at, rest) then 1 else 0
  }

  /** Every reading counts: the energy reaches each of them, and is the opening one or one of them. */
  lemma {:induction false} EveryReadingCounts(w: Live, events: seq<Event>, envRate: Price)
    ensures var energy := Run(w, events, envRate).energy;
            && w.energy <= energy
            && (forall e :: e in events && e.Frame? ==> e.kwh <= energy)
            && (energy == w.energy || exists e :: e in events && e.Frame? && e.kwh == energy)
            && energy == HighWater(w.energy, events)
  {
    if events != [] {
      var rest, last := events[..|events| - 1], events[|events| - 1];
      EveryReadingCounts(w, rest, envRate);
      assert forall e :: e in events <==> e in rest || e == last;
    }
  }

  /** The rate a run leaves is the one in force at its last reading. */
  lemma {:induction false} ReadingsDecideRate(b: Basis, at: int, events: seq<Event>, envRate: Price)
    requires BasisInRange(b)
    requires InOrder(Live(StartRow(b, at), 0.0, b, at), events, envRate) && AllMarked(events)
    ensures var after := Run(Live(StartRow(b, at), 0.0, b, at), events, envRate);
            InSync(after) && after.basis == BasisAfter(b, events) && after.row.rate == Some(LastRate(b, at, events))
  {
    if events == [] {
      StartIsInSync(b, at);
    } else {
      var rest, last := events[..|events| - 1], events[|events| - 1];
      assert forall e :: e in rest ==> e in events;
      ReadingsDecideRate(b, at, rest, envRate);
      if last.Frame? {
        FrameStaysInSync(Run(Live(StartRow(b, at), 0.0, b, at), rest, envRate), last, envRate);
      }
    }
  }

  lemma {:induction false} ReadingsTrack(b: Basis, at: int, events: seq<Event>, envRate: Price) returns (whole: int)
    requires BasisInRange(b)
    requires InOrder(Live(StartRow(b, at), 0.0, b, at), events, envRate) && AllMarked(events)
    ensures Tracks(Run(Live(StartRow(b, at), 0.0, b, at), events, envRate).row, HighWater(0.0, events), whole,
                   ReadCharge(b, at, events), RateChanges(b, at, events), envRate)
  {
    var start := Live(StartRow(b, at), 0.0, b, at);
    if events == [] {
      whole := 0;
      assert Charge(0.0, RateAt(b, at)) == 0.0;
    } else {
      var rest, last := events[..|events| - 1], events[|events| - 1];
      assert forall e :: e in rest ==> e in events;
      whole := ReadingsTrack(b, at, rest, envRate);
      ReadingsDecideRate(b, at, rest, envRate);
      EveryReadingCounts(start, rest, envRate);
      whole := EventTracks(b, at, events, Run(start, rest, envRate), whole, envRate);
    }
  }

  lemma EventTracks(b: Basis, at: int, events: seq<Event>, w: Live, whole: int, envRate: Price) returns (whole': int)
    requires events != [] && w.clock <= events[|events| - 1].at
    requires var rest := events[..|events| - 1];
             && InSync(w) && w.basis == BasisAfter(b, rest) && w.row.rate == Some(LastRate(b, at, rest))
             && w.energy == HighWater(0.0, rest)
             && Tracks(w.row, w.energy, whole, ReadCharge(b, at, rest), RateChanges(b, at, rest), envRate)
    ensures Tracks(Step(w, events[|events| - 1], envRate).row, HighWater(0.0, events), whole',
                   ReadCharge(b, at, events), RateChanges(b, at, events), envRate)
  {
    var rest, last := events[..|events| - 1], events[|events| - 1];
    if last.Frame? {
      whole' := FrameTracks(w, last, whole, ReadCharge(b, at, rest), RateChanges(b, at, rest), envRate);
    } else {
      whole' := whole;
      assert Charge(0.0, LastRate(b, at, rest)) == 0.0;
    }
  }

  /** One frame: the rise is charged at the rate before it, and a change of rate closes a segment. */
  lemma FrameTracks(w: Live, e: Event, whole: int, exact: real, closes: nat, envRate: Price) returns (whole': int)
    requires e.Frame? && InSync(w) && w.clock <= e.at && w.row.rate.Some?
    requires Tracks(w.row, w.energy, whole, exact, closes, envRate)
    ensures var after := Step(w, e, envRate);
            var energy := if e.kwh > w.energy then e.kwh else w.energy;
            Tracks(after.row, energy, whole', exact + Charge(energy - w.energy, w.row.rate.value),
                   closes + if RateAt(w.basis, e.at) != w.row.rate.value then 1 else 0, envRate)
  {
    var energy := if e.kwh > w.energy then e.kwh else w.energy;
    var metered := exact + Charge(energy - w.energy, w.row.rate.value);
    whole' := whole;
    ReadingTracks(w.row, w.energy, energy, whole, exact, closes, envRate);
    if Due(w.row, e.at) && w.row.rate != Some(RateAt(w.basis, e.at)) {
      var window := ResolveRateWindow(w.basis, e.at);
      whole' := CloseTracks(w.row, Tick(energy, Some(NewRate(window.rate, window.until))), whole, metered, closes,
        envRate);
    }
  }

  /**
   After any run of readings and marked edits a session owes, to half a cent for each rate it was
   metered at, every rise of its readings times the rate at the reading before it.
   */
  lemma OwedIsNearReadings(b: Basis, at: int, events: seq<Event>, envRate: Price) returns (whole: int)
    requires BasisInRange(b)
    requires InOrder(Live(StartRow(b, at), 0.0, b, at), events, envRate) && AllMarked(events)
    ensures var after := Run(Live(StartRow(b, at), 0.0, b, at), events, envRate);
            SessionCost(after.row, after.energy, envRate) == Clamp(whole)
    ensures var exact, segments := ReadCharge(b, at, events), RateChanges(b, at, events) + 1;
            0 <= whole && -(segments as real) / 2.0 <= whole as real - exact <= segments as real / 2.0
  {
    var closed := ReadingsTrack(b, at, events, envRate);
    EveryReadingCounts(Live(StartRow(b, at), 0.0, b, at), events, envRate);
    var after := Run(Live(StartRow(b, at), 0.0, b, at), events, envRate);
    whole := OpenSegment(after.row, after.energy, closed, ReadCharge(b, at, events), RateChanges(b, at, events),
      envRate);
  }

  /** A flat price: the bill is the largest reading at that price, to half a cent. */
  lemma FlatBill(price: Price, zone: int, at: int, frames: seq<Event>, envRate: Price)
    requires forall e :: e in frames ==> e.Frame?
    requires InOrder(Live(StartRow(OnTariff(price, [], zone), at), 0.0, OnTariff(price, [], zone), at), frames, envRate)
    ensures var b := OnTariff(price, [], zone);
            var after := Run(Live(StartRow(b, at), 0.0, b, at), frames, envRate);
            SessionCost(after.row, after.energy, envRate) == EnergyCost(HighWater(0.0, frames), price)
  {
    var b := OnTariff(price, [], zone);
    NoSlotsNoBoundary(at + zone);
    NeverDueNeverRepriced(Live(StartRow(b, at), 0.0, b, at), frames, envRate);
    EveryReadingCounts(Live(StartRow(b, at), 0.0, b, at), frames, envRate);
    ToMoneyError(Charge(HighWater(0.0, frames), price));
    ToMoneyOfCents(EnergyCost(HighWater(0.0, frames), price));
  }

  /** 10 kWh read on a flat 5.00 owe 50.00. */
  lemma TenKwhOweFifty()
    ensures var b := OnTariff(500, [], 0);
            var after := Run(Live(StartRow(b, 0), 0.0, b, 0), [Frame(60, 10.0)], 0);
            SessionCost(after.row, after.energy, 0) == 5_000
  {
    var b, frames := OnTariff(500, [], 0), [Frame(60, 10.0)];
    assert frames[..0] == [];
    FlatBill(500, 0, 0, frames, 0);
    assert HighWater(0.0, frames) == 10.0;
    WholeCost(10.0, 500, 5_000);
  }
}
