/**
 Forward-only repricing of running sessions (backend/services/pricing.py): a session keeps the
 instant until which its rate is known to hold, telemetry frames before that instant resolve
 nothing, and operator edits expire it for the whole tenant.
 */
module Repricing {
  import opened Money
  import opened Tariffs
  import opened Rates
  import opened Billing
  import opened MaxRate

  predicate Due(s: Accrual, at: int) {
    s.validUntil.Some? && at >= s.validUntil.value
  }

  /** The row a session is created with. */
  function StartRow(b: Basis, at: int): Accrual {
    var w := ResolveRateWindow(b, at);
    Accrual(Some(w.rate), Some(0), Some(0.0), w.until)
  }

  function Reprice(s: Accrual, b: Basis, at: int, energy: real, envRate: Price): Accrual {
    if !Due(s, at) then s else
    var w := ResolveRateWindow(b, at);
    if s.rate != Some(w.rate) then CloseOut(s, w.rate, energy, w.until, envRate)
    else s.(validUntil := w.until)
  }

  // --------------------------------------------------------------- the row class

  class ChargingSession {
    const tenant: int
    const plug: Plug
    var active: bool
    var energyKwh: real
    var rateCoinsPerKwh: Option<Price>
    var settledCostCoins: Option<int>
    var rateSegmentStartKwh: Option<real>
    var rateValidUntil: Option<int>

    constructor Start(tenant: int, plug: Plug, basis: Basis, at: int)
      ensures Row() == StartRow(basis, at) && active && energyKwh == 0.0
      ensures this.tenant == tenant && this.plug == plug
    {
      var w := ResolveRateWindow(basis, at);
      this.tenant, this.plug, active, energyKwh := tenant, plug, true, 0.0;
      rateCoinsPerKwh, settledCostCoins := Some(w.rate), Some(0);
      rateSegmentStartKwh, rateValidUntil := Some(0.0), w.until;
    }

    function Row(): Accrual
      reads this
    {
      Accrual(rateCoinsPerKwh, settledCostCoins, rateSegmentStartKwh, rateValidUntil)
    }

    method CloseOutSegment(newRate: Price, atEnergy: real, validUntil: Option<int>, envRate: Price)
      modifies this
      ensures Row() == CloseOut(old(Row()), newRate, atEnergy, validUntil, envRate)
      ensures energyKwh == old(energyKwh) && active == old(active)
    {
      if rateSegmentStartKwh.None? {
        settledCostCoins := Some(0);
        rateSegmentStartKwh := Some(0.0);
      }
      var settled := if settledCostCoins.Some? then settledCostCoins.value else 0;
      var rate := if rateCoinsPerKwh.Some? then rateCoinsPerKwh.value else envRate;
      var accrued := EnergyCost(Above(atEnergy, rateSegmentStartKwh.value), rate);
      settledCostCoins := Some(ToMoney((settled + accrued) as real));
      rateSegmentStartKwh := Some(atEnergy);
      rateCoinsPerKwh := Some(newRate);
      rateValidUntil := validUntil;
    }

    /** Returns the new rate and boundary when the rate really changed. */
    method RepriceIfDue(db: Tables, at: int) returns (changed: Option<RateWindow>)
      modifies this
      ensures Row() == Reprice(old(Row()), BasisOf(db, plug), at, energyKwh, db.envRate)
      ensures energyKwh == old(energyKwh) && active == old(active)
      ensures changed.Some? <==> Due(old(Row()), at) && old(rateCoinsPerKwh) != Some(RateAt(BasisOf(db, plug), at))
      ensures changed.Some? ==> changed.value == ResolveRateWindow(BasisOf(db, plug), at)
    {
      if rateValidUntil.None? {
        return None;
      }
      if at < rateValidUntil.value {
        return None;
      }
      var w := ResolveRateWindow(BasisOf(db, plug), at);
      if rateCoinsPerKwh != Some(w.rate) {
        CloseOutSegment(w.rate, energyKwh, w.until, db.envRate);
        return Some(w);
      }
      rateValidUntil := w.until;
      changed := None;
    }
  }

  /** After an edit, every active session of the tenant is due at once and no other row is touched. */
  method MarkTenantSessions(rows: seq<ChargingSession>, tenant: int, now: int)
    modifies rows
    ensures forall s :: s in rows ==> s.energyKwh == old(s.energyKwh) && s.active == old(s.active)
    ensures forall s :: s in rows ==>
              s.Row() == if s.active && s.tenant == tenant then old(s.Row()).(validUntil := Some(now)) else old(s.Row())
  {
    for i := 0 to |rows|
      invariant forall s :: s in rows ==> s.energyKwh == old(s.energyKwh) && s.active == old(s.active)
      invariant forall s :: s in rows ==>
                  || s.Row() == old(s.Row())
                  || (s.active && s.tenant == tenant && s.Row() == old(s.Row()).(validUntil := Some(now)))
      invariant forall s :: s in rows[..i] && s.active && s.tenant == tenant ==>
                  s.Row() == old(s.Row()).(validUntil := Some(now))
    {
      if rows[i].active && rows[i].tenant == tenant {
        rows[i].rateValidUntil := Some(now);
      }
    }
  }

  // ------------------------------------------------------------------ the cache

  /** A running session, the basis its plug is priced by, and the latest event's instant. */
  datatype Live = Live(row: Accrual, energy: real, basis: Basis, clock: int)

  datatype Event =
    | Frame(at: int, kwh: real)                      // telemetry, or the reaper's sweep with no new energy
    | Edit(at: int, basis: Basis, marked: bool)      // pricing changed; `marked` if the tenant was expired

  function Step(w: Live, e: Event, envRate: Price): Live {
    match e
    case Frame(at, kwh) =>
      var energy := if kwh > w.energy then kwh else w.energy;
      Live(Reprice(w.row, w.basis, at, energy, envRate), energy, w.basis, at)
    case Edit(at, basis, marked) =>
      Live(if marked then w.row.(validUntil := Some(at)) else w.row, w.energy, basis, at)
  }

  function Run(w: Live, events: seq<Event>, envRate: Price): Live {
    if events == [] then w else Step(Run(w, events[..|events| - 1], envRate), events[|events| - 1], envRate)
  }

  predicate InOrder(w: Live, events: seq<Event>, envRate: Price) {
    events == [] ||
    (var rest, e := events[..|events| - 1], events[|events| - 1];
     InOrder(w, rest, envRate) && Run(w, rest, envRate).clock <= e.at && (e.Edit? ==> BasisInRange(e.basis)))
  }

  /** The cached rate is right at every later instant at which a frame would not resolve it again. */
  ghost predicate InSync(w: Live) {
    && BasisInRange(w.basis)
    && forall t :: w.clock <= t && !Due(w.row, t) ==> w.row.rate == Some(RateAt(w.basis, t))
  }

  lemma StartIsInSync(b: Basis, at: int)
    requires BasisInRange(b)
    ensures InSync(Live(StartRow(b, at), 0.0, b, at))
  {
    forall t | at <= t && !Due(StartRow(b, at), t)
      ensures RateAt(b, t) == RateAt(b, at)
    {
      ResolutionStaysRight(b, at, t);
    }
  }

  lemma FrameStaysInSync(w: Live, e: Event, envRate: Price)
    requires InSync(w) && e.Frame? && w.clock <= e.at
    ensures InSync(Step(w, e, envRate))
    ensures Step(w, e, envRate).row.rate == Some(RateAt(w.basis, e.at))
  {
    if Due(w.row, e.at) {
      var after := Step(w, e, envRate);
      forall t | e.at <= t && !Due(after.row, t)
        ensures RateAt(w.basis, t) == RateAt(w.basis, e.at)
      {
        ResolutionStaysRight(w.basis, e.at, t);
      }
    }
  }

  ghost predicate AllMarked(events: seq<Event>) {
    forall e :: e in events && e.Edit? ==> e.marked
  }

  /**
   Over any run of frames and marked edits, every frame leaves the session at the very rate a
   fresh resolution at that frame would give, although most frames resolve nothing; and when no
   boundary is kept the rate can never change again.
   */
  lemma {:induction false} CacheNeverStale(w: Live, events: seq<Event>, envRate: Price)
    requires InSync(w) && InOrder(w, events, envRate) && AllMarked(events)
    ensures var after := Run(w, events, envRate);
            && InSync(after)
            && (events != [] && events[|events| - 1].Frame? ==>
                 after.row.rate == Some(RateAt(after.basis, after.clock)))
            && (after.row.validUntil.None? ==>
                  forall t :: after.clock <= t ==> RateAt(after.basis, t) == RateAt(after.basis, after.clock))
  {
    if events != [] {
      var rest, e := events[..|events| - 1], events[|events| - 1];
      CacheNeverStale(w, rest, envRate);
      if e.Frame? {
        FrameStaysInSync(Run(w, rest, envRate), e, envRate);
      }
    }
    var after := Run(w, events, envRate);
    if after.row.validUntil.None? {
      assert !Due(after.row, after.clock);
    }
  }

  /** A session committed on the basis it was resolved on is never stale. */
  lemma StartedSessionNeverStale(b: Basis, at: int, events: seq<Event>, envRate: Price)
    requires BasisInRange(b)
    requires InOrder(Live(StartRow(b, at), 0.0, b, at), events, envRate) && AllMarked(events)
    ensures var after := Run(Live(StartRow(b, at), 0.0, b, at), events, envRate);
            && InSync(after)
            && (events != [] && events[|events| - 1].Frame? ==>
                 after.row.rate == Some(RateAt(after.basis, after.clock)))
  {
    StartIsInSync(b, at);
    CacheNeverStale(Live(StartRow(b, at), 0.0, b, at), events, envRate);
  }

  // ------------------------------------------------------ a start is two steps

  /** A session that is never due keeps its row over every run of frames. */
  lemma {:induction false} NeverDueNeverRepriced(w: Live, frames: seq<Event>, envRate: Price)
    requires w.row.validUntil.None? && forall e :: e in frames ==> e.Frame?
    ensures Run(w, frames, envRate).row == w.row
  {
    if frames != [] {
      NeverDueNeverRepriced(w, frames[..|frames| - 1], envRate);
    }
  }

  /** The basis after edits that come while a start has resolved its rate and not yet committed its row. */
  function BasisAfter(b: Basis, edits: seq<Event>): Basis {
    if edits == [] then b else
    var last := edits[|edits| - 1];
    if last.Edit? then last.basis else BasisAfter(b, edits[..|edits| - 1])
  }

  /** The session as committed at `at`: no edit since `resolvedAt` saw its row, marked or not. */
  function Committed(b: Basis, resolvedAt: int, edits: seq<Event>, at: int): Live {
    Live(StartRow(b, resolvedAt), 0.0, BasisAfter(b, edits), at)
  }

  /**
   A start that resolves at `resolvedAt` and commits at `at` is in sync exactly when, until its row
   is next due, the basis then in force charges what the one it resolved does: when nothing was
   edited between, when it is due at once, or when the rates agree.
   */
  lemma CommittedInSyncIff(b: Basis, resolvedAt: int, edits: seq<Event>, at: int)
    requires BasisInRange(b) && BasisInRange(BasisAfter(b, edits)) && resolvedAt <= at
    ensures var w := Committed(b, resolvedAt, edits, at);
            && (InSync(w) <==> forall t :: at <= t && !Due(w.row, t) ==> RateAt(w.basis, t) == RateAt(b, t))
            && ((forall e :: e in edits ==> !e.Edit?) ==> InSync(w))
            && (Due(w.row, at) ==> InSync(w))
  {
    var w := Committed(b, resolvedAt, edits, at);
    forall t | at <= t && !Due(w.row, t) ensures w.row.rate == Some(RateAt(b, t)) {
      ResolutionStaysRight(b, resolvedAt, t);
    }
    if forall e :: e in edits ==> !e.Edit? {
      NoEditNoChange(b, edits);
    }
  }

  lemma {:induction false} NoEditNoChange(b: Basis, edits: seq<Event>)
    requires forall e :: e in edits ==> !e.Edit?
    ensures BasisAfter(b, edits) == b
  {
    if edits != [] {
      assert edits[|edits| - 1] in edits;
      NoEditNoChange(b, edits[..|edits| - 1]);
    }
  }

  /** The first frame after such a commit has the right rate exactly when it is due or the rates agree there. */
  lemma FirstFrameIff(b: Basis, resolvedAt: int, edits: seq<Event>, at: int, frameAt: int, kwh: real, envRate: Price)
    requires BasisInRange(b) && resolvedAt <= at <= frameAt
    ensures var w := Committed(b, resolvedAt, edits, at);
            Step(w, Frame(frameAt, kwh), envRate).row.rate == Some(RateAt(w.basis, frameAt)) <==>
            Due(w.row, frameAt) || RateAt(b, frameAt) == RateAt(w.basis, frameAt)
  {
    if !Due(StartRow(b, resolvedAt), frameAt) {
      ResolutionStaysRight(b, resolvedAt, frameAt);
    }
  }

  /**
   A marked edit of a flat price between the two steps misses the row: the old price stays over
   every run of frames.
   */
  lemma EditCanMissTheStart(b: Basis, edited: Basis, resolvedAt: int, editAt: int, at: int, frames: seq<Event>,
      envRate: Price)
    requires b.OnTariff? && b.slots == [] && forall e :: e in frames ==> e.Frame?
    ensures var w := Committed(b, resolvedAt, [Edit(editAt, edited, true)], at);
            w.basis == edited && Run(w, frames, envRate).row.rate == Some(b.price)
  {
    NoSlotsNoBoundary(resolvedAt + b.zone);
    NeverDueNeverRepriced(Committed(b, resolvedAt, [Edit(editAt, edited, true)], at), frames, envRate);
  }

  /**
   Assigning a plug, group or tenant another tariff does not expire running sessions. The next
   frame then bills the new rate exactly when it was due anyway or both tariffs agree there.
   */
  lemma UnmarkedEditIff(w: Live, basis: Basis, editAt: int, at: int, kwh: real, envRate: Price)
    requires InSync(w) && BasisInRange(basis) && w.clock <= editAt <= at
    ensures var after := Run(w, [Edit(editAt, basis, false), Frame(at, kwh)], envRate);
            after.row.rate == Some(RateAt(basis, at)) <==> Due(w.row, at) || RateAt(w.basis, at) == RateAt(basis, at)
  {
    var events := [Edit(editAt, basis, false), Frame(at, kwh)];
    assert events[..1] == [events[0]] && events[..1][..0] == [];
    assert Run(w, events[..1], envRate) == Step(w, events[0], envRate);
  }

  /** And over an unmarked edit before them. */
  lemma {:induction false} FramesAfterEdit(w: Live, basis: Basis, editAt: int, frames: seq<Event>, envRate: Price)
    requires w.row.validUntil.None? && forall e :: e in frames ==> e.Frame?
    ensures Run(w, [Edit(editAt, basis, false)] + frames, envRate).row == w.row
    ensures Run(w, [Edit(editAt, basis, false)] + frames, envRate).basis == basis
  {
    var events := [Edit(editAt, basis, false)] + frames;
    if frames == [] {
      assert events[..0] == [];
    } else {
      assert events[..|events| - 1] == [Edit(editAt, basis, false)] + frames[..|frames| - 1];
      FramesAfterEdit(w, basis, editAt, frames[..|frames| - 1], envRate);
    }
  }

  /**
   A session on a flat tariff is never due, so after an assignment it keeps its old price over
   every run of frames, whatever the new basis charges.
   */
  lemma AssignmentCanGoUnnoticed(w: Live, basis: Basis, editAt: int, frames: seq<Event>, envRate: Price)
    requires w.basis.OnTariff? && w.basis.slots == [] && w.row == StartRow(w.basis, w.clock)
    requires forall e :: e in frames ==> e.Frame?
    ensures var after := Run(w, [Edit(editAt, basis, false)] + frames, envRate);
            after.basis == basis && after.row.rate == Some(w.basis.price)
  {
    NoSlotsNoBoundary(w.clock + w.basis.zone);
    FramesAfterEdit(w, basis, editAt, frames, envRate);
  }

  // --------------------------------------------------------------- order of closes

  function SegmentStart(row: Accrual): real {
    if row.start.Some? then row.start.value else 0.0
  }

  /** A session's energy never falls, so no frame of any run closes a segment below its start. */
  lemma {:induction false} ClosesNeverGoBack(w: Live, events: seq<Event>, envRate: Price)
    requires 0.0 <= w.energy && SegmentStart(w.row) <= w.energy
    ensures var after := Run(w, events, envRate);
            && w.energy <= after.energy
            && SegmentStart(after.row) <= after.energy
            && (0.0 <= SegmentStart(w.row) ==> SegmentStart(w.row) <= SegmentStart(after.row))
  {
    if events != [] {
      ClosesNeverGoBack(w, events[..|events| - 1], envRate);
    }
  }

  lemma NoSlotsNoBoundary(at: int)
    ensures SlotRateAndBound([], at) == Window(None, None)
  {
    NoBoundaryIffNoActiveSlot([], at);
  }
}
