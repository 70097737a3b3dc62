/**
 The edge agent (agent/amphive_agent/core.py): the reset-tolerant energy meter, the local
 watchdog, and the poll and command steps that mutate a plug's stored session.

 Energy is in kWh and instants in seconds, both real.
 */
module Agent {
  import opened Tariffs

  const KWH_EPSILON: real := 0.0001
  const MAX_GAP_POLLS: real := 3.0
  const DEFAULT_MAX_KWH: real := 30.0
  const DEFAULT_MAX_DURATION: int := 14400

  datatype Reason = EnergyLimit | DurationLimit

  /** What a device reports: its cumulative meter and its power now. */
  datatype Reading = Reading(energy: real, watts: real)

  datatype Frame = Frame(kwh: real, occupied: bool, id: string)

  /** A stored session; a missing limit means none, and a plug with no session stores nothing. */
  datatype SessionState = SessionState(
    baseline: real, last: real, id: string, maxKwh: Option<real>, maxDuration: Option<int>,
    start: Option<real>, lastPoll: Option<real>, integrated: real, hasMeter: bool)

  // ------------------------------------------------------------------- the meter

  /** The meter step: re-anchor after a reset, and never report less than before. */
  function ReadMeter(s: SessionState, energy: real): SessionState {
    var baseline := if energy < s.baseline - KWH_EPSILON then energy else s.baseline;
    var raw := energy - baseline;
    s.(baseline := baseline, last := if raw > s.last then raw else s.last)
  }

  function ReadAll(s: SessionState, energies: seq<real>): SessionState {
    if energies == [] then s else
    ReadMeter(ReadAll(s, energies[..|energies| - 1]), energies[|energies| - 1])
  }

  /** Reading the same value twice is reading it once: the published figure is the one tested. */
  lemma SecondReadIsIdle(s: SessionState, energy: real)
    ensures ReadMeter(ReadMeter(s, energy), energy) == ReadMeter(s, energy)
  {
  }

  /** The rise from one reading to a later one. */
  function Rise(all: seq<real>, i: nat, j: nat): real
    requires i <= j < |all|
  {
    all[j] - all[i]
  }

  ghost predicate IsSomeRise(all: seq<real>, x: real) {
    exists i, j :: 0 <= i <= j < |all| && x == Rise(all, i, j)
  }

  ghost predicate BoundsRises(all: seq<real>, x: real) {
    forall i, j :: 0 <= i <= j < |all| ==> Rise(all, i, j) <= x
  }

  /** The meter's anchor is an earlier reading, and no reading so far is more than epsilon below it. */
  ghost predicate Anchored(all: seq<real>, baseline: real) {
    && baseline in all
    && forall i :: 0 <= i < |all| ==> all[i] >= baseline - KWH_EPSILON
  }

  /**
   The meter's closed form, for any readings with any number of resets: the reported energy is
   itself a rise between two readings, and no rise between two readings exceeds it by more than epsilon.
   */
  lemma {:induction false} MeterIsMaxRise(s: SessionState, energies: seq<real>)
    requires s.last == 0.0
    ensures var all := [s.baseline] + energies;
            var end := ReadAll(s, energies);
            && Anchored(all, end.baseline)
            && IsSomeRise(all, end.last)
            && BoundsRises(all, end.last + 0.0001)
  {
    var all := [s.baseline] + energies;
    if energies == [] {
      assert Rise(all, 0, 0) == 0.0;
    } else {
      var n := |energies| - 1;
      var before := [s.baseline] + energies[..n];
      MeterIsMaxRise(s, energies[..n]);
      MeterStep(before, ReadAll(s, energies[..n]), energies[n]);
      assert all == before + [energies[n]];
    }
  }

  lemma MeterStep(before: seq<real>, s: SessionState, energy: real)
    requires Anchored(before, s.baseline) && IsSomeRise(before, s.last) && BoundsRises(before, s.last + KWH_EPSILON)
    ensures var all := before + [energy];
            var end := ReadMeter(s, energy);
            Anchored(all, end.baseline) && IsSomeRise(all, end.last) && BoundsRises(all, end.last + KWH_EPSILON)
  {
    var all, end, n := before + [energy], ReadMeter(s, energy), |before|;
    var anchor :| 0 <= anchor < n && before[anchor] == s.baseline;
    assert all[if end.baseline == energy then n else anchor] == end.baseline;
    if end.last == s.last {
      var i, j :| 0 <= i <= j < n && s.last == Rise(before, i, j);
      assert Rise(all, i, j) == end.last;
    } else {
      assert Rise(all, if end.baseline == s.baseline then anchor else n, n) == end.last;
    }
    forall i, j | 0 <= i <= j < |all|
      ensures Rise(all, i, j) <= end.last + KWH_EPSILON
    {
      if j < n {
        assert Rise(before, i, j) <= s.last + KWH_EPSILON;
      } else {
        assert Rise(before, 0, 0) == 0.0;
      }
    }
  }

  /** The meter's total upward movement. */
  function Climb(all: seq<real>): real {
    if |all| <= 1 then 0.0 else
    Climb(all[..|all| - 1]) + if all[|all| - 1] > all[|all| - 2] then all[|all| - 1] - all[|all| - 2] else 0.0
  }

  lemma {:induction false} RiseWithinClimb(all: seq<real>, i: nat, j: nat)
    requires i <= j < |all|
    ensures Rise(all, i, j) <= Climb(all) && 0.0 <= Climb(all)
  {
    var n := |all| - 1;
    if n > 0 {
      var rest := all[..n];
      if j < n {
        RiseWithinClimb(rest, i, j);
        assert Rise(rest, i, j) == Rise(all, i, j);
      } else if i < n {
        RiseWithinClimb(rest, i, n - 1);
        assert Rise(rest, i, n - 1) == all[n - 1] - all[i];
      } else {
        RiseWithinClimb(rest, 0, 0);
      }
    }
  }

  /** No number of resets makes the meter report energy that did not flow. */
  lemma MeterNeverInvents(s: SessionState, energies: seq<real>)
    requires s.last == 0.0
    ensures 0.0 <= ReadAll(s, energies).last <= Climb([s.baseline] + energies)
  {
    var all := [s.baseline] + energies;
    MeterIsMaxRise(s, energies);
    var i, j :| 0 <= i <= j < |all| && ReadAll(s, energies).last == Rise(all, i, j);
    RiseWithinClimb(all, i, j);
    NeverNegative(s, energies);
  }

  lemma {:induction false} NeverNegative(s: SessionState, energies: seq<real>)
    requires 0.0 <= s.last
    ensures 0.0 <= ReadAll(s, energies).last
  {
    if energies != [] {
      NeverNegative(s, energies[..|energies| - 1]);
    }
  }

  // ---------------------------------------------------------------- the watchdog

  /** Duration is tested before energy. */
  function LimitExceeded(s: SessionState, kwh: real, now: real): Option<Reason> {
    if s.maxDuration.Some? && s.start.Some? && now - s.start.value >= s.maxDuration.value as real
    then Some(DurationLimit)
    else if s.maxKwh.Some? && kwh >= s.maxKwh.value then Some(EnergyLimit)
    else None
  }

  predicate WithinLimits(s: SessionState, kwh: real, now: real) {
    && (s.maxDuration.Some? && s.start.Some? ==> now < s.start.value + s.maxDuration.value as real)
    && (s.maxKwh.Some? ==> kwh < s.maxKwh.value)
  }

  /** The stored instant, or now when it is missing or zero. */
  function LastPoll(s: SessionState, now: real): real {
    if s.lastPoll.None? || s.lastPoll.value == 0.0 then now else s.lastPoll.value
  }

  /** Energy of one meterless poll; a gap too long to trust counts as nothing. */
  function Fallback(watts: real, gap: real, pollS: real): real {
    if watts > 0.0 && 0.0 < gap <= MAX_GAP_POLLS * pollS then (watts / 1000.0) * (gap / 3600.0) else 0.0
  }

  /** A session after a poll's bookkeeping, before its limits are tested. */
  function Observe(s: SessionState, reading: Reading, now: real, pollS: real): SessionState {
    var read := ReadMeter(s, reading.energy);
    var hasMeter := s.hasMeter || reading.energy > 0.0;
    read.(hasMeter := hasMeter, lastPoll := Some(now),
          integrated := s.integrated + if hasMeter then 0.0 else Fallback(reading.watts, now - LastPoll(s, now), pollS))
  }

  function Effective(s: SessionState): real {
    if s.integrated > s.last then s.integrated else s.last
  }

  /** Frames carry four decimals, half to even. */
  function Round4(x: real): real {
    var n := (x * 10000.0).Floor;
    var part := x * 10000.0 - n as real;
    (if part < 0.5 || (part == 0.5 && n % 2 == 0) then n as real else (n + 1) as real) / 10000.0
  }

  lemma Round4Monotone(x: real, y: real)
    requires x <= y
    ensures Round4(x) <= Round4(y)
  {
    var n, m := (x * 10000.0).Floor, (y * 10000.0).Floor;
    assert n <= m;
  }

  /** The state after a poll, its frame, and the reason if the watchdog cut the session off. */
  function Polled(stored: Option<SessionState>, reading: Reading, now: real,
      pollS: real): (Option<SessionState>, Frame, Option<Reason>) {
    match stored
    case None => (None, Frame(0.0, false, ""), None)
    case Some(s) =>
      var seen := Observe(s, reading, now, pollS);
      var reason := LimitExceeded(seen, Effective(seen), now);
      (if reason.Some? then None else Some(seen), Frame(Round4(Effective(seen)), true, s.id), reason)
  }

  function Opened(id: string, maxKwh: Option<real>, maxDuration: Option<int>, energy: real, now: real): SessionState {
    SessionState(energy, 0.0, id, Some(if maxKwh.Some? then maxKwh.value else DEFAULT_MAX_KWH),
                 Some(if maxDuration.Some? then maxDuration.value else DEFAULT_MAX_DURATION),
                 Some(now), Some(now), 0.0, energy > 0.0)
  }

  function Recapped(s: SessionState, maxKwh: Option<real>, maxDuration: Option<int>): SessionState {
    s.(maxKwh := if maxKwh.Some? then maxKwh else s.maxKwh,
       maxDuration := if maxDuration.Some? then maxDuration else s.maxDuration)
  }

  /** The stored session, a dictionary the agent mutates in place. */
  class Session {
    var state: SessionState

    constructor (state: SessionState)
      ensures this.state == state
    {
      this.state := state;
    }

    method MonotonicSessionKwh(energy: real) returns (kwh: real, changed: bool)
      modifies this
      ensures state == ReadMeter(old(state), energy) && kwh == state.last
      ensures changed <==> state != old(state)
    {
      var baseline, last := state.baseline, state.last;
      changed := false;
      if energy < baseline - KWH_EPSILON {
        baseline := energy;
        state := state.(baseline := baseline);
        changed := true;
      }
      var raw := energy - baseline;
      kwh := if raw > last then raw else last;
      if kwh != last {
        state := state.(last := kwh);
        changed := true;
      }
    }

    /** One poll's bookkeeping: meter, meter latch, meterless fallback. */
    method Account(reading: Reading, now: real, pollS: real) returns (effective: real)
      modifies this
      ensures state == Observe(old(state), reading, now, pollS) && effective == Effective(state)
    {
      var kwh, _ := MonotonicSessionKwh(reading.energy);
      if reading.energy > 0.0 && !state.hasMeter {
        state := state.(hasMeter := true);
      }
      if !state.hasMeter && reading.watts > 0.0 {
        var gap := now - LastPoll(state, now);
        if 0.0 < gap <= MAX_GAP_POLLS * pollS {
          state := state.(integrated := state.integrated + (reading.watts / 1000.0) * (gap / 3600.0));
        }
      }
      state := state.(lastPoll := Some(now));
      effective := if state.integrated > kwh then state.integrated else kwh;
    }
  }

  /** The agent's stored sessions, keyed by plug. */
  class AmpHiveAgent {
    var sessions: map<int, Session>
    var pollS: real

    /** No two plugs share a session. */
    ghost predicate Valid()
      reads this
    {
      forall p, q :: p in sessions && q in sessions && p != q ==> sessions[p] != sessions[q]
    }

    ghost function Stored(plug: int): Option<SessionState>
      reads this, sessions.Values
    {
      if plug in sessions then Some(sessions[plug].state) else None
    }

    constructor (pollS: real)
      ensures Valid() && sessions == map[] && this.pollS == pollS
    {
      sessions, this.pollS := map[], pollS;
    }

    method SetInterval(intervalMs: int)
      modifies this`pollS
      ensures 0.5 <= pollS <= 60.0
      ensures 500 <= intervalMs <= 60000 ==> pollS == intervalMs as real / 1000.0
    {
      var s := intervalMs as real / 1000.0;
      pollS := if s < 0.5 then 0.5 else if s > 60.0 then 60.0 else s;
    }

    /** ON: a fresh session anchored at the meter as it stands. */
    method On(plug: int, id: string, maxKwh: Option<real>, maxDuration: Option<int>, energy: real, now: real)
      requires Valid()
      modifies this`sessions
      ensures Valid() && Stored(plug) == Some(Opened(id, maxKwh, maxDuration, energy, now))
      ensures forall p :: p != plug ==> Stored(p) == old(Stored(p))
    {
      var session := new Session(Opened(id, maxKwh, maxDuration, energy, now));
      sessions := sessions[plug := session];
    }

    method Off(plug: int)
      requires Valid()
      modifies this`sessions
      ensures Valid() && Stored(plug).None?
      ensures forall p :: p != plug ==> Stored(p) == old(Stored(p))
    {
      sessions := sessions - {plug};
    }

    /** SET_LIMITS: re-cap a running session without re-anchoring it. */
    method SetLimits(plug: int, maxKwh: Option<real>, maxDuration: Option<int>)
      requires Valid()
      modifies this`sessions, sessions.Values
      ensures Valid() && sessions == old(sessions)
      ensures Stored(plug) ==
              if old(Stored(plug)).Some? then Some(Recapped(old(Stored(plug)).value, maxKwh, maxDuration)) else None
      ensures forall p :: p != plug ==> Stored(p) == old(Stored(p))
    {
      if plug !in sessions {
        return;
      }
      var session := sessions[plug];
      if maxKwh.Some? {
        session.state := session.state.(maxKwh := maxKwh);
      }
      if maxDuration.Some? {
        session.state := session.state.(maxDuration := maxDuration);
      }
    }

    /** The watchdog and the frame of one poll. */
    method WatchdogAndPublish(plug: int, reading: Reading, now: real) returns (frame: Frame, alarm: Option<Reason>)
      requires Valid()
      modifies this`sessions, sessions.Values
      ensures Valid() && (Stored(plug), frame, alarm) == Polled(old(Stored(plug)), reading, now, pollS)
      ensures forall p :: p != plug ==> Stored(p) == old(Stored(p))
    {
      alarm := None;
      if plug in sessions {
        var session := sessions[plug];
        var effective := session.Account(reading, now, pollS);
        alarm := LimitExceeded(session.state, effective, now);
      }
      assert forall p :: p != plug ==> Stored(p) == old(Stored(p));
      frame := PublishTelemetry(plug, reading.energy);
      assert forall p :: p != plug ==> Stored(p) == old(Stored(p));
      if alarm.Some? {
        sessions := sessions - {plug};
      }
    }

    /** The frame re-reads the meter before publishing. */
    method PublishTelemetry(plug: int, energy: real) returns (frame: Frame)
      requires Valid()
      modifies sessions.Values
      ensures Stored(plug).Some? <==> old(Stored(plug)).Some?
      ensures forall p :: p != plug ==> Stored(p) == old(Stored(p))
      ensures plug in sessions ==> Stored(plug) == Some(ReadMeter(old(Stored(plug)).value, energy))
      ensures frame ==
              if plug in sessions then Frame(Round4(Effective(Stored(plug).value)), true, Stored(plug).value.id)
              else Frame(0.0, false, "")
    {
      if plug !in sessions {
        return Frame(0.0, false, "");
      }
      var session := sessions[plug];
      var kwh, _ := session.MonotonicSessionKwh(energy);
      kwh := if session.state.integrated > kwh then session.state.integrated else kwh;
      frame := Frame(Round4(kwh), true, session.state.id);
    }
  }

  /** A session past both limits is cut off for its duration. */
  lemma DurationComesFirst(s: SessionState, kwh: real, now: real)
    ensures var late := s.maxDuration.Some? && s.start.Some? && now - s.start.value >= s.maxDuration.value as real;
            LimitExceeded(s, kwh, now) ==
            if late then Some(DurationLimit)
            else if s.maxKwh.Some? && kwh >= s.maxKwh.value then Some(EnergyLimit) else None
  {
  }

  /** A frame's figure is the nearest of four decimals. */
  lemma Round4IsNearest(x: real)
    ensures -0.00005 <= Round4(x) - x <= 0.00005
    ensures Round4(x) * 10000.0 == ((Round4(x) * 10000.0).Floor) as real
  {
    var n := (x * 10000.0).Floor;
    var m := if x * 10000.0 - n as real < 0.5 || (x * 10000.0 - n as real == 0.5 && n % 2 == 0) then n else n + 1;
    assert Round4(x) == m as real / 10000.0;
    assert Round4(x) * 10000.0 == m as real;
  }

  /** A plug idle at ON whose meter is seen at any later poll falls back no more. */
  lemma SeenMeterLatches(s: SessionState, reading: Reading, now: real, pollS: real)
    requires reading.energy > 0.0
    ensures Observe(s, reading, now, pollS).hasMeter && Observe(s, reading, now, pollS).integrated == s.integrated
  {
  }

  /** An idle plug's frame is empty and available, and polling it stores nothing. */
  lemma IdlePlugIsAvailable(reading: Reading, now: real, pollS: real)
    ensures Polled(None, reading, now, pollS) == (None, Frame(0.0, false, ""), None)
  {
  }

  // ------------------------------------------------------------ one session's life

  /** What happens to a plug between its ON and its end. */
  datatype Event =
    | Poll(reading: Reading, now: real, pollS: real)
    | SetLimits(maxKwh: Option<real>, maxDuration: Option<int>)

  function Step(stored: Option<SessionState>, event: Event): Option<SessionState> {
    match event
    case Poll(reading, now, pollS) => Polled(stored, reading, now, pollS).0
    case SetLimits(kwh, duration) => if stored.Some? then Some(Recapped(stored.value, kwh, duration)) else None
  }

  function Run(stored: Option<SessionState>, events: seq<Event>): Option<SessionState> {
    if events == [] then stored else Step(Run(stored, events[..|events| - 1]), events[|events| - 1])
  }

  /** The frame that a poll after `events` sends. */
  function FrameAfter(stored: Option<SessionState>, events: seq<Event>, poll: Event): Frame
    requires poll.Poll?
  {
    Polled(Run(stored, events), poll.reading, poll.now, poll.pollS).1
  }

  /** After a poll, a surviving session is inside both limits, by the very figure its frame carries. */
  lemma SurvivorIsWithinLimits(stored: Option<SessionState>, reading: Reading, now: real, pollS: real)
    requires stored.Some?
    ensures var (next, frame, alarm) := Polled(stored, reading, now, pollS);
            var tested := Effective(Observe(stored.value, reading, now, pollS));
            && frame == Frame(Round4(tested), true, stored.value.id)
            && (next.Some? ==> Effective(next.value) == tested && WithinLimits(next.value, tested, now))
            && (next.None? <==> alarm.Some?)
            && (next.None? <==> !WithinLimits(Observe(stored.value, reading, now, pollS), tested, now))
  {
  }

  lemma FallbackNonNegative(watts: real, gap: real, pollS: real)
    ensures 0.0 <= Fallback(watts, gap, pollS)
  {
    if watts > 0.0 && gap > 0.0 {
      assert (watts / 1000.0) * (gap / 3600.0) >= 0.0;
    }
  }

  /** A session's effective energy never falls, whatever the meter and the clock do. */
  lemma {:induction false} EnergyNeverFalls(stored: Option<SessionState>, events: seq<Event>)
    requires stored.Some? && Run(stored, events).Some?
    ensures Effective(stored.value) <= Effective(Run(stored, events).value)
    ensures Run(stored, events).value.id == stored.value.id && Run(stored, events).value.start == stored.value.start
  {
    if events != [] {
      var n := |events| - 1;
      EnergyNeverFalls(stored, events[..n]);
      if events[n].Poll? {
        var s := Run(stored, events[..n]).value;
        FallbackNonNegative(events[n].reading.watts, events[n].now - LastPoll(s, events[n].now), events[n].pollS);
      }
    }
  }

  lemma {:induction false} RunSplits(stored: Option<SessionState>, before: seq<Event>, after: seq<Event>)
    ensures Run(stored, before + after) == Run(Run(stored, before), after)
  {
    if after == [] {
      assert before + after == before;
    } else {
      var n := |after| - 1;
      RunSplits(stored, before, after[..n]);
      assert (before + after)[..|before + after| - 1] == before + after[..n];
    }
  }

  /** Published energy never decreases from one frame of a session to a later one, the trip frame included. */
  lemma FramesNeverFall(stored: Option<SessionState>, before: seq<Event>, poll: Event, between: seq<Event>,
      later: Event)
    requires stored.Some? && poll.Poll? && later.Poll? && Run(stored, before + [poll] + between).Some?
    ensures FrameAfter(stored, before, poll).kwh <= FrameAfter(stored, before + [poll] + between, later).kwh
  {
    RunSplits(stored, before + [poll], between);
    RunSplits(stored, before, [poll]);
    assert [poll][..0] == [];
    assert Run(Run(stored, before), [poll]) == Step(Run(stored, before), poll);
    var mid := Step(Run(stored, before), poll);
    if mid.None? {
      StaysEnded(between);
      assert false;
    }
    if Run(stored, before).None? {
      assert false;
    }
    EnergyNeverFalls(mid, between);
    var s := Run(mid, between).value;
    FallbackNonNegative(later.reading.watts, later.now - LastPoll(s, later.now), later.pollS);
    Round4Monotone(Effective(mid.value), Effective(Observe(s, later.reading, later.now, later.pollS)));
  }

  lemma {:induction false} StaysEnded(events: seq<Event>)
    ensures Run(None, events).None?
  {
    if events != [] {
      StaysEnded(events[..|events| - 1]);
    }
  }

  /** Once a meter has been seen, no later reading, not even zero, brings the fallback back. */
  lemma {:induction false} MeterLatches(stored: Option<SessionState>, events: seq<Event>)
    requires stored.Some? && stored.value.hasMeter && Run(stored, events).Some?
    ensures Run(stored, events).value.hasMeter && Run(stored, events).value.integrated == stored.value.integrated
  {
    if events != [] {
      MeterLatches(stored, events[..|events| - 1]);
    }
  }

  function Energies(events: seq<Event>): seq<real> {
    if events == [] then [] else
    Energies(events[..|events| - 1]) + if events[|events| - 1].Poll? then [events[|events| - 1].reading.energy] else []
  }

  lemma {:induction false} RunReadsTheMeter(stored: Option<SessionState>, events: seq<Event>)
    requires stored.Some? && Run(stored, events).Some?
    ensures var end, read := Run(stored, events).value, ReadAll(stored.value, Energies(events));
            end.last == read.last && end.baseline == read.baseline
  {
    if events != [] {
      var n := |events| - 1;
      RunReadsTheMeter(stored, events[..n]);
      if events[n].Poll? {
        var more := Energies(events);
        assert more[..|more| - 1] == Energies(events[..n]);
      } else {
        assert Energies(events) == Energies(events[..n]);
      }
    }
  }

  /** A plug metered at ON is limited and billed by its largest rise, to within epsilon, for its whole life. */
  lemma MeteredSessionIsMaxRise(id: string, maxKwh: Option<real>, maxDuration: Option<int>, energy: real, now: real,
      events: seq<Event>)
    requires energy > 0.0 && Run(Some(Opened(id, maxKwh, maxDuration, energy, now)), events).Some?
    ensures var all := [energy] + Energies(events);
            var kwh := Effective(Run(Some(Opened(id, maxKwh, maxDuration, energy, now)), events).value);
            IsSomeRise(all, kwh) && BoundsRises(all, kwh + 0.0001)
  {
    var s := Opened(id, maxKwh, maxDuration, energy, now);
    MeterLatches(Some(s), events);
    RunReadsTheMeter(Some(s), events);
    MeterIsMaxRise(s, Energies(events));
    NeverNegative(s, Energies(events));
  }

  /**
   The limits an ON sends are the ones its session is held to, 30 kWh and four hours where it sends
   none: after any polls a survivor is below both.
   */
  lemma {:induction false} OnLimitsHold(id: string, maxKwh: Option<real>, maxDuration: Option<int>, energy: real,
      now: real, polls: seq<Event>)
    requires polls != [] && forall e :: e in polls ==> e.Poll?
    requires Run(Some(Opened(id, maxKwh, maxDuration, energy, now)), polls).Some?
    ensures var end := Run(Some(Opened(id, maxKwh, maxDuration, energy, now)), polls).value;
            && Effective(end) < (if maxKwh.Some? then maxKwh.value else 30.0)
            && polls[|polls| - 1].now - now < (if maxDuration.Some? then maxDuration.value else 14400) as real
            && end.id == id
  {
    LimitsStay(id, maxKwh, maxDuration, energy, now, polls[..|polls| - 1]);
  }

  lemma {:induction false} LimitsStay(id: string, maxKwh: Option<real>, maxDuration: Option<int>, energy: real,
      now: real, polls: seq<Event>)
    requires forall e :: e in polls ==> e.Poll?
    ensures var s, end := Opened(id, maxKwh, maxDuration, energy, now),
                          Run(Some(Opened(id, maxKwh, maxDuration, energy, now)), polls);
            end.Some? ==>
              end.value == s.(baseline := end.value.baseline, last := end.value.last, lastPoll := end.value.lastPoll,
                                          integrated := end.value.integrated, hasMeter := end.value.hasMeter)
  {
    if polls != [] {
      LimitsStay(id, maxKwh, maxDuration, energy, now, polls[..|polls| - 1]);
    }
  }

  /** A session outlives new limits and a poll exactly when it is below them; one that is not sent stays. */
  lemma NewLimitsHold(s: SessionState, maxKwh: Option<real>, maxDuration: Option<int>, reading: Reading, now: real,
      pollS: real)
    ensures var end := Run(Some(s), [SetLimits(maxKwh, maxDuration), Poll(reading, now, pollS)]);
            var energy := Effective(Observe(s, reading, now, pollS));
            && (end.Some? ==> Effective(end.value) == energy)
            && (end.Some? <==>
              && (maxKwh.Some? ==> energy < maxKwh.value)
              && (maxKwh.None? && s.maxKwh.Some? ==> energy < s.maxKwh.value)
              && (maxDuration.Some? && s.start.Some? ==> now - s.start.value < maxDuration.value as real)
              && (maxDuration.None? && s.maxDuration.Some? && s.start.Some? ==>
                   now - s.start.value < s.maxDuration.value as real))
    ensures Run(None, [SetLimits(maxKwh, maxDuration)]) == None
  {
    var events := [SetLimits(maxKwh, maxDuration), Poll(reading, now, pollS)];
    assert events[..1] == [events[0]] && events[..1][..0] == [];
    var recapped := Recapped(s, maxKwh, maxDuration);
    assert Run(Some(s), events[..1]) == Step(Some(s), events[0]) == Some(recapped);
    assert Effective(Observe(recapped, reading, now, pollS)) == Effective(Observe(s, reading, now, pollS));
  }

  /** Polls of a steady load on a meterless plug, none further than three intervals after the one before. */
  predicate Steady(events: seq<Event>, from: real, watts: real) {
    events == [] ||
    var rest, event := events[..|events| - 1], events[|events| - 1];
    && Steady(rest, from, watts) && event.Poll? && event.reading == Reading(0.0, watts)
    && 0.0 < event.now - LastInstant(rest, from) <= 3.0 * event.pollS
  }

  /** Such a load integrates to exactly its energy: watts times seconds, in kWh. */
  lemma SteadyLoadIsCounted(id: string, maxKwh: Option<real>, maxDuration: Option<int>, now: real,
      events: seq<Event>, watts: real)
    requires Steady(events, now, watts) && 0.0 < now && 0.0 < watts
    requires Run(Some(Opened(id, maxKwh, maxDuration, 0.0, now)), events).Some?
    ensures var end := Run(Some(Opened(id, maxKwh, maxDuration, 0.0, now)), events).value;
            Effective(end) == KwhOf(watts, LastInstant(events, now) - now)
  {
    SteadyTracks(id, maxKwh, maxDuration, now, events, watts);
  }

  /** A thousand watts for an hour is one kWh. */
  function KwhOf(watts: real, seconds: real): real {
    (watts / 1000.0) * (seconds / 3600.0)
  }

  /** A meterless session as a steady load leaves it. */
  predicate Metered(s: SessionState, from: real, at: real, watts: real) {
    && s.lastPoll == Some(at) && from <= at && !s.hasMeter && s.last == 0.0 && s.baseline == 0.0
    && s.integrated == KwhOf(watts, at - from) && 0.0 <= s.integrated
  }

  lemma {:induction false} SteadyTracks(id: string, maxKwh: Option<real>, maxDuration: Option<int>, now: real,
      events: seq<Event>, watts: real)
    requires Steady(events, now, watts) && 0.0 < now && 0.0 < watts
    requires Run(Some(Opened(id, maxKwh, maxDuration, 0.0, now)), events).Some?
    ensures var end := Run(Some(Opened(id, maxKwh, maxDuration, 0.0, now)), events).value;
            Metered(end, now, LastInstant(events, now), watts)
  {
    if events != [] {
      var n := |events| - 1;
      SteadyTracks(id, maxKwh, maxDuration, now, events[..n], watts);
      SteadyPoll(Run(Some(Opened(id, maxKwh, maxDuration, 0.0, now)), events[..n]).value, events[n], now, watts);
    } else {
      NothingDrawn(watts);
    }
  }

  lemma NothingDrawn(watts: real)
    ensures KwhOf(watts, 0.0) == 0.0
  {
  }

  lemma SteadyPoll(s: SessionState, poll: Event, from: real, watts: real)
    requires poll.Poll? && poll.reading == Reading(0.0, watts) && 0.0 < from && 0.0 < watts && s.lastPoll.Some?
    requires Metered(s, from, s.lastPoll.value, watts) && 0.0 < poll.now - s.lastPoll.value <= 3.0 * poll.pollS
    ensures Metered(Observe(s, poll.reading, poll.now, poll.pollS), from, poll.now, watts)
  {
    SteadyEnergy(watts, s.lastPoll.value - from, poll.now - s.lastPoll.value);
  }

  lemma SteadyEnergy(watts: real, before: real, gap: real)
    requires 0.0 <= watts && 0.0 <= before && 0.0 < gap
    ensures KwhOf(watts, before) + (watts / 1000.0) * (gap / 3600.0) == KwhOf(watts, before + gap)
    ensures 0.0 <= (watts / 1000.0) * (gap / 3600.0)
  {
    Spread(watts / 1000.0, before / 3600.0, gap / 3600.0);
  }

  lemma Spread(x: real, y: real, z: real)
    requires 0.0 <= x && 0.0 <= z
    ensures x * y + x * z == x * (y + z) && 0.0 <= x * z
  {
  }

  /** The last poll's instant, or `from` before any. */
  function LastInstant(events: seq<Event>, from: real): real {
    if events == [] then from else
    if events[|events| - 1].Poll? then events[|events| - 1].now else LastInstant(events[..|events| - 1], from)
  }

  /** Polls in clock order from `from` on, each drawing at most `watts`. */
  predicate InOrder(events: seq<Event>, from: real, watts: real) {
    events == [] ||
    var rest, event := events[..|events| - 1], events[|events| - 1];
    InOrder(rest, from, watts) && (event.Poll? ==> LastInstant(rest, from) <= event.now && event.reading.watts <= watts)
  }

  /** Energy of `watts` drawn for `seconds`. */
  function Drawn(watts: real, seconds: real): real {
    watts * seconds / 3600000.0
  }

  lemma DrawnGrows(watts: real, part: real, a: real, b: real)
    requires 0.0 <= a && part <= watts && 0.0 < b
    ensures part > 0.0 ==> (part / 1000.0) * (b / 3600.0) <= Drawn(watts, b)
    ensures Drawn(watts, a + b) == Drawn(watts, a) + Drawn(watts, b)
  {
    assert part > 0.0 ==> (part / 1000.0) * (b / 3600.0) == part * b / 3600000.0;
    assert part * b <= watts * b;
  }

  /**
   The fallback never invents energy: restarts, stalls and gaps included, it stays within full power
   over the elapsed time.
   */
  lemma {:induction false} FallbackWithinPower(id: string, maxKwh: Option<real>, maxDuration: Option<int>,
      energy: real, now: real, events: seq<Event>, watts: real)
    requires InOrder(events, now, watts) && 0.0 < now && 0.0 <= watts
    requires Run(Some(Opened(id, maxKwh, maxDuration, energy, now)), events).Some?
    ensures var end := Run(Some(Opened(id, maxKwh, maxDuration, energy, now)), events).value;
            && end.lastPoll == Some(LastInstant(events, now)) && now <= LastInstant(events, now)
            && 0.0 <= end.integrated <= Drawn(watts, LastInstant(events, now) - now)
  {
    if events != [] {
      var n := |events| - 1;
      FallbackWithinPower(id, maxKwh, maxDuration, energy, now, events[..n], watts);
      var s := Run(Some(Opened(id, maxKwh, maxDuration, energy, now)), events[..n]).value;
      if events[n].Poll? {
        OnePollWithinPower(s, events[n].reading, events[n].now, events[n].pollS, now, watts);
      }
    }
  }

  lemma OnePollWithinPower(s: SessionState, reading: Reading, now: real, pollS: real, from: real, watts: real)
    requires s.lastPoll.Some? && 0.0 < from <= s.lastPoll.value <= now && reading.watts <= watts && 0.0 <= watts
    requires 0.0 <= s.integrated <= Drawn(watts, s.lastPoll.value - from)
    ensures 0.0 <= Observe(s, reading, now, pollS).integrated <= Drawn(watts, now - from)
  {
    var gap := now - s.lastPoll.value;
    FallbackNonNegative(reading.watts, gap, pollS);
    if gap > 0.0 {
      DrawnGrows(watts, reading.watts, s.lastPoll.value - from, gap);
      assert 0.0 <= Drawn(watts, gap);
    }
  }
}
