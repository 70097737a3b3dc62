/**
 The simulated gateway (tools/fake_plug.py): a bounded table of plug slots filled by retained
 rosters and commands, flagged and reaped lazily, each slot with its own session watchdog.

 Energy is in kWh and instants in seconds, both real. The load of a tick is a parameter.
 */
module FakeGateway {
  import opened Tariffs
  import Agent

  const MAX_PLUGS: nat := 4
  const DEFAULT_CAP: real := 16.0
  const DEFAULT_MAX_KWH: real := 30.0
  const DEFAULT_MAX_DURATION: int := 14400

  datatype Reset = Reset(deadline: real, kwh: real)

  datatype Slot = Slot(ip: string, active: bool, pendingRemove: bool, session: string, kwh: real, maxKwh: real,
                       maxDuration: int, cap: real, start: real, lastTick: real, reset: Option<Reset>, resetFired: bool)

  type Slots = map<int, Slot>

  /** What a roster says of one plug. */
  datatype Entry = Entry(plug: int, ip: string, cap: Option<real>)

  /** Command fields the payload may omit. */
  datatype Limits = Limits(maxKwh: Option<real>, maxDuration: Option<int>, cap: Option<real>)

  function Given<T>(x: Option<T>, otherwise: T): T {
    if x.Some? then x.value else otherwise
  }

  function PositiveOr(cap: Option<real>, otherwise: real): real {
    if cap.Some? && cap.value > 0.0 then cap.value else otherwise
  }

  // ------------------------------------------------------------------ the slot table

  function NewSlot(ip: string, reset: Option<Reset>, now: real): Slot {
    Slot.Slot(ip, false, false, "", 0.0, DEFAULT_MAX_KWH, DEFAULT_MAX_DURATION, DEFAULT_CAP, now, now, reset, false)
  }

  /** Find a slot, keeping it, or allocate one when an address is known and the table has room. */
  function FindOrAdd(slots: Slots, resets: map<int, Reset>, plug: int, ip: string, now: real): Slots {
    if plug in slots
    then slots[plug := slots[plug].(ip := if ip == [] then slots[plug].ip else ip, pendingRemove := false)]
    else if ip == [] || |slots| >= MAX_PLUGS then slots
    else slots[plug := NewSlot(ip, if plug in resets then Some(resets[plug]) else None, now)]
  }

  function Recap(slot: Slot, cap: Option<real>): Slot {
    if slot.active then slot else slot.(cap := PositiveOr(cap, slot.cap))
  }

  function NameOne(slots: Slots, resets: map<int, Reset>, entry: Entry, now: real): Slots {
    if entry.ip == [] then slots else
    var found := FindOrAdd(slots, resets, entry.plug, entry.ip, now);
    if entry.plug in found then found[entry.plug := Recap(found[entry.plug], entry.cap)] else found
  }

  /** The table once every entry of a roster has been found or added. */
  function Named(slots: Slots, resets: map<int, Reset>, entries: seq<Entry>, now: real): Slots {
    if entries == [] then slots else
    NameOne(Named(slots, resets, entries[..|entries| - 1], now), resets, entries[|entries| - 1], now)
  }

  predicate Names(entries: seq<Entry>, plug: int) {
    exists i :: 0 <= i < |entries| && entries[i].plug == plug && entries[i].ip != []
  }

  /** Idle slots a roster does not name are flagged, never freed at once; slots in session are passed over. */
  function Flagged(slot: Slot, named: bool): Slot {
    if slot.active || slot.pendingRemove || named then slot else slot.(pendingRemove := true)
  }

  function Rostered(slots: Slots, resets: map<int, Reset>, entries: seq<Entry>, now: real): Slots {
    var filled := Named(slots, resets, entries, now);
    map p | p in filled :: Flagged(filled[p], Names(entries, p))
  }

  function Reaped(slots: Slots): Slots {
    map p | p in slots && !(slots[p].pendingRemove && !slots[p].active) :: slots[p]
  }

  // ------------------------------------------------------------------------- one slot

  function Started(slot: Slot, session: string, limits: Limits, now: real): Slot {
    slot.(active := true, session := session, kwh := 0.0, maxKwh := Given(limits.maxKwh, DEFAULT_MAX_KWH),
          maxDuration := Given(limits.maxDuration, DEFAULT_MAX_DURATION), cap := PositiveOr(limits.cap, DEFAULT_CAP),
          start := now, lastTick := now)
  }

  function Limited(slot: Slot, limits: Limits): Slot {
    if !slot.active then slot else
    slot.(maxDuration := Given(limits.maxDuration, DEFAULT_MAX_DURATION),
      maxKwh := Given(limits.maxKwh, DEFAULT_MAX_KWH), cap := PositiveOr(limits.cap, slot.cap))
  }

  predicate ResetDue(slot: Slot, wall: real) {
    slot.active && slot.reset.Some? && !slot.resetFired && slot.reset.value.deadline <= wall
  }

  predicate WithinLimits(slot: Slot, now: real) {
    now < slot.start + slot.maxDuration as real && slot.kwh < slot.maxKwh
  }

  /** A slot with this tick's energy counted. */
  function Metered(slot: Slot, watts: real, now: real): Slot {
    var gap := now - slot.lastTick;
    slot.(lastTick := now,
          kwh := slot.kwh + if slot.active && gap > 0.0 then (watts / 1000.0) * (gap / 3600.0) else 0.0)
  }

  /** One tick: a scheduled counter reset takes the place of the watchdog's test. */
  function Ticked(slot: Slot, watts: real, now: real, wall: real): Slot {
    var metered := Metered(slot, watts, now);
    if !slot.active then metered
    else if ResetDue(slot, wall) then metered.(kwh := slot.reset.value.kwh, resetFired := true)
    else metered.(active := WithinLimits(metered, now))
  }

  /** The frame of a tick: what the slot was before its watchdog, with the energy it ends with. */
  function FrameOf(slot: Slot, watts: real, now: real, wall: real): Agent.Frame {
    if slot.active then Agent.Frame(Agent.Round4(Ticked(slot, watts, now, wall).kwh), true, slot.session)
    else Agent.Frame(0.0, false, "")
  }

  /** A tick of the telemetry loop. */
  datatype Beat = Beat(watts: real, now: real, wall: real)

  /** The slot after the ticks, oldest first. */
  function After(slot: Slot, beats: seq<Beat>): Slot {
    if beats == [] then slot else
    var beat := beats[|beats| - 1];
    Ticked(After(slot, beats[..|beats| - 1]), beat.watts, beat.now, beat.wall)
  }

  /** At tick `k` of the run the scheduled counter reset fires. */
  predicate FiresAt(slot: Slot, beats: seq<Beat>, k: nat) {
    k < |beats| && ResetDue(After(slot, beats[..k]), beats[k].wall)
  }

  /** The slot as tick `k` of the run leaves it is within its limits. */
  predicate WithinAt(slot: Slot, beats: seq<Beat>, k: nat) {
    k < |beats| && WithinLimits(After(slot, beats[..k + 1]), beats[k].now)
  }

  predicate PassesAt(slot: Slot, beats: seq<Beat>, k: nat) {
    WithinAt(slot, beats, k) || FiresAt(slot, beats, k)
  }

  /** Any tick of the run, as one step from the slot before it. */
  lemma OneBeat(slot: Slot, beats: seq<Beat>, k: nat)
    requires k < |beats|
    ensures After(slot, beats[..k + 1]) == Ticked(After(slot, beats[..k]), beats[k].watts, beats[k].now, beats[k].wall)
  {
    assert beats[..k + 1][..k] == beats[..k];
  }

  /**
   A session outlives a run of ticks exactly when each left it within its limits but the one, if
   any, that fired its scheduled reset.
   */
  lemma {:induction false} SurvivesIff(slot: Slot, beats: seq<Beat>)
    requires slot.active
    ensures After(slot, beats).active <==> forall k :: 0 <= k < |beats| ==> PassesAt(slot, beats, k)
  {
    if beats != [] {
      var n := |beats| - 1;
      SurvivesIff(slot, beats[..n]);
      OneBeat(slot, beats, n);
      assert beats[..n + 1] == beats;
      forall k: nat | k < n
        ensures PassesAt(slot, beats[..n], k) <==> PassesAt(slot, beats, k)
      {
        assert beats[..n][..k] == beats[..k] && beats[..n][..k + 1] == beats[..k + 1];
      }
      var before := After(slot, beats[..n]);
      assert before.active ==> (After(slot, beats).active <==> PassesAt(slot, beats, n));
      if !before.active {
        var k :| 0 <= k < n && !PassesAt(slot, beats[..n], k);
        assert !PassesAt(slot, beats, k);
      }
    }
  }

  /** A scheduled reset fires at most once in a run. */
  lemma {:induction false} FiresOnce(slot: Slot, beats: seq<Beat>, j: nat, k: nat)
    requires FiresAt(slot, beats, j) && j < k
    ensures !FiresAt(slot, beats, k)
  {
    if k < |beats| {
      OneBeat(slot, beats, j);
      assert beats[..k][..j + 1] == beats[..j + 1];
      StaysFired(slot, beats[..k], j);
    }
  }

  lemma {:induction false} StaysFired(slot: Slot, beats: seq<Beat>, j: nat)
    requires j < |beats| && After(slot, beats[..j + 1]).resetFired
    ensures After(slot, beats).resetFired
  {
    if j + 1 < |beats| {
      var n := |beats| - 1;
      assert beats[..n][..j + 1] == beats[..j + 1];
      StaysFired(slot, beats[..n], j);
    } else {
      assert beats[..j + 1] == beats;
    }
  }

  /** So after any ticks an active slot is within its limits, unless the last of them fired its reset. */
  lemma ActiveIsWithinLimits(slot: Slot, beats: seq<Beat>)
    requires slot.active && beats != [] && After(slot, beats).active
    ensures WithinLimits(After(slot, beats), beats[|beats| - 1].now) || FiresAt(slot, beats, |beats| - 1)
    ensures FiresAt(slot, beats, |beats| - 1) ==> forall k :: 0 <= k < |beats| - 1 ==> WithinAt(slot, beats, k)
  {
    SurvivesIff(slot, beats);
    assert beats[..|beats|] == beats;
    assert PassesAt(slot, beats, |beats| - 1);
    if FiresAt(slot, beats, |beats| - 1) {
      forall k | 0 <= k < |beats| - 1 ensures WithinAt(slot, beats, k) {
        assert PassesAt(slot, beats, k);
        if FiresAt(slot, beats, k) {
          FiresOnce(slot, beats, k, |beats| - 1);
        }
      }
    }
  }

  /** A counter reset puts the watchdog off by one tick only. */
  lemma ResetSkipsOneTest(slot: Slot, watts: real, now: real, wall: real, watts': real, now': real, wall': real)
    requires ResetDue(slot, wall)
    ensures Ticked(slot, watts, now, wall).active
    ensures var second := Ticked(Ticked(slot, watts, now, wall), watts', now', wall');
            second.active <==> WithinLimits(second, now')
  {
  }

  /** Energy falls only on the one tick that fires a scheduled reset. */
  lemma EnergyFallsOnlyOnReset(slot: Slot, watts: real, now: real, wall: real)
    requires 0.0 <= watts
    ensures Ticked(slot, watts, now, wall).kwh >= slot.kwh || ResetDue(slot, wall)
    ensures ResetDue(slot, wall) ==> forall later: real :: !ResetDue(Ticked(slot, watts, now, wall), later)
  {
    var gap := now - slot.lastTick;
    if gap > 0.0 {
      assert (watts / 1000.0) * (gap / 3600.0) >= 0.0;
    }
  }

  // ------------------------------------------------------------- any run of messages

  datatype Event =
    | Roster(entries: seq<Entry>, now: real)
    | Reap
    | On(plug: int, ip: string, session: string, limits: Limits, at: real)
    | Off(plug: int, ip: string, at: real)
    | SetLimits(plug: int, ip: string, limits: Limits, at: real)
    | Tick(plug: int, watts: real, at: real, wall: real)

  function Step(slots: Slots, resets: map<int, Reset>, event: Event): Slots {
    match event
    case Roster(entries, now) => Rostered(slots, resets, entries, now)
    case Reap => Reaped(slots)
    case On(p, ip, session, limits, now) =>
      var found := FindOrAdd(slots, resets, p, ip, now);
      if p in found then found[p := Started(found[p], session, limits, now)] else found
    case Off(p, ip, now) =>
      var found := FindOrAdd(slots, resets, p, ip, now);
      if p in found then found[p := found[p].(active := false)] else found
    case SetLimits(p, ip, limits, now) =>
      var found := FindOrAdd(slots, resets, p, ip, now);
      if p in found then found[p := Limited(found[p], limits)] else found
    case Tick(p, watts, now, wall) =>
      if p in slots then slots[p := Ticked(slots[p], watts, now, wall)] else slots
  }

  function Run(slots: Slots, resets: map<int, Reset>, events: seq<Event>): Slots {
    if events == [] then slots else Step(Run(slots, resets, events[..|events| - 1]), resets, events[|events| - 1])
  }

  /** Never more slots than the table holds, and a slot awaiting removal is idle. */
  predicate Sane(slots: Slots) {
    |slots| <= MAX_PLUGS && forall p :: p in slots && slots[p].pendingRemove ==> !slots[p].active
  }

  lemma FewerKeys<T>(small: map<int, T>, large: map<int, T>)
    requires small.Keys <= large.Keys
    ensures |small| <= |large|
  {
    SmallerSet(small.Keys, large.Keys);
  }

  lemma {:induction false} SmallerSet(small: set<int>, large: set<int>)
    requires small <= large
    ensures |small| <= |large|
  {
    if small != {} {
      var x := AnyOf(small);
      SmallerSet(small - {x}, large - {x});
    }
  }

  lemma SlotCount(slots: Slots, plug: int, slot: Slot)
    ensures |slots[plug := slot]| == |slots| + if plug in slots then 0 else 1
  {
    assert slots[plug := slot].Keys == slots.Keys + {plug};
  }

  lemma FindStaysSane(slots: Slots, resets: map<int, Reset>, plug: int, ip: string, now: real)
    requires Sane(slots)
    ensures var found := FindOrAdd(slots, resets, plug, ip, now);
            Sane(found) && (plug in found ==> !found[plug].pendingRemove) && slots.Keys <= found.Keys
            && (plug !in found ==> ip == [] || |found| == MAX_PLUGS)
  {
    var found := FindOrAdd(slots, resets, plug, ip, now);
    if plug in found {
      SlotCount(slots, plug, found[plug]);
    }
  }

  lemma {:induction false} NamedStaysSane(slots: Slots, resets: map<int, Reset>, entries: seq<Entry>, now: real)
    requires Sane(slots)
    ensures var named := Named(slots, resets, entries, now);
            && Sane(named) && slots.Keys <= named.Keys
            && (forall p :: p in named && Names(entries, p) ==> !named[p].pendingRemove)
            && (forall p :: Names(entries, p) && p !in named ==> |named| == MAX_PLUGS)
  {
    if entries != [] {
      var n := |entries| - 1;
      var before, entry := Named(slots, resets, entries[..n], now), entries[n];
      NamedStaysSane(slots, resets, entries[..n], now);
      var after := FindOrAdd(before, resets, entry.plug, entry.ip, now);
      FindStaysSane(before, resets, entry.plug, entry.ip, now);
      if entry.ip != [] && entry.plug in after {
        SlotCount(after, entry.plug, Recap(after[entry.plug], entry.cap));
      }
      var named := Named(slots, resets, entries, now);
      assert entries[..n + 1] == entries;
      NamesOneMore(entries, n);
      FewerKeys(before, named);
    }
  }

  lemma RosterStaysSane(slots: Slots, resets: map<int, Reset>, entries: seq<Entry>, now: real)
    requires Sane(slots)
    ensures Sane(Rostered(slots, resets, entries, now))
  {
    NamedStaysSane(slots, resets, entries, now);
    assert Rostered(slots, resets, entries, now).Keys == Named(slots, resets, entries, now).Keys;
  }

  lemma StepStaysSane(slots: Slots, resets: map<int, Reset>, event: Event)
    requires Sane(slots)
    ensures Sane(Step(slots, resets, event))
  {
    match event
    case Roster(entries, now) => RosterStaysSane(slots, resets, entries, now);
    case Reap => FewerKeys(Reaped(slots), slots);
    case On(p, ip, session, limits, now) =>
      FindStaysSane(slots, resets, p, ip, now);
      Replaced(FindOrAdd(slots, resets, p, ip, now), Step(slots, resets, event), p);
    case Off(p, ip, now) =>
      FindStaysSane(slots, resets, p, ip, now);
      Replaced(FindOrAdd(slots, resets, p, ip, now), Step(slots, resets, event), p);
    case SetLimits(p, ip, limits, now) =>
      FindStaysSane(slots, resets, p, ip, now);
      Replaced(FindOrAdd(slots, resets, p, ip, now), Step(slots, resets, event), p);
    case Tick(p, watts, now, wall) =>
      Replaced(slots, Step(slots, resets, event), p);
  }

  lemma Replaced(slots: Slots, next: Slots, plug: int)
    requires next == slots || (plug in slots && plug in next && next == slots[plug := next[plug]])
    ensures |next| == |slots|
  {
    if next != slots {
      SlotCount(slots, plug, next[plug]);
    }
  }

  /** Over any run the table never overflows and only idle slots await removal. */
  lemma {:induction false} RunStaysSane(resets: map<int, Reset>, events: seq<Event>)
    ensures Sane(Run(map[], resets, events))
  {
    if events != [] {
      RunStaysSane(resets, events[..|events| - 1]);
      StepStaysSane(Run(map[], resets, events[..|events| - 1]), resets, events[|events| - 1]);
    }
  }

  /** No roster and no reap touches a session: its slot stays, with its energy and limits. */
  lemma {:induction false} NamedKeepsSessions(slots: Slots, resets: map<int, Reset>, entries: seq<Entry>, now: real,
      plug: int)
    requires plug in slots && slots[plug].active
    ensures plug in Named(slots, resets, entries, now)
    ensures var kept := Named(slots, resets, entries, now)[plug];
            kept == slots[plug].(ip := kept.ip, pendingRemove := kept.pendingRemove)
  {
    if entries != [] {
      NamedKeepsSessions(slots, resets, entries[..|entries| - 1], now, plug);
    }
  }

  lemma SessionsAreNeverReaped(slots: Slots, resets: map<int, Reset>, entries: seq<Entry>, now: real, plug: int)
    requires plug in slots && slots[plug].active
    ensures Reaped(slots)[plug] == slots[plug]
    ensures plug in Reaped(Rostered(slots, resets, entries, now))
    ensures var kept := Reaped(Rostered(slots, resets, entries, now))[plug];
            kept == slots[plug].(ip := kept.ip, pendingRemove := kept.pendingRemove)
  {
    NamedKeepsSessions(slots, resets, entries, now, plug);
  }

  /**
   After a roster and a reap the idle slots are plugs the roster names; a named plug lacks a slot
   only if the table filled up.
   */
  lemma IdleSlotsAreNamed(slots: Slots, resets: map<int, Reset>, entries: seq<Entry>, now: real, plug: int)
    requires Sane(slots)
    ensures var left := Reaped(Rostered(slots, resets, entries, now));
            && (plug in left && !left[plug].active ==> Names(entries, plug))
            && (Names(entries, plug) && plug !in left ==> |Rostered(slots, resets, entries, now)| == MAX_PLUGS)
  {
    NamedStaysSane(slots, resets, entries, now);
    assert Rostered(slots, resets, entries, now).Keys == Named(slots, resets, entries, now).Keys;
  }

  lemma {:induction false} UnnamedIsUntouched(slots: Slots, resets: map<int, Reset>, entries: seq<Entry>, now: real,
      plug: int)
    requires !Names(entries, plug) && plug in slots
    ensures plug in Named(slots, resets, entries, now) && Named(slots, resets, entries, now)[plug] == slots[plug]
  {
    if entries != [] {
      var n := |entries| - 1;
      assert entries[..n + 1] == entries;
      NamesOneMore(entries, n);
      UnnamedIsUntouched(slots, resets, entries[..n], now, plug);
    }
  }

  /** Messages that neither replace the roster nor name the plug in a command. */
  predicate LeavesAlone(event: Event, plug: int) {
    && !event.Roster?
    && ((event.On? || event.Off? || event.SetLimits?) ==> event.plug != plug)
  }

  /** Flagged and idle, or gone; or, for a plug dropped in session, still there and unflagged. */
  predicate Dropped(slots: Slots, plug: int, inSession: bool) {
    if inSession then plug in slots && !slots[plug].pendingRemove
    else plug in slots ==> slots[plug].pendingRemove && !slots[plug].active
  }

  lemma {:induction false} DroppedPlugOverRun(slots: Slots, resets: map<int, Reset>, events: seq<Event>, plug: int,
      inSession: bool)
    requires Dropped(slots, plug, inSession) && forall e :: e in events ==> LeavesAlone(e, plug)
    ensures Dropped(Run(slots, resets, events), plug, inSession)
  {
    if events != [] {
      var n := |events| - 1;
      DroppedPlugOverRun(slots, resets, events[..n], plug, inSession);
      assert LeavesAlone(events[n], plug);
      DroppedPlugStep(Run(slots, resets, events[..n]), resets, events[n], plug, inSession);
    }
  }

  lemma DroppedPlugStep(slots: Slots, resets: map<int, Reset>, event: Event, plug: int, inSession: bool)
    requires Dropped(slots, plug, inSession) && LeavesAlone(event, plug)
    ensures Dropped(Step(slots, resets, event), plug, inSession)
  {
  }

  /**
   A plug the roster drops is gone at a later reap, whatever ticks, reaps and commands to other
   plugs come between, exactly when it was idle at the roster: one dropped during its session
   keeps its slot after the session ends, until another roster or a command to it.
   */
  lemma DroppedPlugLeavesIff(slots: Slots, resets: map<int, Reset>, entries: seq<Entry>, now: real, plug: int,
      events: seq<Event>)
    requires Sane(slots) && plug in slots && !Names(entries, plug)
    requires forall e :: e in events ==> LeavesAlone(e, plug)
    ensures plug !in Reaped(Run(Rostered(slots, resets, entries, now), resets, events)) <==> !slots[plug].active
  {
    UnnamedIsUntouched(slots, resets, entries, now, plug);
    DroppedPlugOverRun(Rostered(slots, resets, entries, now), resets, events, plug, slots[plug].active);
  }

  // ------------------------------------------------------- what each message does

  /** An ON starts a fresh session on its slot, under the limits sent or the defaults, and no other slot changes. */
  lemma OnStarts(slots: Slots, resets: map<int, Reset>, plug: int, ip: string, session: string, limits: Limits,
      now: real)
    requires plug in slots || (ip != "" && |slots| < 4)
    ensures var after := Step(slots, resets, On(plug, ip, session, limits, now));
            && after.Keys == slots.Keys + {plug} && (forall p :: p in slots && p != plug ==> after[p] == slots[p])
            && var s := after[plug];
               && s.active && !s.pendingRemove && s.session == session && s.kwh == 0.0 && s.start == now
               && s.lastTick == now
               && s.maxKwh == (if limits.maxKwh.Some? then limits.maxKwh.value else 30.0)
               && s.maxDuration == (if limits.maxDuration.Some? then limits.maxDuration.value else 14400)
               && s.cap == (if limits.cap.Some? && limits.cap.value > 0.0 then limits.cap.value else 16.0)
               && (ip != "" ==> s.ip == ip) && (ip == "" ==> s.ip == slots[plug].ip)
               && s.reset == (if plug in slots then slots[plug].reset
                              else if plug in resets then Some(resets[plug]) else None)
  {
  }

  /** A command to a plug without a slot is dropped when it names no address or the table is full. */
  lemma DroppedCommand(slots: Slots, resets: map<int, Reset>, plug: int, ip: string, session: string, limits: Limits,
      now: real)
    requires plug !in slots && (ip == "" || |slots| >= 4)
    ensures Step(slots, resets, On(plug, ip, session, limits, now)) == slots
    ensures Step(slots, resets, Off(plug, ip, now)) == slots
    ensures Step(slots, resets, SetLimits(plug, ip, limits, now)) == slots
  {
  }

  /** An OFF ends the session and keeps its energy; new limits change a running session's limits and nothing more. */
  lemma OffAndLimits(slots: Slots, resets: map<int, Reset>, plug: int, limits: Limits, now: real)
    requires plug in slots
    ensures var was, off := slots[plug], Step(slots, resets, Off(plug, "", now));
            off == slots[plug := was.(active := false, pendingRemove := false)]
    ensures var was, after := slots[plug], Step(slots, resets, SetLimits(plug, "", limits, now));
            if was.active
            then after == slots[plug := was.(
              pendingRemove := false,
              maxKwh := if limits.maxKwh.Some? then limits.maxKwh.value else 30.0,
              maxDuration := if limits.maxDuration.Some? then limits.maxDuration.value else 14400,
              cap := if limits.cap.Some? && limits.cap.value > 0.0 then limits.cap.value else was.cap)]
            else after == slots[plug := was.(pendingRemove := false)]
  {
  }

  /** A tick counts its watts for its seconds in session, cuts off past either limit, and shows what it counted. */
  lemma TickCounts(slots: Slots, resets: map<int, Reset>, plug: int, watts: real, now: real, wall: real)
    requires plug in slots && slots[plug].lastTick <= now && slots[plug].reset.None?
    ensures var was, after := slots[plug], Step(slots, resets, Tick(plug, watts, now, wall));
            var kwh := was.kwh + (watts / 1000.0) * ((now - was.lastTick) / 3600.0);
            if was.active
            then
              && after == slots[plug := was.(lastTick := now, kwh := kwh,
                                             active := now - was.start < was.maxDuration as real && kwh < was.maxKwh)]
              && FrameOf(was, watts, now, wall) == Agent.Frame(Agent.Round4(kwh), true, was.session)
            else
              && after == slots[plug := was.(lastTick := now)]
              && FrameOf(was, watts, now, wall) == Agent.Frame(0.0, false, "")
  {
    if now == slots[plug].lastTick {
      assert (now - slots[plug].lastTick) / 3600.0 == 0.0;
      assert (watts / 1000.0) * ((now - slots[plug].lastTick) / 3600.0) == 0.0;
    }
    assert Ticked(slots[plug], watts, now, wall).kwh
        == if slots[plug].active then slots[plug].kwh + (watts / 1000.0) * ((now - slots[plug].lastTick) / 3600.0)
           else slots[plug].kwh;
  }

  /** A due counter reset sets the counter, once. */
  lemma ResetSets(slot: Slot, watts: real, now: real, wall: real)
    requires slot.active && slot.reset.Some? && !slot.resetFired
    ensures var after := Ticked(slot, watts, now, wall);
            if wall >= slot.reset.value.deadline then after.kwh == slot.reset.value.kwh && after.resetFired
            else !after.resetFired
  {
  }

  /** A roster of one plug gives it a slot where there is room, its address, and its cap unless it is in session. */
  lemma RosterOfOne(slots: Slots, resets: map<int, Reset>, entry: Entry, now: real)
    requires entry.ip != "" && (entry.plug in slots || |slots| < 4)
    ensures var after := Rostered(slots, resets, [entry], now);
            && entry.plug in after && after[entry.plug].ip == entry.ip && !after[entry.plug].pendingRemove
            && (!after[entry.plug].active && entry.cap.Some? && entry.cap.value > 0.0 ==>
                 after[entry.plug].cap == entry.cap.value)
            && (after[entry.plug].active ==> entry.plug in slots && after[entry.plug].cap == slots[entry.plug].cap)
            && forall p :: p in slots && p != entry.plug ==>
                 p in after && after[p] == slots[p].(pendingRemove := slots[p].pendingRemove || !slots[p].active)
  {
    assert [entry][..0] == [];
    assert Named(slots, resets, [entry], now) == NameOne(slots, resets, entry, now);
    assert Names([entry], entry.plug) by {
      assert [entry][0].plug == entry.plug;
    }
  }

  // -------------------------------------------------------------- the table in place

  /** The gateway and its slot table, guarded by one lock: each handler runs alone. */
  class FakeGateway {
    const resets: map<int, Reset>
    var slots: Slots

    constructor (resets: map<int, Reset>)
      ensures this.resets == resets && slots == map[] && Sane(slots)
    {
      this.resets, slots := resets, map[];
    }

    method GetOrCreatePlug(plug: int, ip: string, now: real) returns (found: bool)
      requires Sane(slots)
      modifies this`slots
      ensures slots == FindOrAdd(old(slots), resets, plug, ip, now) && Sane(slots)
      ensures found <==> plug in slots
      ensures !found ==> slots == old(slots) && (ip == [] || |slots| == MAX_PLUGS)
    {
      FindStaysSane(slots, resets, plug, ip, now);
      if plug in slots {
        var slot := slots[plug];
        if ip != [] {
          slot := slot.(ip := ip);
        }
        slots := slots[plug := slot.(pendingRemove := false)];
        return true;
      }
      if ip == [] || |slots| >= MAX_PLUGS {
        return false;
      }
      var slot := NewSlot(ip, None, now);
      if plug in resets {
        slot := slot.(reset := Some(resets[plug]));
      }
      slots := slots[plug := slot];
      found := true;
    }

    method ApplyEntry(entry: Entry, now: real) returns (found: bool)
      requires Sane(slots)
      modifies this`slots
      ensures slots == NameOne(old(slots), resets, entry, now) && Sane(slots)
      ensures old(slots).Keys <= slots.Keys <= old(slots).Keys + {entry.plug}
      ensures found <==> entry.ip != [] && entry.plug in slots
    {
      if entry.ip == [] {
        return false;
      }
      found := GetOrCreatePlug(entry.plug, entry.ip, now);
      if found {
        var slot := slots[entry.plug];
        if !slot.active && entry.cap.Some? && entry.cap.value > 0.0 {
          slot := slot.(cap := entry.cap.value);
        }
        SlotCount(slots, entry.plug, slot);
        slots := slots[entry.plug := slot];
      }
    }

    /** A retained roster: fill the table, then flag the idle slots it does not name. */
    method ApplyRoster(entries: seq<Entry>, now: real)
      requires Sane(slots)
      modifies this`slots
      ensures slots == Rostered(old(slots), resets, entries, now) && Sane(slots)
    {
      ghost var before := slots;
      var seen: set<int> := {};
      for n := 0 to |entries|
        invariant slots == Named(before, resets, entries[..n], now) && Sane(slots)
        invariant forall p :: p in slots ==> (p in seen <==> Names(entries[..n], p))
      {
        assert entries[..n + 1][..n] == entries[..n];
        NamesOneMore(entries, n);
        var found := ApplyEntry(entries[n], now);
        if found {
          seen := seen + {entries[n].plug};
        }
      }
      assert entries[..|entries|] == entries;
      RosterStaysSane(before, resets, entries, now);
      FlagsAgree(slots, seen, entries);
      slots := map p | p in slots :: Flagged(slots[p], p in seen);
    }

    method ReapPending()
      requires Sane(slots)
      modifies this`slots
      ensures slots == Reaped(old(slots)) && Sane(slots)
    {
      FewerKeys(Reaped(slots), slots);
      var dead := set p | p in slots && slots[p].pendingRemove && !slots[p].active;
      slots := slots - dead;
    }

    method HandleOn(plug: int, ip: string, session: string, limits: Limits, now: real)
      requires Sane(slots)
      modifies this`slots
      ensures slots == Step(old(slots), resets, On(plug, ip, session, limits, now)) && Sane(slots)
    {
      StepStaysSane(slots, resets, On(plug, ip, session, limits, now));
      var found := GetOrCreatePlug(plug, ip, now);
      if found {
        slots := slots[plug := Started(slots[plug], session, limits, now)];
      }
    }

    method HandleOff(plug: int, ip: string, now: real) returns (kwh: Option<real>)
      requires Sane(slots)
      modifies this`slots
      ensures slots == Step(old(slots), resets, Off(plug, ip, now)) && Sane(slots)
      ensures kwh.Some? <==> plug in slots
      ensures plug in old(slots) ==> kwh == Some(old(slots)[plug].kwh) && !slots[plug].active
    {
      StepStaysSane(slots, resets, Off(plug, ip, now));
      var found := GetOrCreatePlug(plug, ip, now);
      if !found {
        return None;
      }
      kwh := Some(slots[plug].kwh);
      slots := slots[plug := slots[plug].(active := false)];
    }

    method HandleSetLimits(plug: int, ip: string, limits: Limits, now: real)
      requires Sane(slots)
      modifies this`slots
      ensures slots == Step(old(slots), resets, SetLimits(plug, ip, limits, now)) && Sane(slots)
    {
      StepStaysSane(slots, resets, SetLimits(plug, ip, limits, now));
      var found := GetOrCreatePlug(plug, ip, now);
      if found {
        slots := slots[plug := Limited(slots[plug], limits)];
      }
    }

    /** One plug's share of the telemetry sweep. */
    method TickAndBuildTelemetry(plug: int, watts: real, now: real, wall: real) returns (frame: Agent.Frame)
      requires Sane(slots) && plug in slots
      modifies this`slots
      ensures slots == Step(old(slots), resets, Tick(plug, watts, now, wall)) && Sane(slots)
      ensures frame == FrameOf(old(slots)[plug], watts, now, wall)
    {
      StepStaysSane(slots, resets, Tick(plug, watts, now, wall));
      var slot := slots[plug];
      var gap := now - slot.lastTick;
      slot := slot.(lastTick := now);
      frame := Agent.Frame(0.0, false, "");
      if slot.active {
        if gap > 0.0 {
          slot := slot.(kwh := slot.kwh + (watts / 1000.0) * (gap / 3600.0));
        }
        assert slot == Metered(slots[plug], watts, now);
        if slot.reset.Some? && !slot.resetFired && wall >= slot.reset.value.deadline {
          slot := slot.(resetFired := true, kwh := slot.reset.value.kwh);
        } else if now - slot.start >= slot.maxDuration as real || slot.kwh >= slot.maxKwh {
          slot := slot.(active := false);
        }
        frame := Agent.Frame(Agent.Round4(slot.kwh), true, slot.session);
      }
      slots := slots[plug := slot];
    }
  }

  lemma FlagsAgree(slots: Slots, seen: set<int>, entries: seq<Entry>)
    requires forall p :: p in slots ==> (p in seen <==> Names(entries, p))
    ensures (map p | p in slots :: Flagged(slots[p], p in seen))
              == (map p | p in slots :: Flagged(slots[p], Names(entries, p)))
  {
  }

  lemma NamesOneMore(entries: seq<Entry>, n: nat)
    requires n < |entries|
    ensures forall p :: Names(entries[..n + 1], p) <==>
              Names(entries[..n], p) || (p == entries[n].plug && entries[n].ip != [])
  {
    forall p
      ensures Names(entries[..n + 1], p) <==>
                Names(entries[..n], p) || (p == entries[n].plug && entries[n].ip != [])
    {
      if Names(entries[..n], p) {
        var i :| 0 <= i < n && entries[..n][i].plug == p && entries[..n][i].ip != [];
        assert entries[..n + 1][i].plug == p && entries[..n + 1][i].ip != [];
      }
      if p == entries[n].plug && entries[n].ip != [] {
        assert entries[..n + 1][n].plug == p && entries[..n + 1][n].ip != [];
      }
      if Names(entries[..n + 1], p) {
        var i :| 0 <= i < n + 1 && entries[..n + 1][i].plug == p && entries[..n + 1][i].ip != [];
        assert i < n ==> entries[..n][i].plug == p && entries[..n][i].ip != [];
      }
    }
  }
}
