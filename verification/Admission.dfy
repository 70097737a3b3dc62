/**
 Circuit admission (backend/services/caps.py) under concurrent session starts
 (backend/routers/sessions.py, backend/services/session_start.py): any number of start
 transactions, each taking the plug row lock, then the group row lock, then reading the load.

 Plugs are numbered by position and group and cap settings are fixed. Currents are in amps.
 */
module Admission {
  import opened Tariffs

  const DEFAULT_PLUG_CAP: real := 16.0
  const SLACK: real := 0.000001

  datatype Plug = Plug(group: Option<int>, cap: Option<real>)

  /** Limits of the groups that exist; None is a group without a limit. */
  datatype Site = Site(plugs: seq<Plug>, limits: map<int, Option<real>>)

  datatype Status = Available | Occupied | Offline | Maintenance

  datatype Session = Session(plug: nat, active: bool)

  function EffectiveCap(plug: Plug): real {
    if plug.cap.Some? then plug.cap.value else DEFAULT_PLUG_CAP
  }

  predicate WellFormed(site: Site) {
    forall p :: 0 <= p < |site.plugs| ==> EffectiveCap(site.plugs[p]) >= 0.0
  }

  /** The row a start on this plug locks: its group's, when that exists. */
  function CircuitOf(site: Site, p: nat): Option<int>
    requires p < |site.plugs|
  {
    var group := site.plugs[p].group;
    if group.Some? && group.value in site.limits then group else None
  }

  function LimitOf(site: Site, p: nat): Option<real>
    requires p < |site.plugs|
  {
    var circuit := CircuitOf(site, p);
    if circuit.Some? then site.limits[circuit.value] else None
  }

  /** A plug's share of a circuit's load, for every plug but the one left out. */
  function Share(site: Site, group: int, without: int, p: nat): real {
    if p < |site.plugs| && site.plugs[p].group == Some(group) && p != without then EffectiveCap(site.plugs[p]) else 0.0
  }

  /** The load the code reads: one share for each active session. */
  function CircuitLoad(site: Site, sessions: seq<Session>, group: int, without: int): real {
    if sessions == [] then 0.0 else
    var last := sessions[|sessions| - 1];
    CircuitLoad(site, sessions[..|sessions| - 1], group, without)
      + if last.active then Share(site, group, without, last.plug) else 0.0
  }

  predicate ActiveSession(sessions: seq<Session>, i: nat, p: nat) {
    i < |sessions| && sessions[i].active && sessions[i].plug == p
  }

  predicate InUse(sessions: seq<Session>, p: nat) {
    exists i :: 0 <= i < |sessions| && ActiveSession(sessions, i, p)
  }

  /** The load that matters: one share for each plug in use, over the first `n` plugs. */
  function Committed(site: Site, sessions: seq<Session>, group: int, without: int, n: nat): real {
    if n == 0 then 0.0 else
    Committed(site, sessions, group, without, n - 1)
      + if InUse(sessions, n - 1) then Share(site, group, without, n - 1) else 0.0
  }

  function CommittedLoad(site: Site, sessions: seq<Session>, group: int, without: int): real {
    Committed(site, sessions, group, without, |site.plugs|)
  }

  predicate WithinLimit(site: Site, sessions: seq<Session>, group: int) {
    group in site.limits && site.limits[group].Some? ==>
      CommittedLoad(site, sessions, group, -1) <= site.limits[group].value + SLACK
  }

  /** At most one active session a plug. */
  ghost predicate Exclusive(sessions: seq<Session>) {
    forall i, j, p :: ActiveSession(sessions, i, p) && ActiveSession(sessions, j, p) ==> i == j
  }

  // --------------------------------------------------------------- the two loads

  lemma {:induction false} InUseOnlyDiffersAt(site: Site, before: seq<Session>, after: seq<Session>, group: int,
      without: int, p: nat, n: nat)
    requires WellFormed(site)
    requires forall q :: 0 <= q < n && q != p ==> InUse(before, q) == InUse(after, q)
    ensures var change := if p >= n || InUse(before, p) == InUse(after, p) then 0.0
                          else if InUse(after, p) then Share(site, group, without, p)
                          else -Share(site, group, without, p);
            Committed(site, after, group, without, n) == Committed(site, before, group, without, n) + change
  {
    if n > 0 {
      InUseOnlyDiffersAt(site, before, after, group, without, p, n - 1);
    }
  }

  lemma {:induction false} NothingInUse(site: Site, group: int, without: int, n: nat)
    ensures Committed(site, [], group, without, n) == 0.0
  {
    if n > 0 {
      NothingInUse(site, group, without, n - 1);
      assert !InUse([], n - 1);
    }
  }

  lemma PushInUse(sessions: seq<Session>, s: Session, q: nat)
    ensures InUse(sessions + [s], q) <==> InUse(sessions, q) || (s.active && s.plug == q)
  {
    var more := sessions + [s];
    if InUse(sessions, q) {
      var i :| 0 <= i < |sessions| && ActiveSession(sessions, i, q);
      assert ActiveSession(more, i, q);
    }
    if s.active && s.plug == q {
      assert ActiveSession(more, |sessions|, q);
    }
    if InUse(more, q) {
      var i :| 0 <= i < |more| && ActiveSession(more, i, q);
      assert i < |sessions| ==> ActiveSession(sessions, i, q);
    }
  }

  /**
   The load read from the sessions never understates the plugs in use, and it is exact when no
   plug has two active sessions.
   */
  lemma {:induction false} LoadCoversCommitted(site: Site, sessions: seq<Session>, group: int, without: int)
    requires WellFormed(site)
    ensures CommittedLoad(site, sessions, group, without) <= CircuitLoad(site, sessions, group, without)
    ensures Exclusive(sessions) ==>
              CommittedLoad(site, sessions, group, without) == CircuitLoad(site, sessions, group, without)
  {
    if sessions == [] {
      NothingInUse(site, group, without, |site.plugs|);
    } else {
      var n := |sessions| - 1;
      var rest, s := sessions[..n], sessions[n];
      assert sessions == rest + [s];
      LoadCoversCommitted(site, rest, group, without);
      forall q: nat ensures InUse(sessions, q) <==> InUse(rest, q) || (s.active && s.plug == q) {
        PushInUse(rest, s, q);
      }
      InUseOnlyDiffersAt(site, rest, sessions, group, without, s.plug, |site.plugs|);
      if Exclusive(sessions) {
        ExclusiveBefore(sessions);
      }
    }
  }

  lemma ExclusiveBefore(sessions: seq<Session>)
    requires sessions != [] && Exclusive(sessions)
    ensures var n := |sessions| - 1;
            Exclusive(sessions[..n]) && (sessions[n].active ==> !InUse(sessions[..n], sessions[n].plug))
  {
    var n := |sessions| - 1;
    forall i, j, p | ActiveSession(sessions[..n], i, p) && ActiveSession(sessions[..n], j, p)
      ensures i == j
    {
      assert ActiveSession(sessions, i, p) && ActiveSession(sessions, j, p);
    }
    if sessions[n].active && InUse(sessions[..n], sessions[n].plug) {
      var p := sessions[n].plug;
      var i :| 0 <= i < n && ActiveSession(sessions[..n], i, p);
      assert ActiveSession(sessions, i, p) && ActiveSession(sessions, n, p);
    }
  }

  // ------------------------------------------------------------------- the protocol

  /** How far a start transaction has got with its plug. */
  datatype Phase =
    | Idle
    | PlugLocked(plug: nat)
    | GroupLocked(plug: nat)
    | Admitted(plug: nat)

  datatype State = State(sessions: seq<Session>, status: seq<Status>, starts: seq<Phase>)

  datatype Step =
    | LockPlug(t: nat, p: nat)
    | LockGroup(t: nat)
    | CheckLoad(t: nat)
    | Commit(t: nat)
    | Abort(t: nat)
    | End(session: nat)
    | SetStatus(p: nat, to: Status)

  predicate Shaped(site: Site, s: State) {
    && |s.status| == |site.plugs|
    && (forall t :: 0 <= t < |s.starts| && !s.starts[t].Idle? ==> s.starts[t].plug < |site.plugs|)
    && (forall i :: 0 <= i < |s.sessions| ==> s.sessions[i].plug < |site.plugs|)
  }

  predicate HoldsPlug(s: State, t: nat, p: nat) {
    t < |s.starts| && !s.starts[t].Idle? && s.starts[t].plug == p
  }

  predicate HoldsGroup(site: Site, s: State, t: nat, group: int) {
    && t < |s.starts| && (s.starts[t].GroupLocked? || s.starts[t].Admitted?)
    && s.starts[t].plug < |site.plugs| && CircuitOf(site, s.starts[t].plug) == Some(group)
  }

  predicate Admits(site: Site, sessions: seq<Session>, p: nat)
    requires p < |site.plugs|
  {
    LimitOf(site, p).Some? ==>
      CircuitLoad(site, sessions, site.plugs[p].group.value, p) + EffectiveCap(site.plugs[p])
        <= LimitOf(site, p).value + SLACK
  }

  /** One step; a step whose lock is taken, or that does not apply, waits and changes nothing. */
  function Next(site: Site, s: State, step: Step): State
    requires Shaped(site, s)
  {
    match step
    case LockPlug(t, p) =>
      if t < |s.starts| && s.starts[t].Idle? && p < |site.plugs|
         && (forall u :: 0 <= u < |s.starts| ==> !HoldsPlug(s, u, p))
         && s.status[p] == Available
      then s.(starts := s.starts[t := PlugLocked(p)]) else s
    case LockGroup(t) =>
      if t < |s.starts| && s.starts[t].PlugLocked?
         && (CircuitOf(site, s.starts[t].plug).Some? ==>
               forall u :: 0 <= u < |s.starts| ==> !HoldsGroup(site, s, u, CircuitOf(site, s.starts[t].plug).value))
      then s.(starts := s.starts[t := GroupLocked(s.starts[t].plug)]) else s
    case CheckLoad(t) =>
      if t < |s.starts| && s.starts[t].GroupLocked?
      then
        var p := s.starts[t].plug;
        s.(starts := s.starts[t := if Admits(site, s.sessions, p) then Admitted(p) else Idle])
      else s
    case Commit(t) =>
      if t < |s.starts| && s.starts[t].Admitted?
      then
        var p := s.starts[t].plug;
        State(s.sessions + [Session(p, true)], s.status[p := Occupied], s.starts[t := Idle])
      else s
    case Abort(t) =>
      if t < |s.starts| then s.(starts := s.starts[t := Idle]) else s
    case End(i) =>
      if i < |s.sessions| && s.sessions[i].active
      then s.(sessions := s.sessions[i := s.sessions[i].(active := false)],
              status := s.status[s.sessions[i].plug := Available])
      else s
    case SetStatus(p, to) =>
      if p < |site.plugs| then s.(status := s.status[p := to]) else s
  }

  /** One start holds a circuit's row at a time, and what it was admitted for still fits. */
  ghost predicate Safe(site: Site, s: State) {
    && Shaped(site, s)
    && (forall t, u, g :: HoldsGroup(site, s, t, g) && HoldsGroup(site, s, u, g) ==> t == u)
    && (forall g :: g in site.limits ==> WithinLimit(site, s.sessions, g))
    && (forall t :: 0 <= t < |s.starts| ==> FitsIfAdmitted(site, s, t))
  }

  predicate FitsIfAdmitted(site: Site, s: State, t: nat)
    requires t < |s.starts| && (!s.starts[t].Idle? ==> s.starts[t].plug < |site.plugs|)
  {
    s.starts[t].Admitted? && LimitOf(site, s.starts[t].plug).Some? ==>
      var p := s.starts[t].plug;
      CommittedLoad(site, s.sessions, site.plugs[p].group.value, p) + EffectiveCap(site.plugs[p])
        <= LimitOf(site, p).value + SLACK
  }

  /** The load without a plug and the whole load differ by that plug's share, if it is in use. */
  lemma {:induction false} Without(site: Site, sessions: seq<Session>, group: int, p: nat, n: nat)
    requires WellFormed(site)
    ensures Committed(site, sessions, group, -1, n)
         == Committed(site, sessions, group, p, n)
            + if p < n && InUse(sessions, p) then Share(site, group, -1, p) else 0.0
  {
    if n > 0 {
      Without(site, sessions, group, p, n - 1);
    }
  }

  /** Adding an active session puts its plug in use and changes no other plug. */
  lemma PushCommitted(site: Site, sessions: seq<Session>, p: nat, group: int, without: int)
    requires WellFormed(site) && p < |site.plugs|
    ensures CommittedLoad(site, sessions + [Session(p, true)], group, without)
         == CommittedLoad(site, sessions, group, without)
            + if InUse(sessions, p) then 0.0 else Share(site, group, without, p)
  {
    var more := sessions + [Session(p, true)];
    forall q: nat ensures InUse(more, q) <==> InUse(sessions, q) || p == q {
      PushInUse(sessions, Session(p, true), q);
    }
    InUseOnlyDiffersAt(site, sessions, more, group, without, p, |site.plugs|);
  }

  /** Ending a session can only lower a load. */
  lemma EndCommitted(site: Site, sessions: seq<Session>, i: nat, group: int, without: int)
    requires WellFormed(site) && i < |sessions| && sessions[i].active
    ensures CommittedLoad(site, sessions[i := sessions[i].(active := false)], group, without)
         <= CommittedLoad(site, sessions, group, without)
  {
    var less, p := sessions[i := sessions[i].(active := false)], sessions[i].plug;
    assert ActiveSession(sessions, i, p);
    forall q: nat | q != p ensures InUse(less, q) <==> InUse(sessions, q) {
      if InUse(sessions, q) {
        var j :| 0 <= j < |sessions| && ActiveSession(sessions, j, q);
        assert ActiveSession(less, j, q);
      }
      if InUse(less, q) {
        var j :| 0 <= j < |sessions| && ActiveSession(less, j, q);
        assert ActiveSession(sessions, j, q);
      }
    }
    InUseOnlyDiffersAt(site, sessions, less, group, without, p, |site.plugs|);
  }

  lemma CommitStaysSafe(site: Site, s: State, t: nat)
    requires WellFormed(site) && Safe(site, s) && t < |s.starts| && s.starts[t].Admitted?
    ensures Safe(site, Next(site, s, Commit(t)))
  {
    var next, p := Next(site, s, Commit(t)), s.starts[t].plug;
    LocksOnlyReleased(site, s, next, t);
    assert FitsIfAdmitted(site, s, t);
    forall g | g in site.limits ensures WithinLimit(site, next.sessions, g) {
      PushCommitted(site, s.sessions, p, g, -1);
      Without(site, s.sessions, g, p, |site.plugs|);
      assert WithinLimit(site, s.sessions, g);
    }
    forall u | 0 <= u < |next.starts| ensures FitsIfAdmitted(site, next, u) {
      assert FitsIfAdmitted(site, s, u);
      if u != t && s.starts[u].Admitted? && LimitOf(site, s.starts[u].plug).Some? {
        var g := site.plugs[s.starts[u].plug].group.value;
        assert HoldsGroup(site, s, u, g);
        assert CircuitOf(site, p) == Some(g) ==> HoldsGroup(site, s, t, g);
        PushCommitted(site, s.sessions, p, g, s.starts[u].plug);
      }
    }
  }

  /** Releasing one start's locks gives no other start a lock. */
  lemma LocksOnlyReleased(site: Site, s: State, next: State, t: nat)
    requires Safe(site, s) && t < |s.starts| && next.starts == s.starts[t := Idle]
    ensures forall u, v, g :: HoldsGroup(site, next, u, g) && HoldsGroup(site, next, v, g) ==> u == v
  {
    forall u, v, g | HoldsGroup(site, next, u, g) && HoldsGroup(site, next, v, g)
      ensures u == v
    {
      assert HoldsGroup(site, s, u, g) && HoldsGroup(site, s, v, g);
    }
  }

  lemma CheckStaysSafe(site: Site, s: State, t: nat)
    requires WellFormed(site) && Safe(site, s) && t < |s.starts| && s.starts[t].GroupLocked?
    ensures Safe(site, Next(site, s, CheckLoad(t)))
  {
    var next, p := Next(site, s, CheckLoad(t)), s.starts[t].plug;
    forall u, v, g | HoldsGroup(site, next, u, g) && HoldsGroup(site, next, v, g)
      ensures u == v
    {
      assert HoldsGroup(site, s, u, g) && HoldsGroup(site, s, v, g);
    }
    forall u | 0 <= u < |next.starts| ensures FitsIfAdmitted(site, next, u) {
      assert FitsIfAdmitted(site, s, u);
      if u == t && LimitOf(site, p).Some? {
        LoadCoversCommitted(site, s.sessions, site.plugs[p].group.value, p);
      }
    }
  }

  lemma EndStaysSafe(site: Site, s: State, i: nat)
    requires WellFormed(site) && Safe(site, s) && i < |s.sessions| && s.sessions[i].active
    ensures Safe(site, Next(site, s, End(i)))
  {
    var next := Next(site, s, End(i));
    forall u, v, g | HoldsGroup(site, next, u, g) && HoldsGroup(site, next, v, g)
      ensures u == v
    {
      assert HoldsGroup(site, s, u, g) && HoldsGroup(site, s, v, g);
    }
    forall g | g in site.limits ensures WithinLimit(site, next.sessions, g) {
      EndCommitted(site, s.sessions, i, g, -1);
      assert WithinLimit(site, s.sessions, g);
    }
    forall u | 0 <= u < |next.starts| ensures FitsIfAdmitted(site, next, u) {
      assert FitsIfAdmitted(site, s, u);
      if s.starts[u].Admitted? && LimitOf(site, s.starts[u].plug).Some? {
        EndCommitted(site, s.sessions, i, site.plugs[s.starts[u].plug].group.value, s.starts[u].plug);
      }
    }
  }

  lemma LockStaysSafe(site: Site, s: State, step: Step)
    requires WellFormed(site) && Safe(site, s) && (step.LockPlug? || step.LockGroup? || step.Abort? || step.SetStatus?)
    ensures Safe(site, Next(site, s, step))
  {
    var next := Next(site, s, step);
    forall u, v, g | HoldsGroup(site, next, u, g) && HoldsGroup(site, next, v, g)
      ensures u == v
    {
      assert HoldsGroup(site, s, u, g) || (step.LockGroup? && step.t == u);
      assert HoldsGroup(site, s, v, g) || (step.LockGroup? && step.t == v);
    }
    forall u | 0 <= u < |next.starts| ensures FitsIfAdmitted(site, next, u) {
      assert FitsIfAdmitted(site, s, u);
    }
  }

  lemma StepStaysSafe(site: Site, s: State, step: Step)
    requires WellFormed(site) && Safe(site, s)
    ensures Safe(site, Next(site, s, step))
  {
    match step
    case Commit(t) => if t < |s.starts| && s.starts[t].Admitted? { CommitStaysSafe(site, s, t); }
    case CheckLoad(t) => if t < |s.starts| && s.starts[t].GroupLocked? { CheckStaysSafe(site, s, t); }
    case End(i) => if i < |s.sessions| && s.sessions[i].active { EndStaysSafe(site, s, i); }
    case LockPlug(t, p) => LockStaysSafe(site, s, step);
    case LockGroup(t) => LockStaysSafe(site, s, step);
    case Abort(t) => LockStaysSafe(site, s, step);
    case SetStatus(p, to) => LockStaysSafe(site, s, step);
  }

  function Opening(site: Site, starts: nat): State {
    State([], seq(|site.plugs|, _ => Available), seq(starts, _ => Idle))
  }

  function Run(site: Site, s: State, steps: seq<Step>): (end: State)
    requires Shaped(site, s)
    ensures Shaped(site, end)
  {
    if steps == [] then s else Next(site, Run(site, s, steps[..|steps| - 1]), steps[|steps| - 1])
  }

  /**
   Whatever the interleaving of starts, ends and even operator status writes, the plugs in use
   on a circuit never add up to more than its limit and the code's slack.
   */
  lemma {:induction false} CircuitNeverOverloads(site: Site, starts: nat, steps: seq<Step>)
    requires WellFormed(site) && forall g :: g in site.limits && site.limits[g].Some? ==> site.limits[g].value >= 0.0
    ensures Safe(site, Run(site, Opening(site, starts), steps))
    ensures forall g :: g in site.limits ==> WithinLimit(site, Run(site, Opening(site, starts), steps).sessions, g)
  {
    if steps == [] {
      forall g | g in site.limits ensures WithinLimit(site, [], g) {
        NothingInUse(site, g, -1, |site.plugs|);
      }
    } else {
      CircuitNeverOverloads(site, starts, steps[..|steps| - 1]);
      StepStaysSafe(site, Run(site, Opening(site, starts), steps[..|steps| - 1]), steps[|steps| - 1]);
    }
  }

  // ------------------------------------------------------------- the limit in amps

  /** Plug `p` belongs to the group and has an active session. */
  predicate Draws(site: Site, sessions: seq<Session>, group: int, p: nat) {
    && p < |site.plugs| && site.plugs[p].group == Some(group)
    && exists i :: 0 <= i < |sessions| && sessions[i].active && sessions[i].plug == p
  }

  /** The caps written on those plugs, over the first `n`. */
  function OwnCaps(site: Site, sessions: seq<Session>, group: int, n: nat): real {
    if n == 0 then 0.0 else
    OwnCaps(site, sessions, group, n - 1)
      + if Draws(site, sessions, group, n - 1) && site.plugs[n - 1].cap.Some? then site.plugs[n - 1].cap.value else 0.0
  }

  /** How many of them have no cap of their own. */
  function Uncapped(site: Site, sessions: seq<Session>, group: int, n: nat): nat {
    if n == 0 then 0 else
    Uncapped(site, sessions, group, n - 1)
      + if Draws(site, sessions, group, n - 1) && site.plugs[n - 1].cap.None? then 1 else 0
  }

  lemma {:induction false} CommittedInAmps(site: Site, sessions: seq<Session>, group: int, n: nat)
    requires n <= |site.plugs|
    ensures Committed(site, sessions, group, -1, n)
         == OwnCaps(site, sessions, group, n) + 16.0 * Uncapped(site, sessions, group, n) as real
  {
    if n > 0 {
      CommittedInAmps(site, sessions, group, n - 1);
      DrawsInUse(sessions, n - 1);
    }
  }

  lemma DrawsInUse(sessions: seq<Session>, p: nat)
    ensures InUse(sessions, p) <==> exists i :: 0 <= i < |sessions| && sessions[i].active && sessions[i].plug == p
  {
    if i :| 0 <= i < |sessions| && sessions[i].active && sessions[i].plug == p {
      assert ActiveSession(sessions, i, p);
    }
  }

  /**
   The promise in amps: on every circuit with a limit, over every run, the caps written on the plugs
   in use and 16 A for each of them without one stay within the limit and a millionth of an amp.
   */
  lemma AmpsStayWithinLimit(site: Site, starts: nat, steps: seq<Step>, group: int)
    requires WellFormed(site) && forall g :: g in site.limits && site.limits[g].Some? ==> site.limits[g].value >= 0.0
    requires group in site.limits && site.limits[group].Some?
    ensures var sessions := Run(site, Opening(site, starts), steps).sessions;
            OwnCaps(site, sessions, group, |site.plugs|) + 16.0 * Uncapped(site, sessions, group, |site.plugs|) as real
              <= site.limits[group].value + 0.000001
  {
    CircuitNeverOverloads(site, starts, steps);
    CommittedInAmps(site, Run(site, Opening(site, starts), steps).sessions, group, |site.plugs|);
  }

  /** And no tighter: with one session to a plug, a start that keeps the circuit within it is admitted. */
  lemma FittingStartIsAdmitted(site: Site, sessions: seq<Session>, p: nat)
    requires WellFormed(site) && Exclusive(sessions) && p < |site.plugs| && LimitOf(site, p).Some?
    ensures var group, more := site.plugs[p].group.value, sessions + [Session(p, true)];
            Admits(site, sessions, p) <==>
              OwnCaps(site, more, group, |site.plugs|) + 16.0 * Uncapped(site, more, group, |site.plugs|) as real
                <= site.limits[group].value + 0.000001
  {
    AdmitsIffItFits(site, State(sessions, [], []), p);
    CommittedInAmps(site, sessions + [Session(p, true)], site.plugs[p].group.value, |site.plugs|);
  }

  /** A plug without a group, in one that is gone, or in one without a limit is never turned away. */
  lemma UnlimitedIsAdmitted(site: Site, sessions: seq<Session>, p: nat)
    requires p < |site.plugs|
    requires
      || site.plugs[p].group.None?
      || site.plugs[p].group.value !in site.limits || site.limits[site.plugs[p].group.value].None?
    ensures Admits(site, sessions, p)
  {
  }

  /** A free plug's start, with nothing else holding its rows, ends in one more active session there. */
  lemma StartGoesThrough(site: Site, s: State, t: nat, p: nat)
    requires Shaped(site, s) && t < |s.starts| && p < |site.plugs| && s.status[p] == Available
    requires forall u :: 0 <= u < |s.starts| ==> s.starts[u].Idle?
    ensures var after := Run(site, s, [LockPlug(t, p), LockGroup(t), CheckLoad(t), Commit(t)]);
            if Admits(site, s.sessions, p)
            then after.sessions == s.sessions + [Session(p, true)] && after.status == s.status[p := Occupied]
            else after.sessions == s.sessions && after.status == s.status
  {
    var steps := [LockPlug(t, p), LockGroup(t), CheckLoad(t), Commit(t)];
    var locked := Next(site, s, steps[0]);
    assert locked == s.(starts := s.starts[t := PlugLocked(p)]);
    var grouped := Next(site, locked, steps[1]);
    assert grouped == s.(starts := s.starts[t := GroupLocked(p)]);
    assert steps[..3][..2] == steps[..2] && steps[..2][..1] == steps[..1] && steps[..1][..0] == [];
    assert Run(site, s, steps[..1]) == locked;
    assert Run(site, s, steps[..2]) == grouped;
  }

  /** An aborted start lets go of its rows and changes nothing else; one under way takes no other plug. */
  lemma AbortReleases(site: Site, s: State, t: nat, p: nat)
    requires Shaped(site, s) && t < |s.starts|
    ensures Next(site, s, Abort(t)) == State(s.sessions, s.status, s.starts[t := Idle])
    ensures !s.starts[t].Idle? ==> Next(site, s, LockPlug(t, p)) == s
  {
  }

  /** Ending a session frees its plug, and no other session or plug changes. */
  lemma EndFrees(site: Site, s: State, i: nat)
    requires Shaped(site, s) && i < |s.sessions| && s.sessions[i].active
    ensures var after := Next(site, s, End(i));
            && after.sessions == s.sessions[i := Session(s.sessions[i].plug, false)]
            && after.status == s.status[s.sessions[i].plug := Available] && after.starts == s.starts
  {
  }

  // -------------------------------------------------------- one session to a plug

  /** A plug in use is not Available, and no start holds the row of a plug in use. */
  ghost predicate Guarded(site: Site, s: State) {
    && Shaped(site, s)
    && Exclusive(s.sessions)
    && (forall p :: 0 <= p < |s.status| && InUse(s.sessions, p) ==> s.status[p] != Available)
    && (forall t, u, p :: HoldsPlug(s, t, p) && HoldsPlug(s, u, p) ==> t == u)
    && (forall t, p :: HoldsPlug(s, t, p) ==> !InUse(s.sessions, p))
  }

  /** Every step of the start and end paths keeps plugs to one session each. */
  lemma StepStaysGuarded(site: Site, s: State, step: Step)
    requires Guarded(site, s) && !step.SetStatus?
    ensures Guarded(site, Next(site, s, step))
  {
    var next := Next(site, s, step);
    match step
    case Commit(t) =>
      if t < |s.starts| && s.starts[t].Admitted? {
        CommitStaysGuarded(site, s, t);
      }
    case End(i) =>
      if i < |s.sessions| && s.sessions[i].active {
        EndStaysGuarded(site, s, i);
      }
    case _ =>
      LockStaysGuarded(site, s, step);
  }

  lemma LockStaysGuarded(site: Site, s: State, step: Step)
    requires Guarded(site, s) && (step.LockPlug? || step.LockGroup? || step.CheckLoad? || step.Abort?)
    ensures Guarded(site, Next(site, s, step))
  {
    var next := Next(site, s, step);
    forall t: nat, p: nat | HoldsPlug(next, t, p)
      ensures HoldsPlug(s, t, p) || (step.LockPlug? && step.t == t && step.p == p && s.status[p] == Available)
    {
    }
  }

  lemma CommitStaysGuarded(site: Site, s: State, t: nat)
    requires Guarded(site, s) && t < |s.starts| && s.starts[t].Admitted?
    ensures Guarded(site, Next(site, s, Commit(t)))
  {
    var next, p := Next(site, s, Commit(t)), s.starts[t].plug;
    assert HoldsPlug(s, t, p);
    forall q: nat ensures InUse(next.sessions, q) <==> InUse(s.sessions, q) || p == q {
      PushInUse(s.sessions, Session(p, true), q);
    }
    forall i: nat, j: nat, q: nat | ActiveSession(next.sessions, i, q) && ActiveSession(next.sessions, j, q)
      ensures i == j
    {
      assert i < |s.sessions| ==> ActiveSession(s.sessions, i, q);
      assert j < |s.sessions| ==> ActiveSession(s.sessions, j, q);
    }
    forall u, q | HoldsPlug(next, u, q)
      ensures HoldsPlug(s, u, q) && u != t && q != p
    {
      assert HoldsPlug(s, u, q);
    }
  }

  lemma EndStaysGuarded(site: Site, s: State, i: nat)
    requires Guarded(site, s) && i < |s.sessions| && s.sessions[i].active
    ensures Guarded(site, Next(site, s, End(i)))
  {
    var next, p := Next(site, s, End(i)), s.sessions[i].plug;
    assert ActiveSession(s.sessions, i, p);
    forall j, q | ActiveSession(next.sessions, j, q)
      ensures ActiveSession(s.sessions, j, q) && q != p
    {
      assert ActiveSession(s.sessions, j, q);
    }
    forall q: nat | InUse(next.sessions, q)
      ensures InUse(s.sessions, q) && q != p
    {
      var j :| 0 <= j < |next.sessions| && ActiveSession(next.sessions, j, q);
      assert ActiveSession(s.sessions, j, q);
    }
    forall t, q | HoldsPlug(next, t, q) ensures HoldsPlug(s, t, q) {
    }
  }

  /** A status write keeps the guard exactly when it does not free a plug in use. */
  lemma StatusWriteIff(site: Site, s: State, p: nat, to: Status)
    requires Guarded(site, s) && p < |site.plugs|
    ensures Guarded(site, Next(site, s, SetStatus(p, to))) <==> !(to == Available && InUse(s.sessions, p))
  {
    var next := Next(site, s, SetStatus(p, to));
    assert next.status[p] == to;
    forall t, q ensures HoldsPlug(next, t, q) == HoldsPlug(s, t, q) {
    }
  }

  /** The general status setter can free a plug in use, and a second session then starts on it. */
  lemma FreedPlugStartsTwice(site: Site, s: State, t: nat, p: nat)
    requires Guarded(site, s) && p < |site.plugs| && InUse(s.sessions, p)
    requires t < |s.starts| && s.starts[t].Idle? && CircuitOf(site, p).None?
    ensures !Exclusive(Run(site, s,
              [SetStatus(p, Available), LockPlug(t, p), LockGroup(t), CheckLoad(t), Commit(t)]).sessions)
  {
    var steps := [SetStatus(p, Available), LockPlug(t, p), LockGroup(t), CheckLoad(t), Commit(t)];
    var freed := Next(site, s, steps[0]);
    forall u | 0 <= u < |freed.starts| ensures !HoldsPlug(freed, u, p) {
      assert !HoldsPlug(s, u, p);
    }
    assert freed.status[p] == Available;
    var locked := Next(site, freed, steps[1]);
    assert locked.starts[t] == PlugLocked(p);
    var grouped := Next(site, locked, steps[2]);
    assert grouped.starts[t] == GroupLocked(p);
    var admitted := Next(site, grouped, steps[3]);
    assert admitted.starts[t] == Admitted(p);
    assert steps[..4][..3] == steps[..3] && steps[..3][..2] == steps[..2] && steps[..2][..1] == steps[..1];
    assert steps[..1][..0] == [];
    assert Run(site, s, steps[..1]) == freed;
    assert Run(site, s, steps[..2]) == locked;
    assert Run(site, s, steps[..3]) == grouped;
    assert Run(site, s, steps[..4]) == admitted;
    var end := Next(site, admitted, steps[4]);
    var i :| 0 <= i < |s.sessions| && ActiveSession(s.sessions, i, p);
    assert ActiveSession(end.sessions, i, p) && ActiveSession(end.sessions, |s.sessions|, p);
  }

  /** While plugs have one session each, a start is refused exactly when it would overload the circuit. */
  lemma AdmitsIffItFits(site: Site, s: State, p: nat)
    requires WellFormed(site) && Exclusive(s.sessions) && p < |site.plugs| && LimitOf(site, p).Some?
    ensures Admits(site, s.sessions, p) <==>
              WithinLimit(site, s.sessions + [Session(p, true)], site.plugs[p].group.value)
  {
    var group := site.plugs[p].group.value;
    LoadCoversCommitted(site, s.sessions, group, p);
    Without(site, s.sessions, group, p, |site.plugs|);
    PushCommitted(site, s.sessions, p, group, -1);
  }

  /** The status writes of the run free no plug in use. */
  ghost predicate WritesFreeNone(site: Site, s: State, steps: seq<Step>)
    requires Shaped(site, s)
  {
    forall k :: 0 <= k < |steps| ==> FreesNone(Run(site, s, steps[..k]), steps[k])
  }

  predicate FreesNone(s: State, step: Step) {
    step.SetStatus? && step.to == Available ==> !InUse(s.sessions, step.p)
  }

  /** No run of starts, ends and status writes that free no plug in use puts two active sessions on one plug. */
  lemma {:induction false} OneSessionToAPlug(site: Site, starts: nat, steps: seq<Step>)
    requires WritesFreeNone(site, Opening(site, starts), steps)
    ensures Guarded(site, Run(site, Opening(site, starts), steps))
  {
    if steps != [] {
      var n := |steps| - 1;
      forall k | 0 <= k < n ensures FreesNone(Run(site, Opening(site, starts), steps[..n][..k]), steps[..n][k]) {
        assert steps[..n][..k] == steps[..k];
        assert FreesNone(Run(site, Opening(site, starts), steps[..k]), steps[k]);
      }
      OneSessionToAPlug(site, starts, steps[..n]);
      var s := Run(site, Opening(site, starts), steps[..n]);
      assert FreesNone(s, steps[n]);
      if !steps[n].SetStatus? {
        StepStaysGuarded(site, s, steps[n]);
      } else {
        WriteStaysGuarded(site, s, steps[n]);
      }
    }
  }

  lemma WriteStaysGuarded(site: Site, s: State, step: Step)
    requires Guarded(site, s) && step.SetStatus? && FreesNone(s, step)
    ensures Guarded(site, Next(site, s, step))
  {
    if step.p < |site.plugs| {
      StatusWriteIff(site, s, step.p, step.to);
    }
  }
}
