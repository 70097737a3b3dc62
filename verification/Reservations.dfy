/**
 Plug reservations: bookings, cancels, no-show expiry, fulfilment at session start, and the
 undo of a start that could not be published (backend/routers/reservations.py,
 backend/services/reservations.py, backend/services/session_start.py), as interleaved
 transactions; and the one-pass grouping of the plug list (backend/routers/plugs.py).

 Instants are in seconds.
 */
module Reservations {
  import opened Tariffs

  const MIN_LENGTH: int := 900
  const MAX_LENGTH: int := 14400
  const START_GRACE: int := 120
  const MAX_ADVANCE: int := 604800
  const NO_SHOW_GRACE: int := 900
  const MAX_UPCOMING: nat := 2

  datatype Status = Booked | Fulfilled | Cancelled | Expired

  datatype Row = Row(plug: int, user: int, start: int, end: int, status: Status)

  datatype Request = Request(user: int, plug: int, start: int, end: int, now: int)

  predicate WindowAllowed(r: Request) {
    && r.start < r.end
    && MIN_LENGTH <= r.end - r.start <= MAX_LENGTH
    && r.now - START_GRACE <= r.start <= r.now + MAX_ADVANCE
  }

  /** Half-open windows: sharing an edge is no overlap. */
  predicate Overlap(start: int, end: int, row: Row) {
    row.start < end && row.end > start
  }

  predicate Lapsed(row: Row, now: int) {
    row.status.Booked? && (row.start <= now - NO_SHOW_GRACE || row.end <= now)
  }

  /** Lapsed rows of the plug or of the user flip to Expired. */
  function Expire(rows: seq<Row>, plug: Option<int>, user: Option<int>, now: int): (r: seq<Row>)
    ensures |r| == |rows|
    ensures forall i :: 0 <= i < |rows| ==>
              r[i] == if Lapsed(rows[i], now) && (plug == Some(rows[i].plug) || user == Some(rows[i].user))
                      then rows[i].(status := Expired) else rows[i]
  {
    if rows == [] then [] else
    var last := rows[|rows| - 1];
    Expire(rows[..|rows| - 1], plug, user, now)
      + [if Lapsed(last, now) && (plug == Some(last.plug) || user == Some(last.user))
         then last.(status := Expired) else last]
  }

  /** A user's bookings still to end, leaving one row out. */
  function Upcoming(rows: seq<Row>, user: int, now: int, without: int): nat {
    if rows == [] then 0 else
    var n := |rows| - 1;
    Upcoming(rows[..n], user, now, without)
      + if rows[n].status.Booked? && rows[n].user == user && rows[n].end > now && n != without then 1 else 0
  }

  /** The overlap check of a booking, after the plug's lapsed holds have expired. */
  predicate Conflict(rows: seq<Row>, r: Request, i: nat) {
    && i < |rows| && rows[i].status.Booked? && rows[i].plug == r.plug
    && !Lapsed(rows[i], r.now) && Overlap(r.start, r.end, rows[i])
  }

  predicate Free(rows: seq<Row>, r: Request) {
    forall i :: 0 <= i < |rows| ==> !Conflict(rows, r, i)
  }

  /** The cap check of a booking, after the user's lapsed holds have expired. */
  predicate HasRoom(rows: seq<Row>, r: Request) {
    Upcoming(Expire(rows, None, Some(r.user), r.now), r.user, r.now, -1) < MAX_UPCOMING
  }

  // ------------------------------------------------------------------- the machine

  datatype Phase =
    | Idle
    | Asked(request: Request)
    | UserLocked(request: Request)
    | PlugLocked(request: Request)
    | Starting(plug: int, now: int, row: Option<nat>)
    | Publishing(published: nat)

  datatype State = State(rows: seq<Row>, clock: int, requests: seq<Phase>)

  datatype Step =
    | Tick(now: int)
    | Ask(t: nat, request: Request)
    | LockUser(t: nat)
    | LockPlug(t: nat)
    | Book(t: nat)
    | Rollback(t: nat)
    | Cancel(index: nat)
    | ExpireRows(ofPlug: Option<int>, ofUser: Option<int>)
    | CloseAccount(account: int)
    | BeginStart(t: nat, user: int, plug: int, row: Option<nat>)
    | CommitStart(t: nat)
    | PublishOk(t: nat)
    | PublishFailed(t: nat)

  predicate HoldsUser(s: State, t: nat, user: int) {
    t < |s.requests| && (s.requests[t].UserLocked? || s.requests[t].PlugLocked?) && s.requests[t].request.user == user
  }

  predicate HoldsPlug(s: State, t: nat, plug: int) {
    && t < |s.requests|
    && (|| (s.requests[t].PlugLocked? && s.requests[t].request.plug == plug)
        || (s.requests[t].Starting? && s.requests[t].plug == plug))
  }

  /** A start may go ahead: the window over this instant, if any, is the caller's own. */
  predicate MayStart(rows: seq<Row>, user: int, plug: int, row: Option<nat>, now: int) {
    if row.None? then forall i :: 0 <= i < |rows| ==> !Covers(rows[i], plug, now)
    else row.value < |rows| && Covers(rows[row.value], plug, now) && rows[row.value].user == user
  }

  predicate Covers(row: Row, plug: int, now: int) {
    row.status.Booked? && row.plug == plug && row.start <= now < row.end && !Lapsed(row, now)
  }

  function CancelAll(rows: seq<Row>, user: int): (r: seq<Row>)
    ensures |r| == |rows|
    ensures forall i :: 0 <= i < |rows| ==>
              r[i] == if rows[i].user == user && rows[i].status.Booked? then rows[i].(status := Cancelled) else rows[i]
  {
    if rows == [] then [] else
    var last := rows[|rows| - 1];
    CancelAll(rows[..|rows| - 1], user)
      + [if last.user == user && last.status.Booked? then last.(status := Cancelled) else last]
  }

  function Booking(rows: seq<Row>, r: Request): seq<Row> {
    Expire(Expire(rows, None, Some(r.user), r.now), Some(r.plug), None, r.now)
      + [Row(r.plug, r.user, r.start, r.end, Booked)]
  }

  /**
   One step. A booking reads the clock when it arrives, takes the user row and counts, then the
   plug row and compares, and inserts at its commit. A start remembers the covering row it read,
   writes it Fulfilled at its commit whatever has happened to it since, releases its locks, and
   writes it back Booked if the command cannot be published.
   */
  function Next(s: State, step: Step): State {
    match step
    case Tick(now) => if now >= s.clock then s.(clock := now) else s
    case Ask(t, r) =>
      if t < |s.requests| && s.requests[t].Idle? && r.now == s.clock && WindowAllowed(r)
      then s.(requests := s.requests[t := Asked(r)]) else s
    case LockUser(t) =>
      if t >= |s.requests| || !s.requests[t].Asked? then s else
      var r := s.requests[t].request;
      if exists u :: 0 <= u < |s.requests| && HoldsUser(s, u, r.user) then s else
      s.(requests := s.requests[t := if HasRoom(s.rows, r) then UserLocked(r) else Idle])
    case LockPlug(t) =>
      if t >= |s.requests| || !s.requests[t].UserLocked? then s else
      var r := s.requests[t].request;
      if exists u :: 0 <= u < |s.requests| && HoldsPlug(s, u, r.plug) then s else
      s.(requests := s.requests[t := if Free(s.rows, r) then PlugLocked(r) else Idle])
    case Book(t) =>
      if t < |s.requests| && s.requests[t].PlugLocked?
      then s.(rows := Booking(s.rows, s.requests[t].request), requests := s.requests[t := Idle]) else s
    case Rollback(t) =>
      if t < |s.requests| then s.(requests := s.requests[t := Idle]) else s
    case Cancel(i) =>
      if i < |s.rows| && s.rows[i].status.Booked? then s.(rows := s.rows[i := s.rows[i].(status := Cancelled)]) else s
    case ExpireRows(plug, user) => s.(rows := Expire(s.rows, plug, user, s.clock))
    case CloseAccount(user) => s.(rows := CancelAll(s.rows, user))
    case BeginStart(t, user, plug, row) =>
      if t < |s.requests| && s.requests[t].Idle? && !(exists u :: 0 <= u < |s.requests| && HoldsPlug(s, u, plug))
         && MayStart(s.rows, user, plug, row, s.clock)
      then s.(requests := s.requests[t := Starting(plug, s.clock, row)]) else s
    case CommitStart(t) =>
      if t >= |s.requests| || !s.requests[t].Starting? then s else
      var (plug, now, row) := (s.requests[t].plug, s.requests[t].now, s.requests[t].row);
      var rows := Expire(s.rows, Some(plug), None, now);
      if row.Some? && row.value < |rows|
      then s.(rows := rows[row.value := rows[row.value].(status := Fulfilled)],
              requests := s.requests[t := Publishing(row.value)])
      else s.(rows := rows, requests := s.requests[t := Idle])
    case PublishOk(t) =>
      if t < |s.requests| && s.requests[t].Publishing? then s.(requests := s.requests[t := Idle]) else s
    case PublishFailed(t) =>
      if t < |s.requests| && s.requests[t].Publishing? && s.requests[t].published < |s.rows|
      then
        var i := s.requests[t].published;
        s.(rows := s.rows[i := s.rows[i].(status := Booked)], requests := s.requests[t := Idle])
      else s
  }

  function Run(s: State, steps: seq<Step>): State {
    if steps == [] then s else Next(Run(s, steps[..|steps| - 1]), steps[|steps| - 1])
  }

  // ----------------------------------------------------------------- what is kept

  predicate Clash(rows: seq<Row>, i: nat, j: nat) {
    && i < |rows| && j < |rows| && i != j && rows[i].status.Booked? && rows[j].status.Booked?
    && rows[i].plug == rows[j].plug && Overlap(rows[i].start, rows[i].end, rows[j])
  }

  ghost predicate Disjoint(rows: seq<Row>) {
    forall i, j :: !Clash(rows, i, j)
  }

  ghost predicate WithinCap(rows: seq<Row>, now: int) {
    forall user :: Upcoming(rows, user, now, -1) <= MAX_UPCOMING
  }

  /** What a request in flight has checked still holds. */
  predicate StillGood(s: State, t: nat)
    requires t < |s.requests|
  {
    match s.requests[t]
    case Idle => true
    case Asked(r) => r.now <= s.clock && WindowAllowed(r)
    case UserLocked(r) => r.now <= s.clock && WindowAllowed(r) && HasRoom(s.rows, r)
    case PlugLocked(r) => r.now <= s.clock && WindowAllowed(r) && HasRoom(s.rows, r) && Free(s.rows, r)
    case Starting(_, now, row) => now <= s.clock
    case Publishing(row) => row < |s.rows|
  }

  ghost predicate LocksHeldOnce(s: State) {
    && (forall t, u, user :: HoldsUser(s, t, user) && HoldsUser(s, u, user) ==> t == u)
    && (forall t, u, plug :: HoldsPlug(s, t, plug) && HoldsPlug(s, u, plug) ==> t == u)
  }

  ghost predicate Sound(s: State) {
    && Disjoint(s.rows) && WithinCap(s.rows, s.clock) && LocksHeldOnce(s)
    && forall t :: 0 <= t < |s.requests| ==> StillGood(s, t)
  }

  /** Rows that differ from `before` only by bookings ended some way. */
  ghost predicate OnlyEnded(before: seq<Row>, after: seq<Row>) {
    |after| == |before| && forall i :: 0 <= i < |before| ==>
      after[i] == before[i] || (!after[i].status.Booked? && after[i] == before[i].(status := after[i].status))
  }

  lemma {:induction false} EndingLowersCount(before: seq<Row>, after: seq<Row>, user: int, now: int, later: int)
    requires OnlyEnded(before, after) && now <= later
    ensures Upcoming(after, user, later, -1) <= Upcoming(before, user, now, -1)
  {
    if before != [] {
      EndingLowersCount(before[..|before| - 1], after[..|before| - 1], user, now, later);
    }
  }

  lemma EndingKeepsRoom(before: seq<Row>, after: seq<Row>, r: Request)
    requires OnlyEnded(before, after)
    ensures HasRoom(before, r) ==> HasRoom(after, r)
    ensures Free(before, r) ==> Free(after, r)
    ensures Disjoint(before) ==> Disjoint(after)
  {
    var was, left := Expire(before, None, Some(r.user), r.now), Expire(after, None, Some(r.user), r.now);
    EndingLowersCount(was, left, r.user, r.now, r.now);
    forall i | Conflict(after, r, i) ensures Conflict(before, r, i) {
    }
    forall i, j | Clash(after, i, j) ensures Clash(before, i, j) {
    }
  }

  lemma EndedStaysSound(s: State, next: State)
    requires Sound(s) && OnlyEnded(s.rows, next.rows) && next.clock == s.clock && next.requests == s.requests
    ensures Sound(next)
  {
    forall user ensures Upcoming(next.rows, user, next.clock, -1) <= MAX_UPCOMING {
      EndingLowersCount(s.rows, next.rows, user, s.clock, s.clock);
    }
    if forall i, j :: !Clash(s.rows, i, j) {
      forall i, j ensures !Clash(next.rows, i, j) {
        assert !Clash(s.rows, i, j);
      }
    }
    SameLocks(s, next);
    forall t | 0 <= t < |next.requests| ensures StillGood(next, t) {
      assert StillGood(s, t);
      if next.requests[t].UserLocked? || next.requests[t].PlugLocked? {
        EndingKeepsRoom(s.rows, next.rows, next.requests[t].request);
      }
    }
  }

  lemma SameLocks(s: State, next: State)
    requires LocksHeldOnce(s) && |next.requests| == |s.requests|
    requires forall t :: 0 <= t < |s.requests| ==>
               || next.requests[t] == s.requests[t]
               || next.requests[t].Idle? || next.requests[t].Asked? || next.requests[t].Publishing?
    ensures LocksHeldOnce(next)
  {
    forall t: nat, user: int | HoldsUser(next, t, user) ensures HoldsUser(s, t, user) {
    }
    forall t: nat, plug: int | HoldsPlug(next, t, plug) ensures HoldsPlug(s, t, plug) {
    }
  }

  lemma TickStaysSound(s: State, now: int)
    requires Sound(s) && s.clock <= now
    ensures Sound(Next(s, Tick(now)))
  {
    var next := Next(s, Tick(now));
    forall user ensures Upcoming(next.rows, user, now, -1) <= MAX_UPCOMING {
      EndingLowersCount(s.rows, s.rows, user, s.clock, now);
    }
    SameLocks(s, next);
    forall t | 0 <= t < |next.requests| ensures StillGood(next, t) {
      assert StillGood(s, t);
    }
  }

  lemma {:induction false} CountOf(rows: seq<Row>, row: Row, user: int, now: int)
    ensures Upcoming(rows + [row], user, now, -1)
         == Upcoming(rows, user, now, -1) + if row.status.Booked? && row.user == user && row.end > now then 1 else 0
  {
    assert (rows + [row])[..|rows|] == rows;
  }

  /** A booking that passed its checks under its locks may be inserted. */
  lemma BookingFits(rows: seq<Row>, r: Request, now: int)
    requires Disjoint(rows) && WithinCap(rows, now) && HasRoom(rows, r) && Free(rows, r) && r.now <= now
    ensures Disjoint(Booking(rows, r)) && WithinCap(Booking(rows, r), now)
  {
    var mine := Expire(rows, None, Some(r.user), r.now);
    var kept := Expire(mine, Some(r.plug), None, r.now);
    var row := Row(r.plug, r.user, r.start, r.end, Booked);
    forall user ensures Upcoming(Booking(rows, r), user, now, -1) <= MAX_UPCOMING {
      CountOf(kept, row, user, now);
      EndingLowersCount(mine, kept, user, r.now, now);
      if user != r.user {
        EndingLowersCount(rows, kept, user, now, now);
      }
    }
    forall i: nat, j: nat ensures !Clash(Booking(rows, r), i, j) {
      NewClash(rows, r, i, j);
    }
  }

  /** A clash after a booking was one before it, or a conflict its check would have seen. */
  lemma NewClash(rows: seq<Row>, r: Request, i: nat, j: nat)
    ensures Clash(Booking(rows, r), i, j) ==> Clash(rows, i, j) || Conflict(rows, r, i) || Conflict(rows, r, j)
  {
  }

  lemma BookStaysSound(s: State, t: nat)
    requires Sound(s) && t < |s.requests| && s.requests[t].PlugLocked?
    ensures Sound(Next(s, Book(t)))
  {
    var next, r := Next(s, Book(t)), s.requests[t].request;
    assert StillGood(s, t);
    BookingFits(s.rows, r, s.clock);
    SameLocks(s, next);
    assert HoldsUser(s, t, r.user) && HoldsPlug(s, t, r.plug);
    forall u | 0 <= u < |next.requests| ensures StillGood(next, u) {
      assert StillGood(s, u);
      if u != t && (s.requests[u].UserLocked? || s.requests[u].PlugLocked?) {
        OthersStillGood(s, t, u);
      }
    }
  }

  lemma AfterBook(s: State, t: nat)
    requires t < |s.requests| && s.requests[t].PlugLocked?
    ensures Next(s, Book(t)) == State(Booking(s.rows, s.requests[t].request), s.clock, s.requests[t := Idle])
  {
  }

  lemma OthersStillGood(s: State, t: nat, u: nat)
    requires t < |s.requests| && s.requests[t].PlugLocked? && u < |s.requests| && u != t
    requires LocksHeldOnce(s) && StillGood(s, u)
    requires s.requests[u].UserLocked? || s.requests[u].PlugLocked?
    ensures StillGood(Next(s, Book(t)), u)
  {
    var r, other := s.requests[t].request, s.requests[u].request;
    assert HoldsUser(s, t, r.user) && HoldsUser(s, u, other.user);
    AfterBook(s, t);
    BookingKeepsRoom(s.rows, r, other);
    if s.requests[u].PlugLocked? {
      assert HoldsPlug(s, t, r.plug) && HoldsPlug(s, u, other.plug);
      BookingKeepsFree(s.rows, r, other);
    }
  }

  lemma BookingKeepsRoom(rows: seq<Row>, r: Request, other: Request)
    requires r.user != other.user && HasRoom(rows, other)
    ensures HasRoom(Booking(rows, r), other)
  {
    var kept := Expire(Expire(rows, None, Some(r.user), r.now), Some(r.plug), None, r.now);
    var row := Row(r.plug, r.user, r.start, r.end, Booked);
    EndingKeepsRoom(rows, kept, other);
    ExpireOther(kept, row, other);
    CountOf(Expire(kept, None, Some(other.user), other.now), row, other.user, other.now);
  }

  lemma BookingKeepsFree(rows: seq<Row>, r: Request, other: Request)
    requires r.plug != other.plug && Free(rows, other)
    ensures Free(Booking(rows, r), other)
  {
    forall i | Conflict(Booking(rows, r), other, i) ensures Conflict(rows, other, i) {
    }
  }

  lemma ExpireOther(rows: seq<Row>, row: Row, r: Request)
    requires row.user != r.user
    ensures Expire(rows + [row], None, Some(r.user), r.now) == Expire(rows, None, Some(r.user), r.now) + [row]
  {
  }

  lemma LockStaysSound(s: State, step: Step)
    requires Sound(s)
    requires (step.Ask? || step.LockUser? || step.LockPlug? || step.Rollback? || step.BeginStart? || step.PublishOk?)
    ensures Sound(Next(s, step))
  {
    LocksStayHeldOnce(s, step);
    forall t | 0 <= t < |Next(s, step).requests| ensures StillGood(Next(s, step), t) {
      LockStaysGood(s, step, t);
    }
  }

  lemma LockStaysGood(s: State, step: Step, t: nat)
    requires step.Ask? || step.LockUser? || step.LockPlug? || step.Rollback? || step.BeginStart? || step.PublishOk?
    requires t < |s.requests| && StillGood(s, t)
    ensures t < |Next(s, step).requests| && StillGood(Next(s, step), t)
  {
  }

  lemma LocksStayHeldOnce(s: State, step: Step)
    requires LocksHeldOnce(s)
    requires (step.Ask? || step.LockUser? || step.LockPlug? || step.Rollback? || step.BeginStart? || step.PublishOk?)
    ensures LocksHeldOnce(Next(s, step))
  {
    var next := Next(s, step);
    forall t: nat, user: int | HoldsUser(next, t, user)
      ensures HoldsUser(s, t, user)
              || (step.LockUser? && step.t == t && forall u :: 0 <= u < |s.requests| ==> !HoldsUser(s, u, user))
    {
    }
    forall t: nat, plug: int | HoldsPlug(next, t, plug)
      ensures HoldsPlug(s, t, plug)
              || ((step.LockPlug? || step.BeginStart?) && step.t == t
                  && forall u :: 0 <= u < |s.requests| ==> !HoldsPlug(s, u, plug))
    {
    }
  }

  lemma CommitStartStaysSound(s: State, t: nat)
    requires Sound(s) && t < |s.requests| && s.requests[t].Starting?
    ensures Sound(Next(s, CommitStart(t)))
  {
    var next := Next(s, CommitStart(t));
    var released := s.(requests := next.requests);
    SameLocks(s, released);
    forall u | 0 <= u < |released.requests| ensures StillGood(released, u) {
      assert StillGood(s, u);
    }
    EndedStaysSound(released, next);
  }

  /** Every step but the undo of a start keeps bookings disjoint and users within their cap. */
  lemma StepStaysSound(s: State, step: Step)
    requires Sound(s) && !step.PublishFailed?
    ensures Sound(Next(s, step))
  {
    match step
    case Tick(now) => if now >= s.clock { TickStaysSound(s, now); }
    case Book(t) => if t < |s.requests| && s.requests[t].PlugLocked? { BookStaysSound(s, t); }
    case Cancel(i) => EndedStaysSound(s, Next(s, step));
    case ExpireRows(plug, user) => EndedStaysSound(s, Next(s, step));
    case CloseAccount(user) => EndedStaysSound(s, Next(s, step));
    case CommitStart(t) => if t < |s.requests| && s.requests[t].Starting? { CommitStartStaysSound(s, t); }
    case _ => LockStaysSound(s, step);
  }

  // --------------------------------------------------------- the start that is undone

  function Undone(rows: seq<Row>, i: nat): seq<Row>
    requires i < |rows|
  {
    rows[i := rows[i].(status := Booked)]
  }

  predicate Counts(row: Row, user: int, now: int) {
    row.status.Booked? && row.user == user && row.end > now
  }

  /** Writing one row moves a count by that row alone. */
  lemma {:induction false} CountReplaced(rows: seq<Row>, after: seq<Row>, i: nat, user: int, now: int)
    requires i < |rows| == |after| && forall j :: 0 <= j < |rows| && j != i ==> after[j] == rows[j]
    ensures Upcoming(after, user, now, -1)
         == Upcoming(rows, user, now, i) + if Counts(after[i], user, now) then 1 else 0
  {
    var n := |rows| - 1;
    if i < n {
      CountReplaced(rows[..n], after[..n], i, user, now);
    } else {
      assert after[..n] == rows[..n];
      CountWithoutLater(rows[..n], user, now, i);
    }
  }

  lemma {:induction false} CountWithoutLater(rows: seq<Row>, user: int, now: int, i: nat)
    requires |rows| <= i
    ensures Upcoming(rows, user, now, i) == Upcoming(rows, user, now, -1)
  {
    if rows != [] {
      CountWithoutLater(rows[..|rows| - 1], user, now, i);
    }
  }

  lemma {:induction false} CountWithout(rows: seq<Row>, user: int, now: int, i: nat)
    ensures Upcoming(rows, user, now, i) <= Upcoming(rows, user, now, -1)
    ensures i < |rows| && rows[i].user != user ==> Upcoming(rows, user, now, i) == Upcoming(rows, user, now, -1)
  {
    if rows != [] {
      CountWithout(rows[..|rows| - 1], user, now, i);
      if i == |rows| - 1 {
        CountWithoutLater(rows[..i], user, now, i);
      }
    }
  }

  /** The row would count as a booking for a request that arrived at `now`. */
  predicate Stands(row: Row, now: int) {
    !Lapsed(row.(status := Booked), now)
  }

  /** A request that has counted, and perhaps compared, would pass again with the row booked. */
  predicate Fits(rows: seq<Row>, i: nat, r: Request, compared: bool)
    requires i < |rows|
  {
    && (r.user == rows[i].user && Stands(rows[i], r.now) ==>
          Upcoming(Expire(rows, None, Some(r.user), r.now), r.user, r.now, i) + 1 < MAX_UPCOMING)
    && (compared && r.plug == rows[i].plug && Stands(rows[i], r.now) ==> !Overlap(r.start, r.end, rows[i]))
  }

  predicate InFlightFits(s: State, i: nat, u: nat)
    requires i < |s.rows| && u < |s.requests|
  {
    var phase := s.requests[u];
    phase.UserLocked? || phase.PlugLocked? ==> Fits(s.rows, i, phase.request, phase.PlugLocked?)
  }

  /**
   Nothing else is booked over the row, its user still has room for it, and every booking that has
   already passed a check would pass it with the row there.
   */
  predicate RoomToUndo(s: State, i: nat)
    requires i < |s.rows|
  {
    && (forall j :: 0 <= j < |s.rows| && j != i && s.rows[j].status.Booked? && s.rows[j].plug == s.rows[i].plug ==>
          !Overlap(s.rows[i].start, s.rows[i].end, s.rows[j]))
    && (s.rows[i].end > s.clock ==> Upcoming(s.rows, s.rows[i].user, s.clock, i) < MAX_UPCOMING)
    && (forall u :: 0 <= u < |s.requests| ==> InFlightFits(s, i, u))
  }

  /** Undoing and then expiring a user's rows leaves the row counting for that user just when it stands. */
  lemma ExpireUndone(rows: seq<Row>, i: nat, user: int, now: int)
    requires i < |rows|
    ensures var was, left := Expire(rows, None, Some(user), now), Expire(Undone(rows, i), None, Some(user), now);
            && (forall j :: 0 <= j < |rows| && j != i ==> left[j] == was[j])
            && (Counts(left[i], user, now) <==> rows[i].user == user && Stands(rows[i], now))
  {
  }

  lemma CountAfterUndo(rows: seq<Row>, i: nat, user: int, now: int)
    requires i < |rows|
    ensures Upcoming(Expire(Undone(rows, i), None, Some(user), now), user, now, -1)
         == Upcoming(Expire(rows, None, Some(user), now), user, now, i)
            + if rows[i].user == user && Stands(rows[i], now) then 1 else 0
  {
    ExpireUndone(rows, i, user, now);
    CountReplaced(Expire(rows, None, Some(user), now), Expire(Undone(rows, i), None, Some(user), now), i, user, now);
  }

  lemma RoomAfterUndoIff(rows: seq<Row>, i: nat, r: Request)
    requires i < |rows| && HasRoom(rows, r)
    ensures HasRoom(Undone(rows, i), r) <==>
              (r.user == rows[i].user && Stands(rows[i], r.now) ==>
                Upcoming(Expire(rows, None, Some(r.user), r.now), r.user, r.now, i) + 1 < MAX_UPCOMING)
  {
    CountAfterUndo(rows, i, r.user, r.now);
    CountWithout(Expire(rows, None, Some(r.user), r.now), r.user, r.now, i);
  }

  lemma FreeAfterUndoIff(rows: seq<Row>, i: nat, r: Request)
    requires i < |rows| && Free(rows, r)
    ensures Free(Undone(rows, i), r) <==>
              (r.plug == rows[i].plug && Stands(rows[i], r.now) ==> !Overlap(r.start, r.end, rows[i]))
  {
    forall j: nat | j < |rows| && j != i ensures Conflict(Undone(rows, i), r, j) == Conflict(rows, r, j) {
    }
    assert Conflict(Undone(rows, i), r, i) <==>
           r.plug == rows[i].plug && Stands(rows[i], r.now) && Overlap(r.start, r.end, rows[i]);
  }

  lemma UndoCapIff(s: State, i: nat)
    requires WithinCap(s.rows, s.clock) && i < |s.rows|
    ensures WithinCap(Undone(s.rows, i), s.clock) <==>
              (s.rows[i].end > s.clock ==> Upcoming(s.rows, s.rows[i].user, s.clock, i) < MAX_UPCOMING)
  {
    var next, mine := Undone(s.rows, i), s.rows[i].user;
    CountReplaced(s.rows, next, i, mine, s.clock);
    CountWithout(s.rows, mine, s.clock, i);
    assert Upcoming(s.rows, mine, s.clock, -1) <= MAX_UPCOMING;
    forall user | user != mine ensures Upcoming(next, user, s.clock, -1) <= MAX_UPCOMING {
      CountReplaced(s.rows, next, i, user, s.clock);
      CountWithout(s.rows, user, s.clock, i);
    }
  }

  /**
   Undoing an unpublished start leaves everything sound, bookings in flight included, exactly when
   there is room to undo it.
   */
  lemma UndoKeepsIff(s: State, t: nat)
    requires Sound(s) && t < |s.requests| && s.requests[t].Publishing? && s.requests[t].published < |s.rows|
    ensures Sound(Next(s, PublishFailed(t))) <==> RoomToUndo(s, s.requests[t].published)
  {
    var i, next := s.requests[t].published, Next(s, PublishFailed(t));
    UndoDisjointIff(s.rows, i);
    UndoCapIff(s, i);
    SameLocks(s, next);
    forall u | 0 <= u < |s.requests| ensures StillGood(next, u) <==> InFlightFits(s, i, u) {
      UndoInFlightIff(s, t, u);
    }
  }

  lemma UndoInFlightIff(s: State, t: nat, u: nat)
    requires t < |s.requests| && s.requests[t].Publishing? && s.requests[t].published < |s.rows|
    requires u < |s.requests| && StillGood(s, u)
    ensures StillGood(Next(s, PublishFailed(t)), u) <==> InFlightFits(s, s.requests[t].published, u)
  {
    var i, phase := s.requests[t].published, s.requests[u];
    if phase.UserLocked? || phase.PlugLocked? {
      ChecksAfterUndoIff(s.rows, i, phase.request, phase.PlugLocked?);
    }
    AfterUndo(s, t);
  }

  lemma AfterUndo(s: State, t: nat)
    requires t < |s.requests| && s.requests[t].Publishing? && s.requests[t].published < |s.rows|
    ensures Next(s, PublishFailed(t)) == State(Undone(s.rows, s.requests[t].published), s.clock, s.requests[t := Idle])
  {
  }

  /** The checks a request has passed, against the rows with row `i` booked again. */
  lemma ChecksAfterUndoIff(rows: seq<Row>, i: nat, r: Request, compared: bool)
    requires i < |rows| && HasRoom(rows, r) && (compared ==> Free(rows, r))
    ensures HasRoom(Undone(rows, i), r) && (compared ==> Free(Undone(rows, i), r)) <==> Fits(rows, i, r, compared)
  {
    RoomAfterUndoIff(rows, i, r);
    if compared {
      FreeAfterUndoIff(rows, i, r);
    }
  }

  /** Every undo of the run has room. */
  ghost predicate UndosHaveRoom(s: State, steps: seq<Step>) {
    forall k :: 0 <= k < |steps| ==> UndoHasRoom(Run(s, steps[..k]), steps[k])
  }

  predicate UndoHasRoom(s: State, step: Step) {
    (step.PublishFailed? && step.t < |s.requests|
     && s.requests[step.t].Publishing? && s.requests[step.t].published < |s.rows|) ==>
      RoomToUndo(s, s.requests[step.t].published)
  }

  function Opening(requests: nat, clock: int): State {
    State([], clock, seq(requests, _ => Idle))
  }

  /**
   In every state a run reaches, booked windows are disjoint and users within their cap, if each
   undone start had room.
   */
  lemma {:induction false} BookingsStaySound(requests: nat, clock: int, steps: seq<Step>)
    requires UndosHaveRoom(Opening(requests, clock), steps)
    ensures Sound(Run(Opening(requests, clock), steps))
  {
    if steps != [] {
      var n := |steps| - 1;
      var s := Run(Opening(requests, clock), steps[..n]);
      forall k | 0 <= k < n ensures UndoHasRoom(Run(Opening(requests, clock), steps[..n][..k]), steps[..n][k]) {
        assert steps[..n][..k] == steps[..k];
        assert UndoHasRoom(Run(Opening(requests, clock), steps[..k]), steps[k]);
      }
      BookingsStaySound(requests, clock, steps[..n]);
      assert UndoHasRoom(s, steps[n]);
      if steps[n].PublishFailed? {
        UndoStaysSound(s, steps[n].t);
      } else {
        StepStaysSound(s, steps[n]);
      }
    }
  }

  lemma UndoStaysSound(s: State, t: nat)
    requires Sound(s) && UndoHasRoom(s, PublishFailed(t))
    ensures Sound(Next(s, PublishFailed(t)))
  {
    if t < |s.requests| && s.requests[t].Publishing? && s.requests[t].published < |s.rows| {
      UndoKeepsIff(s, t);
    }
  }

  /**
   Room for bookings in flight is needed: one that counted or compared before the undo breaks the
   cap or the windows after it.
   */
  lemma UndoBreaksBookingInFlight(s: State, t: nat, u: nat)
    requires Sound(s) && t < |s.requests| && s.requests[t].Publishing? && s.requests[t].published < |s.rows|
    requires u < |s.requests| && s.requests[u].PlugLocked? && s.requests[u].request.now == s.clock
    requires !InFlightFits(s, s.requests[t].published, u)
    ensures var after := Next(Next(s, PublishFailed(t)), Book(u));
            !(Disjoint(after.rows) && WithinCap(after.rows, s.clock))
  {
    var i, r := s.requests[t].published, s.requests[u].request;
    assert StillGood(s, u);
    assert Next(Next(s, PublishFailed(t)), Book(u)).rows == Booking(Undone(s.rows, i), r);
    if r.plug == s.rows[i].plug && Stands(s.rows[i], r.now) && Overlap(r.start, r.end, s.rows[i]) {
      UndoThenBookClashes(s.rows, i, r);
    } else {
      UndoThenBookExceeds(s.rows, i, r);
    }
  }

  lemma UndoThenBookClashes(rows: seq<Row>, i: nat, r: Request)
    requires i < |rows| && r.plug == rows[i].plug && Stands(rows[i], r.now) && Overlap(r.start, r.end, rows[i])
    ensures !Disjoint(Booking(Undone(rows, i), r))
  {
    assert Clash(Booking(Undone(rows, i), r), i, |rows|);
  }

  lemma UndoThenBookExceeds(rows: seq<Row>, i: nat, r: Request)
    requires i < |rows| && WindowAllowed(r) && r.user == rows[i].user && Stands(rows[i], r.now)
    requires Upcoming(Expire(rows, None, Some(r.user), r.now), r.user, r.now, i) + 1 >= MAX_UPCOMING
    ensures !WithinCap(Booking(Undone(rows, i), r), r.now)
  {
    CountAfterUndo(rows, i, r.user, r.now);
    CountBooked(Undone(rows, i), r);
  }

  /** At its own instant a booking adds one to what its user's check counted. */
  lemma CountBooked(rows: seq<Row>, r: Request)
    requires WindowAllowed(r)
    ensures Upcoming(Booking(rows, r), r.user, r.now, -1)
              == Upcoming(Expire(rows, None, Some(r.user), r.now), r.user, r.now, -1) + 1
  {
    var mine := Expire(rows, None, Some(r.user), r.now);
    NothingLeftToExpire(mine, r.plug, r.user, r.now);
    CountOf(Expire(mine, Some(r.plug), None, r.now), Row(r.plug, r.user, r.start, r.end, Booked), r.user, r.now);
  }

  lemma {:induction false} NothingLeftToExpire(rows: seq<Row>, plug: int, user: int, now: int)
    requires forall i :: 0 <= i < |rows| && rows[i].user == user ==> !Lapsed(rows[i], now)
    ensures Upcoming(Expire(rows, Some(plug), None, now), user, now, -1) == Upcoming(rows, user, now, -1)
  {
    if rows != [] {
      var n := |rows| - 1;
      NothingLeftToExpire(rows[..n], plug, user, now);
      assert Expire(rows, Some(plug), None, now)[..n] == Expire(rows[..n], Some(plug), None, now);
    }
  }

  lemma UndoDisjointIff(rows: seq<Row>, i: nat)
    requires Disjoint(rows) && i < |rows|
    ensures Disjoint(Undone(rows, i)) <==>
              forall j :: 0 <= j < |rows| && j != i && rows[j].status.Booked? && rows[j].plug == rows[i].plug ==>
                !Overlap(rows[i].start, rows[i].end, rows[j])
  {
    var next := Undone(rows, i);
    forall j: nat | j < |rows| && j != i
      ensures Clash(next, i, j) <==>
                rows[j].status.Booked? && rows[j].plug == rows[i].plug && Overlap(rows[i].start, rows[i].end, rows[j])
    {
    }
    forall j: nat, k: nat | Clash(next, j, k)
      ensures (j != i && k != i && Clash(rows, j, k)) || (j == i && Clash(next, i, k)) || (k == i && Clash(next, i, j))
    {
    }
  }

  predicate RowsUnlocked(s: State, r: Request) {
    forall v :: 0 <= v < |s.requests| ==> !HoldsUser(s, v, r.user) && !HoldsPlug(s, v, r.plug)
  }

  lemma AskThenLockUser(s: State, u: nat, r: Request)
    requires u < |s.requests| && s.requests[u].Idle? && RowsUnlocked(s, r)
    requires r.now == s.clock && WindowAllowed(r) && HasRoom(s.rows, r)
    ensures Next(Next(s, Ask(u, r)), LockUser(u)) == s.(requests := s.requests[u := UserLocked(r)])
  {
    var asked := Next(s, Ask(u, r));
    assert asked.requests == s.requests[u := Asked(r)];
    forall v | 0 <= v < |asked.requests| ensures !HoldsUser(asked, v, r.user) {
      assert !HoldsUser(s, v, r.user);
    }
  }

  lemma LockPlugThenBook(s: State, u: nat, r: Request)
    requires u < |s.requests| && s.requests[u] == UserLocked(r) && Free(s.rows, r)
    requires forall v :: 0 <= v < |s.requests| ==> !HoldsPlug(s, v, r.plug)
    ensures Next(Next(s, LockPlug(u)), Book(u)) == s.(rows := Booking(s.rows, r), requests := s.requests[u := Idle])
  {
    var compared := Next(s, LockPlug(u));
    assert compared == s.(requests := s.requests[u := PlugLocked(r)]);
  }

  function AfterBooking(s: State, u: nat, r: Request): State {
    Next(Next(Next(Next(s, Ask(u, r)), LockUser(u)), LockPlug(u)), Book(u))
  }

  /** With its rows unlocked, a request that fits goes through in four steps. */
  lemma BookingGoesThrough(s: State, u: nat, r: Request)
    requires u < |s.requests| && s.requests[u].Idle? && RowsUnlocked(s, r)
    requires r.now == s.clock && WindowAllowed(r) && HasRoom(s.rows, r) && Free(s.rows, r)
    ensures AfterBooking(s, u, r) == s.(rows := Booking(s.rows, r))
  {
    AskThenLockUser(s, u, r);
    var counted := s.(requests := s.requests[u := UserLocked(r)]);
    forall v | 0 <= v < |counted.requests| ensures !HoldsPlug(counted, v, r.plug) {
      assert !HoldsPlug(s, v, r.plug);
    }
    LockPlugThenBook(counted, u, r);
  }

  /**
   While a start waits on its command, its window counts as free: another user's overlapping
   booking is accepted, and the undo then leaves two overlapping bookings.
   */
  lemma UndoCanOverlap(s: State, t: nat, u: nat, r: Request)
    requires t < |s.requests| && u < |s.requests| && s.requests[u].Idle? && RowsUnlocked(s, r)
    requires s.requests[t].Publishing? && s.requests[t].published < |s.rows|
    requires r.now == s.clock && WindowAllowed(r) && HasRoom(s.rows, r) && Free(s.rows, r)
    requires r.plug == s.rows[s.requests[t].published].plug && Overlap(r.start, r.end, s.rows[s.requests[t].published])
    ensures AfterBooking(s, u, r).rows == Booking(s.rows, r)
    ensures !Disjoint(Next(AfterBooking(s, u, r), PublishFailed(t)).rows)
  {
    BookingGoesThrough(s, u, r);
    var undone := Next(AfterBooking(s, u, r), PublishFailed(t));
    var i := s.requests[t].published;
    assert Clash(undone.rows, i, |s.rows|);
  }

  /** One such sound state: a start on an hour's window awaits its command while another user books half of it. */
  lemma UndoOverlapExample(s: State, r: Request)
    requires s == State([Row(0, 1, 0, 3600, Fulfilled)], 60, [Publishing(0), Idle])
    requires r == Request(2, 0, 1800, 5400, 60)
    ensures Sound(s) && Disjoint(AfterBooking(s, 1, r).rows)
    ensures !Disjoint(Next(AfterBooking(s, 1, r), PublishFailed(0)).rows)
  {
    ExampleIsSound(s);
    assert Expire(s.rows, None, Some(r.user), r.now) == s.rows;
    assert s.rows[..0] == [];
    UndoCanOverlap(s, 0, 1, r);
    AfterBookingIsSound(s, 1, r);
  }

  lemma ExampleIsSound(s: State)
    requires s == State([Row(0, 1, 0, 3600, Fulfilled)], 60, [Publishing(0), Idle])
    ensures Sound(s)
  {
    forall user ensures Upcoming(s.rows, user, s.clock, -1) <= MAX_UPCOMING {
      assert s.rows[..0] == [];
    }
  }

  lemma AfterBookingIsSound(s: State, u: nat, r: Request)
    requires Sound(s)
    ensures Sound(AfterBooking(s, u, r))
  {
    StepStaysSound(s, Ask(u, r));
    StepStaysSound(Next(s, Ask(u, r)), LockUser(u));
    StepStaysSound(Next(Next(s, Ask(u, r)), LockUser(u)), LockPlug(u));
    StepStaysSound(Next(Next(Next(s, Ask(u, r)), LockUser(u)), LockPlug(u)), Book(u));
  }

  // ---------------------------------------------------------- whether a cancel sticks

  /** The request has read the row as the one it starts on, or has it to write back. */
  predicate Remembers(s: State, t: nat, i: nat) {
    && t < |s.requests|
    && (|| (s.requests[t].Starting? && s.requests[t].row == Some(i))
        || (s.requests[t].Publishing? && s.requests[t].published == i))
  }

  predicate CancelledAt(s: State, i: nat) {
    i < |s.rows| && s.rows[i].status == Cancelled
  }

  /** A row nobody remembers stays cancelled, whatever follows. */
  lemma {:induction false} CancelSticks(s: State, i: nat, later: seq<Step>)
    requires CancelledAt(s, i) && forall t :: !Remembers(s, t, i)
    ensures CancelledAt(Run(s, later), i) && forall t :: !Remembers(Run(s, later), t, i)
  {
    if later != [] {
      CancelSticks(s, i, later[..|later| - 1]);
      CancelSticksOnce(Run(s, later[..|later| - 1]), i, later[|later| - 1]);
    }
  }

  lemma CancelSticksOnce(s: State, i: nat, step: Step)
    requires CancelledAt(s, i) && forall t :: !Remembers(s, t, i)
    ensures CancelledAt(Next(s, step), i) && forall t :: !Remembers(Next(s, step), t, i)
  {
    forall t: nat ensures !Remembers(Next(s, step), t, i) {
      assert !Remembers(s, t, i);
    }
    if (step.CommitStart? || step.PublishFailed?) && step.t < |s.requests| {
      assert !Remembers(s, step.t, i);
    }
  }

  /** One that remembers it undoes the cancel with its next write: Fulfilled at its commit, or Booked if unpublished. */
  lemma RememberedCancelIsOverwritten(s: State, i: nat, t: nat) returns (step: Step)
    requires CancelledAt(s, i) && Remembers(s, t, i)
    ensures !CancelledAt(Run(s, [step]), i)
  {
    step := if s.requests[t].Starting? then CommitStart(t) else PublishFailed(t);
    assert [step][..0] == [];
    assert Run(s, [step]) == Next(s, step);
  }

  /** As when a cancel answers success between a start's read of its window and its commit. */
  lemma StartOverwritesCancel(s: State, t: nat, i: nat)
    requires Sound(s) && t < |s.requests| && s.requests[t].Starting? && s.requests[t].row == Some(i)
    requires i < |s.rows| && s.rows[i].status.Booked?
    ensures Next(s, Cancel(i)).rows[i].status == Cancelled
    ensures Next(Next(s, Cancel(i)), CommitStart(t)).rows[i].status == Fulfilled
  {
  }

  /** A cancelled row stays cancelled over every run exactly when no request in flight remembers it. */
  lemma CancelSticksIff(s: State, i: nat)
    requires CancelledAt(s, i)
    ensures (forall later :: CancelledAt(Run(s, later), i)) <==> forall t :: !Remembers(s, t, i)
  {
    if forall t :: !Remembers(s, t, i) {
      forall later ensures CancelledAt(Run(s, later), i) {
        CancelSticks(s, i, later);
      }
    } else {
      var t: nat :| Remembers(s, t, i);
      var step := RememberedCancelIsOverwritten(s, i, t);
    }
  }

  // ------------------------------------------------------- the plug list's one pass

  datatype Fields = Fields(reservedNow: bool, byMe: bool, until: Option<int>, next: Option<(int, int)>)

  /** The rows the list query returns: booked, not yet over, by plug and then by start. */
  predicate Listed(rows: seq<Row>, now: int) {
    && (forall i :: 0 <= i < |rows| ==> rows[i].status.Booked? && rows[i].end > now)
    && forall i, j :: 0 <= i < j < |rows| ==>
         rows[i].plug < rows[j].plug || (rows[i].plug == rows[j].plug && rows[i].start <= rows[j].start)
  }

  predicate Shows(rows: seq<Row>, plug: int, i: nat) {
    i < |rows| && rows[i].plug == plug
  }

  /** Among the first `n` rows: the one window over this instant, and the earliest later one. */
  predicate Describes(rows: seq<Row>, n: nat, plug: int, me: int, now: int, f: Fields)
    requires n <= |rows|
  {
    && (f.reservedNow <==> exists i :: 0 <= i < n && Shows(rows, plug, i) && rows[i].start <= now)
    && (forall i :: 0 <= i < n && Shows(rows, plug, i) && rows[i].start <= now ==>
         f.byMe == (rows[i].user == me) && f.until == Some(rows[i].end))
    && (!f.reservedNow ==> !f.byMe && f.until.None?)
    && (f.next.None? <==> forall i :: 0 <= i < n && Shows(rows, plug, i) ==> rows[i].start <= now)
    && (f.next.Some? ==>
          && (exists i :: 0 <= i < n && Shows(rows, plug, i) && f.next.value == (rows[i].start, rows[i].end))
          && now < f.next.value.0
          && forall i :: 0 <= i < n && Shows(rows, plug, i) && rows[i].start > now ==> f.next.value.0 <= rows[i].start)
  }

  /** Disjoint bookings leave at most one window over an instant. */
  lemma CoveringIsUnique(rows: seq<Row>, plug: int, now: int, i: nat, j: nat)
    requires Disjoint(rows) && Listed(rows, now) && Shows(rows, plug, i) && Shows(rows, plug, j)
    requires rows[i].start <= now && rows[j].start <= now
    ensures i == j
  {
    assert !Clash(rows, i, j);
  }

  /** One row's effect on its plug's entry. */
  function Entered(f: Fields, row: Row, me: int, now: int): Fields {
    if row.start <= now then f.(reservedNow := true, byMe := row.user == me, until := Some(row.end))
    else if f.next.None? then f.(next := Some((row.start, row.end)))
    else f
  }

  lemma RowEnters(rows: seq<Row>, n: nat, me: int, now: int, f: Fields)
    requires Listed(rows, now) && Disjoint(rows) && n < |rows| && Describes(rows, n, rows[n].plug, me, now, f)
    ensures Describes(rows, n + 1, rows[n].plug, me, now, Entered(f, rows[n], me, now))
  {
    var plug, g := rows[n].plug, Entered(f, rows[n], me, now);
    assert Shows(rows, plug, n);
    if rows[n].start <= now {
      forall i: nat | i <= n && Shows(rows, plug, i) && rows[i].start <= now ensures i == n {
        CoveringIsUnique(rows, plug, now, i, n);
      }
    }
    if f.next.Some? {
      var i :| 0 <= i < n && Shows(rows, plug, i) && f.next.value == (rows[i].start, rows[i].end);
    }
  }

  lemma OtherPlugKeeps(rows: seq<Row>, n: nat, plug: int, me: int, now: int, f: Fields)
    requires n < |rows| && plug != rows[n].plug && Describes(rows, n, plug, me, now, f)
    ensures Describes(rows, n + 1, plug, me, now, f)
  {
    assert !Shows(rows, plug, n);
  }

  /** One entry for each plug among the first `n` rows, describing those rows. */
  ghost predicate Grouped(rows: seq<Row>, n: nat, me: int, now: int, fields: map<int, Fields>)
    requires n <= |rows|
  {
    && (forall p :: p in fields <==> exists i :: 0 <= i < n && Shows(rows, p, i))
    && (forall p :: p in fields ==> Describes(rows, n, p, me, now, fields[p]))
  }

  function EntryOf(fields: map<int, Fields>, plug: int): Fields {
    if plug in fields then fields[plug] else Fields(false, false, None, None)
  }

  lemma GroupedStep(rows: seq<Row>, n: nat, me: int, now: int, fields: map<int, Fields>)
    requires Listed(rows, now) && Disjoint(rows) && n < |rows| && Grouped(rows, n, me, now, fields)
    ensures var entry := Entered(EntryOf(fields, rows[n].plug), rows[n], me, now);
            Grouped(rows, n + 1, me, now, fields[rows[n].plug := entry])
  {
    var plug := rows[n].plug;
    var entry := EntryOf(fields, plug);
    var more := fields[plug := Entered(entry, rows[n], me, now)];
    RowEnters(rows, n, me, now, entry);
    forall p | p in more ensures Describes(rows, n + 1, p, me, now, more[p]) {
      if p != plug {
        OtherPlugKeeps(rows, n, p, me, now, fields[p]);
      }
    }
    forall p ensures p in more <==> exists i :: 0 <= i < n + 1 && Shows(rows, p, i) {
      if p in more {
        if p == plug {
          assert Shows(rows, p, n);
        } else {
          var i :| 0 <= i < n && Shows(rows, p, i);
        }
      }
    }
  }

  /** The loop's body: one row into its plug's entry. */
  method EnterRow(fields: map<int, Fields>, row: Row, me: int, now: int) returns (more: map<int, Fields>)
    ensures more == fields[row.plug := Entered(EntryOf(fields, row.plug), row, me, now)]
  {
    var entry := EntryOf(fields, row.plug);
    if row.start <= now {
      entry := entry.(reservedNow := true, byMe := row.user == me, until := Some(row.end));
    } else if entry.next.None? {
      entry := entry.(next := Some((row.start, row.end)));
    }
    more := fields[row.plug := entry];
  }

  /** The grouping loop of the plug list, for any disjoint bookings. */
  method ReservationFieldsForPlugs(rows: seq<Row>, me: int, now: int) returns (fields: map<int, Fields>)
    requires Listed(rows, now) && Disjoint(rows)
    ensures Grouped(rows, |rows|, me, now, fields)
  {
    fields := map[];
    for n := 0 to |rows|
      invariant Grouped(rows, n, me, now, fields)
    {
      GroupedStep(rows, n, me, now, fields);
      fields := EnterRow(fields, rows[n], me, now);
    }
  }
}
