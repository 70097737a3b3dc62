/**
 The booking rules as a driver meets them (backend/routers/reservations.py,
 backend/services/reservations.py, backend/routers/sessions.py), said of windows and instants
 alone: whom a hold keeps out, when it lapses, and what a booking, a start and an expiry change.
 */
module BookingRules {
  import opened Tariffs
  import opened Reservations

  /** A hold in force: booked, not a quarter of an hour past its start, and not past its end. */
  predicate InForce(row: Row, now: int) {
    row.status == Booked && now < row.start + 900 && now < row.end
  }

  /** How many holds in force a user has. */
  function HoldsOf(rows: seq<Row>, user: int, now: int): nat {
    if rows == [] then 0 else
    var last := rows[|rows| - 1];
    HoldsOf(rows[..|rows| - 1], user, now) + if last.user == user && InForce(last, now) then 1 else 0
  }

  /** A hold in force on the plug that shares time with [start, end). */
  predicate InTheWay(rows: seq<Row>, plug: int, start: int, end: int, now: int) {
    exists i ::
      0 <= i < |rows| && rows[i].plug == plug && InForce(rows[i], now) && rows[i].start < end && start < rows[i].end
  }

  /** Expiry flips a hold of the plug or the user exactly once it is no longer in force, and nothing else. */
  lemma ExpiryIff(rows: seq<Row>, plug: Option<int>, user: Option<int>, now: int, i: nat)
    requires i < |rows|
    ensures var named := plug == Some(rows[i].plug) || user == Some(rows[i].user);
            Expire(rows, plug, user, now)[i] ==
            if rows[i].status == Booked && named && !InForce(rows[i], now) then rows[i].(status := Expired) else rows[i]
  {
  }

  /** The cap check counts the user's holds in force: two are one too many. */
  lemma {:induction false} RoomIff(rows: seq<Row>, r: Request)
    ensures HasRoom(rows, r) <==> HoldsOf(rows, r.user, r.now) < 2
  {
    CountInForce(rows, r.user, r.now);
  }

  lemma {:induction false} CountInForce(rows: seq<Row>, user: int, now: int)
    ensures Upcoming(Expire(rows, None, Some(user), now), user, now, -1) == HoldsOf(rows, user, now)
  {
    if rows != [] {
      var n := |rows| - 1;
      CountInForce(rows[..n], user, now);
      assert Expire(rows, None, Some(user), now)[..n] == Expire(rows[..n], None, Some(user), now);
    }
  }

  /** The overlap check finds exactly the holds in force that share time with the window. */
  lemma FreeIff(rows: seq<Row>, r: Request)
    ensures Free(rows, r) <==> !InTheWay(rows, r.plug, r.start, r.end, r.now)
  {
    forall i: nat | i < |rows|
      ensures Conflict(rows, r, i) <==>
                rows[i].plug == r.plug && InForce(rows[i], r.now) && rows[i].start < r.end && r.start < rows[i].end
    {
    }
  }

  /** A window is admitted when it lasts 15 minutes to 4 hours and starts from 2 minutes ago to 7 days ahead. */
  predicate Admitted(r: Request) {
    900 <= r.end - r.start <= 14_400 && r.now - 120 <= r.start <= r.now + 604_800
  }

  /**
   A request that meets no other is booked exactly when its window is admitted, its user has fewer
   than two holds in force and none on the plug shares its time. Then one row is added, the holds
   of that user or plug no longer in force expire, and every other row stays.
   */
  lemma BookedIff(s: State, u: nat, r: Request)
    requires u < |s.requests| && s.requests[u].Idle? && RowsUnlocked(s, r) && r.now == s.clock
    ensures var after := AfterBooking(s, u, r).rows;
            if Admitted(r) && HoldsOf(s.rows, r.user, r.now) < 2 && !InTheWay(s.rows, r.plug, r.start, r.end, r.now)
            then
              && |after| == |s.rows| + 1 && after[|s.rows|] == Row(r.plug, r.user, r.start, r.end, Booked)
              && forall i :: 0 <= i < |s.rows| ==>
                   after[i] == if s.rows[i].status == Booked && !InForce(s.rows[i], r.now)
                                  && (s.rows[i].plug == r.plug || s.rows[i].user == r.user)
                               then s.rows[i].(status := Expired) else s.rows[i]
            else after == s.rows
  {
    RoomIff(s.rows, r);
    FreeIff(s.rows, r);
    if WindowAllowed(r) && HasRoom(s.rows, r) && Free(s.rows, r) {
      BookingGoesThrough(s, u, r);
    } else {
      TurnedAway(s, u, r);
    }
  }

  lemma TurnedAway(s: State, u: nat, r: Request)
    requires u < |s.requests| && s.requests[u].Idle? && RowsUnlocked(s, r) && r.now == s.clock
    requires !(WindowAllowed(r) && HasRoom(s.rows, r) && Free(s.rows, r))
    ensures AfterBooking(s, u, r).rows == s.rows
  {
    var asked := Next(s, Ask(u, r));
    if WindowAllowed(r) {
      assert asked == s.(requests := s.requests[u := Asked(r)]);
      forall v | 0 <= v < |asked.requests| ensures !HoldsUser(asked, v, r.user) && !HoldsPlug(asked, v, r.plug) {
        assert !HoldsUser(s, v, r.user) && !HoldsPlug(s, v, r.plug);
      }
      var counted := Next(asked, LockUser(u));
      if HasRoom(s.rows, r) {
        assert counted == s.(requests := s.requests[u := UserLocked(r)]);
        forall v | 0 <= v < |counted.requests| ensures !HoldsPlug(counted, v, r.plug) {
          assert !HoldsPlug(asked, v, r.plug);
        }
        assert Next(counted, LockPlug(u)).requests[u].Idle?;
      } else {
        assert counted.requests[u].Idle?;
      }
    } else {
      assert asked == s;
    }
  }

  /** Another user's request over a hold in force is turned away, however the requests interleave. */
  lemma HoldKeepsBookingsOut(s: State, t: nat, i: nat)
    requires t < |s.requests| && s.requests[t].UserLocked? && i < |s.rows|
    requires var r := s.requests[t].request;
             && InForce(s.rows[i], r.now) && s.rows[i].plug == r.plug
             && s.rows[i].start < r.end && r.start < s.rows[i].end
    ensures !Next(s, LockPlug(t)).requests[t].PlugLocked? && Next(s, LockPlug(t)).rows == s.rows
  {
    FreeIff(s.rows, s.requests[t].request);
  }

  /** A start inside a hold in force is its holder's, on that very row, or it is refused. */
  lemma HoldKeepsStartsOut(s: State, t: nat, user: int, plug: int, row: Option<nat>, i: nat)
    requires Disjoint(s.rows) && i < |s.rows| && InForce(s.rows[i], s.clock)
    requires s.rows[i].plug == plug && s.rows[i].start <= s.clock
    ensures Next(s, BeginStart(t, user, plug, row)) != s ==> s.rows[i].user == user && row == Some(i)
  {
    if row.Some? && row.value < |s.rows| && row.value != i {
      assert !Clash(s.rows, i, row.value);
    }
  }

  /** With no hold in force over this instant, or the caller's own there, a start on a free plug row goes ahead. */
  lemma StartGoesAhead(s: State, t: nat, user: int, plug: int, row: Option<nat>)
    requires t < |s.requests| && s.requests[t].Idle? && forall u :: 0 <= u < |s.requests| ==> !HoldsPlug(s, u, plug)
    requires if row.None?
             then forall i :: 0 <= i < |s.rows| && s.rows[i].plug == plug && InForce(s.rows[i], s.clock) ==>
                    s.clock < s.rows[i].start
             else && row.value < |s.rows| && s.rows[row.value].plug == plug && s.rows[row.value].user == user
                  && InForce(s.rows[row.value], s.clock) && s.rows[row.value].start <= s.clock
    ensures Next(s, BeginStart(t, user, plug, row)).requests[t] == Starting(plug, s.clock, row)
  {
  }

  /** A start's commit fulfils the row it read, expires the plug's holds no longer in force, and nothing else. */
  lemma StartFulfils(s: State, t: nat, i: nat)
    requires t < |s.requests| && s.requests[t].Starting? && i < |s.rows|
    ensures var plug, now := s.requests[t].plug, s.requests[t].now;
            Next(s, CommitStart(t)).rows[i] ==
            if s.requests[t].row == Some(i) then s.rows[i].(status := Fulfilled)
            else if s.rows[i].status == Booked && s.rows[i].plug == plug && !InForce(s.rows[i], now)
            then s.rows[i].(status := Expired) else s.rows[i]
  {
  }

  /** The step itself ends the row: its cancel, its user's closure, or the start that read it. */
  predicate Ends(s: State, step: Step, i: nat) {
    && i < |s.rows|
    && match step
       case Cancel(k) => k == i
       case CloseAccount(user) => user == s.rows[i].user
       case CommitStart(t) => t < |s.requests| && s.requests[t].Starting? && s.requests[t].row == Some(i)
       case _ => false
  }

  /** Bookings, starts and expiries of others, and every other step, leave a hold in force as it was. */
  lemma HoldStays(s: State, step: Step, i: nat)
    requires Sound(s) && i < |s.rows| && InForce(s.rows[i], Next(s, step).clock) && !Ends(s, step, i)
    ensures i < |Next(s, step).rows| && Next(s, step).rows[i] == s.rows[i]
  {
    match step
    case Book(t) =>
      if t < |s.requests| && s.requests[t].PlugLocked? {
        assert StillGood(s, t);
        AfterBook(s, t);
      }
    case CommitStart(t) =>
      if t < |s.requests| && s.requests[t].Starting? {
        assert StillGood(s, t);
        StartFulfils(s, t, i);
      }
    case _ =>
  }

  /** So over any run a hold stands, untouched, as long as it is in force and nothing ends it. */
  lemma {:induction false} HoldStands(s: State, steps: seq<Step>, i: nat)
    requires Sound(s) && i < |s.rows| && InForce(s.rows[i], Run(s, steps).clock)
    requires forall k :: 0 <= k < |steps| ==>
               UndoHasRoom(Run(s, steps[..k]), steps[k]) && !Ends(Run(s, steps[..k]), steps[k], i)
    ensures Sound(Run(s, steps)) && i < |Run(s, steps).rows| && Run(s, steps).rows[i] == s.rows[i]
  {
    if steps != [] {
      var n := |steps| - 1;
      var before := Run(s, steps[..n]);
      forall k | 0 <= k < n
        ensures UndoHasRoom(Run(s, steps[..n][..k]), steps[..n][k]) && !Ends(Run(s, steps[..n][..k]), steps[..n][k], i)
      {
        assert steps[..n][..k] == steps[..k];
        assert UndoHasRoom(Run(s, steps[..k]), steps[k]);
      }
      ClockOnlyAdvances(before, steps[n]);
      HoldStands(s, steps[..n], i);
      assert UndoHasRoom(before, steps[n]) && !Ends(before, steps[n], i);
      HoldStays(before, steps[n], i);
      if steps[n].PublishFailed? {
        UndoStaysSound(before, steps[n].t);
      } else {
        StepStaysSound(before, steps[n]);
      }
    }
  }

  lemma ClockOnlyAdvances(s: State, step: Step)
    ensures s.clock <= Next(s, step).clock
  {
  }

  /** A cancel ends a booked row and no other; closing an account ends its user's and no others. */
  lemma EndingsEnd(s: State, i: nat, user: int, k: nat)
    requires k < |s.rows|
    ensures Next(s, Cancel(i)).rows[k] ==
            if k == i && s.rows[k].status == Booked then s.rows[k].(status := Cancelled) else s.rows[k]
    ensures Next(s, CloseAccount(user)).rows[k] ==
            if s.rows[k].user == user && s.rows[k].status == Booked then s.rows[k].(status := Cancelled) else s.rows[k]
  {
  }

  /** A start that found a hold waits on its command: sent, the row stays fulfilled, else it is booked again. */
  lemma StartWaits(s: State, t: nat, i: nat)
    requires t < |s.requests| && s.requests[t].Starting? && i < |s.rows| && s.requests[t].row == Some(i)
    ensures var waiting := Next(s, CommitStart(t));
            && waiting.requests == s.requests[t := Publishing(i)]
            && Next(waiting, PublishOk(t)) == waiting.(requests := s.requests[t := Idle])
            && Next(waiting, PublishFailed(t)) ==
               waiting.(rows := waiting.rows[i := s.rows[i].(status := Booked)], requests := s.requests[t := Idle])
  {
  }

  /** A rollback lets go of its rows; one under way asks for and starts nothing else. */
  lemma OneThingAtATime(s: State, t: nat, r: Request, user: int, plug: int, row: Option<nat>)
    requires t < |s.requests|
    ensures Next(s, Rollback(t)) == s.(requests := s.requests[t := Idle])
    ensures !s.requests[t].Idle? ==> Next(s, Ask(t, r)) == s == Next(s, BeginStart(t, user, plug, row))
    ensures !s.requests[t].Publishing? ==> Next(s, PublishOk(t)) == s == Next(s, PublishFailed(t))
    ensures forall now :: Next(s, Tick(now)) == s.(clock := if now >= s.clock then now else s.clock)
  {
  }
}
