/**
 Time-of-day tariff resolution (backend/services/pricing.py).

 Wall-clock time is a whole number of seconds, counted so that second 0 is midnight at the
 start of a Monday in the zone the slots are written in. There are no clock shifts.
 */
module Tariffs {
  import opened Money

  const MINUTE: int := 60
  const DAY: int := 86_400
  // How many days past today are searched for the next slot.
  const LOOK_AHEAD: nat := 7

  datatype Option<+T> = None | Some(value: T)

  /** A price for [startMin, endMin) on some weekdays; Monday is day 0. */
  datatype Slot = Slot(startMin: int, endMin: int, days: set<int>, price: Price)

  /** What the slot schema admits; an empty or inverted window is only refused by the router. */
  predicate InRange(s: Slot) {
    0 <= s.startMin < 1440 && 0 < s.endMin <= 1440
  }

  /** What the slot router admits: additionally a non-empty window on some weekday. */
  predicate WellFormed(s: Slot) {
    InRange(s) && s.startMin < s.endMin && s.days != {} && forall w :: w in s.days ==> 0 <= w < 7
  }

  predicate AllInRange(slots: seq<Slot>) {
    forall s :: s in slots ==> InRange(s)
  }

  predicate ActiveOn(s: Slot, weekday: int) {
    weekday in s.days
  }

  function DayOf(t: int): int { t / DAY }

  function WeekdayOf(day: int): int { day % 7 }

  function MinuteOf(t: int): int { (t % DAY) / MINUTE }

  predicate CoversMinute(s: Slot, minute: int) {
    s.startMin <= minute < s.endMin
  }

  predicate Covers(s: Slot, t: int) {
    ActiveOn(s, WeekdayOf(DayOf(t))) && CoversMinute(s, MinuteOf(t))
  }

  // ---------------------------------------------------------------- resolver

  predicate WindowBefore(a: Slot, b: Slot) {
    a.startMin < b.startMin || (a.startMin == b.startMin && a.endMin < b.endMin)
  }

  predicate Eligible(s: Slot, weekday: int, minute: int) {
    ActiveOn(s, weekday) && CoversMinute(s, minute)
  }

  /** Of the slots covering `minute` on `weekday`, the first in list order with the least (start, end). */
  function Winner(slots: seq<Slot>, weekday: int, minute: int): (w: Option<Slot>)
    ensures w.Some? ==> w.value in slots && Eligible(w.value, weekday, minute)
    ensures w.Some? ==> forall s :: s in slots && Eligible(s, weekday, minute) ==> !WindowBefore(s, w.value)
    ensures w.None? ==> forall s :: s in slots ==> !Eligible(s, weekday, minute)
  {
    if slots == [] then None else
    var rest, s := slots[..|slots| - 1], slots[|slots| - 1];
    assert slots == rest + [s];
    var w := Winner(rest, weekday, minute);
    if Eligible(s, weekday, minute) && (w.None? || WindowBefore(s, w.value)) then Some(s) else w
  }

  /** Of the slots of `weekday` starting after minute `after`, the first in list order to start soonest. */
  function NextToStart(slots: seq<Slot>, weekday: int, after: Option<int>): (n: Option<Slot>)
    ensures n.Some? ==> n.value in slots && StartsAfter(n.value, weekday, after)
    ensures n.Some? ==> forall s :: s in slots && StartsAfter(s, weekday, after) ==> n.value.startMin <= s.startMin
    ensures n.None? ==> forall s :: s in slots ==> !StartsAfter(s, weekday, after)
  {
    if slots == [] then None else
    var rest, s := slots[..|slots| - 1], slots[|slots| - 1];
    assert slots == rest + [s];
    var n := NextToStart(rest, weekday, after);
    if StartsAfter(s, weekday, after) && (n.None? || s.startMin < n.value.startMin) then Some(s) else n
  }

  predicate StartsAfter(s: Slot, weekday: int, after: Option<int>) {
    ActiveOn(s, weekday) && (after.None? || s.startMin > after.value)
  }

  /** The slot price in force, if any, and the next instant at which it could change, if any. */
  datatype Window = Window(rate: Option<Price>, until: Option<int>)

  function At(day: int, minute: int): int {
    day * DAY + minute * MINUTE
  }

  /** The earliest slot start on the first of the `left` days from `day` on that has a slot. */
  function RollForward(slots: seq<Slot>, day: int, left: nat): Option<int>
    decreases left
  {
    if left == 0 then None else
    var first := NextToStart(slots, WeekdayOf(day), None);
    if first.Some? then Some(At(day, first.value.startMin))
    else RollForward(slots, day + 1, left - 1)
  }

  function SlotRateAndBound(slots: seq<Slot>, at: int): Window {
    var day, minute := DayOf(at), MinuteOf(at);
    var slot := Winner(slots, WeekdayOf(day), minute);
    if slot.Some? then
      Window(Some(slot.value.price), Some(At(day, slot.value.endMin)))
    else
      var next := NextToStart(slots, WeekdayOf(day), Some(minute));
      if next.Some? then Window(None, Some(At(day, next.value.startMin)))
      else Window(None, RollForward(slots, day + 1, LOOK_AHEAD))
  }

  /** The slot whose price applies at `t`. */
  function SlotAt(slots: seq<Slot>, t: int): Option<Slot> {
    Winner(slots, WeekdayOf(DayOf(t)), MinuteOf(t))
  }

  // ------------------------------------------------------- boundary theorems

  /** A slot that wins at `minute` keeps winning until it ends, whatever else overlaps it. */
  lemma {:induction false} WinnerKeepsWinning(slots: seq<Slot>, weekday: int, minute: int, later: int)
    requires Winner(slots, weekday, minute).Some?
    requires minute <= later < Winner(slots, weekday, minute).value.endMin
    ensures Winner(slots, weekday, later) == Winner(slots, weekday, minute)
  {
    var rest := slots[..|slots| - 1];
    if Winner(slots, weekday, minute) == Winner(rest, weekday, minute) {
      WinnerKeepsWinning(rest, weekday, minute, later);
    }
  }

  /** An instant lies before minute `m` of its own day exactly when its minute of day is below `m`. */
  lemma MinuteOrder(t: int, m: int)
    ensures 0 <= MinuteOf(t) < 1440
    ensures At(DayOf(t), 0) <= t < At(DayOf(t) + 1, 0)
    ensures t < At(DayOf(t), m) <==> MinuteOf(t) < m
  {
  }

  lemma AtIsOnDay(day: int, m: int)
    requires 0 <= m < 1440
    ensures DayOf(At(day, m)) == day && MinuteOf(At(day, m)) == m
  {
  }

  lemma {:induction false} RollForwardSound(slots: seq<Slot>, day: int, left: nat, t: int)
    requires AllInRange(slots)
    requires RollForward(slots, day, left).Some?
    requires day <= DayOf(t) && t < RollForward(slots, day, left).value
    ensures SlotAt(slots, t).None?
    decreases left
  {
    var first := NextToStart(slots, WeekdayOf(day), None);
    if first.Some? {
      MinuteOrder(t, first.value.startMin);
      assert DayOf(t) == day;
    } else if DayOf(t) != day {
      RollForwardSound(slots, day + 1, left - 1, t);
    }
  }

  predicate DayHasSlot(slots: seq<Slot>, day: int) {
    NextToStart(slots, WeekdayOf(day), None).Some?
  }

  /** Rolling forward finds a start exactly when one of the days looked at has a slot. */
  lemma {:induction false} RollForwardFinds(slots: seq<Slot>, day: int, left: nat)
    requires AllInRange(slots)
    ensures RollForward(slots, day, left).Some? <==> exists d :: day <= d < day + left && DayHasSlot(slots, d)
    ensures RollForward(slots, day, left).Some? ==> RollForward(slots, day, left).value >= At(day, 0)
    decreases left
  {
    if left > 0 && !DayHasSlot(slots, day) {
      RollForwardFinds(slots, day + 1, left - 1);
    }
  }

  /** Every weekday occurs among any seven days in a row. */
  lemma WeekdayWithinSeven(day: int, weekday: int) returns (d: int)
    requires 0 <= weekday < 7
    ensures day <= d < day + 7 && WeekdayOf(d) == weekday
  {
    d := day + (weekday - day) % 7;
  }

  /** The boundary is strictly later than the instant it was computed for. */
  lemma BoundaryProgresses(slots: seq<Slot>, at: int)
    requires AllInRange(slots)
    ensures var b := SlotRateAndBound(slots, at).until; b.Some? ==> at < b.value
  {
    var day, minute := DayOf(at), MinuteOf(at);
    var slot, next := SlotAt(slots, at), NextToStart(slots, WeekdayOf(day), Some(minute));
    if slot.Some? {
      MinuteOrder(at, slot.value.endMin);
    } else if next.Some? {
      MinuteOrder(at, next.value.startMin);
    } else {
      RollForwardFinds(slots, day + 1, LOOK_AHEAD);
      MinuteOrder(at, 0);
    }
  }

  lemma SoundWhileCovered(slots: seq<Slot>, at: int, t: int)
    requires AllInRange(slots) && at <= t
    requires SlotAt(slots, at).Some? && t < At(DayOf(at), SlotAt(slots, at).value.endMin)
    ensures SlotAt(slots, t) == SlotAt(slots, at)
  {
    var w := SlotAt(slots, at).value;
    MinuteOrder(at, 0);
    MinuteOrder(t, w.endMin);
    assert DayOf(t) == DayOf(at) && MinuteOf(at) <= MinuteOf(t);
    WinnerKeepsWinning(slots, WeekdayOf(DayOf(at)), MinuteOf(at), MinuteOf(t));
  }

  lemma SoundInGapToday(slots: seq<Slot>, at: int, t: int)
    requires at <= t && DayOf(t) == DayOf(at)
    requires SlotAt(slots, at).None?
    requires var next := NextToStart(slots, WeekdayOf(DayOf(at)), Some(MinuteOf(at)));
             next.Some? ==> t < At(DayOf(at), next.value.startMin)
    ensures SlotAt(slots, t).None?
  {
    if SlotAt(slots, t).Some? {
      var s := SlotAt(slots, t).value;
      MinuteOrder(at, s.endMin);
      MinuteOrder(t, s.startMin);
      MinuteOrder(t, s.endMin);
      assert false;
    }
  }

  lemma SoundOnLaterDays(slots: seq<Slot>, day: int, t: int)
    requires AllInRange(slots) && day < DayOf(t)
    requires var b := RollForward(slots, day + 1, LOOK_AHEAD); b.Some? ==> t < b.value
    ensures SlotAt(slots, t).None?
  {
    if RollForward(slots, day + 1, LOOK_AHEAD).Some? {
      RollForwardSound(slots, day + 1, LOOK_AHEAD, t);
    } else {
      RollForwardFinds(slots, day + 1, LOOK_AHEAD);
      var d := WeekdayWithinSeven(day + 1, WeekdayOf(DayOf(t)));
      assert !DayHasSlot(slots, d);
    }
  }

  /** Until the boundary, on whatever day and weekday that falls, the same slot applies. */
  lemma BoundaryIsSound(slots: seq<Slot>, at: int, t: int)
    requires AllInRange(slots) && at <= t
    requires var b := SlotRateAndBound(slots, at).until; b.Some? ==> t < b.value
    ensures SlotAt(slots, t) == SlotAt(slots, at)
    ensures SlotRateAndBound(slots, t).rate == SlotRateAndBound(slots, at).rate
  {
    var day := DayOf(at);
    if SlotAt(slots, at).Some? {
      SoundWhileCovered(slots, at, t);
    } else if DayOf(t) == day {
      SoundInGapToday(slots, at, t);
    } else {
      var next := NextToStart(slots, WeekdayOf(day), Some(MinuteOf(at)));
      MinuteOrder(at, 0);
      MinuteOrder(t, 0);
      SoundOnLaterDays(slots, day, t);
    }
  }

  /** There is no boundary exactly when no slot is active on any weekday. */
  lemma NoBoundaryIffNoActiveSlot(slots: seq<Slot>, at: int)
    requires AllInRange(slots)
    ensures SlotRateAndBound(slots, at).until.None? <==>
            forall s, weekday :: s in slots && 0 <= weekday < 7 ==> !ActiveOn(s, weekday)
  {
    var day := DayOf(at) + 1;
    RollForwardFinds(slots, day, LOOK_AHEAD);
    if RollForward(slots, day, LOOK_AHEAD).None? {
      forall s, weekday | s in slots && 0 <= weekday < 7
        ensures !ActiveOn(s, weekday)
      {
        var d := WeekdayWithinSeven(day, weekday);
        assert !DayHasSlot(slots, d);
        assert !StartsAfter(s, weekday, None);
      }
    } else {
      var d :| day <= d < day + LOOK_AHEAD && DayHasSlot(slots, d);
      assert ActiveOn(NextToStart(slots, WeekdayOf(d), None).value, WeekdayOf(d));
    }
  }

  /** From inside a gap, the boundary is an instant at which a slot does apply. */
  lemma GapBoundaryOpensASlot(slots: seq<Slot>, at: int)
    requires forall s :: s in slots ==> WellFormed(s)
    requires SlotAt(slots, at).None? && SlotRateAndBound(slots, at).until.Some?
    ensures SlotAt(slots, SlotRateAndBound(slots, at).until.value).Some?
  {
    var day := DayOf(at);
    var next := NextToStart(slots, WeekdayOf(day), Some(MinuteOf(at)));
    if next.Some? {
      AtIsOnDay(day, next.value.startMin);
      assert Eligible(next.value, WeekdayOf(day), next.value.startMin);
    } else {
      RollForwardOpens(slots, day + 1, LOOK_AHEAD);
    }
  }

  lemma {:induction false} RollForwardOpens(slots: seq<Slot>, day: int, left: nat)
    requires forall s :: s in slots ==> WellFormed(s)
    requires RollForward(slots, day, left).Some?
    ensures SlotAt(slots, RollForward(slots, day, left).value).Some?
    decreases left
  {
    var first := NextToStart(slots, WeekdayOf(day), None);
    if first.Some? {
      AtIsOnDay(day, first.value.startMin);
      assert Eligible(first.value, WeekdayOf(day), first.value.startMin);
    } else {
      RollForwardOpens(slots, day + 1, left - 1);
    }
  }

  // ---------------------------------------------------------------- overlaps

  predicate SlotOverlaps(a: Slot, b: Slot) {
    a.days * b.days != {} && a.startMin < b.endMin && b.startMin < a.endMin
  }

  /** `weekday` and `minute` lie inside both slots. */
  predicate Shared(a: Slot, b: Slot, weekday: int, minute: int) {
    && ActiveOn(a, weekday) && CoversMinute(a, minute)
    && ActiveOn(b, weekday) && CoversMinute(b, minute)
  }

  lemma AnyOf<T>(days: set<T>) returns (day: T)
    requires days != {}
    ensures day in days
  {
    day :| day in days;
  }

  /** The operator check is exact: two slots conflict precisely when some weekday and minute is in both. */
  lemma OverlapIff(a: Slot, b: Slot)
    requires WellFormed(a) && WellFormed(b)
    ensures SlotOverlaps(a, b) <==> exists weekday, minute :: Shared(a, b, weekday, minute)
  {
    if weekday, minute :| Shared(a, b, weekday, minute) {
      assert weekday in a.days * b.days;
    }
    if SlotOverlaps(a, b) {
      var weekday := AnyOf(a.days * b.days);
      assert Shared(a, b, weekday, if a.startMin < b.startMin then b.startMin else a.startMin);
    }
  }

  /** Slot lists with the same slots, in whatever order. */
  ghost predicate SameSlots(xs: seq<Slot>, ys: seq<Slot>) {
    forall s :: s in xs <==> s in ys
  }

  ghost predicate NoConflicts(slots: seq<Slot>) {
    forall a, b :: a in slots && b in slots && a != b ==> !SlotOverlaps(a, b)
  }

  lemma OrderDoesNotMatterForBound(xs: seq<Slot>, ys: seq<Slot>, at: int)
    requires SameSlots(xs, ys)
    ensures SlotRateAndBound(xs, at).until == SlotRateAndBound(ys, at).until
  {
    RollForwardOrder(xs, ys, DayOf(at) + 1, LOOK_AHEAD);
  }

  lemma {:induction false} RollForwardOrder(xs: seq<Slot>, ys: seq<Slot>, day: int, left: nat)
    requires SameSlots(xs, ys)
    ensures RollForward(xs, day, left) == RollForward(ys, day, left)
    decreases left
  {
    if left > 0 {
      RollForwardOrder(xs, ys, day + 1, left - 1);
    }
  }

  /**
   The order in which a tariff's slots are listed can only matter where two of them name the same
   window on the same day, which slots without conflicts never do.
   */
  lemma OrderDoesNotMatter(xs: seq<Slot>, ys: seq<Slot>, at: int)
    requires SameSlots(xs, ys) && NoConflicts(xs)
    requires forall s :: s in xs ==> WellFormed(s)
    ensures SlotRateAndBound(xs, at) == SlotRateAndBound(ys, at)
  {
    OrderDoesNotMatterForBound(xs, ys, at);
    var wx, wy := SlotAt(xs, at), SlotAt(ys, at);
    if wx.Some? && wy.Some? && wx != wy {
      assert Shared(wx.value, wy.value, WeekdayOf(DayOf(at)), MinuteOf(at));
      OverlapIff(wx.value, wy.value);
    }
  }

  /** Two slots with one window but different prices: the list order decides the rate. */
  lemma OrderMattersForDuplicateWindows()
    ensures var a, b := Slot(0, 60, {0}, 500), Slot(0, 60, {0}, 900);
            SlotRateAndBound([a, b], 0).rate == Some(500) && SlotRateAndBound([b, a], 0).rate == Some(900)
  {
    WinnerOfTwo(Slot(0, 60, {0}, 500), Slot(0, 60, {0}, 900), 0, 0);
    WinnerOfTwo(Slot(0, 60, {0}, 900), Slot(0, 60, {0}, 500), 0, 0);
  }

  lemma WinnerOfTwo(a: Slot, b: Slot, weekday: int, minute: int)
    ensures Winner([a, b], weekday, minute) ==
            if Eligible(a, weekday, minute) then
              if Eligible(b, weekday, minute) && WindowBefore(b, a) then Some(b) else Some(a)
            else if Eligible(b, weekday, minute) then Some(b) else None
  {
    assert [a, b][..1] == [a] && [a][..0] == [];
    assert Winner([a], weekday, minute) == if Eligible(a, weekday, minute) then Some(a) else None;
  }
}
