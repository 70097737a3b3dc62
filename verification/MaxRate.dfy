/**
 The dearest rate a session could meet, used to size authorization holds
 (backend/services/pricing.py, max_rate_over_window).
 */
module MaxRate {
  import opened Money
  import opened Tariffs
  import opened Rates

  /** On `day` the slot's window reaches into [from, to). */
  predicate ReachesInto(s: Slot, day: int, from: int, to: int) {
    ActiveOn(s, WeekdayOf(day)) && At(day, s.startMin) < to && At(day, s.endMin) > from
  }

  /** The slot has a say in the answer for the local window [from, to). */
  ghost predicate Considered(s: Slot, from: int, to: int) {
    to - from >= DAY || exists day :: DayOf(from) <= day <= DayOf(to) && ReachesInto(s, day, from, to)
  }

  /** `r` is the largest of the flat price and the prices of the slots that are considered. */
  ghost predicate IsMaxRate(b: Basis, startAt: int, duration: int, r: Price) {
    match b
    case EnvDefault(rate) => r == rate
    case OnTariff(price, slots, zone) =>
      var from, to := startAt + zone, startAt + zone + duration;
      && price <= r
      && (forall s :: s in slots && Considered(s, from, to) ==> s.price <= r)
      && PaidFor(r, price, slots, from, to)
  }

  /** `x` is the flat price or the price of a considered slot. */
  ghost predicate PaidFor(x: Price, base: Price, slots: seq<Slot>, from: int, to: int) {
    x == base || exists s :: s in slots && Considered(s, from, to) && s.price == x
  }

  function MaxOf(rates: seq<Price>): (m: Price)
    requires rates != []
    ensures m in rates
    ensures forall x :: x in rates ==> x <= m
  {
    var rest, x := rates[..|rates| - 1], rates[|rates| - 1];
    assert rates == rest + [x];
    if rest == [] then x else
    var m := MaxOf(rest);
    if m < x then x else m
  }

  method MaxRateOverWindow(b: Basis, startAt: int, duration: int) returns (r: Price)
    ensures IsMaxRate(b, startAt, duration, r)
  {
    if b.EnvDefault? {
      return b.rate;
    }
    var base, slots := b.price, b.slots;
    if slots == [] {
      return base;
    }
    var rates: seq<Price> := [base];
    var startLocal := startAt + b.zone;
    var endLocal := startLocal + duration;
    if duration >= 24 * 3600 {
      for i := 0 to |slots|
        invariant base in rates
        invariant forall s :: s in slots[..i] ==> s.price in rates
        invariant forall x :: x in rates ==> PaidFor(x, base, slots, startLocal, endLocal)
      {
        assert Considered(slots[i], startLocal, endLocal);
        rates := rates + [slots[i].price];
      }
      return MaxOf(rates);
    }
    var day, lastDay := DayOf(startLocal), DayOf(endLocal);
    while day <= lastDay
      invariant DayOf(startLocal) <= day
      invariant base in rates
      invariant forall s, d ::
                  s in slots && DayOf(startLocal) <= d < day && ReachesInto(s, d, startLocal, endLocal) ==>
                    s.price in rates
      invariant forall x :: x in rates ==> PaidFor(x, base, slots, startLocal, endLocal)
      decreases lastDay - day
    {
      ghost var before := rates;
      for i := 0 to |slots|
        invariant before <= rates
        invariant forall s :: s in slots[..i] && ReachesInto(s, day, startLocal, endLocal) ==> s.price in rates
        invariant forall x :: x in rates ==> PaidFor(x, base, slots, startLocal, endLocal)
      {
        var s := slots[i];
        if ActiveOn(s, WeekdayOf(day)) {
          var slotStart, slotEnd := At(day, s.startMin), At(day, s.endMin);
          if slotStart < endLocal && slotEnd > startLocal {
            assert ReachesInto(s, day, startLocal, endLocal);
            assert Considered(s, startLocal, endLocal);
            rates := rates + [s.price];
          }
        }
      }
      day := day + 1;
    }
    r := MaxOf(rates);
  }

  /** No instant of [startAt, startAt + duration) is charged above the answer. */
  lemma MaxRateBoundsWindow(b: Basis, startAt: int, duration: int, r: Price, t: int)
    requires IsMaxRate(b, startAt, duration, r)
    requires startAt <= t < startAt + duration
    ensures RateAt(b, t) <= r
  {
    if b.OnTariff? {
      var from, local := startAt + b.zone, t + b.zone;
      var s := SlotAt(b.slots, local);
      if s.Some? {
        MinuteOrder(local, s.value.startMin);
        MinuteOrder(local, s.value.endMin);
        assert duration < DAY ==> ReachesInto(s.value, DayOf(local), from, from + duration);
        assert Considered(s.value, from, from + duration);
      }
    }
  }

  /** For a window of a day or more the bound holds at every instant, inside the window or not. */
  lemma DayLongBoundsForever(b: Basis, startAt: int, duration: int, r: Price, t: int)
    requires IsMaxRate(b, startAt, duration, r) && DAY <= duration
    ensures RateAt(b, t) <= r
  {
    if b.OnTariff? {
      var s := SlotAt(b.slots, t + b.zone);
      if s.Some? {
        assert Considered(s.value, startAt + b.zone, startAt + b.zone + duration);
      }
    }
  }

  /** Below a day the answer is not padded: it is the flat price or is charged at some instant of the window. */
  lemma MaxRateIsAttained(b: Basis, startAt: int, duration: int, r: Price) returns (t: int)
    requires IsMaxRate(b, startAt, duration, r) && 0 < duration < DAY
    requires b.OnTariff? && NoConflicts(b.slots) && forall s :: s in b.slots ==> WellFormed(s)
    ensures startAt <= t < startAt + duration
    ensures r == b.price || RateAt(b, t) == r
  {
    t := startAt;
    if r != b.price {
      var from, to := startAt + b.zone, startAt + b.zone + duration;
      var s :| s in b.slots && Considered(s, from, to) && s.price == r;
      var day :| DayOf(from) <= day <= DayOf(to) && ReachesInto(s, day, from, to);
      var local := InstantInside(s, day, from, to);
      OnlyCoverWins(b.slots, s, local);
      t := local - b.zone;
    }
  }

  ghost predicate Charged(b: Basis, startAt: int, duration: int, r: Price) {
    exists t :: startAt <= t < startAt + duration && RateAt(b, t) == r
  }

  /** At some instant of [from, to) no slot applies. */
  ghost predicate HasGap(slots: seq<Slot>, from: int, to: int) {
    exists t :: from <= t < to && SlotAt(slots, t).None?
  }

  /** The slot's window reaches into [from, to) on one of the days that touches. */
  ghost predicate Reaches(s: Slot, from: int, to: int) {
    exists day :: DayOf(from) <= day <= DayOf(to) && ReachesInto(s, day, from, to)
  }

  /**
   For a window of any length, the answer is charged at some instant of it exactly when it is the
   flat price and the window has a gap, or the price of a slot whose own days the window touches.
   */
  lemma ChargedIff(b: Basis, startAt: int, duration: int, r: Price)
    requires b.OnTariff? && 0 < duration && NoConflicts(b.slots) && forall s :: s in b.slots ==> WellFormed(s)
    ensures var from, to := startAt + b.zone, startAt + b.zone + duration;
            Charged(b, startAt, duration, r) <==>
            || (r == b.price && HasGap(b.slots, from, to))
            || exists s :: s in b.slots && Reaches(s, from, to) && s.price == r
  {
    var from, to := startAt + b.zone, startAt + b.zone + duration;
    if Charged(b, startAt, duration, r) {
      ChargedHasCause(b, startAt, duration, r);
    }
    if r == b.price && HasGap(b.slots, from, to) {
      var local :| from <= local < to && SlotAt(b.slots, local).None?;
      assert RateAt(b, local - b.zone) == r;
    }
    if s :| s in b.slots && Reaches(s, from, to) && s.price == r {
      ReachedIsCharged(b, startAt, duration, s);
    }
  }

  lemma ChargedHasCause(b: Basis, startAt: int, duration: int, r: Price)
    requires b.OnTariff? && Charged(b, startAt, duration, r)
    ensures var from, to := startAt + b.zone, startAt + b.zone + duration;
            || (r == b.price && HasGap(b.slots, from, to))
            || exists s :: s in b.slots && Reaches(s, from, to) && s.price == r
  {
    var t :| startAt <= t < startAt + duration && RateAt(b, t) == r;
    var s := SlotAt(b.slots, t + b.zone);
    if s.Some? {
      CoverReaches(s.value, t + b.zone, startAt + b.zone, startAt + b.zone + duration);
      assert s.value in b.slots && s.value.price == r;
    }
  }

  lemma ReachedIsCharged(b: Basis, startAt: int, duration: int, s: Slot)
    requires b.OnTariff? && 0 < duration && NoConflicts(b.slots) && forall s :: s in b.slots ==> WellFormed(s)
    requires s in b.slots && Reaches(s, startAt + b.zone, startAt + b.zone + duration)
    ensures Charged(b, startAt, duration, s.price)
  {
    var from, to := startAt + b.zone, startAt + b.zone + duration;
    var day :| DayOf(from) <= day <= DayOf(to) && ReachesInto(s, day, from, to);
    var local := InstantInside(s, day, from, to);
    OnlyCoverWins(b.slots, s, local);
    assert RateAt(b, local - b.zone) == s.price;
  }

  lemma CoverReaches(s: Slot, t: int, from: int, to: int)
    requires Covers(s, t) && from <= t < to
    ensures Reaches(s, from, to)
  {
    MinuteOrder(t, s.startMin);
    MinuteOrder(t, s.endMin);
    assert ReachesInto(s, DayOf(t), from, to);
  }

  /** A window of a week or more is never padded: the answer is the flat price or is charged in it. */
  lemma WeekLongIsAttained(b: Basis, startAt: int, duration: int, r: Price)
    requires IsMaxRate(b, startAt, duration, r) && 7 * DAY <= duration
    requires b.OnTariff? && NoConflicts(b.slots) && forall s :: s in b.slots ==> WellFormed(s)
    ensures r == b.price || Charged(b, startAt, duration, r)
  {
    if r != b.price {
      var from, to := startAt + b.zone, startAt + b.zone + duration;
      var s :| s in b.slots && Considered(s, from, to) && s.price == r;
      WeekReachesAll(s, from, to);
      ChargedIff(b, startAt, duration, r);
    }
  }

  lemma WeekReachesAll(s: Slot, from: int, to: int)
    requires WellFormed(s) && from + 7 * DAY <= to
    ensures Reaches(s, from, to)
  {
    var weekday := AnyOf(s.days);
    var day := WeekdayWithinSeven(DayOf(from), weekday);
    MinuteOrder(from, 0);
    MinuteOrder(to, 0);
    if At(day, s.endMin) > from {
      assert ReachesInto(s, day, from, to);
    } else {
      assert ReachesInto(s, day + 7, from, to);
    }
  }

  lemma InstantInside(s: Slot, day: int, from: int, to: int) returns (t: int)
    requires WellFormed(s) && from < to && ReachesInto(s, day, from, to)
    ensures from <= t < to && Covers(s, t)
  {
    t := if At(day, s.startMin) < from then from else At(day, s.startMin);
    assert DayOf(t) == day;
    MinuteOrder(t, s.startMin);
    MinuteOrder(t, s.endMin);
  }

  lemma OnlyCoverWins(slots: seq<Slot>, s: Slot, t: int)
    requires NoConflicts(slots) && s in slots && Covers(s, t)
    requires forall x :: x in slots ==> WellFormed(x)
    ensures SlotAt(slots, t) == Some(s)
  {
    assert Eligible(s, WeekdayOf(DayOf(t)), MinuteOf(t));
    var w := SlotAt(slots, t).value;
    if w != s {
      assert Shared(w, s, WeekdayOf(DayOf(t)), MinuteOf(t));
      OverlapIff(w, s);
    }
  }

  /**
   The instant the window ends is not covered: it is charged above the answer exactly when a dearer
   slot starts at that very instant.
   */
  lemma EndInstantEscapes(b: Basis, startAt: int, duration: int, r: Price)
    requires IsMaxRate(b, startAt, duration, r) && 0 <= duration < DAY && b.OnTariff?
    ensures var end := startAt + duration + b.zone;
            RateAt(b, startAt + duration) > r <==>
            var s := SlotAt(b.slots, end);
            s.Some? && s.value.price > r && At(DayOf(end), s.value.startMin) == end
  {
    var from := startAt + b.zone;
    var end := from + duration;
    var s := SlotAt(b.slots, end);
    if s.Some? {
      MinuteOrder(end, s.value.startMin);
      MinuteOrder(end, s.value.endMin);
      if At(DayOf(end), s.value.startMin) < end {
        assert ReachesInto(s.value, DayOf(end), from, end);
      }
    }
  }

  lemma OneSlotWins(s: Slot, t: int)
    requires Covers(s, t)
    ensures SlotAt([s], t) == Some(s)
  {
    assert [s][..0] == [] && [s][0] in [s];
  }

  /** A dearer slot that starts at one o'clock on a Monday escapes the hour before it. */
  lemma EndInstantExample()
    ensures var b := OnTariff(500, [Slot(60, 120, {0}, 900)], 0);
            IsMaxRate(b, 0, 3600, 500) && RateAt(b, 3600) == 900
  {
    var s := Slot(60, 120, {0}, 900);
    assert !ReachesInto(s, 0, 0, 3600);
    assert !Considered(s, 0, 3600);
    OneSlotWins(s, 3600);
  }

  /** A Sunday-only price raises the answer for the 24 hours of a Monday, none of which is charged it. */
  lemma DayLongWindowOverestimates()
    ensures var b := OnTariff(500, [Slot(0, 1440, {6}, 900)], 0);
            IsMaxRate(b, 0, DAY, 900) && forall t :: 0 <= t < DAY ==> RateAt(b, t) == 500
  {
    var slots := [Slot(0, 1440, {6}, 900)];
    assert slots[0] in slots && Considered(slots[0], 0, DAY);
  }
}
