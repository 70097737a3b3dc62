/**
 The price shown to drivers (backend/services/pricing.py): the rate now, and the next change
 later the same local day. One plug at a time, and batched for a plug list.
 */
module PriceDisplay {
  import opened Money
  import opened Tariffs
  import opened Rates

  /** `boundary` is a local instant; both optional parts are absent when no change is announced. */
  datatype Display = Display(rate: Price, boundary: Option<int>, nextRate: Option<Price>)

  function FlatRate(slots: seq<Slot>, local: int, flat: Price): Price {
    var w := SlotRateAndBound(slots, local);
    if w.rate.Some? then w.rate.value else flat
  }

  function DisplayFromSlots(slots: seq<Slot>, local: int, flat: Price): Display {
    var boundary := SlotRateAndBound(slots, local).until;
    var rate := FlatRate(slots, local, flat);
    if boundary.None? || DayOf(boundary.value) != DayOf(local) then Display(rate, None, None)
    else
      var next := FlatRate(slots, boundary.value, flat);
      if next == rate then Display(rate, None, None) else Display(rate, boundary, Some(next))
  }

  function DisplayOf(b: Basis, at: int): Display {
    match b
    case EnvDefault(rate) => Display(rate, None, None)
    case OnTariff(price, slots, zone) => DisplayFromSlots(slots, at + zone, price)
  }

  function ResolvePriceDisplay(db: Tables, plug: Plug, at: int): Display {
    DisplayOf(BasisOf(db, plug), at)
  }

  // ------------------------------------------------------------- what is shown

  /** An announced change is the first one: same price until then, the announced price from then. */
  lemma AnnouncedChangeIsTheFirst(slots: seq<Slot>, local: int, flat: Price, t: int)
    requires AllInRange(slots)
    ensures var d := DisplayFromSlots(slots, local, flat);
            && d.rate == FlatRate(slots, local, flat)
            && (d.boundary.Some? <==> d.nextRate.Some?)
            && (d.boundary.Some? ==>
                  && local < d.boundary.value && DayOf(d.boundary.value) == DayOf(local)
                  && FlatRate(slots, d.boundary.value, flat) == d.nextRate.value != d.rate
                  && (local <= t < d.boundary.value ==> FlatRate(slots, t, flat) == d.rate))
  {
    BoundaryProgresses(slots, local);
    var b := SlotRateAndBound(slots, local).until;
    if local <= t && (b.Some? ==> t < b.value) {
      BoundaryIsSound(slots, local, t);
    }
  }

  /** With no slot boundary left today the price shown holds to the end of the day. */
  lemma NoBoundaryTodayMeansNoChangeToday(slots: seq<Slot>, local: int, flat: Price, t: int)
    requires AllInRange(slots)
    requires var b := SlotRateAndBound(slots, local).until; b.Some? ==> DayOf(b.value) != DayOf(local)
    requires local <= t && DayOf(t) == DayOf(local)
    ensures DisplayFromSlots(slots, local, flat) == Display(FlatRate(slots, t, flat), None, None)
  {
    BoundaryProgresses(slots, local);
    BoundaryIsSound(slots, local, t);
  }

  /** Following slot boundaries from `at`, one of the same day changes the price from `rate`. */
  predicate SomeBoundaryChanges(slots: seq<Slot>, at: int, rate: Price, flat: Price)
    requires AllInRange(slots)
    decreases At(DayOf(at) + 1, 0) - at
  {
    BoundaryProgresses(slots, at);
    var b := SlotRateAndBound(slots, at).until;
    b.Some? && DayOf(b.value) == DayOf(at)
    && (|| FlatRate(slots, b.value, flat) != rate
        || (LeftOfDay(at, b.value); SomeBoundaryChanges(slots, b.value, rate, flat)))
  }

  lemma LeftOfDay(at: int, later: int)
    requires at < later && DayOf(later) == DayOf(at)
    ensures later < At(DayOf(at) + 1, 0)
  {
    MinuteOrder(later, 0);
  }

  /** The price differs from `rate` at some instant from `at` to midnight. */
  ghost predicate ChangesToday(slots: seq<Slot>, at: int, rate: Price, flat: Price) {
    exists t :: at <= t && DayOf(t) == DayOf(at) && FlatRate(slots, t, flat) != rate
  }

  /** The price changes later the same day exactly when one of that day's remaining boundaries changes it. */
  lemma {:induction false} ChangesAtABoundary(slots: seq<Slot>, at: int, rate: Price, flat: Price)
    requires AllInRange(slots) && FlatRate(slots, at, flat) == rate
    ensures ChangesToday(slots, at, rate, flat) <==> SomeBoundaryChanges(slots, at, rate, flat)
    decreases At(DayOf(at) + 1, 0) - at
  {
    BoundaryProgresses(slots, at);
    var b := SlotRateAndBound(slots, at).until;
    forall t | at <= t && DayOf(t) == DayOf(at) && (b.Some? ==> t < b.value) ensures FlatRate(slots, t, flat) == rate {
      BoundaryIsSound(slots, at, t);
    }
    if b.Some? && DayOf(b.value) == DayOf(at) {
      LeftOfDay(at, b.value);
      if FlatRate(slots, b.value, flat) == rate {
        ChangesAtABoundary(slots, b.value, rate, flat);
        if ChangesToday(slots, at, rate, flat) {
          var t :| at <= t && DayOf(t) == DayOf(at) && FlatRate(slots, t, flat) != rate;
          assert b.value <= t;
        }
      }
    } else if b.Some? {
      forall t | at <= t && DayOf(t) == DayOf(at) ensures t < b.value {
        SameDayIsEarlier(at, t, b.value);
      }
    }
  }

  lemma SameDayIsEarlier(at: int, t: int, later: int)
    requires at < later && DayOf(t) == DayOf(at) && DayOf(later) != DayOf(at)
    ensures t < later
  {
    MinuteOrder(at, 0);
    MinuteOrder(t, 0);
    MinuteOrder(later, 0);
  }

  /**
   Silence is wrong, that is no change is announced though the price changes later that day,
   exactly when the next boundary is today, repeats the price, and a later boundary today changes it.
   */
  lemma SilenceIsWrongIff(slots: seq<Slot>, local: int, flat: Price)
    requires AllInRange(slots)
    ensures var b := SlotRateAndBound(slots, local).until;
            var rate := FlatRate(slots, local, flat);
            DisplayFromSlots(slots, local, flat).boundary.None? && ChangesToday(slots, local, rate, flat) <==>
            && b.Some? && DayOf(b.value) == DayOf(local)
            && FlatRate(slots, b.value, flat) == rate && SomeBoundaryChanges(slots, b.value, rate, flat)
  {
    ChangesAtABoundary(slots, local, FlatRate(slots, local, flat), flat);
  }

  /** A slot boundary that repeats the price hides a real change later the same day. */
  lemma RepeatedPriceHidesAChange()
    ensures var slots := [Slot(0, 60, {0}, 500), Slot(60, 120, {0}, 500)];
            && DisplayFromSlots(slots, 0, 800) == Display(500, None, None)
            && FlatRate(slots, 120 * MINUTE, 800) == 800
  {
    var a, b := Slot(0, 60, {0}, 500), Slot(60, 120, {0}, 500);
    SlotInForce([a, b], 0, a) by { WinnerOfTwo(a, b, 0, 0); }
    SlotInForce([a, b], 3600, b) by { WinnerOfTwo(a, b, 0, 60); }
    WinnerOfTwo(a, b, 0, 120);
  }

  lemma SlotInForce(slots: seq<Slot>, t: int, s: Slot)
    requires SlotAt(slots, t) == Some(s)
    ensures SlotRateAndBound(slots, t) == Window(Some(s.price), Some(At(DayOf(t), s.endMin)))
  {
  }

  // ------------------------------------------------------------------- batched

  /** A list row: the plug with its group's tariff and owning tenant already joined in. */
  datatype Item = Item(plug: Plug, groupTariff: Option<int>, tenant: Option<Tenant>)

  ghost predicate JoinedFrom(items: seq<Item>, db: Tables) {
    && (forall it :: it in items ==> it.groupTariff == GroupTariff(db, it.plug) && it.tenant == TenantOf(db, it.plug))
    && (forall a, b :: a in items && b in items && a.plug.id == b.plug.id ==> a == b)
  }

  function ChainOf(it: Item): seq<Option<int>> {
    [it.plug.tariff, it.groupTariff, if it.tenant.Some? then it.tenant.value.defaultTariff else None]
  }

  /** The first id of the chain that has a live row. */
  function PickTariff(chain: seq<Option<int>>, tariffs: map<int, Price>): (t: Option<int>)
    ensures t.Some? ==> t in chain && t.value in tariffs
  {
    if chain == [] then None
    else if chain[0].Some? && chain[0].value in tariffs then chain[0]
    else PickTariff(chain[1..], tariffs)
  }

  /** Picking from a joined row's chain is the link-by-link lookup, dangling ids included. */
  lemma PickIsResolve(it: Item, db: Tables)
    requires it.groupTariff == GroupTariff(db, it.plug) && it.tenant == TenantOf(db, it.plug)
    ensures PickTariff(ChainOf(it), db.tariffs) == ResolveTariff(db, it.plug)
  {
    var c, all := ChainOf(it), db.tariffs;
    assert c[1..][1..] == c[2..] && c[2..][1..] == [];
    assert PickTariff(c[2..], all) == Live(db, c[2]);
    assert PickTariff(c[1..], all) == if Live(db, c[1]).Some? then c[1] else PickTariff(c[2..], all);
  }

  /** Only the ids of the chain matter, so fetching just those rows gives the same pick. */
  lemma {:induction false} PickFromFetched(chain: seq<Option<int>>, fetched: map<int, Price>, all: map<int, Price>)
    requires forall t :: t in chain && t.Some? ==> (t.value in fetched <==> t.value in all)
    ensures PickTariff(chain, fetched) == PickTariff(chain, all)
  {
    if chain != [] {
      assert chain[0] in chain;
      PickFromFetched(chain[1..], fetched, all);
    }
  }

  /** One query for every tariff some chain names. */
  method FetchTariffs(items: seq<Item>, all: map<int, Price>) returns (fetched: map<int, Price>)
    ensures forall id :: id in fetched ==> id in all && fetched[id] == all[id]
    ensures forall it, t :: it in items && t in ChainOf(it) && t.Some? ==> (t.value in fetched <==> t.value in all)
  {
    var candidates: set<int> := {};
    for i := 0 to |items|
      invariant forall it, t :: it in items[..i] && t in ChainOf(it) && t.Some? ==> t.value in candidates
    {
      var c := ChainOf(items[i]);
      candidates := candidates + set t | t in c && t.Some? :: t.value;
    }
    fetched := map id | id in candidates && id in all :: all[id];
    assert items[..|items|] == items;
  }

  method WinningTariffs(items: seq<Item>, tariffs: map<int, Price>) returns (winners: set<int>)
    ensures forall it :: it in items && PickTariff(ChainOf(it), tariffs).Some? ==>
              PickTariff(ChainOf(it), tariffs).value in winners
  {
    winners := {};
    for i := 0 to |items|
      invariant forall it :: it in items[..i] && PickTariff(ChainOf(it), tariffs).Some? ==>
                  PickTariff(ChainOf(it), tariffs).value in winners
    {
      var t := PickTariff(ChainOf(items[i]), tariffs);
      if t.Some? {
        winners := winners + {t.value};
      }
    }
    assert items[..|items|] == items;
  }

  function Lookup(m: map<int, seq<Slot>>, k: int): seq<Slot> {
    if k in m then m[k] else []
  }

  method GroupSlots(rows: seq<SlotRow>, winners: set<int>) returns (byTariff: map<int, seq<Slot>>)
    ensures forall id :: id in winners ==> Lookup(byTariff, id) == SlotsOf(rows, id)
  {
    byTariff := map[];
    for i := 0 to |rows|
      invariant forall id :: id in winners ==> Lookup(byTariff, id) == SlotsOf(rows[..i], id)
    {
      var row := rows[i];
      if row.tariff in winners {
        byTariff := byTariff[row.tariff := Lookup(byTariff, row.tariff) + [row.slot]];
      }
      assert rows[..i + 1][..i] == rows[..i];
    }
    assert rows[..|rows|] == rows;
  }

  /** The maps hold, for one list row, what its own resolution reads. */
  ghost predicate Holds(db: Tables, it: Item, tariffs: map<int, Price>, slots: map<int, seq<Slot>>) {
    && it.groupTariff == GroupTariff(db, it.plug) && it.tenant == TenantOf(db, it.plug)
    && (forall id :: id in tariffs ==> id in db.tariffs && tariffs[id] == db.tariffs[id])
    && (forall t :: t in ChainOf(it) && t.Some? ==> (t.value in tariffs <==> t.value in db.tariffs))
    && var t := PickTariff(ChainOf(it), tariffs);
       t.Some? ==> Lookup(slots, t.value) == SlotsOf(db.slots, t.value)
  }

  /** One list row, from the maps. */
  method ShowOne(ghost db: Tables, envRate: Price, it: Item, tariffs: map<int, Price>, slots: map<int, seq<Slot>>,
                 at: int)
    returns (shown: Display)
    requires Holds(db, it, tariffs, slots) && envRate == db.envRate
    ensures shown == ResolvePriceDisplay(db, it.plug, at)
  {
    PickFromFetched(ChainOf(it), tariffs, db.tariffs);
    PickIsResolve(it, db);
    var tariff := PickTariff(ChainOf(it), tariffs);
    shown := Display(envRate, None, None);
    if tariff.Some? {
      shown := DisplayFromSlots(Lookup(slots, tariff.value), at + ZoneOf(it.tenant), tariffs[tariff.value]);
    }
  }

  /** Every listed plug is shown exactly what its own resolution would show. */
  method ResolvePriceDisplayBatch(db: Tables, items: seq<Item>, at: int) returns (out: map<int, Display>)
    requires JoinedFrom(items, db)
    ensures out.Keys == set it | it in items :: it.plug.id
    ensures forall it :: it in items ==> out[it.plug.id] == ResolvePriceDisplay(db, it.plug, at)
  {
    var tariffs := FetchTariffs(items, db.tariffs);
    var winners := WinningTariffs(items, tariffs);
    var slots := GroupSlots(db.slots, winners);
    assert forall it :: it in items ==> Holds(db, it, tariffs, slots);
    out := map[];
    for i := 0 to |items|
      invariant out.Keys == set it | it in items[..i] :: it.plug.id
      invariant forall it :: it in items[..i] ==> out[it.plug.id] == ResolvePriceDisplay(db, it.plug, at)
    {
      var shown := ShowOne(db, db.envRate, items[i], tariffs, slots, at);
      out := out[items[i].plug.id := shown];
      assert items[..i + 1] == items[..i] + [items[i]];
    }
    assert items[..|items|] == items;
  }
}
