/**
 From a plug to the rate that applies to it (backend/services/pricing.py): the fallback chain
 plug -> charger group -> tenant -> environment, and the window of the tariff it lands on.

 Instants are UTC seconds here; a zone is a fixed offset of local wall-clock over UTC.
 */
module Rates {
  import opened Money
  import opened Tariffs

  const DEFAULT_ZONE: int := 19_800  // Asia/Kolkata, +05:30

  /** What a plug is priced by once its chain is resolved. */
  datatype Basis = EnvDefault(rate: Price) | OnTariff(price: Price, slots: seq<Slot>, zone: int)

  predicate BasisInRange(b: Basis) {
    b.OnTariff? ==> AllInRange(b.slots)
  }

  datatype RateWindow = RateWindow(rate: Price, until: Option<int>)

  function ResolveRateWindow(b: Basis, at: int): RateWindow {
    match b
    case EnvDefault(rate) => RateWindow(rate, None)
    case OnTariff(price, slots, zone) =>
      var w := SlotRateAndBound(slots, at + zone);
      RateWindow(if w.rate.Some? then w.rate.value else price,
                 if w.until.Some? then Some(w.until.value - zone) else None)
  }

  function RateAt(b: Basis, at: int): Price {
    ResolveRateWindow(b, at).rate
  }

  /** Until its boundary passes a resolution stays right, and a missing boundary never passes. */
  lemma ResolutionStaysRight(b: Basis, at: int, t: int)
    requires BasisInRange(b) && at <= t
    requires var w := ResolveRateWindow(b, at); w.until.Some? ==> t < w.until.value
    ensures RateAt(b, t) == RateAt(b, at)
  {
    if b.OnTariff? {
      BoundaryIsSound(b.slots, at + b.zone, t + b.zone);
    }
  }

  lemma ResolutionProgresses(b: Basis, at: int)
    requires BasisInRange(b)
    ensures var w := ResolveRateWindow(b, at); w.until.Some? ==> at < w.until.value
  {
    if b.OnTariff? {
      BoundaryProgresses(b.slots, at + b.zone);
    }
  }

  // ------------------------------------------------------------------- chain

  datatype Plug = Plug(id: int, gateway: int, group: Option<int>, tariff: Option<int>)
  datatype Tenant = Tenant(zone: Option<int>, defaultTariff: Option<int>)
  datatype SlotRow = SlotRow(tariff: int, slot: Slot)

  /** The rows the chain reads. Any foreign key may dangle. */
  datatype Tables = Tables(
    gateways: map<int, int>,        // gateway -> owning tenant
    tenants: map<int, Tenant>,
    groups: map<int, Option<int>>,  // charger group -> its tariff
    tariffs: map<int, Price>,       // tariff -> flat price
    slots: seq<SlotRow>,
    envRate: Price)

  function SlotsOf(rows: seq<SlotRow>, tariff: int): seq<Slot> {
    if rows == [] then [] else
    var rest, row := rows[..|rows| - 1], rows[|rows| - 1];
    SlotsOf(rest, tariff) + if row.tariff == tariff then [row.slot] else []
  }

  function TenantOf(db: Tables, plug: Plug): Option<Tenant> {
    if plug.gateway in db.gateways && db.gateways[plug.gateway] in db.tenants
    then Some(db.tenants[db.gateways[plug.gateway]]) else None
  }

  function GroupTariff(db: Tables, plug: Plug): Option<int> {
    if plug.group.Some? && plug.group.value in db.groups then db.groups[plug.group.value] else None
  }

  function ZoneOf(tenant: Option<Tenant>): int {
    if tenant.Some? && tenant.value.zone.Some? then tenant.value.zone.value else DEFAULT_ZONE
  }

  function Live(db: Tables, id: Option<int>): Option<int> {
    if id.Some? && id.value in db.tariffs then id else None
  }

  /** The tariff the per-plug lookups land on: each link is tried only while no live row was found. */
  function ResolveTariff(db: Tables, plug: Plug): (t: Option<int>)
    ensures t.Some? ==> t.value in db.tariffs
  {
    var fromPlug := if plug.tariff.Some? then Live(db, plug.tariff) else None;
    var fromGroup := if fromPlug.None? && plug.group.Some? then Live(db, GroupTariff(db, plug)) else fromPlug;
    var tenant := TenantOf(db, plug);
    if fromGroup.None? && tenant.Some? then Live(db, tenant.value.defaultTariff) else fromGroup
  }

  function BasisOf(db: Tables, plug: Plug): Basis {
    var t := ResolveTariff(db, plug);
    if t.None? then EnvDefault(db.envRate)
    else OnTariff(db.tariffs[t.value], SlotsOf(db.slots, t.value), ZoneOf(TenantOf(db, plug)))
  }

  /** A plug's own live tariff wins, then its group's, then its tenant's, and only then the environment's price. */
  lemma ChainOrder(db: Tables, plug: Plug)
    ensures var own := plug.tariff.Some? && plug.tariff.value in db.tariffs;
            var ofGroup := plug.group.Some? && plug.group.value in db.groups
                           && db.groups[plug.group.value].Some? && db.groups[plug.group.value].value in db.tariffs;
            var owned := plug.gateway in db.gateways && db.gateways[plug.gateway] in db.tenants;
            var byTenant := owned && db.tenants[db.gateways[plug.gateway]].defaultTariff.Some?
                            && db.tenants[db.gateways[plug.gateway]].defaultTariff.value in db.tariffs;
            var b := BasisOf(db, plug);
            && (own ==>
                  && b.OnTariff? && b.price == db.tariffs[plug.tariff.value]
                  && b.slots == SlotsOf(db.slots, plug.tariff.value))
            && (!own && ofGroup ==>
                  var id := db.groups[plug.group.value].value;
                  b.OnTariff? && b.price == db.tariffs[id] && b.slots == SlotsOf(db.slots, id))
            && (!own && !ofGroup && byTenant ==>
                  var id := db.tenants[db.gateways[plug.gateway]].defaultTariff.value;
                  b.OnTariff? && b.price == db.tariffs[id] && b.slots == SlotsOf(db.slots, id))
            && (!own && !ofGroup && !byTenant ==> b == EnvDefault(db.envRate))
            && (b.OnTariff? ==>
                  b.zone == if owned && db.tenants[db.gateways[plug.gateway]].zone.Some?
                            then db.tenants[db.gateways[plug.gateway]].zone.value else 19_800)
  {
  }

  /** A tariff's slots are the rows that name it, in their order. */
  lemma {:induction false} SlotsAreRows(rows: seq<SlotRow>, tariff: int, s: Slot)
    ensures s in SlotsOf(rows, tariff) <==> SlotRow(tariff, s) in rows
  {
    if rows != [] {
      var n := |rows| - 1;
      SlotsAreRows(rows[..n], tariff, s);
      assert forall r :: r in rows <==> r in rows[..n] || r == rows[n];
    }
  }

  /** Day of the week and minute of the day of an instant, in a zone. */
  predicate FallsIn(s: Slot, zone: int, t: int) {
    && ((t + zone) / 86_400) % 7 in s.days
    && s.startMin <= ((t + zone) % 86_400) / 60 < s.endMin
  }

  /** The rate is the price of the slot the instant falls in, by the tariff's zone, or else the flat price. */
  lemma RateIsItsSlots(price: Price, slots: seq<Slot>, zone: int, t: int)
    requires NoConflicts(slots) && forall s :: s in slots ==> WellFormed(s)
    ensures forall s :: s in slots && FallsIn(s, zone, t) ==> RateAt(OnTariff(price, slots, zone), t) == s.price
    ensures (forall s :: s in slots ==> !FallsIn(s, zone, t)) ==> RateAt(OnTariff(price, slots, zone), t) == price
  {
    var w := SlotAt(slots, t + zone);
    forall s | s in slots && FallsIn(s, zone, t) ensures w == Some(s) {
      assert Eligible(s, WeekdayOf(DayOf(t + zone)), MinuteOf(t + zone));
      if w != Some(s) {
        assert Shared(w.value, s, WeekdayOf(DayOf(t + zone)), MinuteOf(t + zone));
        OverlapIff(w.value, s);
      }
    }
    if w.Some? {
      assert FallsIn(w.value, zone, t);
    }
  }

  /** Where slots overlap, the one that starts first decides, and of those the one that ends first. */
  lemma RateIsTheEarliest(price: Price, slots: seq<Slot>, zone: int, t: int, s: Slot)
    requires s in slots && FallsIn(s, zone, t)
    requires forall x :: x in slots && FallsIn(x, zone, t) && x != s ==>
               s.startMin < x.startMin || (s.startMin == x.startMin && s.endMin < x.endMin)
    ensures RateAt(OnTariff(price, slots, zone), t) == s.price
  {
    assert Eligible(s, WeekdayOf(DayOf(t + zone)), MinuteOf(t + zone));
    var w := SlotAt(slots, t + zone);
    assert w.Some? && FallsIn(w.value, zone, t);
  }
}
