/**
 The energy of a running session, from the counter its gateway reports (backend/services/mqtt/telemetry.py).
 The counter falls back when a gateway restarts: a fall seen on a live frame is banked into an offset.
 Frames buffered while a gateway was offline are replayed later, and bank nothing.
 */
module EnergyCounter {
  import opened Tariffs
  import opened Money
  import opened Rates
  import opened Billing
  import Repricing
  import Metering

  const RESET_DROP: real := 0.005
  const MAX_PLAUSIBLE: real := 1000.0

  /** A frame: its counter, whether it names the session, and whether it is a replay from the gateway's buffer. */
  datatype Frame = Frame(at: int, kwh: real, named: bool, relayOn: bool, offline: bool)

  /** The columns of a session's energy: billed, banked from falls, and the last live counter. */
  datatype Counter = Counter(energy: real, offset: real, last: Option<real>)

  const UNREAD: Counter := Counter(0.0, 0.0, None)

  /** Implausible counters are dropped, and idle frames are nobody's. */
  predicate Counts(f: Frame) {
    0.0 <= f.kwh <= MAX_PLAUSIBLE && (f.named || f.relayOn)
  }

  predicate Fell(c: Counter, f: Frame) {
    !f.offline && c.last.Some? && f.kwh < c.last.value - RESET_DROP
  }

  function Read(c: Counter, f: Frame): Counter {
    if !Counts(f) then c else
    var offset := if Fell(c, f) then c.offset + (c.last.value - f.kwh) else c.offset;
    var energy := if offset + f.kwh > c.energy then offset + f.kwh else c.energy;
    Counter(energy, offset, if f.offline then c.last else Some(f.kwh))
  }

  function Run(c: Counter, frames: seq<Frame>): Counter {
    if frames == [] then c else Read(Run(c, frames[..|frames| - 1]), frames[|frames| - 1])
  }

  class SessionRow {
    var energyKwh: real
    var energyResetOffsetKwh: real
    var energyCounterLastRawKwh: Option<real>

    constructor ()
      ensures State() == UNREAD
    {
      energyKwh, energyResetOffsetKwh, energyCounterLastRawKwh := 0.0, 0.0, None;
    }

    function State(): Counter
      reads this
    {
      Counter(energyKwh, energyResetOffsetKwh, energyCounterLastRawKwh)
    }

    method TakeFrame(f: Frame)
      modifies this
      ensures State() == Read(old(State()), f)
    {
      if f.kwh < 0.0 || f.kwh > MAX_PLAUSIBLE {
        return;
      }
      var frameIsIdle := !f.named && !f.relayOn;
      if !frameIsIdle {
        if !f.offline {
          if energyCounterLastRawKwh.Some? && f.kwh < energyCounterLastRawKwh.value - RESET_DROP {
            var drop := energyCounterLastRawKwh.value - f.kwh;
            energyResetOffsetKwh := energyResetOffsetKwh + drop;
          }
          energyCounterLastRawKwh := Some(f.kwh);
        }
        if energyResetOffsetKwh + f.kwh > energyKwh {
          energyKwh := energyResetOffsetKwh + f.kwh;
        }
      }
    }
  }

  // ------------------------------------------------------------- what the gateway delivered

  /** A reading of the counter: the energy delivered as it was taken, and how much of that the counter has lost. */
  datatype Reading =
    | Seen(delivered: real, lost: real)        // sent live
    | Replayed(delivered: real, lost: real)    // taken earlier, sent from the buffer

  function Kwh(r: Reading): real {
    r.delivered - r.lost
  }

  function Sent(r: Reading): Frame {
    Frame(0, Kwh(r), true, true, r.Replayed?)
  }

  function After(readings: seq<Reading>): Counter {
    if readings == [] then UNREAD else Read(After(readings[..|readings| - 1]), Sent(readings[|readings| - 1]))
  }

  /** The energy delivered, and lost by the counter, at the last live reading. */
  function Delivered(readings: seq<Reading>): real {
    if readings == [] then 0.0 else
    var last := readings[|readings| - 1];
    if last.Seen? then last.delivered else Delivered(readings[..|readings| - 1])
  }

  function Lost(readings: seq<Reading>): real {
    if readings == [] then 0.0 else
    var last := readings[|readings| - 1];
    if last.Seen? then last.lost else Lost(readings[..|readings| - 1])
  }

  /** Energy delivered and lost only grow; a replay is a reading of the session, taken at any time. */
  predicate OfOneSession(readings: seq<Reading>) {
    readings == [] ||
    (var rest, last := readings[..|readings| - 1], readings[|readings| - 1];
     && OfOneSession(rest) && 0.0 <= last.lost && 0.0 <= Kwh(last) <= 1000.0
     && (last.Seen? ==> Delivered(rest) <= last.delivered && Lost(rest) <= last.lost))
  }

  predicate AllLive(readings: seq<Reading>) {
    forall r :: r in readings ==> r.Seen?
  }

  /** A live reading more than 5 Wh below the live one before it. */
  predicate Dropped(rest: seq<Reading>, r: Reading) {
    && r.Seen? && (exists k :: 0 <= k < |rest| && rest[k].Seen?)
    && r.delivered - r.lost < Delivered(rest) - Lost(rest) - 0.005
  }

  /** All such falls together. */
  function Falls(readings: seq<Reading>): real {
    if readings == [] then 0.0 else
    var rest, last := readings[..|readings| - 1], readings[|readings| - 1];
    Falls(rest) + if Dropped(rest, last) then (Delivered(rest) - Lost(rest)) - (last.delivered - last.lost) else 0.0
  }

  /**
   Energy that never reaches the bill: what a fall of the counter hides of the energy delivered
   across it, and what a loss takes that does not show as a fall.
   */
  function Missed(readings: seq<Reading>): real {
    if readings == [] then 0.0 else
    var rest, last := readings[..|readings| - 1], readings[|readings| - 1];
    Missed(rest) + if last.Replayed? then 0.0
                   else if Dropped(rest, last) then last.delivered - Delivered(rest)
                   else last.lost - Lost(rest)
  }

  /** The columns after any readings: the falls, and the last live counter. */
  lemma {:induction false} ColumnsAre(readings: seq<Reading>)
    requires OfOneSession(readings)
    ensures var c := After(readings);
            && c.offset == Falls(readings)
            && (c.last.Some? <==> exists k :: 0 <= k < |readings| && readings[k].Seen?)
            && (c.last.Some? ==> c.last.value == Delivered(readings) - Lost(readings))
            && 0.0 <= Falls(readings) == Lost(readings) - Missed(readings)
            && 0.0 <= Missed(readings)
  {
    if readings != [] {
      var n := |readings| - 1;
      ColumnsAre(readings[..n]);
      assert forall k :: 0 <= k < n ==> readings[..n][k] == readings[k];
      assert readings[n].Seen? ==> exists k :: 0 <= k <= n && readings[k].Seen?;
    }
  }

  /**
   The bill stays within any amount no less than what is delivered exactly when every replay, with
   the falls banked as it came in, does.
   */
  lemma {:induction false} WithinIff(readings: seq<Reading>, most: real)
    requires OfOneSession(readings) && 0.0 <= most
    requires forall k :: 0 <= k < |readings| && readings[k].Seen? ==> readings[k].delivered <= most
    ensures After(readings).energy <= most <==>
            forall k :: 0 <= k < |readings| && readings[k].Replayed? ==> Falls(readings[..k]) + Kwh(readings[k]) <= most
  {
    if readings != [] {
      var n := |readings| - 1;
      var rest := readings[..n];
      assert forall k :: 0 <= k < n ==> rest[k] == readings[k] && rest[..k] == readings[..k];
      WithinIff(rest, most);
      LastWithinIff(readings, most);
    }
  }

  lemma LastWithinIff(readings: seq<Reading>, most: real)
    requires OfOneSession(readings) && readings != []
    requires var last := readings[|readings| - 1]; last.Seen? ==> last.delivered <= most
    ensures var rest, last := readings[..|readings| - 1], readings[|readings| - 1];
            After(readings).energy <= most <==>
            After(rest).energy <= most && (last.Replayed? ==> Falls(rest) + Kwh(last) <= most)
  {
    ColumnsAre(readings[..|readings| - 1]);
    ColumnsAre(readings);
  }

  /**
   A session is billed no more than it was delivered exactly when for every replay the falls banked
   before it came in, beyond the loss already in its reading, are within the energy delivered since
   it was taken.
   */
  lemma NeverOverbilledIff(readings: seq<Reading>)
    requires OfOneSession(readings)
    ensures After(readings).energy <= Delivered(readings) <==>
            forall k :: 0 <= k < |readings| && readings[k].Replayed? ==>
              Falls(readings[..k]) - readings[k].lost <= Delivered(readings) - readings[k].delivered
  {
    DeliveredIsMost(readings);
    WithinIff(readings, Delivered(readings));
  }

  lemma {:induction false} DeliveredIsMost(readings: seq<Reading>)
    requires OfOneSession(readings)
    ensures 0.0 <= Delivered(readings) && 0.0 <= Lost(readings)
    ensures forall k :: 0 <= k < |readings| && readings[k].Seen? ==> readings[k].delivered <= Delivered(readings)
  {
    if readings != [] {
      DeliveredIsMost(readings[..|readings| - 1]);
      assert forall k :: 0 <= k < |readings| - 1 ==> readings[..|readings| - 1][k] == readings[k];
    }
  }

  /** Replays taken after the last banked fall, and live frames alone, never bill more than was delivered. */
  lemma FreshReplaysAreSafe(readings: seq<Reading>)
    requires OfOneSession(readings)
    requires forall k :: 0 <= k < |readings| && readings[k].Replayed? ==>
               Falls(readings[..k]) <= readings[k].lost && readings[k].delivered <= Delivered(readings)
    ensures After(readings).energy <= Delivered(readings)
  {
    NeverOverbilledIff(readings);
  }

  lemma OneMore(rest: seq<Reading>, r: Reading)
    ensures After(rest + [r]) == Read(After(rest), Sent(r))
    ensures Delivered(rest + [r]) == (if r.Seen? then r.delivered else Delivered(rest))
    ensures Lost(rest + [r]) == (if r.Seen? then r.lost else Lost(rest))
    ensures OfOneSession(rest + [r]) <==>
            && OfOneSession(rest) && 0.0 <= r.lost && 0.0 <= Kwh(r) <= 1000.0
            && (r.Seen? ==> Delivered(rest) <= r.delivered && Lost(rest) <= r.lost)
  {
    assert (rest + [r])[..|rest|] == rest;
  }

  /** A buffered 4.9 that arrives after the restart it was taken before is billed on top of the fall: 9.6 for 5.0. */
  lemma ReplayBillsTwice()
    ensures var readings := [Seen(4.8, 0.0), Seen(5.0, 4.9), Replayed(4.9, 0.0)];
            OfOneSession(readings) && Delivered(readings) == 5.0 && After(readings).energy == 9.6
  {
    var a, b, c := Seen(4.8, 0.0), Seen(5.0, 4.9), Replayed(4.9, 0.0);
    OneMore([], a);
    OneMore([a], b);
    OneMore([a, b], c);
    assert [] + [a] == [a] && [a] + [b] == [a, b] && [a, b] + [c] == [a, b, c];
    assert After([a, b]) == Counter(4.8, 4.7, Some(0.1));
  }

  function MissedBy(readings: seq<Reading>, k: nat): real
    requires k < |readings|
  {
    Missed(readings[..k + 1])
  }

  /** What was delivered by a reading, less what was missed by then. */
  function NotMissed(readings: seq<Reading>, k: nat): real
    requires k < |readings|
  {
    readings[k].delivered - MissedBy(readings, k)
  }

  /** Without replays: the bill is what was delivered less what was missed, at the reading where that is most. */
  lemma BilledIsDeliveredLessMissed(readings: seq<Reading>)
    requires OfOneSession(readings) && AllLive(readings) && readings != []
    ensures forall k :: 0 <= k < |readings| ==> NotMissed(readings, k) <= After(readings).energy
    ensures exists k :: 0 <= k < |readings| && NotMissed(readings, k) == After(readings).energy
  {
    var k := MostNotMissed(readings, |readings|);
    assert readings[..|readings|] == readings;
  }

  lemma {:induction false} MostNotMissed(readings: seq<Reading>, n: nat) returns (most: nat)
    requires OfOneSession(readings) && AllLive(readings) && 0 < n <= |readings|
    ensures most < n && NotMissed(readings, most) == After(readings[..n]).energy
    ensures forall k :: 0 <= k < n ==> NotMissed(readings, k) <= NotMissed(readings, most)
  {
    LastNotMissed(readings, n);
    most := 0;
    if n > 1 {
      most := MostNotMissed(readings, n - 1);
      if NotMissed(readings, n - 1) > NotMissed(readings, most) {
        most := n - 1;
      }
    }
  }

  lemma LastNotMissed(readings: seq<Reading>, n: nat)
    requires OfOneSession(readings) && AllLive(readings) && 0 < n <= |readings|
    ensures var was := After(readings[..n - 1]).energy;
            After(readings[..n]).energy ==
            if n == 1 || NotMissed(readings, n - 1) > was then NotMissed(readings, n - 1) else was
  {
    PrefixOfOneSession(readings, n);
    ColumnsAre(readings[..n]);
    assert readings[..n][..n - 1] == readings[..n - 1] && readings[n - 1] in readings;
  }

  /** Everything delivered is billed exactly when at the last rise of the energy delivered nothing had been missed. */
  lemma BilledInFullIff(readings: seq<Reading>)
    requires OfOneSession(readings) && AllLive(readings) && readings != []
    ensures After(readings).energy == Delivered(readings) <==>
            exists k ::
              0 <= k < |readings| && readings[k].delivered == Delivered(readings) && MissedBy(readings, k) == 0.0
  {
    var most := MostNotMissed(readings, |readings|);
    assert readings[..|readings|] == readings;
    forall k: nat | k < |readings|
      ensures readings[k].delivered <= Delivered(readings) && 0.0 <= MissedBy(readings, k)
    {
      DeliveredIsMost(readings);
      assert readings[k] in readings;
      PrefixOfOneSession(readings, k + 1);
      ColumnsAre(readings[..k + 1]);
    }
    FullIffFrom(readings, most, Delivered(readings));
  }

  lemma FullIffFrom(readings: seq<Reading>, most: nat, all: real)
    requires most < |readings|
    requires forall k :: 0 <= k < |readings| ==> NotMissed(readings, k) <= NotMissed(readings, most)
    requires forall k :: 0 <= k < |readings| ==> readings[k].delivered <= all && 0.0 <= MissedBy(readings, k)
    ensures NotMissed(readings, most) == all <==>
            exists k :: 0 <= k < |readings| && readings[k].delivered == all && MissedBy(readings, k) == 0.0
  {
    assert NotMissed(readings, most) == readings[most].delivered - MissedBy(readings, most);
    if k :| 0 <= k < |readings| && readings[k].delivered == all && MissedBy(readings, k) == 0.0 {
      assert NotMissed(readings, k) == all;
    }
  }

  lemma {:induction false} PrefixOfOneSession(readings: seq<Reading>, n: nat)
    requires OfOneSession(readings) && n <= |readings|
    ensures OfOneSession(readings[..n])
  {
    if n == |readings| {
      assert readings[..n] == readings;
    } else {
      PrefixOfOneSession(readings[..|readings| - 1], n);
      assert readings[..|readings| - 1][..n] == readings[..n];
    }
  }

  // ------------------------------------------------------------------- one frame

  /** What one frame does: a banked fall bills nothing itself, a replay and a small fall bank nothing. */
  lemma FrameDoes(c: Counter, f: Frame)
    ensures var after := Read(c, f);
            if f.kwh < 0.0 || f.kwh > 1000.0 || (!f.named && !f.relayOn) then after == c
            else
              && after.energy >= c.energy && after.energy >= after.offset + f.kwh
              && (after.energy == c.energy || after.energy == after.offset + f.kwh)
              && after.last == (if f.offline then c.last else Some(f.kwh))
              && if f.offline || c.last.None? || c.last.value - 0.005 <= f.kwh then after.offset == c.offset
                 else after.offset + f.kwh == c.offset + c.last.value
  {
  }

  function Live(kwh: real): Frame {
    Frame(0, kwh, true, true, false)
  }

  /** The readings of the session that fell 47.9 Wh across a reconnect: 1.838, not 3.0626. */
  lemma PartialFallBillsOnce()
    ensures Run(UNREAD, [Live(1.2725), Live(1.2246), Live(1.7901)]).energy == 1.838
  {
    var a, b, c := Live(1.2725), Live(1.2246), Live(1.7901);
    assert [a, b, c][..2] == [a, b] && [a, b][..1] == [a] && [a][..0] == [];
    assert Run(UNREAD, [a]) == Counter(1.2725, 0.0, Some(1.2725));
    assert Run(UNREAD, [a, b]) == Read(Run(UNREAD, [a]), b) == Counter(1.2725, 0.0479, Some(1.2246));
    assert Run(UNREAD, [a, b, c]) == Read(Run(UNREAD, [a, b]), c);
  }

  // ------------------------------------------------------------------- to the bill

  /** The frames as the repricing of the session sees them: the counter with the falls banked by then. */
  function Wired(c: Counter, frames: seq<Frame>): seq<Repricing.Event> {
    if frames == [] then [] else
    var rest, f := frames[..|frames| - 1], frames[|frames| - 1];
    if !Counts(f) then Wired(c, rest)
    else Wired(c, rest) + [Repricing.Frame(f.at, Run(c, frames).offset + f.kwh)]
  }

  lemma {:induction false} WiredEnergy(c: Counter, frames: seq<Frame>)
    ensures Metering.HighWater(c.energy, Wired(c, frames)) == Run(c, frames).energy
    ensures forall e :: e in Wired(c, frames) ==> e.Frame?
  {
    if frames != [] {
      var rest, f := frames[..|frames| - 1], frames[|frames| - 1];
      WiredEnergy(c, rest);
      if Counts(f) {
        assert Wired(c, frames)[..|Wired(c, frames)| - 1] == Wired(c, rest);
      }
    }
  }

  /** A running session's energy is its counter's, and on a flat price it owes that energy, whatever its frames. */
  lemma FramesAreBilled(price: Price, zone: int, at: int, frames: seq<Frame>, envRate: Price)
    requires var b := OnTariff(price, [], zone);
             Repricing.InOrder(Repricing.Live(Repricing.StartRow(b, at), 0.0, b, at), Wired(UNREAD, frames), envRate)
    ensures var b := OnTariff(price, [], zone);
            var start := Repricing.Live(Repricing.StartRow(b, at), 0.0, b, at);
            var end := Repricing.Run(start, Wired(UNREAD, frames), envRate);
            && end.energy == Run(UNREAD, frames).energy
            && SessionCost(end.row, end.energy, envRate) == EnergyCost(Run(UNREAD, frames).energy, price)
  {
    var b := OnTariff(price, [], zone);
    WiredEnergy(UNREAD, frames);
    Metering.EveryReadingCounts(Repricing.Live(Repricing.StartRow(b, at), 0.0, b, at), Wired(UNREAD, frames), envRate);
    Metering.FlatBill(price, zone, at, Wired(UNREAD, frames), envRate);
  }
}
