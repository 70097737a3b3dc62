/**
 The sliding-window limiter (backend/services/rate_limit.py, SlidingWindowRateLimiter): per-key
 queues that are evicted lazily, reset, and swept across keys, against an unbounded log.

 Instants are readings of a clock that never runs backwards.
 */
module RateLimiter {
  import opened Tariffs

  /** Every allowed call since the key's last reset, oldest first; nothing is ever evicted. */
  type Log = map<string, seq<real>>

  function Calls(log: Log, key: string): seq<real> {
    if key in log then log[key] else []
  }

  /** How many of the calls lie in the window, that is later than `cutoff`. */
  function CountAfter(calls: seq<real>, cutoff: real): nat {
    if calls == [] then 0 else
    CountAfter(calls[..|calls| - 1], cutoff) + if calls[|calls| - 1] > cutoff then 1 else 0
  }

  predicate Allowed(log: Log, key: string, now: real, maxAttempts: nat, window: real) {
    CountAfter(Calls(log, key), now - window) < maxAttempts
  }

  predicate Ordered(calls: seq<real>) {
    forall i, j :: 0 <= i < j < |calls| ==> calls[i] <= calls[j]
  }

  /** `kept` is `calls` with some calls at or before `cutoff` forgotten from the front. */
  ghost predicate KeptFrom(kept: seq<real>, calls: seq<real>, cutoff: real) {
    && |kept| <= |calls|
    && kept == calls[|calls| - |kept|..]
    && forall i :: 0 <= i < |calls| - |kept| ==> calls[i] <= cutoff
  }

  lemma {:induction false} CountKept(kept: seq<real>, calls: seq<real>, cutoff: real)
    requires KeptFrom(kept, calls, cutoff)
    ensures CountAfter(kept, cutoff) == CountAfter(calls, cutoff)
  {
    if calls != [] {
      var n := |calls| - 1;
      if kept == [] {
        assert calls[n] <= cutoff;
        CountKept([], calls[..n], cutoff);
      } else {
        assert kept[..|kept| - 1] == calls[..n][|calls| - |kept|..];
        CountKept(kept[..|kept| - 1], calls[..n], cutoff);
      }
    }
  }

  /** Moving the cutoff on only drops calls. */
  lemma {:induction false} CountShrinks(calls: seq<real>, cutoff: real, later: real)
    requires cutoff <= later
    ensures CountAfter(calls, later) <= CountAfter(calls, cutoff)
  {
    if calls != [] {
      CountShrinks(calls[..|calls| - 1], cutoff, later);
    }
  }

  lemma {:induction false} NoneAfter(calls: seq<real>, cutoff: real)
    requires Ordered(calls) && calls != [] && calls[|calls| - 1] <= cutoff
    ensures CountAfter(calls, cutoff) == 0
  {
    if |calls| > 1 {
      NoneAfter(calls[..|calls| - 1], cutoff);
    } else {
      assert calls[..0] == [];
    }
  }

  /** In an ordered log the calls after the cutoff are its tail. */
  lemma {:induction false} CountIsTail(calls: seq<real>, cutoff: real, n: nat)
    requires Ordered(calls) && n < |calls|
    ensures CountAfter(calls, cutoff) <= n <==> calls[|calls| - 1 - n] <= cutoff
  {
    if calls[|calls| - 1] <= cutoff {
      NoneAfter(calls, cutoff);
    } else if n > 0 {
      CountIsTail(calls[..|calls| - 1], cutoff, n - 1);
    }
  }

  /** What a queue whose oldest call is still in the window says about its log. */
  lemma EvictedIsCount(queue: seq<real>, calls: seq<real>, cutoff: real)
    requires Ordered(calls) && KeptFrom(queue, calls, cutoff)
    requires queue != [] ==> queue[0] > cutoff
    ensures CountAfter(calls, cutoff) == |queue|
  {
    CountKept(queue, calls, cutoff);
    if queue != [] {
      var n := |queue| - 1;
      assert Ordered(queue);
      CountIsTail(queue, cutoff, n);
      CountAtMost(queue, cutoff);
    }
  }

  lemma {:induction false} CountAtMost(calls: seq<real>, cutoff: real)
    ensures CountAfter(calls, cutoff) <= |calls|
  {
    if calls != [] {
      CountAtMost(calls[..|calls| - 1], cutoff);
    }
  }

  /** A key's queue against its log at clock reading `now`: no more than `maxAttempts` in any window so far. */
  ghost predicate Faithful(queue: seq<real>, calls: seq<real>, now: real, maxAttempts: nat, window: real) {
    && KeptFrom(queue, calls, now - window)
    && Ordered(calls)
    && (calls != [] ==> calls[|calls| - 1] <= now)
    && CountAfter(calls, now - window) <= maxAttempts
  }

  lemma FaithfulLater(queue: seq<real>, calls: seq<real>, clock: real, now: real, maxAttempts: nat, window: real)
    requires Faithful(queue, calls, clock, maxAttempts, window) && clock <= now
    ensures Faithful(queue, calls, now, maxAttempts, window)
  {
    CountShrinks(calls, clock - window, now - window);
  }

  lemma CountPush(calls: seq<real>, cutoff: real, now: real)
    ensures CountAfter(calls + [now], cutoff) == CountAfter(calls, cutoff) + if now > cutoff then 1 else 0
  {
    assert (calls + [now])[..|calls|] == calls;
  }

  /** A queue and its log grow by the same call. */
  lemma KeptPush(queue: seq<real>, calls: seq<real>, cutoff: real, now: real)
    requires KeptFrom(queue, calls, cutoff)
    ensures KeptFrom(queue + [now], calls + [now], cutoff)
  {
    var n, m := |calls|, |queue|;
    assert (calls + [now])[n - m..] == calls[n - m..] + [now];
  }

  /** A call that has left the window may be forgotten from the front. */
  lemma FaithfulPop(queue: seq<real>, calls: seq<real>, now: real, maxAttempts: nat, window: real)
    requires Faithful(queue, calls, now, maxAttempts, window) && queue != [] && queue[0] <= now - window
    ensures Faithful(queue[1..], calls, now, maxAttempts, window)
  {
    assert queue[1..] == calls[|calls| - |queue| + 1..];
  }

  lemma FaithfulPush(queue: seq<real>, calls: seq<real>, now: real, maxAttempts: nat, window: real)
    requires Faithful(queue, calls, now, maxAttempts, window) && CountAfter(calls, now - window) < maxAttempts
    ensures Faithful(queue + [now], calls + [now], now, maxAttempts, window)
  {
    KeptPush(queue, calls, now - window, now);
    CountPush(calls, now - window, now);
  }

  /** From `now` on, with no further calls, the key is allowed exactly from instant `open` on. */
  ghost predicate LiftsAt(log: Log, key: string, now: real, open: real, maxAttempts: nat, window: real) {
    forall later :: now <= later ==> (Allowed(log, key, later, maxAttempts, window) <==> later >= open)
  }

  /** The wait ends exactly when the oldest call still counted leaves the window. */
  lemma WaitIsExact(log: Log, key: string, queue: seq<real>, now: real, maxAttempts: nat, window: real)
    requires 1 <= |queue| == maxAttempts && Faithful(queue, Calls(log, key), now, maxAttempts, window)
    ensures LiftsAt(log, key, now, queue[0] + window, maxAttempts, window)
  {
    var calls := Calls(log, key);
    assert calls[|calls| - maxAttempts] == queue[0];
    forall later | now <= later
      ensures Allowed(log, key, later, maxAttempts, window) <==> later >= queue[0] + window
    {
      CountIsTail(calls, later - window, maxAttempts - 1);
    }
  }

  function Queue(hits: map<string, seq<real>>, key: string): seq<real> {
    if key in hits then hits[key] else []
  }

  ghost predicate KeyFaithful(hits: map<string, seq<real>>, log: Log, key: string, now: real, maxAttempts: nat,
      window: real) {
    Faithful(Queue(hits, key), Calls(log, key), now, maxAttempts, window)
  }

  ghost predicate AllFaithful(hits: map<string, seq<real>>, log: Log, now: real, maxAttempts: nat, window: real) {
    forall k: string :: KeyFaithful(hits, log, k, now, maxAttempts, window)
  }

  /** Changing one key's queue and log leaves the other keys alone. */
  lemma OneKey(hits: map<string, seq<real>>, log: Log, key: string, hits': map<string, seq<real>>, log': Log,
      now: real, maxAttempts: nat, window: real)
    requires AllFaithful(hits, log, now, maxAttempts, window)
    requires forall k :: k != key ==> Queue(hits', k) == Queue(hits, k) && Calls(log', k) == Calls(log, k)
    requires KeyFaithful(hits', log', key, now, maxAttempts, window)
    ensures AllFaithful(hits', log', now, maxAttempts, window)
  {
    forall k: string
      ensures KeyFaithful(hits', log', k, now, maxAttempts, window)
    {
      if k != key {
        SameKey(hits, log, hits', log', k, now, maxAttempts, window);
      }
    }
  }

  lemma SameKey(hits: map<string, seq<real>>, log: Log, hits': map<string, seq<real>>, log': Log, key: string,
      now: real, maxAttempts: nat, window: real)
    requires KeyFaithful(hits, log, key, now, maxAttempts, window)
    requires Queue(hits', key) == Queue(hits, key) && Calls(log', key) == Calls(log, key)
    ensures KeyFaithful(hits', log', key, now, maxAttempts, window)
  {
  }

  lemma EvictStaysFaithful(hits: map<string, seq<real>>, log: Log, key: string, queue: seq<real>, now: real,
      maxAttempts: nat, window: real)
    requires AllFaithful(hits, log, now, maxAttempts, window)
    requires Faithful(queue, Calls(log, key), now, maxAttempts, window)
    ensures AllFaithful(hits[key := queue], log, now, maxAttempts, window)
    ensures queue == [] ==> AllFaithful(hits - {key}, log, now, maxAttempts, window)
  {
    OneKey(hits, log, key, hits[key := queue], log, now, maxAttempts, window);
    if queue == [] {
      OneKey(hits, log, key, hits - {key}, log, now, maxAttempts, window);
    }
  }

  lemma PushStaysFaithful(hits: map<string, seq<real>>, log: Log, key: string, queue: seq<real>, now: real,
      maxAttempts: nat, window: real)
    requires AllFaithful(hits, log, now, maxAttempts, window)
    requires Faithful(queue, Calls(log, key), now, maxAttempts, window)
    requires Allowed(log, key, now, maxAttempts, window)
    ensures AllFaithful(hits[key := queue + [now]], log[key := Calls(log, key) + [now]], now, maxAttempts, window)
  {
    FaithfulPush(queue, Calls(log, key), now, maxAttempts, window);
    OneKey(hits, log, key, hits[key := queue + [now]], log[key := Calls(log, key) + [now]], now, maxAttempts, window);
  }

  class SlidingWindowRateLimiter {
    const maxAttempts: nat
    const window: real
    var hits: map<string, seq<real>>
    var lastSweep: real
    ghost var log: Log
    ghost var clock: real

    /** Each queue is its key's log, less calls already out of the window at the latest reading. */
    ghost predicate Valid()
      reads this
    {
      && 1 <= maxAttempts
      && AllFaithful(hits, log, clock, maxAttempts, window)
    }

    constructor (maxAttempts: nat, window: real, now: real)
      requires 1 <= maxAttempts
      ensures Valid() && log == map[] && clock == now
      ensures this.maxAttempts == maxAttempts && this.window == window
    {
      this.maxAttempts, this.window := maxAttempts, window;
      hits, lastSweep := map[], now;
      log, clock := map[], now;
    }

    /** The key's queue less the calls that have left the window: exactly the calls that count. */
    method Evict(key: string, now: real) returns (queue: seq<real>)
      requires Valid() && clock == now
      ensures Faithful(queue, Calls(log, key), now, maxAttempts, window)
      ensures |queue| == CountAfter(Calls(log, key), now - window)
      ensures queue != [] ==> queue[0] > now - window
    {
      queue := Queue(hits, key);
      assert KeyFaithful(hits, log, key, now, maxAttempts, window);
      while queue != [] && queue[0] <= now - window
        invariant Faithful(queue, Calls(log, key), now, maxAttempts, window)
      {
        FaithfulPop(queue, Calls(log, key), now, maxAttempts, window);
        queue := queue[1..];
      }
      EvictedIsCount(queue, Calls(log, key), now - window);
    }

    /** A later reading of the clock. */
    ghost method Advance(now: real)
      requires Valid() && clock <= now
      modifies this`clock
      ensures Valid() && clock == now
    {
      forall k: string
        ensures KeyFaithful(hits, log, k, now, maxAttempts, window)
      {
        assert KeyFaithful(hits, log, k, clock, maxAttempts, window);
        FaithfulLater(Queue(hits, k), Calls(log, k), clock, now, maxAttempts, window);
      }
      clock := now;
    }

    /** None when the call is allowed, else how long until the oldest counted call leaves the window. */
    method Check(key: string, now: real) returns (wait: Option<real>)
      requires Valid() && clock <= now
      modifies this
      ensures Valid() && clock == now
      ensures wait.None? <==> Allowed(old(log), key, now, maxAttempts, window)
      ensures log == if wait.None? then old(log)[key := Calls(old(log), key) + [now]] else old(log)
      ensures wait.Some? ==> 0.0 < wait.value
      ensures wait.Some? ==> LiftsAt(log, key, now, now + wait.value, maxAttempts, window)
    {
      Advance(now);
      ghost var calls := Calls(log, key);
      var queue := Evict(key, now);
      if |queue| >= maxAttempts {
        EvictStaysFaithful(hits, log, key, queue, now, maxAttempts, window);
        hits := hits[key := queue];
        wait := Some(queue[0] + window - now);
        WaitIsExact(log, key, queue, now, maxAttempts, window);
      } else {
        PushStaysFaithful(hits, log, key, queue, now, maxAttempts, window);
        hits := hits[key := queue + [now]];
        log := log[key := calls + [now]];
        MaybeSweep(now);
        wait := None;
      }
    }

    method Reset(key: string, now: real)
      requires Valid() && clock <= now
      modifies this
      ensures Valid() && clock == now && log == old(log) - {key}
    {
      Advance(now);
      OneKey(hits, log, key, hits - {key}, log - {key}, now, maxAttempts, window);
      hits := hits - {key};
      log := log - {key};
    }

    /** Forget idle keys; the log, and so what any later check answers, is unchanged. */
    method MaybeSweep(now: real)
      requires Valid() && clock == now
      modifies this`hits, this`lastSweep
      ensures Valid() && hits.Keys <= old(hits.Keys)
      ensures now - old(lastSweep) >= window ==> forall k :: k in hits ==> hits[k] != [] && hits[k][0] > now - window
    {
      if now - lastSweep < window {
        return;
      }
      lastSweep := now;
      var todo := hits.Keys;
      while todo != {}
        invariant Valid() && todo <= hits.Keys <= old(hits.Keys)
        invariant forall k :: k in hits && k !in todo ==> hits[k] != [] && hits[k][0] > now - window
        decreases todo
      {
        ghost var some := AnyOf(todo);
        var key :| key in todo;
        todo := todo - {key};
        var queue := Evict(key, now);
        EvictStaysFaithful(hits, log, key, queue, now, maxAttempts, window);
        if queue == [] {
          hits := hits - {key};
        } else {
          hits := hits[key := queue];
        }
      }
    }
  }

  // ------------------------------------------------------------- any run of calls

  datatype Op = Check(key: string, at: real) | Reset(key: string, at: real)

  function StepLog(log: Log, op: Op, maxAttempts: nat, window: real): Log {
    match op
    case Check(key, at) =>
      if Allowed(log, key, at, maxAttempts, window) then log[key := Calls(log, key) + [at]] else log
    case Reset(key, _) => log - {key}
  }

  function RunLog(ops: seq<Op>, maxAttempts: nat, window: real): Log {
    if ops == [] then map[]
    else StepLog(RunLog(ops[..|ops| - 1], maxAttempts, window), ops[|ops| - 1], maxAttempts, window)
  }

  predicate ClockForward(ops: seq<Op>) {
    forall i, j :: 0 <= i < j < |ops| ==> ops[i].at <= ops[j].at
  }

  /** A call is logged for its key exactly when fewer than the maximum are in the window; a reset forgets its key's. */
  lemma CallIsLoggedIff(log: Log, key: string, at: real, maxAttempts: nat, window: real)
    ensures var after := StepLog(log, Check(key, at), maxAttempts, window);
            && (Calls(after, key) == Calls(log, key) + [at] <==> CountAfter(Calls(log, key), at - window) < maxAttempts)
            && (Calls(after, key) == Calls(log, key) <==> CountAfter(Calls(log, key), at - window) >= maxAttempts)
            && forall other :: other != key ==> Calls(after, other) == Calls(log, other)
    ensures var after := StepLog(log, Reset(key, at), maxAttempts, window);
            Calls(after, key) == [] && forall other :: other != key ==> Calls(after, other) == Calls(log, other)
  {
    assert |Calls(log, key) + [at]| == |Calls(log, key)| + 1;
  }

  /** Calls in order, none later than `now`, every `maxAttempts + 1` of them spanning the window. */
  predicate Spaced(calls: seq<real>, now: real, maxAttempts: nat, window: real) {
    && Ordered(calls)
    && (calls != [] ==> calls[|calls| - 1] <= now)
    && forall i :: 0 <= i < |calls| - maxAttempts ==> calls[i + maxAttempts] - calls[i] >= window
  }

  lemma AllowedKeepsSpaced(calls: seq<real>, now: real, maxAttempts: nat, window: real)
    requires 1 <= maxAttempts && Spaced(calls, now, maxAttempts, window)
    requires CountAfter(calls, now - window) < maxAttempts
    ensures Spaced(calls + [now], now, maxAttempts, window)
  {
    if |calls| >= maxAttempts {
      CountIsTail(calls, now - window, maxAttempts - 1);
    }
  }

  lemma StepKeepsSpaced(log: Log, op: Op, maxAttempts: nat, window: real, key: string)
    requires 1 <= maxAttempts && Spaced(Calls(log, key), op.at, maxAttempts, window)
    ensures Spaced(Calls(StepLog(log, op, maxAttempts, window), key), op.at, maxAttempts, window)
  {
    if op.key == key && op.Check? && Allowed(log, key, op.at, maxAttempts, window) {
      AllowedKeepsSpaced(Calls(log, key), op.at, maxAttempts, window);
    }
  }

  /** Over any run, `maxAttempts + 1` allowed calls for a key without a reset between them span the window. */
  lemma {:induction false} AllowedCallsAreSpaced(ops: seq<Op>, maxAttempts: nat, window: real, key: string, now: real)
    requires 1 <= maxAttempts && ClockForward(ops) && (ops != [] ==> ops[|ops| - 1].at <= now)
    ensures Spaced(Calls(RunLog(ops, maxAttempts, window), key), now, maxAttempts, window)
  {
    if ops != [] {
      var rest, op := ops[..|ops| - 1], ops[|ops| - 1];
      AllowedCallsAreSpaced(rest, maxAttempts, window, key, op.at);
      StepKeepsSpaced(RunLog(rest, maxAttempts, window), op, maxAttempts, window, key);
    }
  }
}
