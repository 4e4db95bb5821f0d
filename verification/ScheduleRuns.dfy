/** How notifications postpone polling over whole runs of cache operations and scrape ticks. */
module ScheduleRuns {
  import opened Bytes
  import opened Results
  import opened Specs
  import opened CacheRuns
  import opened Scheduler

  // ----- Push times come from the run -----

  predicate Pushes(op: Operation, key: string, e: Byte) {
    op.RecordPush? && op.key == key && e in op.epcs
  }

  ghost predicate IsLastPush(ops: seq<Operation>, i: int, key: string, e: Byte) {
    0 <= i < |ops| && Pushes(ops[i], key, e) && forall j :: i < j < |ops| ==> !Pushes(ops[j], key, e)
  }

  function PushTime(s: Cache.State, key: string, e: Byte): Option<Time> {
    if key in s.lastPush && e in s.lastPush[key] then Some(s.lastPush[key][e]) else None
  }

  lemma StepPush(s: Cache.State, op: Operation, key: string, e: Byte)
    ensures PushTime(Cache.Apply(s, op), key, e) == if Pushes(op, key, e) then Some(op.now) else PushTime(s, key, e)
  {
  }

  lemma {:induction false} PushTimeIsLast(ops: seq<Operation>, key: string, e: Byte) returns (i: int)
    ensures match PushTime(Replay(ops), key, e)
            case None => forall j :: 0 <= j < |ops| ==> !Pushes(ops[j], key, e)
            case Some(t) => IsLastPush(ops, i, key, e) && t == ops[i].now
  {
    i := 0;
    if |ops| > 0 {
      var n := |ops| - 1;
      i := PushTimeIsLast(ops[..n], key, e);
      StepPush(Replay(ops[..n]), ops[n], key, e);
      if Pushes(ops[n], key, e) {
        i := n;
      }
    }
  }

  /**
   * A code is left out of a poll exactly when polling is not forced, the device announces the code, and the last
   * push of that code for that device in the whole run is younger than the freshness window.
   */
  lemma SkipsByLastPush(ops: seq<Operation>, key: string, e: Byte, freshness: int, now: Time)
    ensures var s := Replay(ops);
            Cache.SkipsPoll(s, key, e, freshness, now) <==>
            (!s.forcePolling && key in s.notify && e in s.notify[key] &&
             exists i :: IsLastPush(ops, i, key, e) && now - ops[i].now < freshness)
  {
    var i := PushTimeIsLast(ops, key, e);
    if j :| IsLastPush(ops, j, key, e) {
      assert j == i;
    }
  }

  // ----- Ticks -----

  /**
   * A tick of a metric group: when it fired and was received and, for the i-th metric, how many operations of the
   * run came before the look at it and what the clock said.
   */
  datatype Tick = Tick(fired: Time, received: Time, before: nat -> nat, clock: nat -> Time)

  function ViewOf(ops: seq<Operation>, tick: Tick): View {
    (i: nat) => Moment(Replay(ops[..if tick.before(i) <= |ops| then tick.before(i) else |ops|]), tick.clock(i))
  }

  function PlanAt(ops: seq<Operation>, tick: Tick, metrics: seq<MetricSpec>, key: string, interval: int): Plan {
    PlanOf(metrics, |metrics|, ViewOf(ops, tick), key, interval)
  }

  /**
   * The ticks of one Go ticker: they fire an interval apart or, when some were dropped, more, and a tick that fires
   * before the last one was received is dropped. A tick received late may thus be followed by the next at once.
   */
  ghost predicate Ticking(ticks: seq<Tick>, interval: int) {
    forall k: nat :: k + 1 < |ticks| ==>
      ticks[k].fired + interval <= ticks[k + 1].fired && ticks[k].received <= ticks[k + 1].fired
  }

  /** Ticks received at least an interval apart, as they are when the scrapes in between are short. */
  ghost predicate OnTime(ticks: seq<Tick>, interval: int) {
    forall k: nat :: k + 1 < |ticks| ==> ticks[k].received + interval <= ticks[k + 1].received
  }

  /** The tick looks at each of n metrics after it fired and was received, and after operation l. */
  ghost predicate Looks(tick: Tick, n: nat, ops: seq<Operation>, l: int) {
    && tick.fired <= tick.received
    && forall i: nat :: i < n ==> tick.received <= tick.clock(i) && l < tick.before(i) <= |ops|
  }

  lemma {:induction false} TickerAdvances(ticks: seq<Tick>, interval: int, k: nat)
    requires Ticking(ticks, interval) && interval > 0 && 3 <= k < |ticks|
    ensures ticks[0].received + 2 * interval <= ticks[k].fired
    decreases k
  {
    assert ticks[k - 1].fired + interval <= ticks[k].fired;
    if k == 3 {
      assert ticks[0].received <= ticks[1].fired && ticks[1].fired + interval <= ticks[2].fired;
    } else {
      TickerAdvances(ticks, interval, k - 1);
    }
  }

  lemma {:induction false} ClockAdvances(ticks: seq<Tick>, interval: int, k: nat)
    requires OnTime(ticks, interval) && interval > 0 && 2 <= k < |ticks|
    ensures ticks[0].received + 2 * interval <= ticks[k].received
    decreases k
  {
    assert ticks[k - 1].received + interval <= ticks[k].received;
    if k == 2 {
      assert ticks[0].received + interval <= ticks[1].received;
    } else {
      ClockAdvances(ticks, interval, k - 1);
    }
  }

  lemma LastPushOfPrefix(ops: seq<Operation>, l: int, n: nat, key: string, e: Byte)
    requires IsLastPush(ops, l, key, e) && l < n <= |ops|
    ensures IsLastPush(ops[..n], l, key, e)
  {
  }

  lemma StaleIsNotSkipped(ops: seq<Operation>, l: int, n: nat, key: string, e: Byte, freshness: int, now: Time)
    requires IsLastPush(ops, l, key, e) && l < n <= |ops| && ops[l].now + freshness <= now
    ensures !Cache.SkipsPoll(Replay(ops[..n]), key, e, freshness, now)
  {
    LastPushOfPrefix(ops, l, n, key, e);
    SkipsByLastPush(ops[..n], key, e, freshness, now);
  }

  /**
   * A scrape that looks at the metrics two intervals or more after the last push of a code requests it and polls its
   * metric, whatever else happens to the cache, also while the scrape is being planned.
   */
  lemma SkippingEnds(ops: seq<Operation>, l: int, tick: Tick, metrics: seq<MetricSpec>, key: string, interval: int,
                     m: MetricSpec)
    requires m in metrics && IsLastPush(ops, l, key, m.epc)
    requires Looks(tick, |metrics|, ops, l) && ops[l].now + 2 * interval <= tick.received
    ensures m.epc in PlanAt(ops, tick, metrics, key, interval).epcs
    ensures m in Polled(metrics, PlanAt(ops, tick, metrics, key, interval).skipped)
  {
    var view := ViewOf(ops, tick);
    forall i: nat | i < |metrics| && metrics[i].epc == m.epc ensures !SkipsAt(view, key, metrics[i], i, interval) {
      StaleIsNotSkipped(ops, l, tick.before(i), key, m.epc, 2 * interval, tick.clock(i));
    }
    var j :| 0 <= j < |metrics| && metrics[j] == m;
    FreshlyNeededIsRequested(metrics, view, key, interval, j);
    PlanGuarantees(metrics, view, key, interval);
    PolledMembers(metrics, PlanAt(ops, tick, metrics, key, interval).skipped, m);
  }

  /**
   * Counting the ticks received since the last push of a code, however late they were received: at most three skip
   * it, and every tick from the fourth on requests it. When ticks are received on time at most two do.
   */
  lemma BoundedSkipping(ops: seq<Operation>, l: int, ticks: seq<Tick>, metrics: seq<MetricSpec>, key: string,
                        interval: int, m: MetricSpec, k: nat)
    requires m in metrics && IsLastPush(ops, l, key, m.epc) && interval > 0 && k < |ticks|
    requires (Ticking(ticks, interval) && 3 <= k) || (OnTime(ticks, interval) && 2 <= k)
    requires ops[l].now <= ticks[0].received && Looks(ticks[k], |metrics|, ops, l)
    ensures m.epc in PlanAt(ops, ticks[k], metrics, key, interval).epcs
    ensures m in Polled(metrics, PlanAt(ops, ticks[k], metrics, key, interval).skipped)
  {
    if OnTime(ticks, interval) && 2 <= k {
      ClockAdvances(ticks, interval, k);
    } else {
      TickerAdvances(ticks, interval, k);
    }
    SkippingEnds(ops, l, ticks[k], metrics, key, interval, m);
  }

  /** A device that announces a code and pushes it once. */
  function PushedOnce(key: string, e: Byte, now: Time): seq<Operation> {
    [Operation.SetNotify(key, {e}), Operation.RecordPush(key, [e], now)]
  }

  /** A tick that looks at its one metric after both operations, as soon as it is received. */
  function TickAt(fired: Time, received: Time): Tick {
    Tick(fired, received, (i: nat) => 2, (i: nat) => received)
  }

  lemma YoungPushSkips(m: MetricSpec, key: string, interval: int, now: Time, fired: Time, received: Time)
    requires received - now < 2 * interval
    ensures PlanAt(PushedOnce(key, m.epc, now), TickAt(fired, received), [m], key, interval) == Plan([], [m.epc])
  {
    var ops := PushedOnce(key, m.epc, now);
    assert ops[..2] == ops && ops[..1] == [ops[0]];
    assert IsLastPush(ops, 1, key, m.epc);
    assert Replay(ops[..1]) == Cache.Apply(Cache.EMPTY, ops[0]);
    assert key in Replay(ops).notify && m.epc in Replay(ops).notify[key];
    SkipsByLastPush(ops, key, m.epc, 2 * interval, received);
    OneMetric(m, ViewOf(ops, TickAt(fired, received)), key, interval);
  }

  /**
   * Both bounds are reached by a push at the time a tick is received: a ticker whose first tick is received an
   * interval late skips three times, one whose ticks are on time twice.
   */
  lemma BoundsAreReached(m: MetricSpec, key: string, interval: nat)
    requires interval > 0
    ensures var ticks := [TickAt(0, interval), TickAt(interval, interval), TickAt(2 * interval, 2 * interval)];
            var ops := PushedOnce(key, m.epc, interval);
            && Ticking(ticks, interval) && OnTime(ticks[1..], interval)
            && forall k :: 0 <= k < 3 ==>
                 && Looks(ticks[k], 1, ops, 1) && interval <= ticks[k].received
                 && PlanAt(ops, ticks[k], [m], key, interval) == Plan([], [m.epc])
  {
    YoungPushSkips(m, key, interval, interval, 0, interval);
    YoungPushSkips(m, key, interval, interval, interval, interval);
    YoungPushSkips(m, key, interval, interval, 2 * interval, 2 * interval);
  }

  lemma OneMetric(m: MetricSpec, view: View, key: string, interval: int)
    requires SkipsAt(view, key, m, 0, interval)
    ensures PlanOf([m], 1, view, key, interval) == Plan([], [m.epc])
  {
  }
}
