/**
 * Planning one scrape of a metric group: which property codes are requested, which are left to the device's own
 * notifications, and which metrics the answer is parsed for. Other goroutines may change the cache between two
 * metrics, so every metric is judged at a moment of its own.
 */
module Scheduler {
  import opened Bytes
  import opened Specs
  import Cache

  type Time = Cache.Time
  type Operation = Cache.Operation

  /** The cache and the clock as the i-th metric of the list finds them. */
  datatype Moment = Moment(state: Cache.State, now: Time)

  type View = nat -> Moment

  // ----- Groups -----

  type Interval = i: int | i > 0 witness 1

  function IntervalOf(m: MetricSpec, fallback: Interval): Interval {
    if m.scrapeInterval <= 0 then fallback else m.scrapeInterval
  }

  function OfInterval(metrics: seq<MetricSpec>, fallback: Interval, iv: Interval): seq<MetricSpec> {
    if |metrics| == 0 then []
    else
      var m := metrics[|metrics| - 1];
      OfInterval(metrics[..|metrics| - 1], fallback, iv) + if IntervalOf(m, fallback) == iv then [m] else []
  }

  lemma OfIntervalAppend(metrics: seq<MetricSpec>, m: MetricSpec, fallback: Interval, iv: Interval)
    ensures OfInterval(metrics + [m], fallback, iv) ==
            OfInterval(metrics, fallback, iv) + if IntervalOf(m, fallback) == iv then [m] else []
  {
  }

  /** One group per interval that occurs, holding exactly the metrics of that interval in their order. */
  method GroupByInterval(metrics: seq<MetricSpec>, fallback: Interval) returns (groups: map<Interval, seq<MetricSpec>>)
    ensures forall iv :: iv in groups <==> OfInterval(metrics, fallback, iv) != []
    ensures forall iv :: iv in groups ==> groups[iv] == OfInterval(metrics, fallback, iv)
    ensures forall iv, m :: iv in groups && m in groups[iv] ==> m in metrics
    ensures forall m :: m in metrics ==>
              var own: Interval := if m.scrapeInterval <= 0 then fallback else m.scrapeInterval;
              own in groups && forall iv :: iv in groups ==> (m in groups[iv] <==> iv == own)
  {
    groups := map[];
    for i := 0 to |metrics|
      invariant forall iv :: iv in groups ==> groups[iv] != []
      invariant forall iv :: OfInterval(metrics[..i], fallback, iv) == if iv in groups then groups[iv] else []
    {
      var m := metrics[i];
      assert metrics[..i + 1] == metrics[..i] + [m];
      var iv := IntervalOf(m, fallback);
      forall other {
        OfIntervalAppend(metrics[..i], m, fallback, other);
      }
      groups := groups[iv := (if iv in groups then groups[iv] else []) + [m]];
    }
    assert metrics[..|metrics|] == metrics;
    forall iv, m | iv in groups && m in groups[iv] ensures m in metrics {
      OfIntervalMembers(metrics, fallback, iv, m);
    }
    forall m | m in metrics
      ensures var own := IntervalOf(m, fallback);
              own in groups && forall iv :: iv in groups ==> (m in groups[iv] <==> iv == own)
    {
      GroupOfMetric(metrics, fallback, groups, m);
    }
  }

  lemma GroupOfMetric(metrics: seq<MetricSpec>, fallback: Interval, groups: map<Interval, seq<MetricSpec>>,
                      m: MetricSpec)
    requires m in metrics
    requires forall iv :: iv in groups <==> OfInterval(metrics, fallback, iv) != []
    requires forall iv :: iv in groups ==> groups[iv] == OfInterval(metrics, fallback, iv)
    ensures var own := IntervalOf(m, fallback);
            own in groups && forall iv :: iv in groups ==> (m in groups[iv] <==> iv == own)
  {
    OfIntervalMembers(metrics, fallback, IntervalOf(m, fallback), m);
    forall iv | iv in groups ensures m in groups[iv] <==> iv == IntervalOf(m, fallback) {
      OfIntervalMembers(metrics, fallback, iv, m);
    }
  }

  lemma {:induction false} OfIntervalMembers(metrics: seq<MetricSpec>, fallback: Interval, iv: Interval, m: MetricSpec)
    ensures m in OfInterval(metrics, fallback, iv) <==> m in metrics && IntervalOf(m, fallback) == iv
  {
    if |metrics| > 0 {
      var init, last := metrics[..|metrics| - 1], metrics[|metrics| - 1];
      assert metrics == init + [last];
      OfIntervalMembers(init, fallback, iv, m);
    }
  }

  // ----- The plan -----

  datatype Plan = Plan(epcs: seq<Byte>, skipped: seq<Byte>) {
    predicate Seen(e: Byte) {
      e in epcs || e in skipped
    }
  }

  function Requested(p: Plan, e: Byte): Plan {
    if p.Seen(e) then p else p.(epcs := p.epcs + [e])
  }

  function WithMultiplier(p: Plan, m: MetricSpec): Plan {
    if m.multiplierEpc == 0 then p else Requested(p, m.multiplierEpc)
  }

  /** A code already decided on is not reconsidered; a code skipped now takes its metric's multiplier along. */
  function Considered(p: Plan, m: MetricSpec, skip: bool): Plan {
    if p.Seen(m.epc) || !skip then WithMultiplier(Requested(p, m.epc), m)
    else p.(skipped := p.skipped + [m.epc])
  }

  predicate SkipsAt(view: View, key: string, m: MetricSpec, i: nat, interval: int) {
    Cache.SkipsPoll(view(i).state, key, m.epc, 2 * interval, view(i).now)
  }

  /** The plan after the first n metrics. */
  function PlanOf(metrics: seq<MetricSpec>, n: nat, view: View, key: string, interval: int): Plan
    requires n <= |metrics|
  {
    if n == 0 then Plan([], [])
    else
      PlanNext(PlanOf(metrics, n - 1, view, key, interval), metrics, n - 1, view, key, interval)
  }

  /** The plan after metric n, given the plan before it. */
  function PlanNext(p: Plan, metrics: seq<MetricSpec>, n: nat, view: View, key: string, interval: int): Plan
    requires n < |metrics|
  {
    Considered(p, metrics[n], SkipsAt(view, key, metrics[n], n, interval))
  }

  function Polled(metrics: seq<MetricSpec>, skipped: seq<Byte>): seq<MetricSpec> {
    if |metrics| == 0 then []
    else
      var m := metrics[|metrics| - 1];
      Polled(metrics[..|metrics| - 1], skipped) + if m.epc in skipped then [] else [m]
  }

  /** The first loop of a scrape. */
  method PlanScrape(metrics: seq<MetricSpec>, key: string, interval: int, view: View) returns (plan: Plan)
    ensures plan == PlanOf(metrics, |metrics|, view, key, interval)
  {
    var seen: set<Byte> := {};
    var epcs: seq<Byte>, skipped: seq<Byte> := [], [];
    for i := 0 to |metrics|
      invariant Plan(epcs, skipped) == PlanOf(metrics, i, view, key, interval)
      invariant forall e :: e in seen <==> Plan(epcs, skipped).Seen(e)
    {
      var m := metrics[i];
      if m.epc !in seen {
        if SkipsAt(view, key, m, i, interval) {
          skipped := skipped + [m.epc];
          seen := seen + {m.epc};
          continue;
        }
        epcs := epcs + [m.epc];
        seen := seen + {m.epc};
      }
      if m.multiplierEpc != 0 {
        if m.multiplierEpc !in seen {
          epcs := epcs + [m.multiplierEpc];
          seen := seen + {m.multiplierEpc};
        }
      }
    }
    return Plan(epcs, skipped);
  }

  /** The second loop: the metrics whose code was not skipped. */
  method PolledMetrics(metrics: seq<MetricSpec>, skipped: seq<Byte>) returns (polled: seq<MetricSpec>)
    ensures polled == Polled(metrics, skipped)
  {
    polled := [];
    for i := 0 to |metrics|
      invariant polled == Polled(metrics[..i], skipped)
    {
      assert metrics[..i + 1][..i] == metrics[..i];
      if metrics[i].epc !in skipped {
        polled := polled + [metrics[i]];
      }
    }
    assert metrics[..|metrics|] == metrics;
  }

  // ----- What every plan guarantees -----

  ghost predicate NoDuplicates(s: seq<Byte>) {
    forall i, j :: 0 <= i < j < |s| ==> s[i] != s[j]
  }

  ghost predicate Disjoint(p: Plan) {
    NoDuplicates(p.epcs) && NoDuplicates(p.skipped) && forall e :: e in p.epcs ==> e !in p.skipped
  }

  /** Every one of the first n metrics has its code in the plan, and if it is requested its multiplier's too. */
  ghost predicate Covers(p: Plan, metrics: seq<MetricSpec>, n: nat)
    requires n <= |metrics|
  {
    && (forall i :: 0 <= i < n ==> p.Seen(metrics[i].epc))
    && (forall i :: 0 <= i < n && metrics[i].epc in p.epcs && metrics[i].multiplierEpc != 0 ==>
        p.Seen(metrics[i].multiplierEpc))
  }

  /** A code in the plan has a reason among the first n metrics. */
  ghost predicate Justified(p: Plan, metrics: seq<MetricSpec>, n: nat, view: View, key: string, interval: int, e: Byte)
    requires n <= |metrics|
  {
    && (e in p.skipped ==> SkippedSomewhere(metrics, n, view, key, interval, e))
    && (e in p.epcs ==> Wanted(metrics, n, e))
  }

  ghost predicate SkippedSomewhere(metrics: seq<MetricSpec>, n: nat, view: View, key: string, interval: int, e: Byte)
    requires n <= |metrics|
  {
    exists i: nat :: i < n && metrics[i].epc == e && SkipsAt(view, key, metrics[i], i, interval)
  }

  ghost predicate Wanted(metrics: seq<MetricSpec>, n: nat, e: Byte)
    requires n <= |metrics|
  {
    exists i :: 0 <= i < n && (metrics[i].epc == e || (e != 0 && metrics[i].multiplierEpc == e))
  }

  lemma DisjointStep(p: Plan, m: MetricSpec, skips: bool)
    requires Disjoint(p)
    ensures Disjoint(Considered(p, m, skips))
  {
  }

  lemma CoversStep(p: Plan, metrics: seq<MetricSpec>, n: nat, next: nat, skips: bool)
    requires next == n + 1 <= |metrics| && Covers(p, metrics, n)
    ensures Covers(Considered(p, metrics[n], skips), metrics, next)
  {
  }

  lemma JustifiedStep(metrics: seq<MetricSpec>, n: nat, next: nat, view: View, key: string, interval: int, p: Plan,
                      e: Byte)
    requires next == n + 1 <= |metrics| && Justified(p, metrics, n, view, key, interval, e)
    ensures Justified(PlanNext(p, metrics, n, view, key, interval), metrics, next, view, key, interval, e)
  {
  }

  lemma PlanOfNext(metrics: seq<MetricSpec>, n: nat, view: View, key: string, interval: int, p: Plan)
    requires n < |metrics| && p == PlanOf(metrics, n, view, key, interval)
    ensures PlanOf(metrics, n + 1, view, key, interval) == PlanNext(p, metrics, n, view, key, interval)
  {
  }

  lemma {:induction false} PlanIsDisjoint(metrics: seq<MetricSpec>, n: nat, view: View, key: string, interval: int)
    requires n <= |metrics|
    ensures Disjoint(PlanOf(metrics, n, view, key, interval))
  {
    if n > 0 {
      PlanIsDisjoint(metrics, n - 1, view, key, interval);
      DisjointStep(PlanOf(metrics, n - 1, view, key, interval), metrics[n - 1],
                   SkipsAt(view, key, metrics[n - 1], n - 1, interval));
    }
  }

  lemma PlanCovers(metrics: seq<MetricSpec>, n: nat, view: View, key: string, interval: int)
    requires n <= |metrics|
    ensures Covers(PlanOf(metrics, n, view, key, interval), metrics, n)
  {
    var p := Plan([], []);
    for i := 0 to n
      invariant p == PlanOf(metrics, i, view, key, interval)
      invariant Covers(p, metrics, i)
    {
      CoversStep(p, metrics, i, i + 1, SkipsAt(view, key, metrics[i], i, interval));
      PlanOfNext(metrics, i, view, key, interval, p);
      p := PlanNext(p, metrics, i, view, key, interval);
    }
  }

  lemma PlanIsJustified(metrics: seq<MetricSpec>, n: nat, view: View, key: string, interval: int, e: Byte)
    requires n <= |metrics|
    ensures Justified(PlanOf(metrics, n, view, key, interval), metrics, n, view, key, interval, e)
  {
    var p := Plan([], []);
    for i := 0 to n
      invariant p == PlanOf(metrics, i, view, key, interval)
      invariant Justified(p, metrics, i, view, key, interval, e)
    {
      JustifiedStep(metrics, i, i + 1, view, key, interval, p, e);
      PlanOfNext(metrics, i, view, key, interval, p);
      p := PlanNext(p, metrics, i, view, key, interval);
    }
  }

  lemma PlanHasReasons(metrics: seq<MetricSpec>, view: View, key: string, interval: int, p: Plan)
    requires p == PlanOf(metrics, |metrics|, view, key, interval)
    ensures forall e :: e in p.skipped ==> SkippedSomewhere(metrics, |metrics|, view, key, interval, e)
    ensures forall e :: e in p.epcs ==> Wanted(metrics, |metrics|, e)
  {
    forall e | e in p.skipped ensures SkippedSomewhere(metrics, |metrics|, view, key, interval, e) {
      PlanIsJustified(metrics, |metrics|, view, key, interval, e);
    }
    forall e | e in p.epcs ensures Wanted(metrics, |metrics|, e) {
      PlanIsJustified(metrics, |metrics|, view, key, interval, e);
    }
  }

  lemma {:induction false} PolledMembers(metrics: seq<MetricSpec>, skipped: seq<Byte>, m: MetricSpec)
    ensures m in Polled(metrics, skipped) <==> m in metrics && m.epc !in skipped
  {
    if |metrics| > 0 {
      PolledMembers(metrics[..|metrics| - 1], skipped, m);
      assert metrics == metrics[..|metrics| - 1] + [metrics[|metrics| - 1]];
    }
  }

  /**
   * No code is requested twice or both requested and skipped. Every metric that is parsed has its code requested, and
   * its multiplier's too unless that one was skipped; every metric that is not parsed has a code that the device
   * announces and pushed less than two intervals before the scrape looked at it.
   */
  lemma PlanGuarantees(metrics: seq<MetricSpec>, view: View, key: string, interval: int)
    ensures var p := PlanOf(metrics, |metrics|, view, key, interval);
            && Disjoint(p)
            && (forall m :: m in Polled(metrics, p.skipped) ==> m.epc in p.epcs)
            && (forall m :: m in Polled(metrics, p.skipped) && m.multiplierEpc != 0 ==> p.Seen(m.multiplierEpc))
            && (forall m :: m in metrics && m !in Polled(metrics, p.skipped) ==>
                  SkippedSomewhere(metrics, |metrics|, view, key, interval, m.epc))
            && (forall e :: e in p.skipped ==> SkippedSomewhere(metrics, |metrics|, view, key, interval, e))
            && (forall e :: e in p.epcs ==> Wanted(metrics, |metrics|, e))
  {
    var p := PlanOf(metrics, |metrics|, view, key, interval);
    PlanIsDisjoint(metrics, |metrics|, view, key, interval);
    PlanCovers(metrics, |metrics|, view, key, interval);
    PlanHasReasons(metrics, view, key, interval, p);
    forall m ensures m in Polled(metrics, p.skipped) <==> m in metrics && m.epc !in p.skipped {
      PolledMembers(metrics, p.skipped, m);
    }
  }

  /** A code that no moment of the scrape would skip is requested. */
  lemma FreshlyNeededIsRequested(metrics: seq<MetricSpec>, view: View, key: string, interval: int, k: nat)
    requires k < |metrics|
    requires forall i: nat :: i < |metrics| && metrics[i].epc == metrics[k].epc ==>
        !SkipsAt(view, key, metrics[i], i, interval)
    ensures metrics[k].epc in PlanOf(metrics, |metrics|, view, key, interval).epcs
  {
    PlanCovers(metrics, |metrics|, view, key, interval);
    PlanIsJustified(metrics, |metrics|, view, key, interval, metrics[k].epc);
  }

  /** The k-th metric is the first to bring this code up, and at that moment the code could be skipped. */
  predicate SkipDecision(metrics: seq<MetricSpec>, k: nat, view: View, key: string, interval: int, e: Byte)
    requires k < |metrics|
  {
    metrics[k].epc == e && SkipsAt(view, key, metrics[k], k, interval) &&
        !PlanOf(metrics, k, view, key, interval).Seen(e)
  }

  lemma DecisionStep(metrics: seq<MetricSpec>, n: nat, view: View, key: string, interval: int, p: Plan, e: Byte)
    requires n < |metrics| && p == PlanOf(metrics, n, view, key, interval)
    ensures e in PlanNext(p, metrics, n, view, key, interval).skipped <==>
        e in p.skipped || SkipDecision(metrics, n, view, key, interval, e)
  {
  }

  /** A code is skipped exactly when it may be skipped at the moment it first comes up. */
  lemma SkippedExactlyWhen(metrics: seq<MetricSpec>, view: View, key: string, interval: int, e: Byte)
    ensures e in PlanOf(metrics, |metrics|, view, key, interval).skipped <==>
            exists k: nat :: k < |metrics| && SkipDecision(metrics, k, view, key, interval, e)
  {
    var p := Plan([], []);
    for i := 0 to |metrics|
      invariant p == PlanOf(metrics, i, view, key, interval)
      invariant e in p.skipped <==> exists k: nat :: k < i && SkipDecision(metrics, k, view, key, interval, e)
    {
      DecisionStep(metrics, i, view, key, interval, p, e);
      PlanOfNext(metrics, i, view, key, interval, p);
      p := PlanNext(p, metrics, i, view, key, interval);
    }
  }

  /** A code once decided on stays so. */
  lemma PlanKeeps(metrics: seq<MetricSpec>, i: nat, j: nat, view: View, key: string, interval: int, e: Byte)
    requires i <= j <= |metrics|
    ensures var p, q := PlanOf(metrics, i, view, key, interval), PlanOf(metrics, j, view, key, interval);
            (e in p.epcs ==> e in q.epcs) && (e in p.skipped ==> e in q.skipped)
  {
    var first := PlanOf(metrics, i, view, key, interval);
    var p := first;
    for n := i to j
      invariant p == PlanOf(metrics, n, view, key, interval)
      invariant (e in first.epcs ==> e in p.epcs) && (e in first.skipped ==> e in p.skipped)
    {
      PlanOfNext(metrics, n, view, key, interval, p);
      p := PlanNext(p, metrics, n, view, key, interval);
    }
  }

  /**
   * A metric of a skipped code is not parsed, but it brings its multiplier's code into the requests, if that one has
   * not come up yet, exactly when its own code was skipped for an earlier metric.
   */
  lemma SkippedRequestsMultiplier(metrics: seq<MetricSpec>, view: View, key: string, interval: int, k: nat)
    requires k < |metrics|
    requires var m, all := metrics[k], PlanOf(metrics, |metrics|, view, key, interval);
             m.multiplierEpc != 0 && m.multiplierEpc != m.epc && m.epc in all.skipped
    requires !PlanOf(metrics, k, view, key, interval).Seen(metrics[k].multiplierEpc)
    ensures metrics[k].multiplierEpc in PlanOf(metrics, k + 1, view, key, interval).epcs <==>
            metrics[k].epc in PlanOf(metrics, k, view, key, interval).skipped
    ensures metrics[k] !in Polled(metrics, PlanOf(metrics, |metrics|, view, key, interval).skipped)
  {
    var p, q := PlanOf(metrics, k, view, key, interval), PlanOf(metrics, k + 1, view, key, interval);
    PlanOfNext(metrics, k, view, key, interval, p);
    PlanKeeps(metrics, k, |metrics|, view, key, interval, metrics[k].epc);
    PlanKeeps(metrics, k + 1, |metrics|, view, key, interval, metrics[k].epc);
    PlanIsDisjoint(metrics, |metrics|, view, key, interval);
    assert metrics[k].epc !in p.epcs && metrics[k].epc !in q.epcs;
    PolledMembers(metrics, PlanOf(metrics, |metrics|, view, key, interval).skipped, metrics[k]);
  }

  /** Two metrics of a skipped code: nothing is polled, yet the second one's multiplier is requested. */
  lemma MultiplierInVain(a: MetricSpec, b: MetricSpec, view: View, key: string, interval: int)
    requires a.epc == b.epc == 0xC0 && b.multiplierEpc == 0xC2 && SkipsAt(view, key, a, 0, interval)
    ensures PlanOf([a, b], 2, view, key, interval) == Plan([0xC2], [0xC0]) && Polled([a, b], [0xC0]) == []
  {
    PlanOfNext([a, b], 0, view, key, interval, Plan([], []));
    PlanOfNext([a, b], 1, view, key, interval, Plan([], [0xC0]));
    var skipped: seq<Byte> := [0xC0];
    assert [a, b][..1] == [a] && [a][..0] == [] && skipped[0] == 0xC0;
    assert Polled([], skipped) == [] && Polled([a], skipped) == [];
  }

  lemma SkippingNeedsPermission(metrics: seq<MetricSpec>, view: View, key: string, interval: int)
    ensures PlanOf(metrics, |metrics|, view, key, interval).skipped == [] ||
            exists i: nat :: i < |metrics| && !view(i).state.forcePolling
  {
    var p := PlanOf(metrics, |metrics|, view, key, interval);
    if |p.skipped| > 0 {
      PlanIsJustified(metrics, |metrics|, view, key, interval, p.skipped[0]);
      assert SkippedSomewhere(metrics, |metrics|, view, key, interval, p.skipped[0]);
    }
  }

  /** With force polling nothing is ever skipped: every metric's code is requested. */
  lemma ForcePollingSkipsNothing(metrics: seq<MetricSpec>, view: View, key: string, interval: int)
    requires forall i: nat :: i < |metrics| ==> view(i).state.forcePolling
    ensures var p := PlanOf(metrics, |metrics|, view, key, interval);
            p.skipped == [] && Polled(metrics, p.skipped) == metrics && forall m :: m in metrics ==> m.epc in p.epcs
  {
    SkippingNeedsPermission(metrics, view, key, interval);
    PlanCovers(metrics, |metrics|, view, key, interval);
    PollsAll(metrics);
  }

  lemma {:induction false} PollsAll(metrics: seq<MetricSpec>)
    ensures Polled(metrics, []) == metrics
  {
    if |metrics| > 0 {
      var init, last := metrics[..|metrics| - 1], metrics[|metrics| - 1];
      PollsAll(init);
      assert Polled(metrics, []) == init + [last];
      assert metrics == init + [last];
    }
  }
}
