/** One whole scrape of a metric group: plan, adaptive fetch, decoding and cache update. */
module Scrape {
  import opened Bytes
  import opened Results
  import opened Specs
  import opened Metrics
  import Client
  import AdaptiveFetch
  import ReconcilerRuns
  import opened Scheduler

  type Time = Cache.Time

  /** What a scrape of these codes leaves in the cache. */
  function AfterScrape(s: Cache.State, key: string, group: string, interval: int, run: Client.Run,
                       polled: seq<MetricSpec>, took: real, errMsg: string, done: Time): Cache.State {
    match run.Result()
    case Err(_) => Cache.Apply(s, Cache.Operation.Update(key, group, interval, false, took, map[], errMsg, done))
    case Ok(props) => Cache.Apply(s,
        Cache.Operation.Update(key, group, interval, true, took, MetricsOf(props, polled), "", done))
  }

  /** A failed scrape leaves every metric as it is, counts as a failure and keeps the time of the last success. */
  lemma FailureIsRecorded(s: Cache.State, key: string, group: string, interval: int, run: Client.Run,
                          polled: seq<MetricSpec>, took: real, errMsg: string, done: Time)
    requires run.Result().Err?
    ensures var s' := AfterScrape(s, key, group, interval, run, polled, took, errMsg, done);
            var before, after := s.Entry(key), s'.Entry(key);
            && after.metrics == before.metrics && group in after.groups
            && var was, now := if group in before.groups then Some(before.groups[group]) else None, after.groups[group];
            && now.interval == interval && now.durationSec == took && now.lastAttempt == done
            && !now.success && now.lastError == (if errMsg == "" then "scrape failed" else errMsg)
            && now.lastSuccess == (if was.Some? then was.value.lastSuccess else 0)
            && now.failures == (if was.Some? then was.value.failures else 0) + 1
  {
  }

  /** A successful one ends the failures. */
  lemma SuccessIsRecorded(s: Cache.State, key: string, group: string, interval: int, run: Client.Run,
                          polled: seq<MetricSpec>, took: real, errMsg: string, done: Time)
    requires run.Result().Ok?
    ensures var s' := AfterScrape(s, key, group, interval, run, polled, took, errMsg, done);
            && group in s'.Entry(key).groups
            && var now := s'.Entry(key).groups[group];
            && now.interval == interval && now.durationSec == took && now.lastAttempt == done
            && now.success && now.lastSuccess == done && now.failures == 0 && now.lastError == ""
  {
  }

  /** Nothing else changes: no other group, no other device, and nothing but metrics and group status of this one. */
  lemma ScrapeTouchesOneGroup(s: Cache.State, key: string, group: string, interval: int, run: Client.Run,
                              polled: seq<MetricSpec>, took: real, errMsg: string, done: Time)
    ensures var s' := AfterScrape(s, key, group, interval, run, polled, took, errMsg, done);
            var after := s'.Entry(key);
            && group in after.groups && after.groups == s.Entry(key).groups[group := after.groups[group]]
            && after.info == s.Entry(key).info && s' == s.(devices := s.devices[key := after])
  {
  }

  /**
   * A scrape: `view` is what it finds when it looks at each metric, `others` what other goroutines did to the cache
   * from the beginning to the update. The duration and the text of a fetch error are the environment's. An incomplete
   * device is handed to the reconciler at the end of a successful scrape.
   */
  method ScrapeOnce(cache: Cache.Cache, client: Client.Client, dev: Cache.Device, metrics: seq<MetricSpec>,
                    group: string, interval: int, view: View, others: seq<Cache.Operation>, took: real, errMsg: string,
                    done: Time)
    returns (reconciles: bool)
    requires client.Valid()
    modifies cache, client`sent
    ensures var key, plan := Cache.KeyOf(dev), PlanOf(metrics, |metrics|, view, Cache.KeyOf(dev), interval);
            var s := Cache.Followed(old(cache.Value()), others);
            if plan.epcs == [] then cache.Value() == s && client.sent == old(client.sent) && !reconciles
            else
              var run := Client.Fetch(client.device, |old(client.sent)|, plan.epcs, 0).run;
              && client.sent == old(client.sent) + run.Asked()
              && reconciles == (run.Result().Ok? && ReconcilerRuns.Incomplete(cache.Value(), key))
              && cache.Value() == AfterScrape(s, key, group, interval, run, Polled(metrics, plan.skipped), took, errMsg,
                  done)
    ensures var key, plan := Cache.KeyOf(dev), PlanOf(metrics, |metrics|, view, Cache.KeyOf(dev), interval);
            var s := Cache.Followed(old(cache.Value()), others);
            var run := Client.Fetch(client.device, |old(client.sent)|, plan.epcs, 0).run;
            plan.epcs != [] ==>
              var before, after := s.Entry(key), cache.Value().Entry(key);
              && group in after.groups && after.groups[group].success == run.Result().Ok?
              && (run.Result().Err? ==> after.metrics == before.metrics)
  {
    reconciles := false;
    var plan := PlanScrape(metrics, Cache.KeyOf(dev), interval, view);
    ghost var key, run := Cache.KeyOf(dev), Client.Fetch(client.device, |client.sent|, plan.epcs, 0).run;
    ghost var s := Cache.Followed(cache.Value(), others);
    if run.Result().Ok? {
      SuccessIsRecorded(s, key, group, interval, run, Polled(metrics, plan.skipped), took, errMsg, done);
    } else {
      FailureIsRecorded(s, key, group, interval, run, Polled(metrics, plan.skipped), took, errMsg, done);
    }
    cache.Others(others);
    if |plan.epcs| == 0 {
      return;
    }
    var polled := PolledMetrics(metrics, plan.skipped);
    var props := client.GetProps(plan.epcs);
    if props.Err? {
      cache.Update(dev, group, interval, false, took, map[], errMsg, done);
      return;
    }
    var out := ParsePropsToMetrics(props.value, polled);
    cache.Update(dev, group, interval, true, took, out, "", done);
    reconciles := ReconcilerRuns.Incomplete(cache.Value(), Cache.KeyOf(dev));
  }

  /**
   * After a successful scrape each name has the value that the polled specs give it in the plain concatenation of
   * everything the device answered, in whatever pieces it answered it; a name to which they give none keeps what it
   * had.
   */
  lemma ScrapeStoresWhatWasHeard(s: Cache.State, dev: Client.Oracle, at: nat, epcs: seq<Byte>,
                                 polled: seq<MetricSpec>, name: string, key: string, group: string, interval: int,
                                 took: real, errMsg: string, done: Time)
    ensures var run := Client.Fetch(dev, at, epcs, 0).run;
            var out := MetricsOf(Client.Heard(dev, at, run.Asked()), polled);
            run.Result().Ok? ==>
              Cache.Stored(s, AfterScrape(s, key, group, interval, run, polled, took, errMsg, done), key, name,
                           if name in out then Some(out[name]) else None)
  {
    AdaptiveFetch.FetchRefinesConcatenation(dev, at, epcs, polled);
  }

  /** So a polled metric has the value its own spec decodes to, unless a later polled spec of its name has one. */
  lemma ScrapeStoresMetric(s: Cache.State, dev: Client.Oracle, at: nat, epcs: seq<Byte>, polled: seq<MetricSpec>,
                           k: nat, key: string, group: string, interval: int, took: real, errMsg: string, done: Time)
    requires Client.Fetch(dev, at, epcs, 0).run.Result().Ok? && k < |polled|
    requires IsLastOfName(Client.Heard(dev, at, Client.Fetch(dev, at, epcs, 0).run.Asked()), polled, k, polled[k].name)
    ensures var run := Client.Fetch(dev, at, epcs, 0).run;
            Cache.Stored(s, AfterScrape(s, key, group, interval, run, polled, took, errMsg, done), key, polled[k].name,
                         MetricOf(Client.Heard(dev, at, run.Asked()), polled[k]))
  {
    var heard := Client.Heard(dev, at, Client.Fetch(dev, at, epcs, 0).run.Asked());
    LastOfNameIsHeld(heard, polled, k, polled[k].name);
    ScrapeStoresWhatWasHeard(s, dev, at, epcs, polled, polled[k].name, key, group, interval, took, errMsg, done);
  }
}
