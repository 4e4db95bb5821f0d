/**
 * The metrics cache. The class holds the maps the source guards with its mutex, and each method is one critical
 * section; State is the value the fields stand for, and the functions on it say what each operation does.
 */
module Cache {
  import opened Bytes
  import opened Results
  import opened Sets
  import opened Protocol
  import opened Specs
  import opened Metrics

  /** Nanoseconds; 0 is the zero time, before every clock reading. */
  type Time = nat

  const SECOND: int := 1_000_000_000

  /** A configured device; manufacturer and model are optional and stand in for what the device does not report. */
  datatype Device = Device(name: string, ip: string, class_: string, manufacturer: string, model: string)

  function KeyOf(dev: Device): string {
    dev.name + "|" + dev.ip + "|" + dev.class_
  }

  datatype DeviceInfo = DeviceInfo(uid: string, manufacturer: string, productCode: string)

  const NO_INFO := DeviceInfo("", "", "")

  datatype GroupStatus = GroupStatus(
    interval: int, success: bool, durationSec: real, lastAttempt: Time, lastSuccess: Time, lastError: string,
        failures: nat)

  const NO_STATUS := GroupStatus(0, false, 0.0, 0, 0, "", 0)

  type MetricMap = map<string, MetricValue>

  datatype DeviceCache = DeviceCache(groups: map<string, GroupStatus>, metrics: MetricMap, info: DeviceInfo)

  const NO_CACHE := DeviceCache(map[], map[], NO_INFO)

  function Completed(dev: Device, info: DeviceInfo): DeviceInfo {
    info.(manufacturer := if info.manufacturer == "" then dev.manufacturer else info.manufacturer,
          productCode := if info.productCode == "" then dev.model else info.productCode)
  }

  /** What a subscriber is told about a device. */
  datatype DeviceState = DeviceState(
    device: Device, info: DeviceInfo, metrics: MetricMap, specs: seq<MetricSpec>, writable: Option<set<Byte>>,
        success: bool)

  datatype State = State(
    devices: map<string, DeviceCache>,
    specs: map<string, seq<MetricSpec>>,
    eojs: map<string, Eoj>,
    writable: map<string, set<Byte>>,
    notify: map<string, set<Byte>>,
    lastPush: map<string, map<Byte, Time>>,
    forcePolling: bool
  ) {
    function Entry(key: string): DeviceCache {
      if key in devices then devices[key] else NO_CACHE
    }

    predicate HasInfo(key: string) {
      Entry(key).info.manufacturer != "" || Entry(key).info.uid != ""
    }

    function Snapshot(dev: Device, success: bool): DeviceState {
      var key, dc := KeyOf(dev), Entry(KeyOf(dev));
      DeviceState(dev, dc.info, dc.metrics, if key in specs then specs[key] else [],
                  if key in writable then Some(writable[key]) else None, success)
    }
  }

  /** A metric after an operation: this value, or what it was before. */
  ghost predicate Stored(before: State, after: State, key: string, name: string, v: Option<MetricValue>) {
    var old', new' := before.Entry(key).metrics, after.Entry(key).metrics;
    match v
    case Some(mv) => name in new' && new'[name] == mv
    case None => (name in new' <==> name in old') && (name in old' ==> new'[name] == old'[name])
  }

  const EMPTY := State(map[], map[], map[], map[], map[], map[], false)

  // ----- The operations -----

  function NextStatus(gs: GroupStatus, interval: int, success: bool, durationSec: real, errMsg: string,
      now: Time): GroupStatus {
    if success then GroupStatus(interval, true, durationSec, now, now, "", 0)
    else GroupStatus(interval, false, durationSec, now, gs.lastSuccess,
                     if errMsg == "" then "scrape failed" else errMsg, gs.failures + 1)
  }

  datatype Operation =
    | Update(key: string, group: string, interval: int, success: bool, durationSec: real, metrics: MetricMap,
        errMsg: string, now: Time)
    | MergeMetrics(key: string, metrics: MetricMap)
    | RecordPush(key: string, epcs: seq<Byte>, now: Time)
    | UpdateInfo(key: string, info: DeviceInfo)
    | SetSpecs(key: string, metricSpecs: seq<MetricSpec>)
    | SetEoj(key: string, eoj: Eoj)
    | SetWritable(key: string, codes: set<Byte>)
    | SetNotify(key: string, codes: set<Byte>)
    | SetForcePolling(force: bool)

  function Pushed(times: map<Byte, Time>, epcs: seq<Byte>, now: Time): map<Byte, Time> {
    map e | e in times.Keys + (set i | 0 <= i < |epcs| :: epcs[i]) :: if e in epcs then now else times[e]
  }

  function Apply(s: State, op: Operation): State {
    match op
    case Update(key, group, interval, success, durationSec, metrics, errMsg, now) =>
      var dc := s.Entry(key);
      var gs := if group in dc.groups then dc.groups[group] else NO_STATUS;
      s.(devices := s.devices[key := dc.(
           groups := dc.groups[group := NextStatus(gs, interval, success, durationSec, errMsg, now)],
           metrics := if success then dc.metrics + metrics else dc.metrics)])
    case MergeMetrics(key, metrics) =>
      s.(devices := s.devices[key := s.Entry(key).(metrics := s.Entry(key).metrics + metrics)])
    case RecordPush(key, epcs, now) =>
      var times := if key in s.lastPush then s.lastPush[key] else map[];
      s.(lastPush := s.lastPush[key := Pushed(times, epcs, now)])
    case UpdateInfo(key, info) => s.(devices := s.devices[key := s.Entry(key).(info := info)])
    case SetSpecs(key, metricSpecs) => s.(specs := s.specs[key := metricSpecs])
    case SetEoj(key, eoj) => s.(eojs := s.eojs[key := eoj])
    case SetWritable(key, codes) => s.(writable := s.writable[key := codes])
    case SetNotify(key, codes) => s.(notify := s.notify[key := codes])
    case SetForcePolling(force) => s.(forcePolling := force)
  }

  function Followed(s: State, ops: seq<Operation>): State {
    if |ops| == 0 then s else Apply(Followed(s, ops[..|ops| - 1]), ops[|ops| - 1])
  }

  /** A code is left out of a poll when the device announces it and pushed it less than `freshness` ago. */
  predicate SkipsPoll(s: State, key: string, epc: Byte, freshness: int, now: Time) {
    && !s.forcePolling
    && key in s.notify && epc in s.notify[key]
    && key in s.lastPush && epc in s.lastPush[key]
    && now - s.lastPush[key][epc] < freshness
  }

  /** How long a successful scrape vouches for its device. */
  function Ttl(gs: GroupStatus): int {
    if gs.interval * 2 < 5 * SECOND then 5 * SECOND else gs.interval * 2
  }

  /** A success counts for twice the group's interval, and for at least five seconds. */
  lemma VouchesFor(gs: GroupStatus, now: Time)
    ensures Vouches(gs, now) <==>
            gs.success && (now <= gs.lastAttempt + 2 * gs.interval || now <= gs.lastAttempt + 5_000_000_000)
  {
  }

  ghost predicate Vouches(gs: GroupStatus, now: Time) {
    gs.success && now - gs.lastAttempt <= Ttl(gs)
  }

  /** The aggregate that Get reports for a device; among groups attempted at the same time any one may be named. */
  ghost predicate Aggregates(groups: map<string, GroupStatus>, now: Time, success: bool, durationSec: real,
      lastScrape: Time) {
    && (success <==> exists g :: g in groups && Vouches(groups[g], now))
    && (forall g :: g in groups ==> groups[g].lastSuccess <= lastScrape)
    && (lastScrape == 0 || exists g :: g in groups && groups[g].lastSuccess == lastScrape)
    && (if forall g :: g in groups ==> groups[g].lastAttempt == 0 then durationSec == 0.0
        else exists g :: g in groups && groups[g].durationSec == durationSec &&
                         forall g' :: g' in groups ==> groups[g'].lastAttempt <= groups[g].lastAttempt)
  }

  class Cache {
    var devices: map<string, DeviceCache>
    var specs: map<string, seq<MetricSpec>>
    var eojs: map<string, Eoj>
    var writable: map<string, set<Byte>>
    var notify: map<string, set<Byte>>
    var lastPush: map<string, map<Byte, Time>>
    var forcePolling: bool
    var subscribed: bool
    /** The states handed to the subscriber, oldest first. */
    var delivered: seq<DeviceState>

    function Value(): State
      reads this
    {
      State(devices, specs, eojs, writable, notify, lastPush, forcePolling)
    }

    /** The program registers its subscriber, if it has one, before anything else uses the cache. */
    constructor (subscribed: bool)
      ensures Value() == EMPTY && this.subscribed == subscribed && delivered == []
    {
      devices, specs, eojs, writable, notify, lastPush := map[], map[], map[], map[], map[], map[];
      forcePolling, this.subscribed, delivered := false, subscribed, [];
    }

    /** What other goroutines do to the cache between two steps of one; what they tell the subscriber is theirs. */
    method Others(ops: seq<Operation>)
      modifies this
      ensures Value() == Followed(old(Value()), ops)
      ensures subscribed == old(subscribed) && delivered == old(delivered)
    {
      var s := Followed(Value(), ops);
      devices, specs, eojs, writable, notify := s.devices, s.specs, s.eojs, s.writable, s.notify;
      lastPush, forcePolling := s.lastPush, s.forcePolling;
    }

    /** Tells the subscriber, if there is one, the state of the device after the operation. */
    method Deliver(dev: Device, success: bool)
      modifies this`delivered
      ensures delivered == old(delivered) + if subscribed then [Value().Snapshot(dev, success)] else []
    {
      if subscribed {
        var key := KeyOf(dev);
        var dc := if key in devices then devices[key] else NO_CACHE;
        var state := DeviceState(dev, dc.info, dc.metrics, if key in specs then specs[key] else [],
                                 if key in writable then Some(writable[key]) else None, success);
        delivered := delivered + [state];
      }
    }

    method Update(dev: Device, group: string, interval: int, success: bool, durationSec: real, metrics: MetricMap,
                  errMsg: string, now: Time)
      modifies this
      ensures Value() == Apply(old(Value()),
          Operation.Update(KeyOf(dev), group, interval, success, durationSec, metrics, errMsg, now))
      ensures delivered == old(delivered) + if subscribed then [Value().Snapshot(dev, success)] else []
      ensures subscribed == old(subscribed)
    {
      var key := KeyOf(dev);
      var dc := if key in devices then devices[key] else NO_CACHE;
      var gs := if group in dc.groups then dc.groups[group] else NO_STATUS;
      gs := gs.(interval := interval, success := success, durationSec := durationSec, lastAttempt := now);
      if success {
        gs := gs.(lastSuccess := now, lastError := "", failures := 0);
        var merged := CopyInto(dc.metrics, metrics);
        dc := dc.(metrics := merged);
      } else {
        gs := gs.(failures := gs.failures + 1, lastError := if errMsg == "" then "scrape failed" else errMsg);
      }
      dc := dc.(groups := dc.groups[group := gs]);
      devices := devices[key := dc];
      Deliver(dev, success);
    }

    method MergeMetrics(dev: Device, metrics: MetricMap)
      modifies this
      ensures Value() == Apply(old(Value()), Operation.MergeMetrics(KeyOf(dev), metrics))
      ensures delivered == old(delivered) + if subscribed then [Value().Snapshot(dev, true)] else []
      ensures subscribed == old(subscribed)
    {
      var key := KeyOf(dev);
      var dc := if key in devices then devices[key] else NO_CACHE;
      var merged := CopyInto(dc.metrics, metrics);
      devices := devices[key := dc.(metrics := merged)];
      Deliver(dev, true);
    }

    method RecordPush(dev: Device, epcs: seq<Byte>, now: Time)
      modifies this`lastPush
      ensures Value() == Apply(old(Value()), Operation.RecordPush(KeyOf(dev), epcs, now))
    {
      var key := KeyOf(dev);
      if key !in lastPush {
        lastPush := lastPush[key := map[]];
      }
      var times := Stamp(lastPush[key], epcs, now);
      lastPush := lastPush[key := times];
    }

    method UpdateInfo(dev: Device, info: DeviceInfo)
      modifies this`devices
      ensures Value() == Apply(old(Value()), Operation.UpdateInfo(KeyOf(dev), Completed(dev, info)))
      ensures var stored := Value().Entry(KeyOf(dev)).info;
              && stored.uid == info.uid
              && stored.manufacturer == (if info.manufacturer == "" then dev.manufacturer else info.manufacturer)
              && stored.productCode == (if info.productCode == "" then dev.model else info.productCode)
    {
      var full := info;
      if full.manufacturer == "" && dev.manufacturer != "" {
        full := full.(manufacturer := dev.manufacturer);
      }
      if full.productCode == "" && dev.model != "" {
        full := full.(productCode := dev.model);
      }
      var key := KeyOf(dev);
      var dc := if key in devices then devices[key] else NO_CACHE;
      devices := devices[key := dc.(info := full)];
    }

    method SetWritableEpcs(dev: Device, codes: set<Byte>)
      modifies this`writable
      ensures Value() == Apply(old(Value()), SetWritable(KeyOf(dev), codes))
    {
      writable := writable[KeyOf(dev) := codes];
    }

    method SetNotificationEpcs(dev: Device, codes: set<Byte>)
      modifies this`notify
      ensures Value() == Apply(old(Value()), SetNotify(KeyOf(dev), codes))
    {
      notify := notify[KeyOf(dev) := codes];
    }

    method TriggerUpdate(dev: Device)
      modifies this`delivered
      ensures delivered == old(delivered) + if subscribed then [Value().Snapshot(dev, true)] else []
    {
      Deliver(dev, true);
    }

    method ShouldSkipPoll(dev: Device, epc: Byte, freshness: int, now: Time) returns (skip: bool)
      ensures skip <==> SkipsPoll(Value(), KeyOf(dev), epc, freshness, now)
    {
      if forcePolling {
        return false;
      }
      var key := KeyOf(dev);
      if key !in notify || epc !in notify[key] || key !in lastPush || epc !in lastPush[key] {
        return false;
      }
      return now - lastPush[key][epc] < freshness;
    }

    /** Reads without changing anything; the groups are visited in an arbitrary order. */
    method Get(dev: Device, now: Time)
        returns (success: bool, durationSec: real, lastScrape: Time, metrics: Option<MetricMap>)
      ensures Aggregates(Value().Entry(KeyOf(dev)).groups, now, success, durationSec, lastScrape)
      ensures metrics == if KeyOf(dev) in devices then Some(devices[KeyOf(dev)].metrics) else None
    {
      var key := KeyOf(dev);
      success, durationSec, lastScrape, metrics := false, 0.0, 0, None;
      if key !in devices {
        return;
      }
      var dc := devices[key];
      var latestAttempt: Time := 0;
      var todo := dc.groups.Keys;
      while todo != {}
        invariant todo <= dc.groups.Keys
        invariant success <==> exists g :: g in dc.groups && g !in todo && Vouches(dc.groups[g], now)
        invariant forall g :: g in dc.groups && g !in todo ==> dc.groups[g].lastSuccess <= lastScrape
        invariant lastScrape == 0 || exists g :: g in dc.groups && dc.groups[g].lastSuccess == lastScrape
        invariant forall g :: g in dc.groups && g !in todo ==> dc.groups[g].lastAttempt <= latestAttempt
        invariant latestAttempt == 0 ==> durationSec == 0.0
        invariant latestAttempt > 0 ==>
                    exists g :: g in dc.groups && dc.groups[g].lastAttempt == latestAttempt &&
                        dc.groups[g].durationSec == durationSec
      {
        EmptyOrString(todo);
        var g :| g in todo;
        var gs := dc.groups[g];
        todo := todo - {g};
        if gs.lastAttempt > latestAttempt {
          latestAttempt := gs.lastAttempt;
          durationSec := gs.durationSec;
        }
        if gs.lastSuccess > lastScrape {
          lastScrape := gs.lastSuccess;
        }
        if gs.success {
          var ttl := gs.interval * 2;
          if ttl < 5 * SECOND {
            ttl := 5 * SECOND;
          }
          if now - gs.lastAttempt <= ttl {
            assert Vouches(dc.groups[g], now);
            success := true;
          }
        }
      }
      metrics := Some(dc.metrics);
    }

    /** The first configured device with this address and object, if its object is known. */
    method FindDevice(ip: string, seoj: Eoj, known: seq<Device>) returns (r: Option<Device>, ghost at: nat)
      ensures r.Some? ==>
                && at < |known| && r.value == known[at]
                && r.value.ip == ip && KeyOf(r.value) in eojs && eojs[KeyOf(r.value)] == seoj
                && forall j :: 0 <= j < at && known[j].ip == ip && KeyOf(known[j]) in eojs ==>
                     eojs[KeyOf(known[j])] != seoj
      ensures r.None? ==> forall d :: d in known && d.ip == ip && KeyOf(d) in eojs ==> eojs[KeyOf(d)] != seoj
    {
      at := 0;
      for i := 0 to |known|
        invariant forall j :: 0 <= j < i && known[j].ip == ip && KeyOf(known[j]) in eojs ==>
                    eojs[KeyOf(known[j])] != seoj
      {
        var d := known[i];
        if d.ip == ip && KeyOf(d) in eojs && eojs[KeyOf(d)] == seoj {
          return Some(d), i;
        }
      }
      return None, 0;
    }

    /**
     * A notification: the push times of all its codes are recorded, then its metrics are merged, whatever others do in
     * between.
     */
    method IngestNotification(ip: string, seoj: Eoj, props: seq<Property>, known: seq<Device>, now: Time,
                              between: seq<Operation>)
        returns (dev: Option<Device>, ghost at: nat)
      modifies this
      ensures dev.Some? ==>
                && at < |known| && dev.value == known[at]
                && dev.value.ip == ip && KeyOf(dev.value) in old(eojs) && old(eojs)[KeyOf(dev.value)] == seoj
                && forall j :: 0 <= j < at && known[j].ip == ip && KeyOf(known[j]) in old(eojs) ==>
                     old(eojs)[KeyOf(known[j])] != seoj
      ensures dev.None? ==>
                forall d :: d in known && d.ip == ip && KeyOf(d) in old(eojs) ==> old(eojs)[KeyOf(d)] != seoj
      ensures dev.None? || KeyOf(dev.value) !in old(specs) ==> Value() == old(Value()) && delivered == old(delivered)
      ensures dev.Some? && KeyOf(dev.value) in old(specs) ==>
                var key, metrics := KeyOf(dev.value), MetricsOf(props, old(specs)[KeyOf(dev.value)]);
                var pushed := Apply(old(Value()), Operation.RecordPush(key, Codes(props), now));
                var later := Followed(pushed, between);
                if metrics == map[] then Value() == later && delivered == old(delivered)
                else
                  && Value() == Apply(later, Operation.MergeMetrics(key, metrics))
                  && delivered == old(delivered) + if subscribed then [Value().Snapshot(dev.value, true)] else []
    {
      dev, at := FindDevice(ip, seoj, known);
      if dev.None? || KeyOf(dev.value) !in specs {
        return;
      }
      var devSpecs := specs[KeyOf(dev.value)];
      var epcs := CodesListed(props);
      RecordPush(dev.value, epcs, now);
      Others(between);
      var metrics := PushedMetrics(props, epcs, devSpecs);
      if metrics != map[] {
        MergeMetrics(dev.value, metrics);
      }
    }
  }

  function Codes(props: seq<Property>): seq<Byte> {
    CodesBy(props, (p: Property) => p.epc)
  }

  lemma PushedAppend(times: map<Byte, Time>, epcs: seq<Byte>, e: Byte, now: Time)
    ensures Pushed(times, epcs + [e], now) == Pushed(times, epcs, now)[e := now]
  {
    var a, b := Pushed(times, epcs + [e], now), Pushed(times, epcs, now)[e := now];
    forall x ensures x in a <==> x in b {
      assert x in epcs + [e] <==> x in epcs || x == e;
    }
    assert a.Keys == b.Keys;
  }

  method Stamp(before: map<Byte, Time>, epcs: seq<Byte>, now: Time) returns (times: map<Byte, Time>)
    ensures times == Pushed(before, epcs, now)
  {
    times := before;
    assert times == Pushed(before, epcs[..0], now);
    for i := 0 to |epcs|
      invariant times == Pushed(before, epcs[..i], now)
    {
      assert epcs[..i + 1] == epcs[..i] + [epcs[i]];
      PushedAppend(before, epcs[..i], epcs[i], now);
      times := times[epcs[i] := now];
    }
    assert epcs[..|epcs|] == epcs;
  }

  method CodesListed(props: seq<Property>) returns (epcs: seq<Byte>)
    ensures epcs == Codes(props)
  {
    epcs := [];
    for i := 0 to |props|
      invariant epcs == Codes(props[..i])
    {
      epcs := epcs + [props[i].epc];
    }
    assert props[..|props|] == props;
  }

  /** A property list has no value for a metric whose code it does not name. */
  lemma ValueNeedsCode(props: seq<Property>, m: MetricSpec)
    ensures MetricOf(props, m).Some? ==> m.epc in Codes(props)
  {
  }

  /** Only the specs of the announced codes are parsed, which gives the metrics that all specs give. */
  method PushedMetrics(props: seq<Property>, epcs: seq<Byte>, devSpecs: seq<MetricSpec>) returns (metrics: MetricMap)
    requires epcs == Codes(props)
    ensures metrics == MetricsOf(props, devSpecs)
  {
    var relevant: seq<MetricSpec> := [];
    for i := 0 to |devSpecs|
      invariant MetricsOf(props, relevant) == MetricsOf(props, devSpecs[..i])
    {
      var m := devSpecs[i];
      assert devSpecs[..i + 1] == devSpecs[..i] + [m];
      MetricsAppend(props, relevant, m);
      MetricsAppend(props, devSpecs[..i], m);
      ValueNeedsCode(props, m);
      if m.epc in epcs {
        relevant := relevant + [m];
      }
    }
    assert devSpecs[..|devSpecs|] == devSpecs;
    metrics := ParsePropsToMetrics(props, relevant);
  }

  method CopyInto(dst: MetricMap, src: MetricMap) returns (merged: MetricMap)
    ensures merged == dst + src
  {
    merged := dst;
    var todo := src.Keys;
    while todo != {}
      invariant todo <= src.Keys
      invariant merged == dst + (map k | k in src.Keys - todo :: src[k])
    {
      EmptyOrString(todo);
      var k :| k in todo;
      merged := merged[k := src[k]];
      todo := todo - {k};
    }
    assert (map k | k in src.Keys - todo :: src[k]) == src;
  }
}
