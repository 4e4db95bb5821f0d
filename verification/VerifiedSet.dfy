/** From a command to the cache: what is stored once the device confirms a write. */
module VerifiedSet {
  import opened Bytes
  import opened Results
  import opened Numeric
  import opened Protocol
  import opened Specs
  import opened Encoder
  import opened Metrics
  import opened Commander

  // ----- From the confirming answer to the metric -----

  lemma {:induction false} ShownIsFound(props: seq<Property>, u: PendingUpdate)
    requires Shows(props, u) && u.edt != []
    ensures Prop(props, u.epc) == Some(u.edt)
  {
    if props[0].epc != u.epc {
      ShownIsFound(props[1..], u);
    }
  }

  /**
   * Among the specs read for these codes, m at index k decides its name: no other one of that name has a value, or,
   * if m has one itself, no later one.
   */
  ghost predicate RulesAt(props: seq<Property>, metrics: seq<MetricSpec>, epcs: seq<Byte>, m: MetricSpec, k: int) {
    && 0 <= k < |metrics| && metrics[k] == m
    && forall j :: 0 <= j < |metrics| && (MetricOf(props, m).Some? ==> j > k) ==>
         metrics[j].name == m.name && metrics[j].epc in epcs ==>
         metrics[j] == m || MetricOf(props, metrics[j]).None?
  }

  ghost predicate Rules(props: seq<Property>, metrics: seq<MetricSpec>, epcs: seq<Byte>, m: MetricSpec) {
    exists k :: RulesAt(props, metrics, epcs, m, k)
  }

  lemma OnlyCodesAppend(metrics: seq<MetricSpec>, m: MetricSpec, epcs: seq<Byte>)
    ensures OnlyCodes(metrics + [m], epcs) == OnlyCodes(metrics, epcs) + if m.epc in epcs then [m] else []
  {
    assert (metrics + [m])[..|metrics|] == metrics;
  }

  /** What one more spec adds to the metrics of the codes asked for. */
  lemma OneMore(props: seq<Property>, metrics: seq<MetricSpec>, last: MetricSpec, epcs: seq<Byte>)
    ensures MetricsOf(props, OnlyCodes(metrics + [last], epcs)) ==
            if last.epc in epcs && MetricOf(props, last).Some?
            then MetricsOf(props, OnlyCodes(metrics, epcs))[last.name := MetricOf(props, last).value]
            else MetricsOf(props, OnlyCodes(metrics, epcs))
  {
    OnlyCodesAppend(metrics, last, epcs);
    if last.epc in epcs {
      MetricsAppend(props, OnlyCodes(metrics, epcs), last);
    } else {
      assert OnlyCodes(metrics, epcs) + [] == OnlyCodes(metrics, epcs);
    }
  }

  lemma {:induction false} RulerIsHeld(props: seq<Property>, metrics: seq<MetricSpec>, epcs: seq<Byte>,
                                      m: MetricSpec, k: int)
    requires RulesAt(props, metrics, epcs, m, k) && m.epc in epcs && MetricOf(props, m).Some?
    ensures m.name in MetricsOf(props, OnlyCodes(metrics, epcs))
    ensures MetricsOf(props, OnlyCodes(metrics, epcs))[m.name] == MetricOf(props, m).value
  {
    var init, last := metrics[..|metrics| - 1], metrics[|metrics| - 1];
    assert metrics == init + [last];
    OneMore(props, init, last, epcs);
    if last != m {
      assert k < |init| && init[k] == m;
      RulerIsHeld(props, init, epcs, m, k);
      assert last.name == m.name && last.epc in epcs ==> MetricOf(props, last).None?;
    }
  }

  lemma {:induction false} NobodyIsHeld(props: seq<Property>, metrics: seq<MetricSpec>, epcs: seq<Byte>, name: string)
    requires forall j :: 0 <= j < |metrics| && metrics[j].name == name && metrics[j].epc in epcs ==>
        MetricOf(props, metrics[j]).None?
    ensures name !in MetricsOf(props, OnlyCodes(metrics, epcs))
  {
    if |metrics| > 0 {
      var init, last := metrics[..|metrics| - 1], metrics[|metrics| - 1];
      assert metrics == init + [last];
      NobodyIsHeld(props, init, epcs, name);
      OneMore(props, init, last, epcs);
      assert last.name == name && last.epc in epcs ==> MetricOf(props, last).None?;
    }
  }

  /** What is merged under the name of a spec that decides it. */
  lemma RulerDecides(props: seq<Property>, metrics: seq<MetricSpec>, epcs: seq<Byte>, m: MetricSpec)
    requires Rules(props, metrics, epcs, m) && m.epc in epcs
    ensures var out := MetricsOf(props, OnlyCodes(metrics, epcs));
            match MetricOf(props, m)
            case Some(v) => m.name in out && out[m.name] == v
            case None => m.name !in out
  {
    var k :| RulesAt(props, metrics, epcs, m, k);
    if MetricOf(props, m).Some? {
      RulerIsHeld(props, metrics, epcs, m, k);
    } else {
      NobodyIsHeld(props, metrics, epcs, m.name);
    }
  }

  lemma MergedMetrics(s: Cache.State, key: string, props: seq<Property>, epcs: seq<Byte>,
                      between: seq<Cache.Operation>)
    requires key in s.specs
    ensures Merged(s, key, props, epcs, between).Entry(key).metrics ==
            Cache.Followed(s, between).Entry(key).metrics + MetricsOf(props, OnlyCodes(s.specs[key], epcs))
  {
    var later, metrics := Cache.Followed(s, between), MetricsOf(props, OnlyCodes(s.specs[key], epcs));
    if metrics == map[] {
      assert later.Entry(key).metrics + metrics == later.Entry(key).metrics;
    }
  }

  lemma MergeStores(s: Cache.State, key: string, props: seq<Property>, epcs: seq<Byte>,
                    between: seq<Cache.Operation>, m: MetricSpec)
    requires key in s.specs && Rules(props, s.specs[key], epcs, m) && m.epc in epcs
    ensures Cache.Stored(Cache.Followed(s, between), Merged(s, key, props, epcs, between), key, m.name,
                         MetricOf(props, m))
  {
    RulerDecides(props, s.specs[key], epcs, m);
    MergedMetrics(s, key, props, epcs, between);
  }

  /** What a metric is worth when its own bytes are read back, with the factor that the unit read back gives. */
  function Confirmed(u: PendingUpdate, m: MetricSpec, factor: real): Option<MetricValue> {
    match ValueOf(u.edt, m)
    case Ok(v) => Some(Labelled(v, factor, m))
    case Err(_) => None
  }

  /** When the device shows the bytes that were written, the metric is merged as those bytes decode. */
  lemma ConfirmedWriteIsStored(s: Cache.State, key: string, m: MetricSpec, updates: seq<PendingUpdate>,
                               props: seq<Property>, between: seq<Cache.Operation>)
    requires key in s.specs && Rules(props, s.specs[key], CodesOf(updates), m)
    requires |updates| > 0 && updates[0].epc == m.epc && updates[0].edt != [] && Matches(props, updates)
    ensures Cache.Stored(Cache.Followed(s, between), Merged(s, key, props, CodesOf(updates), between), key, m.name,
                         Confirmed(updates[0], m, MultiplierOf(props, m)))
  {
    assert CodesOf(updates)[0] == m.epc;
    ShownIsFound(props, updates[0]);
    MergeStores(s, key, props, CodesOf(updates), between, m);
  }

  // ----- Numbers -----

  /**
   * A number commanded, confirmed and merged reads as the nearest value the metric can carry, times the factor of its
   * unit. When that value's raw integer is the invalid sentinel, and only then, the cache keeps what it had.
   */
  lemma NumberEndToEnd(s: Cache.State, key: string, m: MetricSpec, value: real, platform: Int64,
                       updates: seq<PendingUpdate>, props: seq<Property>, between: seq<Cache.Operation>)
    requires key in s.specs && Rules(props, s.specs[key], CodesOf(updates), m) && NumericSpec(m) && m.offset == 0
    requires |updates| > 0 && Written(m, Number(value), platform) == Some(updates[0]) && Matches(props, updates)
    ensures var raw := RawFor(value, m, platform);
            Cache.Stored(Cache.Followed(s, between), Merged(s, key, props, CodesOf(updates), between), key, m.name,
                         if m.invalid == Some(raw) then None
                         else Some(MetricValue(Multiple(raw, m.scale) * MultiplierOf(props, m), m.metricType, "")))
    ensures FitsInt64(NearestRaw(value, m)) ==> Multiple(RawFor(value, m, platform), m.scale) == Quantized(value, m)
  {
    NumberConfirmed(m, value, platform, MultiplierOf(props, m));
    ConfirmedWriteIsStored(s, key, m, updates, props, between);
  }

  /** What the bytes written for a number are worth when they are read back. */
  lemma NumberConfirmed(m: MetricSpec, value: real, platform: Int64, factor: real)
    requires NumericSpec(m) && m.offset == 0
    ensures var raw := RawFor(value, m, platform);
            Confirmed(PendingUpdate(m.epc, EdtFor(value, m, platform)), m, factor) ==
            if m.invalid == Some(raw) then None
            else Some(MetricValue(Multiple(raw, m.scale) * factor, m.metricType, ""))
    ensures FitsInt64(NearestRaw(value, m)) ==> Multiple(RawFor(value, m, platform), m.scale) == Quantized(value, m)
  {
    NumericRoundTrip(value, m, platform);
    Unlabelled(Multiple(RawFor(value, m, platform), m.scale), factor, m);
  }

  lemma Unlabelled(base: real, factor: real, m: MetricSpec)
    requires m.labels == map[]
    ensures Labelled(base, factor, m) == MetricValue(base * factor, m.metricType, "")
  {
  }

  // ----- Labels -----

  /** The spec is one the loader produces from an entry it accepts. */
  ghost predicate Loaded(m: MetricSpec) {
    exists y, interval :: Becomes(y, interval, m) && forall e :: !Faulty(y, e)
  }

  lemma LoadedLabel(m: MetricSpec, name: string)
    requires Loaded(m) && Encodable(m) && name in m.reverseLabels
    ensures var raw := m.reverseLabels[name];
            && raw in m.labels && m.labels[raw] == name && name != "" && m.scale == 1.0
            && Lowest(m.size, m.signed) <= raw <= Highest(m.size, m.signed)
  {
    var y, interval :| Becomes(y, interval, m) && forall e :: !Faulty(y, e);
    var raw := m.reverseLabels[name];
    assert !Faulty(y, EnumNeedsUnitScale);
    assert !Faulty(y, EnumMisfit(raw));
    assert !Faulty(y, EmptyLabel(raw));
  }

  /**
   * For every metric the loader accepts, each label goes to a raw value of that same label, is encoded without
   * clamping and decodes to that label again, also when several raw values share it; only a raw value that is the
   * invalid sentinel does not come back.
   */
  lemma LabelRoundTrip(m: MetricSpec, code: Int64, platform: Int64)
    requires Loaded(m) && Encodable(m) && m.offset == 0 && code in m.labels
    ensures m.labels[code] in m.reverseLabels
    ensures var name, raw := m.labels[code], m.reverseLabels[m.labels[code]];
            && RawFor(raw as real, m, platform) == raw
            && ValueOf(EdtFor(raw as real, m, platform), m) ==
                (if m.invalid == Some(raw) then Err(InvalidSentinel(raw)) else Ok(raw as real))
            && Labelled(raw as real, 1.0, m) == MetricValue(raw as real, m.metricType, name)
  {
    var name, raw := m.labels[code], m.reverseLabels[m.labels[code]];
    LoadedLabel(m, name);
    RoundOfInteger(raw);
    ValueRoundTrip(raw as real, m, platform);
    assert Multiple(raw, 1.0) == raw as real;
    assert Truncate(raw as real) == raw;
  }

  /** A label commanded, confirmed and merged is the label the cache then shows, unless a unit scales its raw value. */
  lemma LabelEndToEnd(s: Cache.State, key: string, m: MetricSpec, name: string, platform: Int64,
                      updates: seq<PendingUpdate>, props: seq<Property>, between: seq<Cache.Operation>)
    requires key in s.specs && Rules(props, s.specs[key], CodesOf(updates), m) && m.offset == 0
    requires Loaded(m) && Encodable(m) && name in m.reverseLabels
    requires |updates| > 0 && Written(m, Select(name), platform) == Some(updates[0]) && Matches(props, updates)
    ensures var raw, factor := m.reverseLabels[name], MultiplierOf(props, m);
            Cache.Stored(Cache.Followed(s, between), Merged(s, key, props, CodesOf(updates), between), key, m.name,
                         if m.invalid == Some(raw) then None else Some(Labelled(raw as real, factor, m))) &&
            (factor == 1.0 ==> Labelled(raw as real, factor, m) == MetricValue(raw as real, m.metricType, name))
  {
    LoadedLabel(m, name);
    LabelRoundTrip(m, m.reverseLabels[name], platform);
    ConfirmedWriteIsStored(s, key, m, updates, props, between);
  }

  /**
   * What can be written at all: switches and numbers always, a select exactly when the option is a label, and nothing
   * for a payload without meaning or a metric whose size is neither one, two nor four bytes.
   */
  lemma WrittenExactlyWhen(m: MetricSpec, cmd: Command, platform: Int64)
    ensures Written(m, cmd, platform).Some? <==>
            m.size in {1, 2, 4} &&
            (cmd.SwitchOn? || cmd.SwitchOff? || cmd.Number? || (cmd.Select? && cmd.option in m.reverseLabels))
    ensures Written(m, cmd, platform).Some? ==>
              Written(m, cmd, platform).value.epc == m.epc && |Written(m, cmd, platform).value.edt| == m.size
  {
  }

  /** A select is written as a raw value of its option, which reads back as the option unless it is the sentinel. */
  lemma SelectRoundTrip(m: MetricSpec, name: string, platform: Int64)
    requires Loaded(m) && Encodable(m) && m.offset == 0 && name in m.reverseLabels
    ensures var written, raw := Written(m, Select(name), platform), m.reverseLabels[name];
            && written.Some? && raw in m.labels && m.labels[raw] == name
            && var read := ValueOf(written.value.edt, m);
            if m.invalid == Some(raw) then read == Err(InvalidSentinel(raw))
            else read.Ok? && Labelled(read.value, 1.0, m).enumLabel == name
  {
    LoadedLabel(m, name);
    LabelRoundTrip(m, m.reverseLabels[name], platform);
  }

  // ----- Switches -----

  /**
   * A switch is written with the raw value of the label "on" or "off", and as the number 1 or 0 if the metric has no
   * such label; what was written reads back as that label or number, unless it is the invalid sentinel.
   */
  lemma SwitchRoundTrip(m: MetricSpec, on: bool, platform: Int64)
    requires Loaded(m) && Encodable(m) && m.offset == 0
    ensures var name, code := if on then "on" else "off", if on then 1 else 0;
            var written := Written(m, if on then SwitchOn else SwitchOff, platform);
            && written.Some? && written.value.epc == m.epc
            && (name !in m.reverseLabels ==> written == Written(m, Number(code as real), platform))
            && var read := ValueOf(written.value.edt, m);
            && (name in m.reverseLabels ==>
                  if m.invalid == Some(m.reverseLabels[name]) then read == Err(InvalidSentinel(m.reverseLabels[name]))
                  else read.Ok? && Labelled(read.value, 1.0, m).enumLabel == name)
            && (name !in m.reverseLabels && m.scale == 1.0 ==>
                  read == if m.invalid == Some(code) then Err(InvalidSentinel(code)) else Ok(code as real))
  {
    var name := if on then "on" else "off";
    if name in m.reverseLabels {
      LoadedLabel(m, name);
      LabelRoundTrip(m, m.reverseLabels[name], platform);
    } else if m.scale == 1.0 {
      BitRoundTrip(m, if on then 1 else 0, platform);
    }
  }

  lemma BitRoundTrip(m: MetricSpec, code: int, platform: Int64)
    requires Encodable(m) && m.offset == 0 && 0 <= code <= 1 && m.scale == 1.0
    ensures ValueOf(EdtFor(code as real, m, platform), m) ==
            if m.invalid == Some(code) then Err(InvalidSentinel(code)) else Ok(code as real)
  {
    ValueRoundTrip(code as real, m, platform);
    RoundOfInteger(code);
    assert Multiple(code, 1.0) == code as real;
  }

  /** A switch commanded, confirmed and merged shows the label commanded, unless a unit scales its raw value. */
  lemma SwitchEndToEnd(s: Cache.State, key: string, m: MetricSpec, on: bool, platform: Int64,
                       updates: seq<PendingUpdate>, props: seq<Property>, between: seq<Cache.Operation>)
    requires key in s.specs && Rules(props, s.specs[key], CodesOf(updates), m) && m.offset == 0
    requires Loaded(m) && Encodable(m) && (if on then "on" else "off") in m.reverseLabels
    requires |updates| > 0 && Written(m, if on then SwitchOn else SwitchOff, platform) == Some(updates[0])
    requires Matches(props, updates) && MultiplierOf(props, m) == 1.0
    ensures var name, after := if on then "on" else "off", Merged(s, key, props, CodesOf(updates), between);
            if m.invalid == Some(m.reverseLabels[name])
            then Cache.Stored(Cache.Followed(s, between), after, key, m.name, None)
            else m.name in after.Entry(key).metrics && after.Entry(key).metrics[m.name].enumLabel == name
  {
    var name := if on then "on" else "off";
    LoadedLabel(m, name);
    LabelRoundTrip(m, m.reverseLabels[name], platform);
    ConfirmedWriteIsStored(s, key, m, updates, props, between);
  }

  /** The operation status of most devices: 0x30 is on, 0x31 is off. */
  lemma OperationStatus(m: MetricSpec, platform: Int64)
    requires m.epc == 0x80 && m.size == 1 && !m.signed && m.scale == 1.0
    requires m.labels == map[0x30 := "on", 0x31 := "off"] && m.reverseLabels == map["on" := 0x30, "off" := 0x31]
    ensures Written(m, SwitchOn, platform) == Some(PendingUpdate(0x80, [0x30]))
    ensures Written(m, SwitchOff, platform) == Some(PendingUpdate(0x80, [0x31]))
  {
    assert EdtFor(0x30 as real, m, platform) == [0x30] && EdtFor(0x31 as real, m, platform) == [0x31];
  }

  // ----- The whole command -----

  /**
   * The metric a command is for: a known one of a known device, writable unless no SETMAP is known, and not left to
   * climate or light commands (whose codes are `elsewhere`) or excluded from writing.
   */
  function Target(s: Cache.State, key: string, name: string, elsewhere: set<Byte>): Option<MetricSpec> {
    match Named(s, key, name)
    case None => None
    case Some(m) =>
      if (key in s.writable && m.epc !in s.writable[key]) || m.epc in elsewhere || m.excludeSet then None else Some(m)
  }

  function Named(s: Cache.State, key: string, name: string): Option<MetricSpec> {
    if key in s.eojs && key in s.specs then FindByName(s.specs[key], name) else None
  }

  /**
   * How a command for this metric can end, for the device seen from request number `at`, in a cache that became s in
   * the meantime.
   */
  ghost predicate Ends(dev: Client.Oracle, at: nat, s: Cache.State, s': Cache.State, key: string, m: MetricSpec,
                       main: Option<PendingUpdate>, cancelled: nat -> bool, next: FollowUp, log: seq<Client.Step>,
                       merge: Option<seq<Property>>, between: seq<Cache.Operation>) {
    match next
    case Nothing => s' == s
    case ReadOnce(epc) =>
      && epc == m.epc
      && var r := Client.Fetch(dev, at, [epc], 0).run.Result();
         s' == if cancelled(0) || r.Err? then s else Merged(s, key, r.value, [epc], between)
    case Verify(updates) =>
      && |updates| > 0 && main == Some(updates[0])
      && IsLog(log, dev, at, CodesOf(updates)) && Decides(log, updates, cancelled, merge)
      && s' == if merge.None? then s else Merged(s, key, merge.value, CodesOf(updates), between)
  }

  /** A metric whose write was read back byte for byte before the merge is stored as the written bytes decode. */
  ghost predicate StoredIfConfirmed(s: Cache.State, s': Cache.State, key: string, m: MetricSpec, next: FollowUp,
                                    merge: Option<seq<Property>>, between: seq<Cache.Operation>) {
    next.Verify? && |next.updates| > 0 && merge.Some? && Matches(merge.value, next.updates) && key in s.specs &&
    Rules(merge.value, s.specs[key], CodesOf(next.updates), m) ==>
      Cache.Stored(Cache.Followed(s, between), s', key, m.name,
                   Confirmed(next.updates[0], m, MultiplierOf(merge.value, m)))
  }

  /**
   * A command for a metric already found; `others` is what other goroutines do to the cache up to the merge's look at
   * the specs, `between` what they do from there to the merge.
   */
  method RunCommand(cache: Cache.Cache, client: Client.Client, dev: Cache.Device, ms: MetricSpec, cmd: Command,
                    answers: nat -> Option<seq<Byte>>, cancelled: nat -> bool, others: seq<Cache.Operation>,
                    between: seq<Cache.Operation>, platform: Int64)
    returns (sent: seq<Write>, next: FollowUp, ghost log: seq<Client.Step>, ghost merge: Option<seq<Property>>)
    requires client.Valid() && Cache.KeyOf(dev) in cache.specs
    modifies cache, client`sent
    ensures Executes(ms, old(cache.specs[Cache.KeyOf(dev)]), cmd, answers, platform, sent, next)
    ensures Ends(client.device, |old(client.sent)|, Cache.Followed(old(cache.Value()), others), cache.Value(),
                 Cache.KeyOf(dev), ms, Written(ms, cmd, platform), cancelled, next, log, merge, between)
    ensures StoredIfConfirmed(Cache.Followed(old(cache.Value()), others), cache.Value(), Cache.KeyOf(dev), ms, next,
                              merge, between)
    ensures var s := Cache.Followed(old(cache.Value()), others);
            var read := Client.Fetch(client.device, |old(client.sent)|, [ms.epc], 0).run.Result();
            && (next.Nothing? || (next.ReadOnce? && (cancelled(0) || read.Err?)) || (next.Verify? && merge.None?) ==>
                  cache.Value() == s)
            && (next.Verify? ==>
                  IsLog(log, client.device, |old(client.sent)|, CodesOf(next.updates)) &&
                  Decides(log, next.updates, cancelled, merge))
            && (next.ReadOnce? && !cancelled(0) && read.Ok? && Cache.KeyOf(dev) in s.specs &&
                Rules(read.value, s.specs[Cache.KeyOf(dev)], [ms.epc], ms) ==>
                  Cache.Stored(Cache.Followed(s, between), cache.Value(), Cache.KeyOf(dev), ms.name,
                               MetricOf(read.value, ms)))
            && (next.Verify? && merge.Some? && Cache.KeyOf(dev) in s.specs && ms.epc in CodesOf(next.updates) &&
                Rules(merge.value, s.specs[Cache.KeyOf(dev)], CodesOf(next.updates), ms) ==>
                  Cache.Stored(Cache.Followed(s, between), cache.Value(), Cache.KeyOf(dev), ms.name,
                               MetricOf(merge.value, ms)))
  {
    ghost var s, key := Cache.Followed(cache.Value(), others), Cache.KeyOf(dev);
    log, merge := [], None;
    sent, next := ExecuteWritableSet(ms, cache.specs[Cache.KeyOf(dev)], cmd, answers, platform);
    match next {
      case Nothing =>
        cache.Others(others);
      case ReadOnce(epc) =>
        if cancelled(0) {
          cache.Others(others);
        } else {
          ghost var read := Client.Fetch(client.device, |client.sent|, [epc], 0).run.Result();
          ReadAndMergeProps(cache, client, dev, [epc], others, between);
          if read.Ok? && key in s.specs && Rules(read.value, s.specs[key], [epc], ms) {
            MergeStores(s, key, read.value, [epc], between, ms);
          }
        }
      case Verify(updates) =>
        log, merge := VerifyStateUpdate(cache, client, dev, updates, cancelled, others, between);
        if key in s.specs && merge.Some? && Matches(merge.value, updates) &&
          Rules(merge.value, s.specs[key], CodesOf(updates), ms) {
          ConfirmedWriteIsStored(s, key, ms, updates, merge.value, between);
        }
        if key in s.specs && merge.Some? && ms.epc in CodesOf(updates) &&
          Rules(merge.value, s.specs[key], CodesOf(updates), ms) {
          MergeStores(s, key, merge.value, CodesOf(updates), between, ms);
        }
    }
  }

  /**
   * A command from its topic to the cache, for any device. A device without a recorded SETMAP is also handed to the
   * reconciler, whose body runs in a goroutine of its own.
   */
  method HandleWritable(cache: Cache.Cache, client: Client.Client, dev: Cache.Device, name: string, cmd: Command,
                        elsewhere: set<Byte>, answers: nat -> Option<seq<Byte>>, cancelled: nat -> bool,
                        others: seq<Cache.Operation>, between: seq<Cache.Operation>, platform: Int64)
    returns (sent: seq<Write>, next: FollowUp, reconciles: bool, ghost log: seq<Client.Step>,
             ghost merge: Option<seq<Property>>)
    requires client.Valid()
    modifies cache, client`sent
    ensures var s, key := old(cache.Value()), Cache.KeyOf(dev);
            reconciles == (Named(s, key, name).Some? && key !in s.writable)
    ensures var s, key := old(cache.Value()), Cache.KeyOf(dev);
            match Target(s, key, name, elsewhere)
            case None => sent == [] && next == Nothing && cache.Value() == s
            case Some(ms) =>
              && Executes(ms, s.specs[key], cmd, answers, platform, sent, next)
              && Ends(client.device, |old(client.sent)|, Cache.Followed(s, others), cache.Value(), key, ms,
                      Written(ms, cmd, platform), cancelled, next, log, merge, between)
              && StoredIfConfirmed(Cache.Followed(s, others), cache.Value(), key, ms, next, merge, between)
    ensures var s, key := old(cache.Value()), Cache.KeyOf(dev);
            key !in s.eojs || key !in s.specs || FindByName(s.specs[key], name).None? ==>
              sent == [] && cache.Value() == s && !reconciles
    ensures var s, key := old(cache.Value()), Cache.KeyOf(dev);
            key in s.eojs && key in s.specs && FindByName(s.specs[key], name).Some? ==>
              var ms := FindByName(s.specs[key], name).value;
              && reconciles == (key !in s.writable)
              && if ms.excludeSet || ms.epc in elsewhere || (key in s.writable && ms.epc !in s.writable[key])
                 then sent == [] && cache.Value() == s
                 else Executes(ms, s.specs[key], cmd, answers, platform, sent, next)
  {
    sent, next, reconciles, log, merge := [], Nothing, false, [], None;
    var key := Cache.KeyOf(dev);
    if key !in cache.eojs || key !in cache.specs {
      return;
    }
    var ms := FindMetricSpecByName(cache.specs[key], name);
    if ms.None? {
      return;
    }
    if key in cache.writable {
      if ms.value.epc !in cache.writable[key] {
        return;
      }
    } else {
      reconciles := true;
    }
    if ms.value.epc in elsewhere || ms.value.excludeSet {
      return;
    }
    sent, next, log, merge := RunCommand(cache, client, dev, ms.value, cmd, answers, cancelled, others,
                                         between, platform);
  }
}
