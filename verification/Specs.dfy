/** Metric specifications and the loader's validation of one YAML metric entry. */
module Specs {
  import opened Bytes
  import opened Results
  import opened Numeric
  import opened Sets

  datatype MetricType = Gauge | Counter

  datatype MetricSpec = MetricSpec(
    epc: Byte,
    name: string,
    size: nat,
    offset: nat,
    scale: real,
    signed: bool,
    invalid: Option<Int64>,
    metricType: MetricType,
    labels: map<Int64, string>,
    reverseLabels: map<string, Int64>,
    scrapeInterval: int,
    multiplierEpc: Byte,
    multipliers: map<Int64, real>,
    preSetEpc: Byte,
    preSetValue: Int64,
    numberMin: Option<real>,
    numberMax: Option<real>,
    excludeSet: bool,
    fireAndForget: bool
  )

  /** The outcome of parsing an optional duration: time.ParseDuration itself is outside the model. */
  datatype DurationField = Absent | Unreadable | Nanoseconds(value: int)

  datatype MetricYaml = MetricYaml(
    epc: int,
    name: string,
    size: int,
    offset: int,
    scale: real,
    signed: bool,
    invalid: Option<Int64>,
    metricType: string,
    labels: map<Int64, string>,
    scrapeInterval: DurationField,
    numberMin: Option<real>,
    numberMax: Option<real>,
    preSetEpc: Option<int>,
    preSetValue: Int64,
    multiplierEpc: int,
    multipliers: map<Int64, real>,
    excludeSet: bool,
    setMode: string
  )

  datatype SpecError =
    | BadSize | BadType | BadEpc | BadOffset | BadMultiplierEpc | NoMultiplierMap | BadNumberRange | BadSetMode
    | BadPreSetEpc | EnumNeedsUnitScale | EmptyLabel(raw: Int64) | EnumMisfit(raw: Int64) | ScaleNotPowerOfTen
    | BadInterval

  predicate InByte(n: int) {
    0 <= n < 256
  }

  /** Least and greatest value an integer of this many bytes can hold. */
  function Lowest(size: nat, signed: bool): int {
    if signed then -(Pow256(size) / 2) else 0
  }

  function Highest(size: nat, signed: bool): int {
    if signed then Pow256(size) / 2 - 1 else Pow256(size) - 1
  }

  predicate EnumValueFits(v: int, size: nat, signed: bool) {
    Lowest(size, signed) <= v <= Highest(size, signed)
  }

  /** Scales below one must be a negative power of ten, up to an absolute tolerance of 1e-12. */
  predicate AcceptedScale(scale: real) {
    0.0 < scale < 1.0 ==> Abs(1.0 / Pow10(Digits(scale)) - scale) <= 0.000000000001
  }

  function ScaleOf(m: MetricYaml): real {
    if m.scale == 0.0 then 1.0 else m.scale
  }

  /** rev sends every label to one of its raw values. */
  predicate IsReverse(labels: map<Int64, string>, rev: map<string, Int64>) {
    && (forall raw :: raw in labels ==> labels[raw] in rev)
    && (forall name :: name in rev ==> rev[name] in labels && labels[rev[name]] == name)
  }

  /** The condition each rejection reports. */
  predicate Faulty(m: MetricYaml, e: SpecError) {
    match e
    case BadSize => m.size !in {0, 1, 2, 4}
    case BadType => m.metricType !in {"gauge", "counter"}
    case BadEpc => !InByte(m.epc)
    case BadOffset => m.offset < 0
    case BadMultiplierEpc => !InByte(m.multiplierEpc)
    case NoMultiplierMap => m.multiplierEpc != 0 && m.multipliers == map[]
    case BadNumberRange => m.numberMin.Some? && m.numberMax.Some? && m.numberMin.value >= m.numberMax.value
    case BadSetMode => m.setMode !in {"", "setc", "seti"}
    case BadPreSetEpc => m.preSetEpc.Some? && !InByte(m.preSetEpc.value)
    case EnumNeedsUnitScale => m.labels != map[] && ScaleOf(m) != 1.0
    case EmptyLabel(raw) => raw in m.labels && m.labels[raw] == ""
    case EnumMisfit(raw) => raw in m.labels && m.size > 0 && !EnumValueFits(raw, m.size, m.signed)
    case ScaleNotPowerOfTen => !AcceptedScale(ScaleOf(m))
    case BadInterval => m.scrapeInterval.Unreadable? || (m.scrapeInterval.Nanoseconds? && m.scrapeInterval.value <= 0)
  }

  /** An accepted entry becomes this spec; only the choice among raw values of a repeated label is open. */
  predicate Becomes(m: MetricYaml, devInterval: int, s: MetricSpec) {
    && s.epc as int == m.epc && s.name == m.name && s.size == m.size && s.offset == m.offset
    && s.scale == ScaleOf(m) && s.signed == m.signed && s.invalid == m.invalid
    && s.metricType == (if m.metricType == "gauge" then Gauge else Counter)
    && s.labels == m.labels && IsReverse(s.labels, s.reverseLabels)
    && s.scrapeInterval == (if m.scrapeInterval.Nanoseconds? then m.scrapeInterval.value else devInterval)
    && s.multiplierEpc as int == m.multiplierEpc && s.multipliers == m.multipliers
    && s.preSetEpc as int == (if m.preSetEpc.Some? then m.preSetEpc.value else 0)
    && s.preSetValue == (if m.preSetEpc.Some? then m.preSetValue else 0)
    && s.numberMin == m.numberMin && s.numberMax == m.numberMax && s.excludeSet == m.excludeSet
    && s.fireAndForget == (m.setMode == "seti")
  }

  /**
   * Rejections name a condition that holds, and an entry is accepted only when no rejection applies.
   */
  method ParseMetricSpec(m: MetricYaml, devInterval: int) returns (r: Result<MetricSpec, SpecError>)
    ensures r.Err? ==> Faulty(m, r.error)
    ensures r.Ok? ==> forall e :: !Faulty(m, e)
    ensures r.Ok? ==> Becomes(m, devInterval, r.value)
  {
    var fault := CheckFields(m);
    if fault.Some? {
      return Err(fault.value);
    }
    var scale := if m.scale == 0.0 then 1.0 else m.scale;
    var labels := CheckLabels(m);
    if labels.Err? {
      return Err(labels.error);
    }
    if 0.0 < scale < 1.0 && Abs(1.0 / Pow10(Digits(scale)) - scale) > 0.000000000001 {
      return Err(ScaleNotPowerOfTen);
    }
    var interval := devInterval;
    match m.scrapeInterval {
      case Absent =>
      case Unreadable =>
        return Err(BadInterval);
      case Nanoseconds(d) =>
        if d <= 0 {
          return Err(BadInterval);
        }
        interval := d;
    }
    var rev := ReverseLabels(labels.value);
    var preSetEpc: Byte, preSetValue: Int64 := 0, 0;
    if m.preSetEpc.Some? {
      preSetEpc, preSetValue := m.preSetEpc.value, m.preSetValue;
    }
    return Ok(MetricSpec(m.epc, m.name, m.size, m.offset, scale, m.signed, m.invalid,
                         if m.metricType == "gauge" then Gauge else Counter, labels.value, rev, interval,
                         m.multiplierEpc, m.multipliers, preSetEpc, preSetValue,
                         m.numberMin, m.numberMax, m.excludeSet, m.setMode == "seti"));
  }

  /**
   * What the loader accepts, in numbers: 14 conditions on the entry, of which the last is on scales below one. Only
   * sizes 0 (taken from the payload), 1, 2 and 4 exist, and every label's raw value fits the size.
   */
  lemma AcceptedExactlyWhen(m: MetricYaml)
    ensures (forall e :: !Faulty(m, e)) <==>
            && m.size in {0, 1, 2, 4} && m.metricType in {"gauge", "counter"} && 0 <= m.epc <= 255 && m.offset >= 0
            && 0 <= m.multiplierEpc <= 255 && (m.multiplierEpc == 0 || m.multipliers != map[])
            && (m.numberMin.None? || m.numberMax.None? || m.numberMin.value < m.numberMax.value)
            && m.setMode in {"", "setc", "seti"} && (m.preSetEpc.None? || 0 <= m.preSetEpc.value <= 255)
            && (m.labels == map[] || m.scale == 0.0 || m.scale == 1.0)
            && (forall raw :: raw in m.labels ==> m.labels[raw] != "")
            && (forall raw :: raw in m.labels ==>
                  (m.size == 1 ==> if m.signed then -128 <= raw <= 127 else 0 <= raw <= 255) &&
                  (m.size == 2 ==> if m.signed then -32768 <= raw <= 32767 else 0 <= raw <= 65535) &&
                  (m.size == 4 ==> if m.signed then -0x8000_0000 <= raw < 0x8000_0000 else 0 <= raw < 0x1_0000_0000))
            && (0.0 < m.scale < 1.0 ==>
                  var power := 1.0 / Pow10(Digits(m.scale)); -0.000000000001 <= power - m.scale <= 0.000000000001)
            && (m.scrapeInterval.Absent? || (m.scrapeInterval.Nanoseconds? && m.scrapeInterval.value > 0))
  {
    if m.size in {0, 1, 2, 4} {
      LabelsAcceptedWhen(m);
    }
    if forall e :: !Faulty(m, e) {
      assert !Faulty(m, BadSize) && !Faulty(m, BadType) && !Faulty(m, BadEpc) && !Faulty(m, BadOffset);
      assert !Faulty(m, BadMultiplierEpc) && !Faulty(m, NoMultiplierMap) && !Faulty(m, BadNumberRange);
      assert !Faulty(m, BadSetMode) && !Faulty(m, BadPreSetEpc) && !Faulty(m, EnumNeedsUnitScale);
      assert !Faulty(m, ScaleNotPowerOfTen) && !Faulty(m, BadInterval);
      assert LabelsOk(m);
    }
  }

  ghost predicate LabelsOk(m: MetricYaml) {
    forall raw :: !Faulty(m, EmptyLabel(raw)) && !Faulty(m, EnumMisfit(raw))
  }

  lemma LabelsAcceptedWhen(m: MetricYaml)
    requires m.size in {0, 1, 2, 4}
    ensures LabelsOk(m) <==>
            && (forall raw :: raw in m.labels ==> m.labels[raw] != "")
            && (forall raw :: raw in m.labels ==>
                  (m.size == 1 ==> if m.signed then -128 <= raw <= 127 else 0 <= raw <= 255) &&
                  (m.size == 2 ==> if m.signed then -32768 <= raw <= 32767 else 0 <= raw <= 65535) &&
                  (m.size == 4 ==> if m.signed then -0x8000_0000 <= raw < 0x8000_0000 else 0 <= raw < 0x1_0000_0000))
  {
    Pow256Values();
    if LabelsOk(m) {
      forall raw | raw in m.labels
        ensures m.labels[raw] != "" && (m.size > 0 ==> Lowest(m.size, m.signed) <= raw <= Highest(m.size, m.signed))
      {
        assert !Faulty(m, EmptyLabel(raw)) && !Faulty(m, EnumMisfit(raw));
      }
    }
  }

  predicate AboutFields(e: SpecError) {
    !e.EmptyLabel? && !e.EnumMisfit? && !e.ScaleNotPowerOfTen? && !e.BadInterval?
  }

  /** The checks on single fields, in the loader's order. */
  method CheckFields(m: MetricYaml) returns (fault: Option<SpecError>)
    ensures fault.Some? ==> Faulty(m, fault.value)
    ensures fault.None? ==> forall e :: AboutFields(e) ==> !Faulty(m, e)
    ensures fault.None? ==> m.size >= 0 && m.offset >= 0 && InByte(m.epc) && InByte(m.multiplierEpc)
    ensures fault.None? && m.preSetEpc.Some? ==> InByte(m.preSetEpc.value)
  {
    if m.size != 0 && m.size != 1 && m.size != 2 && m.size != 4 {
      return Some(BadSize);
    }
    if m.metricType != "gauge" && m.metricType != "counter" {
      return Some(BadType);
    }
    if m.epc < 0 || m.epc > 0xFF {
      return Some(BadEpc);
    }
    if m.offset < 0 {
      return Some(BadOffset);
    }
    if m.multiplierEpc < 0 || m.multiplierEpc > 0xFF {
      return Some(BadMultiplierEpc);
    }
    if m.multiplierEpc != 0 && m.multipliers == map[] {
      return Some(NoMultiplierMap);
    }
    if m.numberMin.Some? && m.numberMax.Some? && m.numberMin.value >= m.numberMax.value {
      return Some(BadNumberRange);
    }
    if m.setMode != "" && m.setMode != "setc" && m.setMode != "seti" {
      return Some(BadSetMode);
    }
    if m.preSetEpc.Some? && (m.preSetEpc.value < 0 || m.preSetEpc.value > 0xFF) {
      return Some(BadPreSetEpc);
    }
    if m.labels != map[] && ScaleOf(m) != 1.0 {
      return Some(EnumNeedsUnitScale);
    }
    return None;
  }

  /** The enum is copied entry by entry, in an arbitrary order as Go's map iteration is. */
  method CheckLabels(m: MetricYaml) returns (r: Result<map<Int64, string>, SpecError>)
    requires m.size >= 0
    ensures r.Err? ==> Faulty(m, r.error)
    ensures r.Ok? ==> r.value == m.labels
    ensures r.Ok? ==> forall raw :: !Faulty(m, EmptyLabel(raw)) && !Faulty(m, EnumMisfit(raw))
  {
    var labels: map<Int64, string> := map[];
    var todo := m.labels.Keys;
    while todo != {}
      invariant todo <= m.labels.Keys && labels.Keys == m.labels.Keys - todo
      invariant forall raw :: raw in labels ==> labels[raw] == m.labels[raw]
      invariant forall raw :: raw in labels ==> !Faulty(m, EmptyLabel(raw)) && !Faulty(m, EnumMisfit(raw))
    {
      EmptyOrInt64(todo);
      var raw :| raw in todo;
      var text := m.labels[raw];
      if text == "" {
        return Err(EmptyLabel(raw));
      }
      if m.size != 0 && !EnumValueFits(raw, m.size, m.signed) {
        return Err(EnumMisfit(raw));
      }
      labels := labels[raw := text];
      todo := todo - {raw};
    }
    assert labels.Keys == m.labels.Keys;
    return Ok(labels);
  }

  /** The loader's second pass over the enum: a later raw value replaces an earlier one with the same label. */
  method ReverseLabels(labels: map<Int64, string>) returns (rev: map<string, Int64>)
    ensures IsReverse(labels, rev)
  {
    rev := map[];
    var todo := labels.Keys;
    while todo != {}
      invariant todo <= labels.Keys
      invariant forall raw :: raw in labels && raw !in todo ==> labels[raw] in rev
      invariant forall name :: name in rev ==> rev[name] in labels && labels[rev[name]] == name
    {
      EmptyOrInt64(todo);
      var raw :| raw in todo;
      rev := rev[labels[raw] := raw];
      todo := todo - {raw};
    }
  }

  // ----- Finding a spec -----

  /** The first spec with this code; code 0 stands for none. */
  function FindByEpc(metrics: seq<MetricSpec>, epc: Byte): (r: Option<MetricSpec>)
    ensures r.Some? ==>
              exists i :: 0 <= i < |metrics| && metrics[i] == r.value && r.value.epc == epc &&
                          forall j :: 0 <= j < i ==> metrics[j].epc != epc
    ensures r.None? ==> epc == 0 || forall m :: m in metrics ==> m.epc != epc
  {
    if epc == 0 || |metrics| == 0 then None
    else if metrics[0].epc == epc then Some(metrics[0])
    else
      var r := FindByEpc(metrics[1..], epc);
      assert forall i :: 1 <= i < |metrics| ==> metrics[i] == metrics[1..][i - 1];
      r
  }

  method FindMetricSpecByEpc(metrics: seq<MetricSpec>, epc: Byte) returns (r: Option<MetricSpec>)
    ensures r == FindByEpc(metrics, epc)
  {
    if epc == 0 {
      return None;
    }
    for i := 0 to |metrics|
      invariant FindByEpc(metrics, epc) == FindByEpc(metrics[i..], epc)
    {
      assert metrics[i..][0] == metrics[i] && metrics[i..][1..] == metrics[i + 1..];
      if metrics[i].epc == epc {
        return Some(metrics[i]);
      }
    }
    assert metrics[|metrics|..] == [];
    return None;
  }

  /** The first spec with this name; the empty name stands for none. */
  function FindByName(metrics: seq<MetricSpec>, name: string): (r: Option<MetricSpec>)
    ensures r.Some? ==>
              exists i :: 0 <= i < |metrics| && metrics[i] == r.value && r.value.name == name &&
                          forall j :: 0 <= j < i ==> metrics[j].name != name
    ensures r.None? ==> name == "" || forall m :: m in metrics ==> m.name != name
  {
    if name == "" || |metrics| == 0 then None
    else if metrics[0].name == name then Some(metrics[0])
    else
      var r := FindByName(metrics[1..], name);
      assert forall i :: 1 <= i < |metrics| ==> metrics[i] == metrics[1..][i - 1];
      r
  }

  method FindMetricSpecByName(metrics: seq<MetricSpec>, name: string) returns (r: Option<MetricSpec>)
    ensures r == FindByName(metrics, name)
  {
    if name == "" {
      return None;
    }
    for i := 0 to |metrics|
      invariant FindByName(metrics, name) == FindByName(metrics[i..], name)
    {
      assert metrics[i..][0] == metrics[i] && metrics[i..][1..] == metrics[i + 1..];
      if metrics[i].name == name {
        return Some(metrics[i]);
      }
    }
    assert metrics[|metrics|..] == [];
    return None;
  }
}
