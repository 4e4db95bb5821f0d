/** From properties to metric values. */
module Metrics {
  import opened Bytes
  import opened Results
  import opened Protocol
  import opened Numeric
  import opened Specs
  import opened Encoder

  /** A metric's value, with the enum label it resolves to ("" when there is none). */
  datatype MetricValue = MetricValue(value: real, metricType: MetricType, enumLabel: string)

  /** The factor named by the unit property, or 1 when there is no such property or it is unknown. */
  function MultiplierOf(props: seq<Property>, m: MetricSpec): real {
    if m.multiplierEpc == 0 || m.multipliers == map[] then 1.0
    else
      match Prop(props, m.multiplierEpc)
      case None => 1.0
      case Some(edt) => if edt[0] in m.multipliers then m.multipliers[edt[0]] else 1.0
  }

  function LabelOf(v: real, m: MetricSpec): string {
    if Truncate(v) in m.labels then m.labels[Truncate(v)] else ""
  }

  function Labelled(base: real, factor: real, m: MetricSpec): MetricValue {
    var v := base * factor;
    MetricValue(v, m.metricType, LabelOf(v, m))
  }

  function MetricOf(props: seq<Property>, m: MetricSpec): Option<MetricValue> {
    match Prop(props, m.epc)
    case None => None
    case Some(edt) =>
      match ValueOf(edt, m)
      case Err(_) => None
      case Ok(base) => Some(Labelled(base, MultiplierOf(props, m), m))
  }

  /** One value per metric name; of two specs with the same name the later one wins. */
  function MetricsOf(props: seq<Property>, metrics: seq<MetricSpec>): map<string, MetricValue> {
    if |metrics| == 0 then map[]
    else
      var m := metrics[|metrics| - 1];
      var rest := MetricsOf(props, metrics[..|metrics| - 1]);
      match MetricOf(props, m)
      case None => rest
      case Some(v) => rest[m.name := v]
  }

  method LookUp(props: seq<Property>, epc: Byte) returns (r: Option<seq<Byte>>)
    ensures r == Prop(props, epc)
  {
    for i := 0 to |props|
      invariant Prop(props, epc) == Prop(props[i..], epc)
    {
      assert props[i..][0] == props[i] && props[i..][1..] == props[i + 1..];
      if props[i].epc == epc && |props[i].edt| > 0 {
        return Some(props[i].edt);
      }
    }
    assert props[|props|..] == [];
    return None;
  }

  method FindMultiplier(props: seq<Property>, m: MetricSpec) returns (factor: real)
    ensures factor == MultiplierOf(props, m)
  {
    factor := 1.0;
    if m.multiplierEpc != 0 && m.multipliers != map[] {
      var unit := LookUp(props, m.multiplierEpc);
      if unit.Some? && unit.value[0] in m.multipliers {
        factor := m.multipliers[unit.value[0]];
      }
    }
  }

  method ParsePropsToMetrics(props: seq<Property>, metrics: seq<MetricSpec>) returns (out: map<string, MetricValue>)
    ensures out == MetricsOf(props, metrics)
  {
    out := map[];
    for i := 0 to |metrics|
      invariant out == MetricsOf(props, metrics[..i])
    {
      var m := metrics[i];
      assert metrics[..i + 1][..i] == metrics[..i];
      var edt := LookUp(props, m.epc);
      if edt.Some? {
        var parsed := ParseEdt(edt.value, m);
        if parsed.Ok? {
          var factor := FindMultiplier(props, m);
          out := out[m.name := Labelled(parsed.value, factor, m)];
        }
      }
    }
    assert metrics[..|metrics|] == metrics;
  }

  lemma MetricDependsOnLookup(a: seq<Property>, b: seq<Property>, m: MetricSpec)
    requires Prop(a, m.epc) == Prop(b, m.epc) && Prop(a, m.multiplierEpc) == Prop(b, m.multiplierEpc)
    ensures MetricOf(a, m) == MetricOf(b, m)
  {
  }

  /** The metrics depend on the properties only through what prop finds for each code. */
  lemma {:induction false} MetricsDependOnLookup(a: seq<Property>, b: seq<Property>, metrics: seq<MetricSpec>)
    requires forall epc :: Prop(a, epc) == Prop(b, epc)
    ensures MetricsOf(a, metrics) == MetricsOf(b, metrics)
  {
    if |metrics| == 0 {
    } else {
      MetricsDependOnLookup(a, b, metrics[..|metrics| - 1]);
      var m := metrics[|metrics| - 1];
      MetricDependsOnLookup(a, b, m);
    }
  }

  /** The k-th spec is the last of its name that has a value. */
  ghost predicate IsLastOfName(props: seq<Property>, metrics: seq<MetricSpec>, k: int, name: string) {
    && 0 <= k < |metrics| && metrics[k].name == name && MetricOf(props, metrics[k]).Some?
    && forall j :: k < j < |metrics| && metrics[j].name == name ==> MetricOf(props, metrics[j]).None?
  }

  lemma MetricsAppend(props: seq<Property>, metrics: seq<MetricSpec>, m: MetricSpec)
    ensures MetricsOf(props, metrics + [m]) ==
            match MetricOf(props, m)
            case None => MetricsOf(props, metrics)
            case Some(v) => MetricsOf(props, metrics)[m.name := v]
  {
  }

  lemma LastOfNameLonger(props: seq<Property>, metrics: seq<MetricSpec>, m: MetricSpec, k: int, name: string)
    requires IsLastOfName(props, metrics, k, name) && (m.name != name || MetricOf(props, m).None?)
    ensures IsLastOfName(props, metrics + [m], k, name)
  {
  }

  lemma {:induction false} FindLastOfName(props: seq<Property>, metrics: seq<MetricSpec>, name: string) returns (k: int)
    requires name in MetricsOf(props, metrics)
    ensures IsLastOfName(props, metrics, k, name) &&
        MetricsOf(props, metrics)[name] == MetricOf(props, metrics[k]).value
  {
    var n := |metrics| - 1;
    var init, m := metrics[..n], metrics[n];
    assert metrics == init + [m];
    MetricsAppend(props, init, m);
    if m.name == name && MetricOf(props, m).Some? {
      k := n;
    } else {
      k := FindLastOfName(props, init, name);
      LastOfNameLonger(props, init, m, k, name);
    }
  }

  lemma {:induction false} LastOfNameIsHeld(props: seq<Property>, metrics: seq<MetricSpec>, k: int, name: string)
    requires IsLastOfName(props, metrics, k, name)
    ensures name in MetricsOf(props, metrics) && MetricsOf(props, metrics)[name] == MetricOf(props, metrics[k]).value
  {
    var n := |metrics| - 1;
    var init, m := metrics[..n], metrics[n];
    assert metrics == init + [m];
    MetricsAppend(props, init, m);
    if k < n {
      LastOfNameIsHeld(props, init, k, name);
    }
  }

  /** The result holds exactly the names of specs that have a value, each with the value of the last such spec. */
  lemma {:induction false} LastOfNameWins(props: seq<Property>, metrics: seq<MetricSpec>, name: string, v: MetricValue)
    ensures name in MetricsOf(props, metrics) && MetricsOf(props, metrics)[name] == v <==>
            exists k :: IsLastOfName(props, metrics, k, name) && MetricOf(props, metrics[k]).value == v
  {
    if name in MetricsOf(props, metrics) {
      var k := FindLastOfName(props, metrics, name);
      LastOfNameIsHeld(props, metrics, k, name);
    }
    if k :| IsLastOfName(props, metrics, k, name) && MetricOf(props, metrics[k]).value == v {
      LastOfNameIsHeld(props, metrics, k, name);
    }
  }

  /** What is stored under a name that no other spec of the list carries. */
  lemma MetricUnderItsName(props: seq<Property>, metrics: seq<MetricSpec>, k: nat)
    requires k < |metrics|
    requires forall i :: 0 <= i < |metrics| && metrics[i].name == metrics[k].name ==> metrics[i] == metrics[k]
    ensures MetricOf(props, metrics[k]).Some? ==>
              metrics[k].name in MetricsOf(props, metrics) &&
              MetricsOf(props, metrics)[metrics[k].name] == MetricOf(props, metrics[k]).value
    ensures MetricOf(props, metrics[k]).None? ==> metrics[k].name !in MetricsOf(props, metrics)
  {
    if metrics[k].name in MetricsOf(props, metrics) {
      var last := FindLastOfName(props, metrics, metrics[k].name);
    }
    if MetricOf(props, metrics[k]).Some? {
      NameIsHeld(props, metrics, k);
    }
  }

  lemma {:induction false} NameIsHeld(props: seq<Property>, metrics: seq<MetricSpec>, k: nat)
    requires k < |metrics| && MetricOf(props, metrics[k]).Some?
    ensures metrics[k].name in MetricsOf(props, metrics)
  {
    var n := |metrics| - 1;
    var init, m := metrics[..n], metrics[n];
    assert metrics == init + [m];
    MetricsAppend(props, init, m);
    if k < n {
      NameIsHeld(props, init, k);
    }
  }

  // ----- Multipliers -----

  predicate HasMultiplier(m: MetricSpec) {
    m.multiplierEpc != 0 && m.multipliers != map[]
  }

  /** The device reports its values of this metric in this unit, and the properties do not say otherwise. */
  predicate Reports(props: seq<Property>, m: MetricSpec, unit: Byte) {
    Prop(props, m.multiplierEpc).Some? ==> Prop(props, m.multiplierEpc).value[0] == unit
  }

  /**
   * A metric with a multiplier is given its true value, the decoded one times the factor of the device's unit, exactly
   * when the properties include the unit code, or the factor makes no difference anyway.
   */
  lemma FactorNeedsUnit(props: seq<Property>, m: MetricSpec, unit: Byte, base: real)
    requires HasMultiplier(m) && unit in m.multipliers && Reports(props, m, unit)
    requires Prop(props, m.epc).Some? && ValueOf(Prop(props, m.epc).value, m) == Ok(base)
    ensures MetricOf(props, m) == Some(Labelled(base, m.multipliers[unit], m)) <==>
            Prop(props, m.multiplierEpc).Some? || base == 0.0 || m.multipliers[unit] == 1.0
  {
    var factor, used := m.multipliers[unit], MultiplierOf(props, m);
    assert MetricOf(props, m) == Some(Labelled(base, used, m));
    assert used == if Prop(props, m.multiplierEpc).Some? then factor else 1.0;
    SameProduct(base, factor);
    SameLabelled(base, used, factor, m);
  }

  lemma SameLabelled(base: real, used: real, factor: real, m: MetricSpec)
    ensures Labelled(base, used, m) == Labelled(base, factor, m) <==> base * used == base * factor
  {
    var v, w := base * used, base * factor;
    assert Labelled(base, used, m) == MetricValue(v, m.metricType, LabelOf(v, m));
    assert Labelled(base, factor, m) == MetricValue(w, m.metricType, LabelOf(w, m));
  }

  lemma SameProduct(base: real, factor: real)
    ensures base * factor == base * 1.0 <==> base == 0.0 || factor == 1.0
  {
    var x := base * (factor - 1.0);
    assert x == base * factor - base;
  }

  /** A push of the value without its unit code: 100 is stored where the device means 10. */
  lemma PushWithoutUnit(m: MetricSpec)
    requires m.epc == 0xC0 && m.size == 1 && m.offset == 0 && m.scale == 1.0 && !m.signed && m.invalid == None
    requires m.labels == map[] && m.multiplierEpc == 0xC2 && m.multipliers == map[1 := 0.1]
    ensures MetricOf([Property(0xC0, 1, [100]), Property(0xC2, 1, [1])], m) == Some(MetricValue(10.0, m.metricType, ""))
    ensures MetricOf([Property(0xC0, 1, [100])], m) == Some(MetricValue(100.0, m.metricType, ""))
  {
    var value, unit := Property(0xC0, 1, [100]), Property(0xC2, 1, [1]);
    assert [value][1..] == [] && [value, unit][1..] == [unit];
    assert Prop([unit], 0xC2) == Some([1]) && Prop([value, unit], 0xC2) == Some([1]) && Prop([value], 0xC2) == None;
    assert [100 as Byte][0..1] == [100] && [100 as Byte][..0] == [];
    assert BigEndian([100]) == 100;
    assert ValueOf([100], m) == Ok(100.0);
    assert 1 in m.multipliers && m.multipliers[1] == 0.1;
  }
}
