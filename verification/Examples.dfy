/**
 * Entries of the device definitions worked out by hand: what they become, and for each rejection an entry with just
 * this fault.
 */
module Examples {
  import opened Bytes
  import opened Results
  import opened Specs

  /** A signed byte in degrees whose scale is left out. */
  const ROOM := MetricYaml(0xBB, "room", 1, 0, 0.0, true, Some(126), "gauge", map[], Absent, None, None, None, 0, 0,
                           map[], false, "")

  lemma RoomBecomes(s: MetricSpec, devInterval: int)
    requires Becomes(ROOM, devInterval, s)
    ensures s == MetricSpec(0xBB, "room", 1, 0, 1.0, true, Some(126), Gauge, map[], map[], devInterval, 0, map[], 0, 0,
                            None, None, false, false)
    ensures forall e :: !Faulty(ROOM, e)
  {
    assert forall name :: name in s.reverseLabels ==> s.reverseLabels[name] in s.labels;
    assert s.reverseLabels == map[];
  }

  /** An entry that uses everything else. */
  const FLOW := MetricYaml(0xE0, "flow", 2, 2, 1.0, false, None, "counter", map[0x30 := "on", 0x31 := "off"],
                           Nanoseconds(30), Some(0.0), Some(9.0), Some(0xB0), 0x42, 0xC2, map[1 := 0.1], true, "seti")

  lemma FlowBecomes(s: MetricSpec, devInterval: int)
    requires Becomes(FLOW, devInterval, s)
    ensures s == MetricSpec(0xE0, "flow", 2, 2, 1.0, false, None, Counter, map[0x30 := "on", 0x31 := "off"],
                            map["on" := 0x30, "off" := 0x31], 30, 0xC2, map[1 := 0.1], 0xB0, 0x42, Some(0.0),
                            Some(9.0), true, true)
    ensures forall e :: !Faulty(FLOW, e)
  {
    var rev := s.reverseLabels;
    assert s.labels[0x30] in rev && s.labels[0x31] in rev;
    assert forall name :: name in rev ==> name == s.labels[rev[name]];
    assert rev == map["on" := 0x30, "off" := 0x31];
    assert 1 in FLOW.multipliers;
    Pow256Values();
  }

  ghost predicate OnlyFault(m: MetricYaml, fault: SpecError) {
    forall e :: Faulty(m, e) <==> e == fault
  }

  lemma FieldRejections()
    ensures OnlyFault(FLOW.(size := 3), BadSize) && OnlyFault(FLOW.(metricType := "text"), BadType)
    ensures OnlyFault(FLOW.(epc := 256), BadEpc) && OnlyFault(FLOW.(offset := -1), BadOffset)
  {
    assert 1 in FLOW.multipliers;
    Pow256Values();
  }

  lemma OptionRejections()
    ensures OnlyFault(FLOW.(numberMin := Some(9.0)), BadNumberRange) && OnlyFault(FLOW.(setMode := "set"), BadSetMode)
    ensures OnlyFault(FLOW.(scrapeInterval := Unreadable), BadInterval)
    ensures OnlyFault(FLOW.(scrapeInterval := Nanoseconds(0)), BadInterval)
  {
    assert 1 in FLOW.multipliers;
    Pow256Values();
  }

  lemma CodeRejections()
    ensures OnlyFault(FLOW.(multiplierEpc := 256), BadMultiplierEpc)
    ensures OnlyFault(FLOW.(multipliers := map[]), NoMultiplierMap)
    ensures OnlyFault(FLOW.(preSetEpc := Some(-1)), BadPreSetEpc)
  {
    assert 1 in FLOW.multipliers;
    Pow256Values();
  }

  lemma ValueRejections()
    ensures OnlyFault(FLOW.(scale := 10.0), EnumNeedsUnitScale)
    ensures OnlyFault(FLOW.(labels := map[7 := ""]), EmptyLabel(7))
    ensures OnlyFault(FLOW.(labels := map[65536 := "on"]), EnumMisfit(65536))
    ensures OnlyFault(ROOM.(scale := 0.25), ScaleNotPowerOfTen)
  {
    assert 1 in FLOW.multipliers && 0x30 in FLOW.labels;
    Pow256Values();
  }
}
