/** Merging the super class defaults into a class's metrics. */
module SuperClass {
  import opened Bytes
  import opened Specs

  /** One minute, in nanoseconds. */
  const DEFAULT_SCRAPE_INTERVAL: int := 60_000_000_000

  function Epcs(metrics: seq<MetricSpec>): set<Byte> {
    set i | 0 <= i < |metrics| :: metrics[i].epc
  }

  /** The super class metrics, in order, that bring a code not yet there. */
  function Missing(have: set<Byte>, superClass: seq<MetricSpec>, fallback: int): seq<MetricSpec> {
    if |superClass| == 0 then []
    else
      var before, m := superClass[..|superClass| - 1], superClass[|superClass| - 1];
      Missing(have, before, fallback) +
      if m.epc in have || m.epc in Epcs(before) then [] else [WithInterval(m, fallback)]
  }

  lemma EpcsConcat(a: seq<MetricSpec>, b: seq<MetricSpec>)
    ensures Epcs(a + b) == Epcs(a) + Epcs(b)
  {
    var all := a + b;
    forall e ensures e in Epcs(all) <==> e in Epcs(a) + Epcs(b) {
      if e in Epcs(a) {
        var i :| 0 <= i < |a| && a[i].epc == e;
        assert all[i].epc == e;
      }
      if e in Epcs(b) {
        var i :| 0 <= i < |b| && b[i].epc == e;
        assert all[|a| + i].epc == e;
      }
    }
  }

  /** What is added names exactly the missing codes, each once. */
  lemma {:induction false} MissingCodes(have: set<Byte>, superClass: seq<MetricSpec>, fallback: int)
    ensures var added := Missing(have, superClass, fallback);
            && Epcs(added) == Epcs(superClass) - have
            && forall i, j :: 0 <= j < i < |added| ==> added[i].epc != added[j].epc
  {
    if |superClass| > 0 {
      var before, m := superClass[..|superClass| - 1], superClass[|superClass| - 1];
      MissingCodes(have, before, fallback);
      var added := Missing(have, before, fallback);
      assert superClass == before + [m];
      EpcsAppend(before, m);
      EpcsAppend(added, WithInterval(m, fallback));
      forall i | 0 <= i < |added| ensures added[i].epc in Epcs(before) {
        assert added[i].epc in Epcs(added);
      }
      assert Missing(have, superClass, fallback) ==
             if m.epc in have || m.epc in Epcs(before) then added else added + [WithInterval(m, fallback)];
    }
  }

  /** One more super class definition is either known already or appended. */
  lemma MissingAppend(have: set<Byte>, before: seq<MetricSpec>, m: MetricSpec, fallback: int)
    ensures Missing(have, before + [m], fallback) ==
            Missing(have, before, fallback) +
            if m.epc in have + Epcs(before) then [] else [WithInterval(m, fallback)]
    ensures Epcs(before + [m]) == Epcs(before) + {m.epc}
  {
    assert (before + [m])[..|before|] == before;
    EpcsAppend(before, m);
  }

  /**
   * Super class metrics are appended after the class's own ones, which stay as they are: in order, the first super
   * class definition of every code the class does not define itself, and no other.
   */
  method MergeSuperClass(metrics: seq<MetricSpec>, superClass: seq<MetricSpec>, devInterval: int)
    returns (out: seq<MetricSpec>)
    ensures var fallback := if devInterval <= 0 then DEFAULT_SCRAPE_INTERVAL else devInterval;
            out == metrics + Missing(Epcs(metrics), superClass, fallback)
    ensures Epcs(out) == Epcs(metrics) + Epcs(superClass)
    ensures out[..|metrics|] == metrics
    ensures forall i :: |metrics| <= i < |out| ==>
              exists m :: m in superClass && out[i] == m.(scrapeInterval :=
                if m.scrapeInterval > 0 then m.scrapeInterval
                else if devInterval > 0 then devInterval else 60_000_000_000)
  {
    out := metrics;
    var fallback := if devInterval <= 0 then DEFAULT_SCRAPE_INTERVAL else devInterval;
    var have := Epcs(metrics);
    for k := 0 to |superClass|
      invariant have == Epcs(metrics) + Epcs(superClass[..k])
      invariant out == metrics + Missing(Epcs(metrics), superClass[..k], fallback)
    {
      var m := superClass[k];
      MissingAppend(Epcs(metrics), superClass[..k], m, fallback);
      assert superClass[..k + 1] == superClass[..k] + [m];
      if m.epc !in have {
        have := have + {m.epc};
        out := out + [WithInterval(m, fallback)];
      }
    }
    assert superClass[..|superClass|] == superClass;
    MissingCodes(Epcs(metrics), superClass, fallback);
    EpcsConcat(metrics, Missing(Epcs(metrics), superClass, fallback));
    AddedOrigin(metrics, superClass, devInterval, fallback, out);
  }

  /** What is added is a super class definition polled at its own interval, or else at the device's. */
  lemma {:induction false} MissingOrigin(have: set<Byte>, superClass: seq<MetricSpec>, fallback: int, i: nat)
    returns (m: MetricSpec)
    requires i < |Missing(have, superClass, fallback)|
    ensures m in superClass && Missing(have, superClass, fallback)[i] ==
            m.(scrapeInterval := if m.scrapeInterval > 0 then m.scrapeInterval else fallback)
  {
    var before, last := superClass[..|superClass| - 1], superClass[|superClass| - 1];
    assert superClass == before + [last];
    m := last;
    if i < |Missing(have, before, fallback)| {
      m := MissingOrigin(have, before, fallback, i);
    }
  }

  lemma AddedOrigin(metrics: seq<MetricSpec>, superClass: seq<MetricSpec>, devInterval: int, fallback: int,
                    out: seq<MetricSpec>)
    requires out == metrics + Missing(Epcs(metrics), superClass, fallback)
    requires fallback == if devInterval > 0 then devInterval else 60_000_000_000
    ensures forall i :: |metrics| <= i < |out| ==>
              exists m :: m in superClass && out[i] == m.(scrapeInterval :=
                if m.scrapeInterval > 0 then m.scrapeInterval
                else if devInterval > 0 then devInterval else 60_000_000_000)
  {
    forall i | |metrics| <= i < |out|
      ensures exists m :: m in superClass && out[i] == m.(scrapeInterval :=
                if m.scrapeInterval > 0 then m.scrapeInterval
                else if devInterval > 0 then devInterval else 60_000_000_000)
    {
      var m := MissingOrigin(Epcs(metrics), superClass, fallback, i - |metrics|);
    }
  }

  function WithInterval(m: MetricSpec, devInterval: int): MetricSpec {
    m.(scrapeInterval := if m.scrapeInterval <= 0 then devInterval else m.scrapeInterval)
  }

  lemma EpcsAppend(metrics: seq<MetricSpec>, m: MetricSpec)
    ensures Epcs(metrics + [m]) == Epcs(metrics) + {m.epc}
  {
    EpcsConcat(metrics, [m]);
    assert [m][0].epc in Epcs([m]);
  }
}
