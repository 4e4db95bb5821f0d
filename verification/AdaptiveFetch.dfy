/** What the adaptive fetch guarantees against any device: request bound, refinement, completeness and order. */
module AdaptiveFetch {
  import opened Bytes
  import opened Results
  import opened Protocol
  import opened Specs
  import opened Metrics
  import opened Client

  // ----- Runs, node by node -----

  /** A half that was asked for carries its part of the list and its request number. */
  predicate IsHalf(run: Run, part: seq<Byte>, at: nat) {
    !run.NotAsked? ==> run.epcs == part && run.at == at
  }

  /** Every node of the run is made of the device's answer to its request. */
  predicate IsRun(run: Run, dev: Oracle) {
    match run
    case NotAsked => true
    case Refused(at, epcs, e) => if epcs == [] then e == NoEpcs else dev(at, epcs) == Err(e)
    case Whole(at, epcs, props) => epcs != [] && dev(at, epcs) == Ok(props)
    case Halved(at, epcs, props, left, right) =>
      && |epcs| >= 2 && dev(at, epcs) == Ok(props)
      && IsHalf(left, epcs[..|epcs| / 2], at + 1) && IsRun(left, dev)
      && IsHalf(right, epcs[|epcs| / 2..], at + 1 + |left.Asked()|) && IsRun(right, dev)
  }

  predicate FollowedBy(run: Run, part: seq<Byte>, props: seq<Property>, epc: Byte) {
    if run.NotAsked? then epc in part ==> epc in EpcsOf(props) else run.epcs == part
  }

  /**
   * A request for this code that brought nothing for it was followed up: by a request for the half with the
   * code, unless the list had no halves or the depth limit was reached.
   */
  predicate FollowsUp(run: Run, depth: nat, epc: Byte) {
    match run
    case NotAsked => true
    case Refused(_, _, _) => true
    case Whole(_, epcs, props) =>
      epc in epcs ==> epc in EpcsOf(props) || |epcs| <= 1 || depth >= MAX_ADAPTIVE_SPLIT_DEPTH
    case Halved(_, epcs, props, left, right) =>
      && |epcs| >= 2 && depth < MAX_ADAPTIVE_SPLIT_DEPTH
      && FollowedBy(left, epcs[..|epcs| / 2], props, epc)
      && FollowedBy(right, epcs[|epcs| / 2..], props, epc)
      && FollowsUp(left, depth + 1, epc) && FollowsUp(right, depth + 1, epc)
  }

  /** The step starts at this request with this list, is made of the device's answers, and counts its requests. */
  predicate IsStep(step: Step, dev: Oracle, at: nat, epcs: seq<Byte>) {
    IsRun(step.run, dev) && IsHalf(step.run, epcs, at) && step.next == at + |step.run.Asked()|
  }

  lemma {:induction false} FetchIsRun(dev: Oracle, at: nat, epcs: seq<Byte>, depth: nat)
    ensures IsStep(Fetch(dev, at, epcs, depth), dev, at, epcs) && !Fetch(dev, at, epcs, depth).run.NotAsked?
    decreases |epcs|, 0
  {
    FetchUndivided(dev, at, epcs, depth);
    if Fetch(dev, at, epcs, depth).run.Halved? {
      var left, right := HalvedRun(dev, at, epcs, depth);
      var mid, props := |epcs| / 2, dev(at, epcs).value;
      PartIsRun(dev, at + 1, epcs[..mid], depth + 1, props);
      PartIsRun(dev, left.next, epcs[mid..], depth + 1, props);
      HalvesMakeStep(dev, at, epcs, props, left, right);
    }
  }

  lemma HalvesMakeStep(dev: Oracle, at: nat, epcs: seq<Byte>, props: seq<Property>, left: Step, right: Step)
    requires |epcs| >= 2 && dev(at, epcs) == Ok(props)
    requires IsStep(left, dev, at + 1, epcs[..|epcs| / 2]) && IsStep(right, dev, left.next, epcs[|epcs| / 2..])
    ensures IsStep(Step(Halved(at, epcs, props, left.run, right.run), right.next), dev, at, epcs)
  {
  }

  lemma PartIsRun(dev: Oracle, at: nat, part: seq<Byte>, depth: nat, props: seq<Property>)
    ensures IsStep(FetchPart(dev, at, part, depth, props), dev, at, part)
    decreases |part|, 1
  {
    FetchIsRun(dev, at, part, depth);
  }

  lemma {:induction false} FetchFollowsUp(dev: Oracle, at: nat, epcs: seq<Byte>, depth: nat, epc: Byte)
    ensures FollowsUp(Fetch(dev, at, epcs, depth).run, depth, epc)
    decreases |epcs|, 0
  {
    FetchUndivided(dev, at, epcs, depth);
    if Fetch(dev, at, epcs, depth).run.Halved? {
      var left, right := HalvedRun(dev, at, epcs, depth);
      var mid, props := |epcs| / 2, dev(at, epcs).value;
      PartFollowsUp(dev, at + 1, epcs[..mid], depth + 1, props, epc);
      PartFollowsUp(dev, left.next, epcs[mid..], depth + 1, props, epc);
    }
  }

  lemma PartFollowsUp(dev: Oracle, at: nat, part: seq<Byte>, depth: nat, props: seq<Property>, epc: Byte)
    ensures var run := FetchPart(dev, at, part, depth, props).run;
            FollowsUp(run, depth, epc) && FollowedBy(run, part, props, epc)
    decreases |part|, 1
  {
    FetchFollowsUp(dev, at, part, depth, epc);
    FetchIsRun(dev, at, part, depth);
  }

  // ----- How many requests, and which -----

  ghost predicate SliceOf(part: seq<Byte>, whole: seq<Byte>) {
    exists a, b :: 0 <= a < b <= |whole| && part == whole[a..b]
  }

  ghost predicate Slices(asked: seq<seq<Byte>>, whole: seq<Byte>) {
    forall i :: 0 <= i < |asked| ==> SliceOf(asked[i], whole)
  }

  lemma SlicesJoin(epcs: seq<Byte>, left: seq<seq<Byte>>, right: seq<seq<Byte>>, whole: seq<Byte>)
    requires SliceOf(epcs, whole) && Slices(left, whole) && Slices(right, whole)
    ensures Slices([epcs] + left + right, whole)
  {
  }

  lemma {:induction false} RunBound(run: Run, dev: Oracle)
    requires IsRun(run, dev) && !run.NotAsked? && |run.epcs| >= 1
    ensures 1 <= |run.Asked()| <= 2 * |run.epcs| - 1
  {
    match run
    case Refused(_, _, _) =>
    case Whole(_, _, _) =>
    case Halved(_, epcs, _, left, right) =>
      if !left.NotAsked? {
        RunBound(left, dev);
      }
      if !right.NotAsked? {
        RunBound(right, dev);
      }
  }

  lemma {:induction false} RunSlices(run: Run, dev: Oracle, whole: seq<Byte>, a: nat, b: nat)
    requires IsRun(run, dev) && !run.NotAsked? && a < b <= |whole| && run.epcs == whole[a..b]
    ensures Slices(run.Asked(), whole)
    decreases run, 0
  {
    assert SliceOf(run.epcs, whole);
    match run
    case Refused(_, _, _) =>
    case Whole(_, _, _) =>
    case Halved(at, epcs, props, left, right) =>
      var mid := |epcs| / 2;
      assert epcs[..mid] == whole[a..a + mid] && epcs[mid..] == whole[a + mid..b];
      HalfSlices(left, dev, epcs[..mid], at + 1, whole, a, a + mid);
      HalfSlices(right, dev, epcs[mid..], at + 1 + |left.Asked()|, whole, a + mid, b);
      SlicesJoin(epcs, left.Asked(), right.Asked(), whole);
  }

  lemma HalfSlices(run: Run, dev: Oracle, part: seq<Byte>, at: nat, whole: seq<Byte>, a: nat, b: nat)
    requires IsRun(run, dev) && IsHalf(run, part, at) && a < b <= |whole| && part == whole[a..b]
    ensures Slices(run.Asked(), whole)
    decreases run, 1
  {
    if !run.NotAsked? {
      RunSlices(run, dev, whole, a, b);
    }
  }

  /**
   * A fetch of n codes sends at least one and at most 2n - 1 requests whatever the device answers, and each
   * of them is a non-empty contiguous slice of the list.
   */
  lemma RequestBound(dev: Oracle, at: nat, epcs: seq<Byte>)
    requires |epcs| >= 1
    ensures var asked := Fetch(dev, at, epcs, 0).run.Asked();
            1 <= |asked| <= 2 * |epcs| - 1 && Slices(asked, epcs)
  {
    FetchIsRun(dev, at, epcs, 0);
    RunBound(Fetch(dev, at, epcs, 0).run, dev);
    assert epcs == epcs[0..|epcs|];
    RunSlices(Fetch(dev, at, epcs, 0).run, dev, epcs, 0, |epcs|);
  }

  /** A run in which no answer named any code: every half was asked for, down to single codes. */
  predicate AllEmpty(run: Run) {
    match run
    case NotAsked => false
    case Refused(_, _, _) => false
    case Whole(_, epcs, _) => |epcs| == 1
    case Halved(_, epcs, _, left, right) =>
      && AllEmpty(left) && left.epcs == epcs[..|epcs| / 2]
      && AllEmpty(right) && right.epcs == epcs[|epcs| / 2..]
  }

  lemma {:induction false} AllEmptyCount(run: Run)
    requires AllEmpty(run)
    ensures |run.Asked()| == 2 * |run.epcs| - 1
  {
    if run.Halved? {
      AllEmptyCount(run.left);
      AllEmptyCount(run.right);
    }
  }

  ghost predicate AlwaysEmpty(dev: Oracle) {
    forall n: nat, part: seq<Byte> :: dev(n, part) == Ok([])
  }

  /** A list of at least two codes that brought nothing has both its halves asked for. */
  lemma HalvesAreAsked(run: Run, depth: nat, next: nat)
    requires run.Halved? && |run.epcs| >= 2 && run.props == [] && next == depth + 1
    requires forall e :: FollowsUp(run, depth, e)
    ensures !run.left.NotAsked? && !run.right.NotAsked? && depth < MAX_ADAPTIVE_SPLIT_DEPTH
    ensures forall e :: FollowsUp(run.left, next, e)
    ensures forall e :: FollowsUp(run.right, next, e)
  {
    var left, right := run.epcs[..|run.epcs| / 2], run.epcs[|run.epcs| / 2..];
    assert FollowsUp(run, depth, left[0]) && FollowsUp(run, depth, right[0]);
    forall e ensures FollowsUp(run.left, next, e) && FollowsUp(run.right, next, e) {
      assert FollowsUp(run, depth, e);
    }
  }

  lemma {:induction false} RunAllEmpty(run: Run, dev: Oracle, depth: nat)
    requires AlwaysEmpty(dev) && IsRun(run, dev) && !run.NotAsked? && forall e :: FollowsUp(run, depth, e)
    requires depth <= MAX_ADAPTIVE_SPLIT_DEPTH && 1 <= |run.epcs| <= Power2(MAX_ADAPTIVE_SPLIT_DEPTH - depth)
    ensures AllEmpty(run)
  {
    assert dev(run.at, run.epcs) == Ok([]);
    match run
    case Refused(_, _, _) =>
    case Whole(_, epcs, _) => assert FollowsUp(run, depth, epcs[0]);
    case Halved(_, _, _, left, right) =>
      HalvesAreAsked(run, depth, depth + 1);
      RunAllEmpty(left, dev, depth + 1);
      RunAllEmpty(right, dev, depth + 1);
  }

  /** A run has fewer than `limit` requests, where the limit halves with every level. */
  predicate Shallow(run: Run, limit: nat) {
    |run.Asked()| < limit
  }

  lemma {:induction false} RunIsShallow(run: Run, depth: nat, e: Byte, rest: nat)
    requires FollowsUp(run, depth, e) && depth + rest == MAX_ADAPTIVE_SPLIT_DEPTH
    ensures Shallow(run, 2 * Power2(rest))
    decreases rest
  {
    Power2IsPositive(rest);
    if run.Halved? {
      RunIsShallow(run.left, depth + 1, e, rest - 1);
      RunIsShallow(run.right, depth + 1, e, rest - 1);
      assert |run.Asked()| == 1 + |run.left.Asked()| + |run.right.Asked()|;
    } else {
      assert |run.Asked()| <= 1;
    }
  }

  lemma RunIsLimited(run: Run)
    requires FollowsUp(run, 0, 0)
    ensures Shallow(run, 512)
  {
    Power2Of8();
    RunIsShallow(run, 0, 0, 8);
  }

  /** However long the list is, the depth limit keeps a fetch below 512 requests. */
  lemma RequestsAreLimited(dev: Oracle, at: nat, epcs: seq<Byte>, run: Run)
    requires run == Fetch(dev, at, epcs, 0).run
    ensures |run.Asked()| <= 511
  {
    FetchFollowsUp(dev, at, epcs, 0, 0);
    RunIsLimited(run);
  }

  /** The bound is reached by a device that answers every request without any property. */
  lemma RequestBoundIsReached(dev: Oracle, at: nat, epcs: seq<Byte>)
    requires 1 <= |epcs| <= 256 && AlwaysEmpty(dev)
    ensures |Fetch(dev, at, epcs, 0).run.Asked()| == 2 * |epcs| - 1
  {
    var run := Fetch(dev, at, epcs, 0).run;
    Power2Of8();
    FetchIsRun(dev, at, epcs, 0);
    forall e ensures FollowsUp(run, 0, e) {
      FetchFollowsUp(dev, at, epcs, 0, e);
    }
    RunAllEmpty(run, dev, 0);
    AllEmptyCount(run);
  }

  // ----- Merging keeps every lookup -----

  lemma {:induction false} BestIsLookup(src: seq<Property>, epc: Byte)
    ensures Prop(src, epc) ==
            if Best(src, epc).Some? && Best(src, epc).value.edt != [] then Some(Best(src, epc).value.edt) else None
  {
    if |src| == 0 {
    } else {
      var before, p := src[..|src| - 1], src[|src| - 1];
      BestIsLookup(before, epc);
      PropConcat(before, [p], epc);
      assert src == before + [p] && [p][1..] == [];
    }
  }

  predicate StrictlyAscending(props: seq<Property>) {
    forall i, j :: 0 <= i < j < |props| ==> props[i].epc < props[j].epc
  }

  predicate Keyed(m: Table) {
    forall e :: e in m ==> m[e].epc == e
  }

  lemma {:induction false} ListedEntries(m: Table, k: nat)
    requires Keyed(m) && k <= 256
    ensures StrictlyAscending(Listed(m, k))
    ensures forall p :: p in Listed(m, k) <==> p.epc < k && p.epc in m && m[p.epc] == p
  {
    if k == 0 {
    } else {
      var before, last := Listed(m, k - 1), Entry(m, k - 1);
      ListedEntries(m, k - 1);
      forall i | 0 <= i < |before| ensures before[i].epc < k - 1 {
        assert before[i] in before;
      }
    }
  }

  lemma {:induction false} ListedLookup(m: Table, k: nat, e: Byte)
    requires Keyed(m) && k <= 256
    ensures Prop(Listed(m, k), e) == if e < k && e in m && m[e].edt != [] then Some(m[e].edt) else None
  {
    if k == 0 {
    } else {
      var before, last := Listed(m, k - 1), Entry(m, k - 1);
      ListedLookup(m, k - 1, e);
      PropConcat(before, last, e);
      assert |last| == 1 ==> last[1..] == [];
    }
  }

  /** Two property lists that answer every lookup alike and name the same codes. */
  predicate SameLookups(a: seq<Property>, b: seq<Property>) {
    && (forall e :: Prop(a, e) == Prop(b, e))
    && EpcsOf(a) == EpcsOf(b)
  }

  lemma TableKeyed(src: seq<Property>)
    ensures TableOf(src).Keys == EpcsOf(src) && Keyed(TableOf(src))
    ensures forall e :: e in TableOf(src) ==> TableOf(src)[e] in src
  {
    forall e | e in TableOf(src) ensures TableOf(src)[e].epc == e && TableOf(src)[e] in src {
      BestExists(src, e);
    }
  }

  lemma SortedKeepsLookups(src: seq<Property>)
    ensures SameLookups(Sorted(TableOf(src)), src)
    ensures StrictlyAscending(Sorted(TableOf(src)))
    ensures forall p :: p in Sorted(TableOf(src)) ==> p in src
  {
    TableKeyed(src);
    ListedEntries(TableOf(src), 256);
    forall e: Byte ensures Prop(Sorted(TableOf(src)), e) == Prop(src, e) {
      BestIsLookup(src, e);
      BestExists(src, e);
      ListedLookup(TableOf(src), 256, e);
    }
    SortedEpcs(TableOf(src), Sorted(TableOf(src)));
  }

  lemma SortedEpcs(t: Table, out: seq<Property>)
    requires Keyed(t) && forall p :: p in out <==> p.epc in t && t[p.epc] == p
    ensures EpcsOf(out) == t.Keys
  {
  }

  lemma SameLookupsConcat(a: seq<Property>, a': seq<Property>, b: seq<Property>, b': seq<Property>)
    requires SameLookups(a, a') && SameLookups(b, b')
    ensures SameLookups(a + b, a' + b')
  {
    forall e: Byte ensures Prop(a + b, e) == Prop(a' + b', e) {
      PropConcat(a, b, e);
      PropConcat(a', b', e);
    }
    EpcsConcat(a, b);
    EpcsConcat(a', b');
  }

  lemma EpcsConcat(a: seq<Property>, b: seq<Property>)
    ensures EpcsOf(a + b) == EpcsOf(a) + EpcsOf(b)
  {
    var all := a + b;
    forall e ensures e in EpcsOf(all) <==> e in EpcsOf(a) + EpcsOf(b) {
      if e in EpcsOf(a) {
        var i :| 0 <= i < |a| && a[i].epc == e;
        assert all[i].epc == e;
      }
      if e in EpcsOf(b) {
        var i :| 0 <= i < |b| && b[i].epc == e;
        assert all[|a| + i].epc == e;
      }
    }
  }

  lemma PropsHaveEpcs(props: seq<Property>)
    ensures props != [] ==> EpcsOf(props) != {}
  {
    if props != [] {
      assert props[0].epc in EpcsOf(props);
    }
  }

  // ----- Refinement -----

  lemma {:induction false} HeardConcat(dev: Oracle, at: nat, next: nat, a: seq<seq<Byte>>, b: seq<seq<Byte>>)
    requires next == at + |a|
    ensures Heard(dev, at, a + b) == Heard(dev, at, a) + Heard(dev, next, b)
    decreases |a|
  {
    if |a| == 0 {
      assert a + b == b;
    } else {
      assert (a + b)[1..] == a[1..] + b;
      HeardConcat(dev, at + 1, next, a[1..], b);
    }
  }

  /** A result that answers every lookup as all that was heard does, fails only if nothing was, and invents nothing. */
  ghost predicate Faithful(result: Result<seq<Property>, FetchError>, heard: seq<Property>) {
    && SameLookups(Answered(result), heard)
    && (result.Err? ==> heard == [])
    && (forall p :: p in Answered(result) ==> p in heard)
  }

  lemma {:induction false} RunIsFaithful(run: Run)
    ensures Faithful(run.Result(), run.Accepted())
  {
    match run
    case NotAsked =>
    case Refused(_, _, _) =>
    case Whole(_, _, _) =>
    case Halved(_, _, props, left, right) =>
      RunIsFaithful(left);
      RunIsFaithful(right);
      MergeIsFaithful(props, left.Result(), left.Accepted(), right.Result(), right.Accepted());
  }

  /** The accepted answers of a run are the device's answers to its requests, in request order. */
  lemma {:induction false} AcceptedIsHeard(run: Run, dev: Oracle)
    requires IsRun(run, dev) && !run.NotAsked?
    ensures run.Accepted() == Heard(dev, run.at, run.Asked())
    decreases run, 0
  {
    match run
    case Refused(_, _, _) =>
    case Whole(_, _, props) =>
      assert props + [] == props;
    case Halved(at, epcs, props, left, right) =>
      var next := at + 1 + |left.Asked()|;
      HalfIsHeard(left, dev, epcs[..|epcs| / 2], at + 1);
      HalfIsHeard(right, dev, epcs[|epcs| / 2..], next);
      HeardHalved(dev, at, next, epcs, left.Asked(), right.Asked());
  }

  lemma HalfIsHeard(run: Run, dev: Oracle, part: seq<Byte>, at: nat)
    requires IsRun(run, dev) && IsHalf(run, part, at)
    ensures run.Accepted() == Heard(dev, at, run.Asked())
    decreases run, 1
  {
    if !run.NotAsked? {
      AcceptedIsHeard(run, dev);
    }
  }

  lemma HeardHalved(dev: Oracle, at: nat, next: nat, epcs: seq<Byte>, left: seq<seq<Byte>>, right: seq<seq<Byte>>)
    requires next == at + 1 + |left|
    ensures Heard(dev, at, [epcs] + left + right) ==
            Answered(dev(at, epcs)) + Heard(dev, at + 1, left) + Heard(dev, next, right)
  {
    HeardConcat(dev, at, next, [epcs] + left, right);
    HeardConcat(dev, at, at + 1, [epcs], left);
    assert [epcs][1..] == [];
  }

  lemma MergeIsFaithful(props: seq<Property>, left: Result<seq<Property>, FetchError>, l: seq<Property>,
                        right: Result<seq<Property>, FetchError>, r: seq<Property>)
    requires Faithful(left, l) && Faithful(right, r)
    ensures Faithful(MergedResult(props + Answered(left) + Answered(right)), props + l + r)
  {
    SameLookupsConcat(props, props, Answered(left), l);
    SameLookupsConcat(props + Answered(left), props + l, Answered(right), r);
    SortedKeepsLookups(props + Answered(left) + Answered(right));
    PropsHaveEpcs(props + l + r);
  }

  /**
   * For every device and every pattern of failed sub-requests, looking a code up in the result gives what it
   * gives in the plain concatenation of all accepted answers in request order, and the metrics computed from
   * both agree.
   */
  lemma FetchRefinesConcatenation(dev: Oracle, at: nat, epcs: seq<Byte>, metrics: seq<MetricSpec>)
    ensures var run := Fetch(dev, at, epcs, 0).run;
            var heard := Heard(dev, at, run.Asked());
            && Faithful(run.Result(), heard)
            && MetricsOf(run.Props(), metrics) == MetricsOf(heard, metrics)
  {
    FetchIsRun(dev, at, epcs, 0);
    var run := Fetch(dev, at, epcs, 0).run;
    RunIsFaithful(run);
    AcceptedIsHeard(run, dev);
    MetricsDependOnLookup(run.Props(), Heard(dev, at, run.Asked()), metrics);
  }

  /** A result put together from several answers is strictly ascending in its codes. */
  lemma SplitResultAscends(dev: Oracle, at: nat, epcs: seq<Byte>)
    requires var run := Fetch(dev, at, epcs, 0).run; |run.Asked()| > 1 && run.Result().Ok?
    ensures StrictlyAscending(Fetch(dev, at, epcs, 0).run.Result().value)
  {
    var run := Fetch(dev, at, epcs, 0).run;
    SortedKeepsLookups(run.props + run.left.Props() + run.right.Props());
  }

  // ----- Completeness -----

  /** Every request that names this code was answered, and every one for it alone was answered with it. */
  predicate AnswersAlone(dev: Oracle, at: nat, asked: seq<seq<Byte>>, epc: Byte) {
    forall i :: 0 <= i < |asked| && epc in asked[i] ==>
      && dev(at + i, asked[i]).Ok?
      && (asked[i] == [epc] ==> epc in EpcsOf(dev(at + i, asked[i]).value))
  }

  /** The fetch succeeded and its result has a property with this code. */
  predicate Finds(r: Result<seq<Property>, FetchError>, epc: Byte) {
    r.Ok? && epc in EpcsOf(r.value)
  }

  lemma FirstAnswered(dev: Oracle, at: nat, asked: seq<seq<Byte>>, epc: Byte)
    requires AnswersAlone(dev, at, asked, epc) && |asked| > 0 && epc in asked[0]
    ensures dev(at, asked[0]).Ok? && (asked[0] == [epc] ==> epc in EpcsOf(dev(at, asked[0]).value))
  {
  }

  lemma AnswersAlonePart(dev: Oracle, at: nat, asked: seq<seq<Byte>>, epc: Byte, a: nat, start: nat,
      part: seq<seq<Byte>>)
    requires AnswersAlone(dev, at, asked, epc)
    requires start == at + a && a + |part| <= |asked| && part == asked[a..a + |part|]
    ensures AnswersAlone(dev, start, part, epc)
  {
  }

  lemma AnswersAloneHalves(dev: Oracle, at: nat, next: nat, epcs: seq<Byte>, left: seq<seq<Byte>>,
      right: seq<seq<Byte>>, epc: Byte)
    requires next == at + 1 + |left| && AnswersAlone(dev, at, [epcs] + left + right, epc)
    ensures AnswersAlone(dev, at + 1, left, epc) && AnswersAlone(dev, next, right, epc)
  {
    AnswersAlonePart(dev, at, [epcs] + left + right, epc, 1, at + 1, left);
    AnswersAlonePart(dev, at, [epcs] + left + right, epc, 1 + |left|, next, right);
  }

  lemma MergeIsComplete(props: seq<Property>, left: seq<Property>, right: seq<Property>, epc: Byte)
    requires epc in EpcsOf(props) || epc in EpcsOf(left) || epc in EpcsOf(right)
    ensures Finds(MergedResult(props + left + right), epc)
  {
    EpcsConcat(props, left);
    EpcsConcat(props + left, right);
    SortedKeepsLookups(props + left + right);
  }

  /** The same, said of the nodes of a run. */
  predicate AnsweredAlone(run: Run, epc: Byte) {
    match run
    case NotAsked => true
    case Refused(_, epcs, _) => epc !in epcs
    case Whole(_, epcs, props) => epcs == [epc] ==> epc in EpcsOf(props)
    case Halved(_, _, _, left, right) => AnsweredAlone(left, epc) && AnsweredAlone(right, epc)
  }

  lemma {:induction false} AnswersAloneIsAnsweredAlone(run: Run, dev: Oracle, epc: Byte)
    requires IsRun(run, dev) && !run.NotAsked? && AnswersAlone(dev, run.at, run.Asked(), epc)
    ensures AnsweredAlone(run, epc)
    decreases run, 0
  {
    if epc in run.epcs {
      FirstAnswered(dev, run.at, run.Asked(), epc);
    }
    match run
    case Refused(_, _, _) =>
    case Whole(_, _, _) =>
    case Halved(at, epcs, props, left, right) =>
      var mid, next := |epcs| / 2, at + 1 + |left.Asked()|;
      AnswersAloneHalves(dev, at, next, epcs, left.Asked(), right.Asked(), epc);
      HalfAnsweredAlone(left, dev, epcs[..mid], at + 1, epc);
      HalfAnsweredAlone(right, dev, epcs[mid..], next, epc);
  }

  lemma HalfAnsweredAlone(run: Run, dev: Oracle, part: seq<Byte>, at: nat, epc: Byte)
    requires IsRun(run, dev) && IsHalf(run, part, at) && AnswersAlone(dev, at, run.Asked(), epc)
    ensures AnsweredAlone(run, epc)
    decreases run, 1
  {
    if !run.NotAsked? {
      AnswersAloneIsAnsweredAlone(run, dev, epc);
    }
  }

  /** Halving brings a list of at most 2^(8 - depth) codes down to single ones before the depth cutoff. */
  lemma {:induction false} RunIsComplete(run: Run, depth: nat, epc: Byte)
    requires FollowsUp(run, depth, epc) && AnsweredAlone(run, epc)
    requires !run.NotAsked? && epc in run.epcs
    requires depth <= MAX_ADAPTIVE_SPLIT_DEPTH && |run.epcs| <= Power2(MAX_ADAPTIVE_SPLIT_DEPTH - depth)
    ensures Finds(run.Result(), epc)
    decreases run, 1
  {
    match run
    case Refused(_, _, _) =>
    case Whole(_, epcs, _) =>
      if |epcs| == 1 {
        assert epcs == [epc];
      }
    case Halved(_, _, _, _, _) => HalvedIsComplete(run, depth, depth + 1, epc);
  }

  lemma HalvedIsComplete(run: Run, depth: nat, next: nat, epc: Byte)
    requires FollowsUp(run, depth, epc) && AnsweredAlone(run, epc)
    requires run.Halved? && epc in run.epcs && next == depth + 1 <= MAX_ADAPTIVE_SPLIT_DEPTH
    requires |run.epcs| <= Power2(MAX_ADAPTIVE_SPLIT_DEPTH - depth)
    ensures Finds(run.Result(), epc)
    decreases run, 0
  {
    var mid := |run.epcs| / 2;
    InOneHalf(run.epcs, mid, epc);
    HalfFits(|run.epcs|, depth);
    if epc in run.epcs[..mid] && !run.left.NotAsked? {
      RunIsComplete(run.left, next, epc);
    } else if epc in run.epcs[mid..] && !run.right.NotAsked? {
      RunIsComplete(run.right, next, epc);
    }
    MergeIsComplete(run.props, run.left.Props(), run.right.Props(), epc);
  }

  lemma HalfFits(n: nat, depth: nat)
    requires depth < MAX_ADAPTIVE_SPLIT_DEPTH && n <= Power2(MAX_ADAPTIVE_SPLIT_DEPTH - depth)
    ensures n / 2 <= n - n / 2 <= Power2(MAX_ADAPTIVE_SPLIT_DEPTH - (depth + 1))
  {
  }

  lemma InOneHalf(epcs: seq<Byte>, mid: nat, epc: Byte)
    requires mid <= |epcs|
    ensures epc in epcs ==> epc in epcs[..mid] || epc in epcs[mid..]
  {
    assert epcs == epcs[..mid] + epcs[mid..];
  }

  /**
   * However partial the answers to longer requests are, a requested code that the device returns when asked
   * for alone is in the result of GetProps, for every request that fits a frame (and even one code more).
   */
  lemma FetchIsComplete(dev: Oracle, at: nat, epcs: seq<Byte>, epc: Byte)
    requires |epcs| <= 256 && epc in epcs
    requires AnswersAlone(dev, at, Fetch(dev, at, epcs, 0).run.Asked(), epc)
    ensures Finds(Fetch(dev, at, epcs, 0).run.Result(), epc)
  {
    Power2Of8();
    FetchIsRun(dev, at, epcs, 0);
    AnswersAloneIsAnsweredAlone(Fetch(dev, at, epcs, 0).run, dev, epc);
    FetchFollowsUp(dev, at, epcs, 0, epc);
    RunIsComplete(Fetch(dev, at, epcs, 0).run, 0, epc);
  }

  // ----- Answers on the wire -----

  lemma {:induction false} WithDataMembers(props: seq<Property>, p: Property)
    ensures p in WithData(props) <==> p in props && p.pdc > 0
  {
    if |props| > 0 {
      WithDataMembers(props[1..], p);
      assert props == [props[0]] + props[1..];
    }
  }

  /**
   * A code is in an accepted answer exactly when the datagram is a Get_Res that names it, or a Get_SNA that gives
   * data for it.
   */
  lemma AnswerNames(net: Network, n: nat, epcs: seq<Byte>, epc: Byte)
    ensures epc in EpcsOf(Answered(AnswerOf(net, n, epcs))) <==>
            match net(n, epcs)
            case None => false
            case Some(raw) =>
              FrameOf(raw).Ok? &&
              var f := FrameOf(raw).value;
              && (f.esv == ESV_GET_RES || f.esv == ESV_GET_SNA)
              && exists p :: p in f.props && p.epc == epc && (f.esv == ESV_GET_SNA ==> |p.edt| > 0)
  {
    if net(n, epcs).Some? && FrameOf(net(n, epcs).value).Ok? {
      var data := net(n, epcs).value;
      var f := FrameOf(data).value;
      PropertiesReadsAs(data[12..], data[11]);
      var kept := Answered(AnswerOf(net, n, epcs));
      EpcsNamed(kept, epc);
      forall p ensures p in WithData(f.props) <==> p in f.props && p.pdc > 0 {
        WithDataMembers(f.props, p);
      }
    }
  }

  lemma EpcsNamed(props: seq<Property>, epc: Byte)
    ensures epc in EpcsOf(props) <==> exists p :: p in props && p.epc == epc
  {
  }

  lemma PropFirst(p: Property, rest: seq<Property>, epc: Byte)
    ensures Prop([p] + rest, epc) == if p.epc == epc && |p.edt| > 0 then Some(p.edt) else Prop(rest, epc)
  {
  }

  /** Dropping the empty properties of a Get_SNA changes no lookup. */
  lemma {:induction false} WithDataKeepsLookups(props: seq<Property>, epc: Byte)
    requires WellFormed(props)
    ensures Prop(WithData(props), epc) == Prop(props, epc)
  {
    if |props| > 0 {
      var p, rest := props[0], props[1..];
      assert props == [p] + rest && WellFormed(rest);
      WithDataKeepsLookups(rest, epc);
      PropFirst(p, rest, epc);
      PropFirst(p, WithData(rest), epc);
      assert WithData(props) == if p.pdc > 0 then [p] + WithData(rest) else WithData(rest);
    }
  }
}
