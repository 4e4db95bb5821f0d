/**
 * The adaptive property fetch: a device may answer a request for several properties only partially, and the
 * client then asks again for halves of the list. The device is an arbitrary oracle.
 */
module Client {
  import opened Bytes
  import opened Results
  import opened Protocol

  const MAX_ADAPTIVE_SPLIT_DEPTH := 8

  /**
   * What comes back for the n-th Get and its list of codes: nothing (the send fails) or a datagram. The
   * dependence on n lets the device answer the same question differently every time.
   */
  type Network = (nat, seq<Byte>) -> Option<seq<Byte>>

  datatype FetchError = NoEpcs | SendFailed | BadAnswer | NothingReturned

  // ----- Accepted answers -----

  function WithData(props: seq<Property>): seq<Property> {
    if |props| == 0 then []
    else (if props[0].pdc > 0 then [props[0]] else []) + WithData(props[1..])
  }

  /** What the n-th Get brings: all properties of a Get_Res, the non-empty ones of a Get_SNA, or an error. */
  function AnswerOf(net: Network, n: nat, epcs: seq<Byte>): Result<seq<Property>, FetchError> {
    match net(n, epcs)
    case None => Err(SendFailed)
    case Some(raw) =>
      match FrameOf(raw)
      case Err(_) => Err(BadAnswer)
      case Ok(f) =>
        if f.esv == ESV_GET_RES then Ok(f.props)
        else if f.esv == ESV_GET_SNA then Ok(WithData(f.props))
        else Err(BadAnswer)
  }

  /** A device as the fetch sees it: the accepted answer to the n-th Get. */
  type Oracle = (nat, seq<Byte>) -> Result<seq<Property>, FetchError>

  /** Everything accepted in reply to these requests, the first of them being number `at`, in request order. */
  function Heard(dev: Oracle, at: nat, asked: seq<seq<Byte>>): seq<Property>
    decreases |asked|
  {
    if |asked| == 0 then [] else Answered(dev(at, asked[0])) + Heard(dev, at + 1, asked[1..])
  }

  function Answered(answer: Result<seq<Property>, FetchError>): seq<Property> {
    if answer.Ok? then answer.value else []
  }

  function EpcsOf(props: seq<Property>): set<Byte> {
    set i | 0 <= i < |props| :: props[i].epc
  }

  // ----- Merging: the first non-empty property of each code wins -----

  type Table = map<Byte, Property>

  /** The property of src kept for a code: the first with some data, or else the first. */
  function Best(src: seq<Property>, epc: Byte): Option<Property> {
    if |src| == 0 then None
    else
      var p := src[|src| - 1];
      var before := Best(src[..|src| - 1], epc);
      if p.epc == epc && (before.None? || (before.value.edt == [] && p.edt != [])) then Some(p) else before
  }

  lemma {:induction false} BestExists(src: seq<Property>, epc: Byte)
    ensures Best(src, epc).Some? <==> epc in EpcsOf(src)
    ensures Best(src, epc).Some? ==> Best(src, epc).value in src && Best(src, epc).value.epc == epc
  {
    if |src| == 0 {
    } else {
      BestExists(src[..|src| - 1], epc);
      EpcsAppend(src[..|src| - 1], src[|src| - 1]);
      assert src == src[..|src| - 1] + [src[|src| - 1]];
    }
  }

  lemma EpcsAppend(src: seq<Property>, p: Property)
    ensures EpcsOf(src + [p]) == EpcsOf(src) + {p.epc}
  {
    var all := src + [p];
    assert all[|src|] == p;
    forall e ensures e in EpcsOf(all) <==> e in EpcsOf(src) + {p.epc} {
      if e in EpcsOf(src) {
        var i :| 0 <= i < |src| && src[i].epc == e;
        assert all[i].epc == e;
      }
    }
  }

  function TableOf(src: seq<Property>): Table {
    map e | e in EpcsOf(src) :: (BestExists(src, e); Best(src, e).value)
  }

  function Entry(m: Table, k: nat): seq<Property>
    requires k < 256
  {
    if k in m then [m[k]] else []
  }

  /** The entries below code k, in ascending order. */
  function Listed(m: Table, k: nat): seq<Property>
    requires k <= 256
  {
    if k == 0 then [] else Listed(m, k - 1) + Entry(m, k - 1)
  }

  /** All entries in ascending order. */
  function Sorted(m: Table): seq<Property> {
    Listed(m, 256)
  }

  function MergedResult(props: seq<Property>): Result<seq<Property>, FetchError> {
    var out := Sorted(TableOf(props));
    if out == [] then Err(NothingReturned) else Ok(out)
  }

  // ----- The fetch as a function of the oracle -----

  /**
   * One adaptive fetch: not needed, refused, answered as a whole, or answered in part and completed by halves.
   * Its request has number `at`; a list without codes is refused before anything is sent.
   */
  datatype Run =
    | NotAsked
    | Refused(at: nat, epcs: seq<Byte>, error: FetchError)
    | Whole(at: nat, epcs: seq<Byte>, props: seq<Property>)
    | Halved(at: nat, epcs: seq<Byte>, props: seq<Property>, left: Run, right: Run)
  {
    /** The requests sent, in order. */
    function Asked(): seq<seq<Byte>> {
      match this
      case NotAsked => []
      case Refused(_, epcs, _) => if epcs == [] then [] else [epcs]
      case Whole(_, epcs, _) => [epcs]
      case Halved(_, epcs, _, left, right) => [epcs] + left.Asked() + right.Asked()
    }

    /** All accepted answers, one after the other. */
    function Accepted(): seq<Property> {
      match this
      case NotAsked => []
      case Refused(_, _, _) => []
      case Whole(_, _, props) => props
      case Halved(_, _, props, left, right) => props + left.Accepted() + right.Accepted()
    }

    function Result(): Result<seq<Property>, FetchError>
      decreases this, 0
    {
      match this
      case NotAsked => Ok([])
      case Refused(_, _, e) => Err(e)
      case Whole(_, _, props) => Ok(props)
      case Halved(_, _, props, left, right) => MergedResult(props + left.Props() + right.Props())
    }

    /** What the run contributes to an enclosing one: a failed half contributes nothing. */
    function Props(): seq<Property>
      decreases this, 1
    {
      Answered(Result())
    }
  }

  predicate Covers(props: seq<Property>, epcs: seq<Byte>) {
    forall e :: e in epcs ==> e in EpcsOf(props)
  }

  /** A run and the number of the request that would follow it. */
  datatype Step = Step(run: Run, next: nat)

  /** A half is asked for only when the first answer left out one of its codes. */
  function Half(part: seq<Byte>, props: seq<Property>, at: nat, step: Step): Step {
    if Covers(props, part) then Step(NotAsked, at) else step
  }

  /** The fetch of epcs at this split depth, its first request being number `at`. */
  function Fetch(dev: Oracle, at: nat, epcs: seq<Byte>, depth: nat): Step
    decreases |epcs|
  {
    if |epcs| == 0 then Step(Refused(at, epcs, NoEpcs), at)
    else if dev(at, epcs).Err? then Step(Refused(at, epcs, dev(at, epcs).error), at + 1)
    else
      var props := dev(at, epcs).value;
      if Covers(props, epcs) || |epcs| <= 1 || depth >= MAX_ADAPTIVE_SPLIT_DEPTH then
        Step(Whole(at, epcs, props), at + 1)
      else
        var mid := |epcs| / 2;
        var left := Half(epcs[..mid], props, at + 1, Fetch(dev, at + 1, epcs[..mid], depth + 1));
        var right := Half(epcs[mid..], props, left.next, Fetch(dev, left.next, epcs[mid..], depth + 1));
        Step(Halved(at, epcs, props, left.run, right.run), right.next)
  }

  /** The run for one half of a list whose answer was props. */
  function FetchPart(dev: Oracle, at: nat, part: seq<Byte>, depth: nat, props: seq<Property>): Step {
    Half(part, props, at, Fetch(dev, at, part, depth))
  }

  lemma FetchUndivided(dev: Oracle, at: nat, epcs: seq<Byte>, depth: nat)
    ensures epcs == [] ==> Fetch(dev, at, epcs, depth) == Step(Refused(at, epcs, NoEpcs), at)
    ensures epcs != [] && dev(at, epcs).Err? ==>
              Fetch(dev, at, epcs, depth) == Step(Refused(at, epcs, dev(at, epcs).error), at + 1)
    ensures epcs != [] && dev(at, epcs).Ok? &&
            (Covers(dev(at, epcs).value, epcs) || |epcs| <= 1 || depth >= MAX_ADAPTIVE_SPLIT_DEPTH) ==>
              Fetch(dev, at, epcs, depth) == Step(Whole(at, epcs, dev(at, epcs).value), at + 1)
  {
  }

  lemma FetchHalved(dev: Oracle, at: nat, epcs: seq<Byte>, depth: nat, left: Step, right: Step)
    requires |epcs| >= 2 && depth < MAX_ADAPTIVE_SPLIT_DEPTH
    requires dev(at, epcs).Ok? && !Covers(dev(at, epcs).value, epcs)
    requires left == FetchPart(dev, at + 1, epcs[..|epcs| / 2], depth + 1, dev(at, epcs).value)
    requires right == FetchPart(dev, left.next, epcs[|epcs| / 2..], depth + 1, dev(at, epcs).value)
    ensures Fetch(dev, at, epcs, depth) == Step(Halved(at, epcs, dev(at, epcs).value, left.run, right.run), right.next)
  {
  }

  /** A halved run seen from outside: its answer and its two halves. */
  lemma HalvedRun(dev: Oracle, at: nat, epcs: seq<Byte>, depth: nat) returns (left: Step, right: Step)
    requires Fetch(dev, at, epcs, depth).run.Halved?
    ensures |epcs| >= 2 && depth < MAX_ADAPTIVE_SPLIT_DEPTH
    ensures dev(at, epcs).Ok? && !Covers(dev(at, epcs).value, epcs)
    ensures left == FetchPart(dev, at + 1, epcs[..|epcs| / 2], depth + 1, dev(at, epcs).value)
    ensures right == FetchPart(dev, left.next, epcs[|epcs| / 2..], depth + 1, dev(at, epcs).value)
    ensures Fetch(dev, at, epcs, depth) == Step(Halved(at, epcs, dev(at, epcs).value, left.run, right.run), right.next)
  {
    FetchUndivided(dev, at, epcs, depth);
    left := FetchPart(dev, at + 1, epcs[..|epcs| / 2], depth + 1, dev(at, epcs).value);
    right := FetchPart(dev, left.next, epcs[|epcs| / 2..], depth + 1, dev(at, epcs).value);
    FetchHalved(dev, at, epcs, depth, left, right);
  }

  lemma AskedConcat(before: seq<seq<Byte>>, epcs: seq<Byte>, left: seq<seq<Byte>>, right: seq<seq<Byte>>)
    ensures before + [epcs] + left + right == before + ([epcs] + left + right)
  {
  }

  // ----- The client -----

  class Client {
    const net: Network
    /** The requests sent so far, oldest first. */
    var sent: seq<seq<Byte>>
    ghost const device: Oracle

    ghost predicate Valid() {
      forall n: nat, epcs: seq<Byte> {:trigger AnswerOf(net, n, epcs)} :: device(n, epcs) == AnswerOf(net, n, epcs)
    }

    constructor (net: Network)
      ensures this.net == net && sent == [] && Valid()
    {
      this.net := net;
      device := (n: nat, epcs: seq<Byte>) => AnswerOf(net, n, epcs);
      sent := [];
    }

    method SendGet(epcs: seq<Byte>) returns (r: Result<seq<Byte>, FetchError>)
      modifies this`sent
      ensures |epcs| == 0 ==> r == Err(NoEpcs) && sent == old(sent)
      ensures |epcs| > 0 ==> sent == old(sent) + [epcs]
      ensures |epcs| > 0 ==>
                r == match net(|old(sent)|, epcs) case None => Err(SendFailed) case Some(raw) => Ok(raw)
    {
      if |epcs| == 0 {
        return Err(NoEpcs);
      }
      var answer := net(|sent|, epcs);
      sent := sent + [epcs];
      if answer.None? {
        return Err(SendFailed);
      }
      return Ok(answer.value);
    }

    method GetProps(epcs: seq<Byte>) returns (r: Result<seq<Property>, FetchError>)
      requires Valid()
      modifies this`sent
      ensures r == Fetch(device, |old(sent)|, epcs, 0).run.Result()
      ensures sent == old(sent) + Fetch(device, |old(sent)|, epcs, 0).run.Asked()
      ensures |sent| == Fetch(device, |old(sent)|, epcs, 0).next
    {
      ghost var step;
      r, step := GetPropsAdaptive(epcs, 0);
    }

    /** One request and the properties accepted from its answer. */
    method Ask(epcs: seq<Byte>) returns (r: Result<seq<Property>, FetchError>)
      requires Valid()
      modifies this`sent
      ensures |epcs| == 0 ==> r == Err(NoEpcs) && sent == old(sent)
      ensures |epcs| > 0 ==> r == device(|old(sent)|, epcs) && sent == old(sent) + [epcs]
    {
      var raw := SendGet(epcs);
      assert |epcs| > 0 ==> device(|old(sent)|, epcs) == AnswerOf(net, |old(sent)|, epcs);
      if raw.Err? {
        return Err(raw.error);
      }
      var frame := ParseFrame(raw.value);
      if frame.Err? {
        return Err(BadAnswer);
      }
      var props := frame.value.props;
      if frame.value.esv != ESV_GET_RES {
        if frame.value.esv != ESV_GET_SNA {
          return Err(BadAnswer);
        }
        props := KeepWithData(props);
      }
      return Ok(props);
    }

    method GetPropsAdaptive(epcs: seq<Byte>, depth: nat)
      returns (r: Result<seq<Property>, FetchError>, ghost step: Step)
      requires Valid()
      modifies this`sent
      ensures step == Fetch(device, |old(sent)|, epcs, depth) && step.next == |sent|
      ensures r == step.run.Result() && sent == old(sent) + step.run.Asked()
      decreases |epcs|, 1
    {
      ghost var at := |sent|;
      var missing, final;
      r, missing, final, step := AskWhole(epcs, depth);
      if !final {
        ghost var props, left, right := r.value, step, step;
        r, left, right := RetryHalves(epcs, depth, r.value, missing, at + 1);
        step := Step(Halved(at, epcs, props, left.run, right.run), right.next);
        FetchHalved(device, at, epcs, depth, left, right);
        AskedConcat(old(sent), epcs, left.run.Asked(), right.run.Asked());
      }
    }

    /** The first request of a fetch: it is final if it fails, lacks nothing or cannot be split. */
    method AskWhole(epcs: seq<Byte>, depth: nat)
      returns (r: Result<seq<Property>, FetchError>, missing: seq<Byte>, final: bool, ghost step: Step)
      requires Valid()
      modifies this`sent
      ensures final ==>
                && step == Fetch(device, |old(sent)|, epcs, depth) && step.next == |sent|
                && r == step.run.Result() && sent == old(sent) + step.run.Asked()
      ensures !final ==>
                && |epcs| >= 2 && depth < MAX_ADAPTIVE_SPLIT_DEPTH && sent == old(sent) + [epcs]
                && r.Ok? && r == device(|old(sent)|, epcs) && !Covers(r.value, epcs)
                && forall e :: e in missing <==> e in epcs && e !in EpcsOf(r.value)
    {
      ghost var at := |sent|;
      r := Ask(epcs);
      missing, final, step := [], true, Step(NotAsked, at);
      FetchUndivided(device, at, epcs, depth);
      if r.Err? {
        step := Step(Refused(at, epcs, r.error), |sent|);
        return;
      }
      missing := MissingEpcs(epcs, r.value);
      NoneMissing(epcs, missing, r.value);
      final := |missing| == 0 || |epcs| <= 1 || depth >= MAX_ADAPTIVE_SPLIT_DEPTH;
      step := Step(Whole(at, epcs, r.value), at + 1);
    }

    /** The retry after a partial answer: ask each half that lacks something, and merge what comes back. */
    method RetryHalves(epcs: seq<Byte>, depth: nat, props: seq<Property>, missing: seq<Byte>, ghost at: nat)
      returns (r: Result<seq<Property>, FetchError>, ghost left: Step, ghost right: Step)
      requires at == |sent| && Valid() && |epcs| >= 2
      requires forall e :: e in missing <==> e in epcs && e !in EpcsOf(props)
      modifies this`sent
      ensures left == FetchPart(device, at, epcs[..|epcs| / 2], depth + 1, props)
      ensures right == FetchPart(device, left.next, epcs[|epcs| / 2..], depth + 1, props) && right.next == |sent|
      ensures r == MergedResult(props + left.run.Props() + right.run.Props())
      ensures sent == old(sent) + left.run.Asked() + right.run.Asked()
      decreases |epcs|, 0
    {
      var mid := |epcs| / 2;
      var fromLeft, fromRight;
      fromLeft, left := RetryHalf(epcs[..mid], depth + 1, props, missing, at);
      fromRight, right := RetryHalf(epcs[mid..], depth + 1, props, missing, left.next);
      r := MergeAnswers(props, fromLeft, fromRight);
    }

    /** One pass of the loop over the two halves: ask if something is missing; a failed half brings nothing. */
    method RetryHalf(part: seq<Byte>, depth: nat, props: seq<Property>, missing: seq<Byte>, ghost at: nat)
      returns (found: seq<Property>, ghost step: Step)
      requires at == |sent| && Valid() && Lacking(part, missing, props)
      modifies this`sent
      ensures step == FetchPart(device, at, part, depth, props) && step.next == |sent|
      ensures found == step.run.Props() && sent == old(sent) + step.run.Asked()
      decreases |part|, 2
    {
      found, step := [], Step(NotAsked, at);
      var wanted := ContainsAny(part, missing);
      if wanted {
        var r;
        r, step := GetPropsAdaptive(part, depth);
        if r.Ok? {
          found := r.value;
        }
      }
    }
  }

  // ----- The loops over property lists -----

  lemma {:induction false} WithDataAppend(props: seq<Property>, p: Property)
    ensures WithData(props + [p]) == WithData(props) + if p.pdc > 0 then [p] else []
  {
    if |props| == 0 {
      assert [p][1..] == [];
    } else {
      assert (props + [p])[1..] == props[1..] + [p];
      WithDataAppend(props[1..], p);
    }
  }

  method KeepWithData(props: seq<Property>) returns (kept: seq<Property>)
    ensures kept == WithData(props)
  {
    kept := [];
    for i := 0 to |props|
      invariant kept == WithData(props[..i])
    {
      assert props[..i + 1] == props[..i] + [props[i]];
      WithDataAppend(props[..i], props[i]);
      if props[i].pdc > 0 {
        kept := kept + [props[i]];
      }
    }
    assert props[..|props|] == props;
  }

  method MissingEpcs(requested: seq<Byte>, props: seq<Property>) returns (missing: seq<Byte>)
    ensures forall e :: e in missing <==> e in requested && e !in EpcsOf(props)
  {
    var seen: set<Byte> := {};
    for i := 0 to |props|
      invariant seen == set j | 0 <= j < i :: props[j].epc
    {
      seen := seen + {props[i].epc};
    }
    missing := [];
    for i := 0 to |requested|
      invariant forall e :: e in missing <==> e in requested[..i] && e !in seen
    {
      assert requested[..i + 1] == requested[..i] + [requested[i]];
      if requested[i] !in seen {
        missing := missing + [requested[i]];
      }
    }
    assert requested[..|requested|] == requested;
  }

  method ContainsAny(candidates: seq<Byte>, wanted: seq<Byte>) returns (any: bool)
    ensures any <==> exists e :: e in candidates && e in wanted
  {
    var lookup: set<Byte> := {};
    for i := 0 to |wanted|
      invariant lookup == set j | 0 <= j < i :: wanted[j]
    {
      lookup := lookup + {wanted[i]};
    }
    for i := 0 to |candidates|
      invariant forall j :: 0 <= j < i ==> candidates[j] !in wanted
    {
      if candidates[i] in lookup {
        assert candidates[i] in candidates && candidates[i] in wanted;
        return true;
      }
    }
    return false;
  }

  /** dst holds what was kept of `sofar`; src is merged into it. */
  method MergeProps(dst: Table, src: seq<Property>, ghost sofar: seq<Property>) returns (merged: Table)
    requires dst == TableOf(sofar)
    ensures merged == TableOf(sofar + src)
  {
    merged := dst;
    assert sofar + src[..0] == sofar;
    for i := 0 to |src|
      invariant merged == TableOf(sofar + src[..i])
    {
      var p := src[i];
      ghost var seen := sofar + src[..i];
      assert sofar + src[..i + 1] == seen + [p];
      TableAppend(seen, p);
      if p.epc !in merged || (|merged[p.epc].edt| == 0 && |p.edt| > 0) {
        merged := merged[p.epc := p];
      }
    }
    assert src[..|src|] == src;
  }

  /** The first answer, then what the left and the right half brought, merged into one list. */
  method MergeAnswers(props: seq<Property>, left: seq<Property>, right: seq<Property>)
    returns (r: Result<seq<Property>, FetchError>)
    ensures r == MergedResult(props + left + right)
  {
    var merged := MergeProps(map[], props, []);
    assert [] + props == props;
    merged := MergeProps(merged, left, props);
    merged := MergeProps(merged, right, props + left);
    var out := MapToProps(merged);
    if |out| == 0 {
      return Err(NothingReturned);
    }
    return Ok(out);
  }

  lemma TableAppend(src: seq<Property>, p: Property)
    ensures var t := TableOf(src);
            TableOf(src + [p]) == if p.epc !in t || (t[p.epc].edt == [] && p.edt != []) then t[p.epc := p] else t
  {
    var t, t' := TableOf(src), TableOf(src + [p]);
    EpcsAppend(src, p);
    assert (src + [p])[..|src|] == src;
    forall e | e in t'.Keys
      ensures Best(src + [p], e) ==
              if e == p.epc && (e !in t || (t[e].edt == [] && p.edt != [])) then Some(p) else Best(src, e)
    {
      BestExists(src, e);
    }
    assert t'.Keys == t.Keys + {p.epc};
  }

  /** Collecting the keys, sorting them and listing the entries is listing the entries by ascending key. */
  method MapToProps(props: Table) returns (out: seq<Property>)
    ensures out == Sorted(props)
  {
    out := [];
    for k := 0 to 256
      invariant out == Listed(props, k)
    {
      if k in props {
        out := out + [props[k]];
      }
    }
  }

  /** Within this part, missing lists exactly the codes that have no property. */
  ghost predicate Lacking(part: seq<Byte>, missing: seq<Byte>, props: seq<Property>) {
    forall e :: e in part ==> (e in missing <==> e !in EpcsOf(props))
  }

  lemma NoneMissing(epcs: seq<Byte>, missing: seq<Byte>, props: seq<Property>)
    requires forall e :: e in missing <==> e in epcs && e !in EpcsOf(props)
    ensures |missing| == 0 <==> Covers(props, epcs)
  {
    if |missing| > 0 {
      assert missing[0] in missing;
    }
  }
}
