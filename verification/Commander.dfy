/**
 * Commands on switch, select and number entities: encoding and sending the value, then reading it back up to
 * three times before the cache is told. Topic matching, the writability check and parsing the payload's text are
 * outside the model: a command is what the payload was found to mean.
 */
module Commander {
  import opened Bytes
  import opened Results
  import opened Protocol
  import opened Specs
  import opened Encoder
  import opened Metrics
  import Client
  import Cache

  const VERIFY_ATTEMPTS := 3

  datatype PendingUpdate = PendingUpdate(epc: Byte, edt: seq<Byte>)

  datatype Command =
    | SwitchOn
    | SwitchOff
    | Select(option: string)
    | Number(value: real)
    | Invalid

  /** A write sent to the device; SetI is not answered. */
  datatype Write = Write(epc: Byte, edt: seq<Byte>, answered: bool)

  /** What the handler leaves to a goroutine of its own. */
  datatype FollowUp = Nothing | ReadOnce(epc: Byte) | Verify(updates: seq<PendingUpdate>)

  // ----- Sending -----

  function CommandedValue(ms: MetricSpec, cmd: Command): Option<real> {
    match cmd
    case SwitchOn => Some(if "on" in ms.reverseLabels then ms.reverseLabels["on"] as real else 1.0)
    case SwitchOff => Some(if "off" in ms.reverseLabels then ms.reverseLabels["off"] as real else 0.0)
    case Select(option) => if option in ms.reverseLabels then Some(ms.reverseLabels[option] as real) else None
    case Number(value) => Some(value)
    case Invalid => None
  }

  /** The pre-set a metric asks for, if it names one that can be found and encoded. */
  function PreSet(ms: MetricSpec, metrics: seq<MetricSpec>, platform: Int64): Option<PendingUpdate> {
    match FindByEpc(metrics, ms.preSetEpc)
    case None => None
    case Some(pre) =>
      if Encodable(pre) then Some(PendingUpdate(ms.preSetEpc, EdtFor(ms.preSetValue as real, pre, platform))) else None
  }

  function Written(ms: MetricSpec, cmd: Command, platform: Int64): Option<PendingUpdate> {
    match CommandedValue(ms, cmd)
    case None => None
    case Some(v) => if Encodable(ms) then Some(PendingUpdate(ms.epc, EdtFor(v, ms, platform))) else None
  }

  /** A write that was answered with a Set_Res, whatever properties it lists. */
  predicate Accepted(answer: Option<seq<Byte>>) {
    answer.Some? && IsSetRes(answer.value)
  }

  /**
   * The pre-set goes first and its failure is ignored; then the value is written. Only a write that was
   * answered with a Set_Res is verified, together with its pre-set; a refused one is followed by one plain read.
   */
  ghost predicate Executes(ms: MetricSpec, metrics: seq<MetricSpec>, cmd: Command, answers: nat -> Option<seq<Byte>>,
                           platform: Int64, sent: seq<Write>, next: FollowUp) {
    var pre, main := PreSet(ms, metrics, platform), Written(ms, cmd, platform);
    var before := if ms.preSetEpc != 0 && pre.Some? then [Write(pre.value.epc, pre.value.edt, true)] else [];
    if (ms.preSetEpc != 0 && pre.None?) || main.None? then sent == before && next == Nothing
    else
      && sent == before + [Write(ms.epc, main.value.edt, !ms.fireAndForget)]
      && next == (if ms.fireAndForget then Nothing
                  else if !Accepted(answers(|before|)) then ReadOnce(ms.epc)
                  else Verify([main.value] + if ms.preSetEpc != 0 then [pre.value] else []))
  }

  method ValueToWrite(ms: MetricSpec, cmd: Command) returns (value: Option<real>)
    ensures value == CommandedValue(ms, cmd)
  {
    match cmd {
      case SwitchOn =>
        if "on" in ms.reverseLabels {
          return Some(ms.reverseLabels["on"] as real);
        }
        return Some(1.0);
      case SwitchOff =>
        if "off" in ms.reverseLabels {
          return Some(ms.reverseLabels["off"] as real);
        }
        return Some(0.0);
      case Select(option) =>
        if option in ms.reverseLabels {
          return Some(ms.reverseLabels[option] as real);
        }
        return None;
      case Number(v) =>
        return Some(v);
      case Invalid =>
        return None;
    }
  }

  method ExecuteWritableSet(ms: MetricSpec, metrics: seq<MetricSpec>, cmd: Command, answers: nat -> Option<seq<Byte>>,
                            platform: Int64)
    returns (sent: seq<Write>, next: FollowUp)
    ensures Executes(ms, metrics, cmd, answers, platform, sent, next)
  {
    sent, next := [], Nothing;
    var preEdt: seq<Byte> := [];
    if ms.preSetEpc != 0 {
      var pre := FindMetricSpecByEpc(metrics, ms.preSetEpc);
      if pre.None? {
        return;
      }
      var encoded := EncodeValueToEdt(ms.preSetValue as real, pre.value, platform);
      if encoded.Err? {
        return;
      }
      preEdt := encoded.value;
      sent := [Write(ms.preSetEpc, preEdt, true)];
    }
    var value := ValueToWrite(ms, cmd);
    if value.None? {
      return;
    }
    var edt := EncodeValueToEdt(value.value, ms, platform);
    if edt.Err? {
      return;
    }
    sent := sent + [Write(ms.epc, edt.value, !ms.fireAndForget)];
    if ms.fireAndForget {
      return;
    }
    var accepted := false;
    var answer := answers(|sent| - 1);
    if answer.Some? {
      accepted := ParseSetRes(answer.value);
    }
    if !accepted {
      next := ReadOnce(ms.epc);
      return;
    }
    var updates := [PendingUpdate(ms.epc, edt.value)];
    if ms.preSetEpc != 0 {
      updates := updates + [PendingUpdate(ms.preSetEpc, preEdt)];
    }
    next := Verify(updates);
  }

  /** A Set_Res answers a write: a datagram with the right header whose service code is 0x71. */
  lemma AnswerAccepts(answer: Option<seq<Byte>>)
    ensures Accepted(answer) <==>
            answer.Some? && |answer.value| >= 12 && answer.value[0] == 0x10 && answer.value[1] == 0x81 &&
            answer.value[10] == 0x71
  {
  }

  /**
   * At most two writes are sent, the value last and before it only the pre-set. What is verified is what was sent, and
   * only if the value's write was answered with a Set_Res; a refused write is followed by a read of its code, and one
   * that asks for no answer by nothing.
   */
  lemma SentIsFollowedUp(ms: MetricSpec, metrics: seq<MetricSpec>, cmd: Command, answers: nat -> Option<seq<Byte>>,
                         platform: Int64, sent: seq<Write>, next: FollowUp)
    ensures Executes(ms, metrics, cmd, answers, platform, sent, next) ==>
              && |sent| <= 2 && (ms.preSetEpc == 0 ==> |sent| <= 1)
              && (ms.preSetEpc != 0 && |sent| > 0 ==> sent[0].epc == ms.preSetEpc && sent[0].answered)
              && (next.Nothing? ==>
                    |sent| <= (if ms.preSetEpc != 0 then 1 else 0) || (ms.fireAndForget && !sent[|sent| - 1].answered))
              && (!next.Nothing? ==> !ms.fireAndForget && |sent| == if ms.preSetEpc != 0 then 2 else 1)
    ensures Executes(ms, metrics, cmd, answers, platform, sent, next) && next.ReadOnce? ==>
              && |sent| > 0 && sent[|sent| - 1].epc == ms.epc == next.epc && sent[|sent| - 1].answered
              && !Accepted(answers(|sent| - 1))
    ensures Executes(ms, metrics, cmd, answers, platform, sent, next) && next.Verify? ==>
              && |sent| > 0 && Accepted(answers(|sent| - 1)) && |next.updates| == |sent|
              && sent[|sent| - 1] == Write(ms.epc, next.updates[0].edt, true) && next.updates[0].epc == ms.epc
              && (ms.preSetEpc != 0 ==>
                    |sent| == 2 && next.updates[1].epc == ms.preSetEpc &&
                    sent[0] == Write(ms.preSetEpc, next.updates[1].edt, true))
  {
  }

  /** The value is sent exactly when there is one and the pre-set, if any, can be found and encoded. */
  lemma ValueIsSent(ms: MetricSpec, metrics: seq<MetricSpec>, cmd: Command, answers: nat -> Option<seq<Byte>>,
                    platform: Int64, sent: seq<Write>, next: FollowUp)
    ensures Executes(ms, metrics, cmd, answers, platform, sent, next) ==>
              var written := Written(ms, cmd, platform);
              if written.Some? && (ms.preSetEpc == 0 || PreSet(ms, metrics, platform).Some?)
              then sent != [] && sent[|sent| - 1] == Write(ms.epc, written.value.edt, !ms.fireAndForget)
              else next.Nothing? && |sent| <= if ms.preSetEpc != 0 then 1 else 0
  {
  }

  /** The pre-set has the value the metric names for it, encoded for the metric that has its code. */
  lemma PreSetIsEncoded(ms: MetricSpec, metrics: seq<MetricSpec>, platform: Int64)
    ensures PreSet(ms, metrics, platform).Some? ==>
              exists pre :: pre in metrics && pre.epc == ms.preSetEpc != 0 && Encodable(pre) &&
                PreSet(ms, metrics, platform).value.epc == ms.preSetEpc &&
                PreSet(ms, metrics, platform).value.edt == EdtFor(ms.preSetValue as real, pre, platform)
    ensures PreSet(ms, metrics, platform).None? ==>
              ms.preSetEpc == 0 || (forall pre :: pre in metrics ==> pre.epc != ms.preSetEpc) ||
              exists pre :: pre in metrics && pre.epc == ms.preSetEpc && !Encodable(pre)
  {
  }

  /** Only the pre-set is sent exactly when it can be sent and the command stands for nothing that can be written. */
  lemma PreSetAlone(ms: MetricSpec, metrics: seq<MetricSpec>, cmd: Command, answers: nat -> Option<seq<Byte>>,
                    platform: Int64, sent: seq<Write>, next: FollowUp)
    ensures Executes(ms, metrics, cmd, answers, platform, sent, next) && ms.preSetEpc != 0 ==>
              && (|sent| == 1 <==> PreSet(ms, metrics, platform).Some? &&
                                   (CommandedValue(ms, cmd).None? || !Encodable(ms)))
              && (|sent| == 1 ==> sent[0].epc == ms.preSetEpc && next == Nothing)
  {
  }

  /** So an unknown option sends the pre-set 0x42 of code 0xB0, and nothing else. */
  lemma UnknownOptionSendsPreSet(ms: MetricSpec, pre: MetricSpec, option: string, answers: nat -> Option<seq<Byte>>,
                                 platform: Int64, sent: seq<Write>, next: FollowUp)
    requires ms.preSetEpc == pre.epc == 0xB0 && ms.preSetValue == 0x42 && option !in ms.reverseLabels
    requires pre.size == 1 && !pre.signed && pre.scale == 1.0 && pre.labels == map[] && Encodable(pre)
    requires Executes(ms, [pre], Select(option), answers, platform, sent, next)
    ensures sent == [Write(0xB0, [0x42], true)] && next == Nothing
  {
    assert FindByEpc([pre], 0xB0) == Some(pre);
    assert EdtFor(66.0, pre, platform) == [0x42];
  }

  // ----- Merging what was read -----

  function CodesOf(updates: seq<PendingUpdate>): seq<Byte> {
    CodesBy(updates, (u: PendingUpdate) => u.epc)
  }

  function OnlyCodes(metrics: seq<MetricSpec>, epcs: seq<Byte>): seq<MetricSpec> {
    if |metrics| == 0 then []
    else
      var m := metrics[|metrics| - 1];
      OnlyCodes(metrics[..|metrics| - 1], epcs) + if m.epc in epcs then [m] else []
  }

  /**
   * The cache after the values of these codes were merged from these properties; `between` is what others do to it
   * from the look at the specs to the merge.
   */
  function Merged(s: Cache.State, key: string, props: seq<Property>, epcs: seq<Byte>, between: seq<Cache.Operation>)
    : Cache.State
  {
    var later := Cache.Followed(s, between);
    if key !in s.specs then later
    else
      var metrics := MetricsOf(props, OnlyCodes(s.specs[key], epcs));
      if metrics == map[] then later else Cache.Apply(later, Cache.Operation.MergeMetrics(key, metrics))
  }

  method MergePropsToCache(cache: Cache.Cache, dev: Cache.Device, props: seq<Property>, epcs: seq<Byte>,
                           between: seq<Cache.Operation>)
    modifies cache
    ensures cache.Value() == Merged(old(cache.Value()), Cache.KeyOf(dev), props, epcs, between)
  {
    var key := Cache.KeyOf(dev);
    if key !in cache.specs {
      cache.Others(between);
      return;
    }
    var requested: seq<MetricSpec> := [];
    var devSpecs := cache.specs[key];
    for i := 0 to |devSpecs|
      invariant requested == OnlyCodes(devSpecs[..i], epcs)
    {
      assert devSpecs[..i + 1][..i] == devSpecs[..i];
      if devSpecs[i].epc in epcs {
        requested := requested + [devSpecs[i]];
      }
    }
    assert devSpecs[..|devSpecs|] == devSpecs;
    var metrics := ParsePropsToMetrics(props, requested);
    cache.Others(between);
    if metrics != map[] {
      cache.MergeMetrics(dev, metrics);
    }
  }

  // ----- Verification -----

  /** The first property with this code. */
  function First(props: seq<Property>, epc: Byte): Option<Property> {
    if |props| == 0 then None
    else if props[0].epc == epc then Some(props[0])
    else First(props[1..], epc)
  }

  predicate Shows(props: seq<Property>, u: PendingUpdate) {
    First(props, u.epc).Some? && First(props, u.epc).value.edt == u.edt
  }

  /** Every update is there byte for byte. */
  predicate Matches(props: seq<Property>, updates: seq<PendingUpdate>) {
    forall i :: 0 <= i < |updates| ==> Shows(props, updates[i])
  }

  /** The k-th property is the first with this code and has this data. */
  predicate FirstIs(props: seq<Property>, u: PendingUpdate, k: nat) {
    && k < |props| && props[k].epc == u.epc && props[k].edt == u.edt
    && forall j :: 0 <= j < k ==> props[j].epc != u.epc
  }

  /** For every update the first property of its code has its data, and there is one. */
  lemma MatchesExactly(props: seq<Property>, updates: seq<PendingUpdate>)
    ensures Matches(props, updates) <==> forall u :: u in updates ==> exists k: nat :: FirstIs(props, u, k)
  {
    forall u ensures Shows(props, u) <==> exists k: nat :: FirstIs(props, u, k) {
      ShowsFirst(props, u);
    }
    assert forall i :: 0 <= i < |updates| ==> updates[i] in updates;
    assert Matches(props, updates) <==> forall u :: u in updates ==> Shows(props, u);
  }

  lemma {:induction false} ShowsFirst(props: seq<Property>, u: PendingUpdate)
    ensures Shows(props, u) <==> exists k: nat :: FirstIs(props, u, k)
  {
    if |props| > 0 && props[0].epc == u.epc {
      assert props[0].edt == u.edt ==> FirstIs(props, u, 0);
    } else if |props| > 0 {
      var rest := props[1..];
      ShowsFirst(rest, u);
      if k: nat :| FirstIs(rest, u, k) {
        assert FirstIs(props, u, k + 1);
      }
      if k: nat :| FirstIs(props, u, k) {
        assert FirstIs(rest, u, k - 1);
      }
    }
  }

  method AllMatch(props: seq<Property>, updates: seq<PendingUpdate>) returns (allMatched: bool)
    ensures allMatched <==> Matches(props, updates)
  {
    allMatched := true;
    for i := 0 to |updates|
      invariant allMatched
      invariant forall j :: 0 <= j < i ==> Shows(props, updates[j])
    {
      var u := updates[i];
      var found := false;
      for k := 0 to |props|
        invariant !found && allMatched
        invariant First(props, u.epc) == First(props[k..], u.epc)
      {
        assert props[k..][0] == props[k] && props[k..][1..] == props[k + 1..];
        if props[k].epc == u.epc {
          found := true;
          if props[k].edt != u.edt {
            allMatched := false;
          }
          break;
        }
      }
      if !found || !allMatched {
        assert !found ==> props[|props|..] == [];
        allMatched := false;
        return;
      }
    }
  }

  /** The verification reads of one command, one after the other, the first starting at request number `at`. */
  ghost predicate IsLog(log: seq<Client.Step>, dev: Client.Oracle, at: nat, epcs: seq<Byte>) {
    forall k :: 0 <= k < |log| ==> log[k] == Client.Fetch(dev, NextStart(log[..k], at), epcs, 0)
  }

  function NextStart(log: seq<Client.Step>, at: nat): nat {
    if |log| == 0 then at else log[|log| - 1].next
  }

  lemma LogAppend(log: seq<Client.Step>, read: Client.Step, dev: Client.Oracle, at: nat, epcs: seq<Byte>)
    requires IsLog(log, dev, at, epcs) && read == Client.Fetch(dev, NextStart(log, at), epcs, 0)
    ensures IsLog(log + [read], dev, at, epcs) && NextStart(log + [read], at) == read.next
  {
  }

  /** The reads follow one another, each a fetch of all the codes written. */
  lemma ReadsFollow(log: seq<Client.Step>, dev: Client.Oracle, at: nat, epcs: seq<Byte>)
    requires IsLog(log, dev, at, epcs)
    ensures |log| > 0 ==> log[0] == Client.Fetch(dev, at, epcs, 0)
    ensures forall k :: 0 <= k < |log| - 1 ==> log[k + 1] == Client.Fetch(dev, log[k].next, epcs, 0)
  {
  }

  /** Nothing read so far settles the matter. */
  ghost predicate Undecided(log: seq<Client.Step>, updates: seq<PendingUpdate>, cancelled: nat -> bool) {
    && (forall k :: 0 <= k < |log| ==> !Confirms(log[k], updates) && !cancelled(k))
    && (|log| == VERIFY_ATTEMPTS ==> log[|log| - 1].run.Result().Err?)
  }

  /** This read succeeded and shows every update. */
  predicate Confirms(read: Client.Step, updates: seq<PendingUpdate>) {
    read.run.Result().Ok? && Matches(read.run.Result().value, updates)
  }

  /** How the reads of a verification lead to its outcome. */
  ghost predicate Decides(log: seq<Client.Step>, updates: seq<PendingUpdate>, cancelled: nat -> bool,
      merge: Option<seq<Property>>) {
    var n := |log|;
    && n <= VERIFY_ATTEMPTS
    && (forall k: nat :: k < n ==> !cancelled(k))
    && (forall k :: 0 <= k < n - 1 ==> !Confirms(log[k], updates))
    && match merge
       case Some(props) =>
         n > 0 && log[n - 1].run.Result() == Ok(props) && (n == VERIFY_ATTEMPTS || Confirms(log[n - 1], updates))
       case None =>
         && (n > 0 ==> !Confirms(log[n - 1], updates))
         && if n < VERIFY_ATTEMPTS then cancelled(n) else log[n - 1].run.Result().Err?
  }

  /**
   * At most three reads, and the first that shows every update is the last. What is merged is that read, or the third
   * if it succeeded; nothing is merged exactly when the program stops first or the third read fails unconfirmed.
   */
  lemma DecisionIsLatest(log: seq<Client.Step>, updates: seq<PendingUpdate>, cancelled: nat -> bool,
                         merge: Option<seq<Property>>)
    requires Decides(log, updates, cancelled, merge)
    ensures |log| <= 3 && forall k: nat :: k < |log| ==> !cancelled(k)
    ensures forall k: nat :: k < |log| && log[k].run.Result().Ok? && Matches(log[k].run.Result().value, updates) ==>
              k == |log| - 1 && merge == Some(log[k].run.Result().value)
    ensures merge.Some? ==> |log| > 0 && log[|log| - 1].run.Result() == Ok(merge.value)
    ensures merge.Some? && |log| < 3 ==> Matches(merge.value, updates)
    ensures merge.None? ==> if |log| < 3 then cancelled(|log|) else log[2].run.Result().Err?
  {
  }

  /** One read more: it settles the matter, or the matter stays open. */
  lemma ReadDecides(log: seq<Client.Step>, read: Client.Step, updates: seq<PendingUpdate>, cancelled: nat -> bool)
    requires Undecided(log, updates, cancelled) && |log| < VERIFY_ATTEMPTS && !cancelled(|log|)
    ensures var props := read.run.Result();
            if props.Ok? && (Confirms(read, updates) || |log| + 1 == VERIFY_ATTEMPTS)
            then Decides(log + [read], updates, cancelled, Some(props.value))
            else Undecided(log + [read], updates, cancelled)
  {
  }

  /**
   * Reads back until a read confirms every update, the three attempts are used up or the program stops. What it
   * returns is what may be merged into the cache, and that is always the latest read.
   */
  method ReadUntilConfirmed(client: Client.Client, updates: seq<PendingUpdate>, cancelled: nat -> bool)
    returns (merge: Option<seq<Property>>, ghost log: seq<Client.Step>)
    requires client.Valid()
    modifies client`sent
    ensures IsLog(log, client.device, |old(client.sent)|, CodesOf(updates)) &&
        |client.sent| == NextStart(log, |old(client.sent)|)
    ensures Decides(log, updates, cancelled, merge)
  {
    log := [];
    var attempts := 0;
    ghost var at := |client.sent|;
    while attempts < VERIFY_ATTEMPTS
      invariant |log| == attempts <= VERIFY_ATTEMPTS && client.Valid()
      invariant IsLog(log, client.device, at, CodesOf(updates)) && |client.sent| == NextStart(log, at)
      invariant Undecided(log, updates, cancelled)
    {
      if cancelled(attempts) {
        return None, log;
      }
      var props, allMatched;
      ghost var read;
      props, allMatched, read := ReadAttempt(client, updates);
      ReadDecides(log, read, updates, cancelled);
      LogAppend(log, read, client.device, at, CodesOf(updates));
      log := log + [read];
      attempts := attempts + 1;
      if props.Err? {
        continue;
      }
      if allMatched || attempts == VERIFY_ATTEMPTS {
        return Some(props.value), log;
      }
    }
    return None, log;
  }

  method ReadAttempt(client: Client.Client, updates: seq<PendingUpdate>)
    returns (props: Result<seq<Property>, Client.FetchError>, allMatched: bool, ghost read: Client.Step)
    requires client.Valid()
    modifies client`sent
    ensures read == Client.Fetch(client.device, |old(client.sent)|, CodesOf(updates), 0) && |client.sent| == read.next
    ensures props == read.run.Result() && (allMatched <==> Confirms(read, updates))
  {
    read := Client.Fetch(client.device, |client.sent|, CodesOf(updates), 0);
    props := client.GetProps(CodesOf(updates));
    allMatched := false;
    if props.Ok? {
      allMatched := AllMatch(props.value, updates);
    }
  }

  /** The whole verification: at most one merge, at its end, whatever others did to the cache up to then. */
  method VerifyStateUpdate(cache: Cache.Cache, client: Client.Client, dev: Cache.Device, updates: seq<PendingUpdate>,
                           cancelled: nat -> bool, others: seq<Cache.Operation>,
                           between: seq<Cache.Operation>)
    returns (ghost log: seq<Client.Step>, ghost merge: Option<seq<Property>>)
    requires client.Valid()
    modifies cache, client`sent
    ensures IsLog(log, client.device, |old(client.sent)|, CodesOf(updates))
    ensures Decides(log, updates, cancelled, merge)
    ensures var s := Cache.Followed(old(cache.Value()), others);
            cache.Value() == if merge.None? then s
                             else Merged(s, Cache.KeyOf(dev), merge.value, CodesOf(updates), between)
  {
    var found;
    found, log := ReadUntilConfirmed(client, updates, cancelled);
    cache.Others(others);
    merge := found;
    if found.Some? {
      MergePropsToCache(cache, dev, found.value, CodesOf(updates), between);
    }
  }

  /** The single read after a refused write. */
  method ReadAndMergeProps(cache: Cache.Cache, client: Client.Client, dev: Cache.Device, epcs: seq<Byte>,
                           others: seq<Cache.Operation>, between: seq<Cache.Operation>)
    requires client.Valid()
    modifies cache, client`sent
    ensures var r := Client.Fetch(client.device, |old(client.sent)|, epcs, 0).run.Result();
            var s := Cache.Followed(old(cache.Value()), others);
            cache.Value() == if r.Err? then s else Merged(s, Cache.KeyOf(dev), r.value, epcs, between)
  {
    var props := client.GetProps(epcs);
    cache.Others(others);
    if props.Ok? {
      MergePropsToCache(cache, dev, props.value, epcs, between);
    }
  }
}
