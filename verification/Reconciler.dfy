/**
 * Capability reconciliation: one device is probed at most once a minute, by one goroutine at a time, and only for
 * what is missing. The property maps are read through the adaptive fetch; how an identity is read and decoded is
 * outside the model, so its result is a parameter.
 */
module Reconciler {
  import opened Bytes
  import opened Results
  import opened Protocol
  import PropertyMap
  import Client
  import AdaptiveFetch
  import opened Cache
  import R = ReconcilerRuns

  const SETMAP_EPC: Byte := 0x9E
  const STATMAP_EPC: Byte := 0x9D

  /** The property map read by request number `at`, if the device gives one. */
  function MapAnswer(dev: Client.Oracle, at: nat, epc: Byte): Option<set<Byte>> {
    match Client.Fetch(dev, at, [epc], 0).run.Result()
    case Err(_) => None
    case Ok(props) =>
      match Prop(props, epc)
      case None => None
      case Some(edt) => Some(PropertyMap.MapOf(edt))
  }

  method GetPropertyMap(client: Client.Client, epc: Byte) returns (r: Option<set<Byte>>)
    requires client.Valid()
    modifies client`sent
    ensures r == MapAnswer(client.device, |old(client.sent)|, epc)
    ensures |client.sent| == Client.Fetch(client.device, |old(client.sent)|, [epc], 0).next
  {
    var props := client.GetProps([epc]);
    if props.Err? {
      return None;
    }
    for i := 0 to |props.value|
      invariant Prop(props.value, epc) == Prop(props.value[i..], epc)
    {
      assert props.value[i..][0] == props.value[i] && props.value[i..][1..] == props.value[i + 1..];
      if props.value[i].epc == epc && |props.value[i].edt| > 0 {
        var m := PropertyMap.DecodePropertyMap(props.value[i].edt);
        return Some(m);
      }
    }
    assert props.value[|props.value|..] == [];
    return None;
  }

  // ----- What a reconciliation records -----

  /** What was heard of the missing parts. */
  datatype Answers = Answers(setmap: Option<set<Byte>>, statmap: Option<set<Byte>>, info: Option<DeviceInfo>) {
    predicate Any() {
      setmap.Some? || statmap.Some? || info.Some?
    }
  }

  function WithSetmap(s: State, key: string, codes: Option<set<Byte>>): State {
    if codes.Some? then Apply(s, Operation.SetWritable(key, codes.value)) else s
  }

  function WithStatmap(s: State, key: string, codes: Option<set<Byte>>): State {
    if codes.Some? then Apply(s, Operation.SetNotify(key, codes.value)) else s
  }

  function WithInfo(s: State, dev: Device, info: Option<DeviceInfo>): State {
    if info.Some? then Apply(s, Operation.UpdateInfo(KeyOf(dev), Completed(dev, info.value))) else s
  }

  /** The cache after one, two and all three parts, when others change it while each part is asked for. */
  function FirstHealed(s: State, dev: Device, during: nat -> seq<Operation>, a: Answers): State {
    WithSetmap(Followed(s, during(0)), KeyOf(dev), a.setmap)
  }

  function SecondHealed(s: State, dev: Device, during: nat -> seq<Operation>, a: Answers): State {
    WithStatmap(Followed(FirstHealed(s, dev, during, a), during(1)), KeyOf(dev), a.statmap)
  }

  function Healed(s: State, dev: Device, during: nat -> seq<Operation>, a: Answers): State {
    WithInfo(Followed(SecondHealed(s, dev, during, a), during(2)), dev, a.info)
  }

  /** Each part is asked for exactly when it is missing as its turn comes, and these are the device's answers. */
  predicate HeardFrom(oracle: Client.Oracle, at: nat, s: State, dev: Device, cancelled: nat -> bool,
                      during: nat -> seq<Operation>, identity: Option<DeviceInfo>, a: Answers) {
    var key, asks := KeyOf(dev), KeyOf(dev) !in s.writable && !cancelled(0);
    var at' := if asks then Client.Fetch(oracle, at, [SETMAP_EPC], 0).next else at;
    && a.setmap == (if asks then MapAnswer(oracle, at, SETMAP_EPC) else None)
    && a.statmap == (if key in FirstHealed(s, dev, during, a).notify || cancelled(1) then None
                     else MapAnswer(oracle, at', STATMAP_EPC))
    && a.info == IdentityHeard(SecondHealed(s, dev, during, a), key, cancelled(2), identity)
  }

  /** An identity is recorded only where none is known, and only if it identifies anything. */
  function IdentityHeard(s: State, key: string, cancelled: bool, identity: Option<DeviceInfo>): Option<DeviceInfo> {
    if !s.HasInfo(key) && !cancelled && identity.Some? && R.Identifies(identity.value) then identity else None
  }

  /** Recorded maps stay as they are, and a known identity stays known. */
  ghost predicate Grows(s: State, s': State, key: string) {
    && (forall k :: k in s.writable ==> k in s'.writable && s'.writable[k] == s.writable[k])
    && (forall k :: k in s.notify ==> k in s'.notify && s'.notify[k] == s.notify[k])
    && (s.HasInfo(key) ==> s'.HasInfo(key))
  }

  predicate Gains(s: State, s': State, key: string) {
    || (key !in s.writable && key in s'.writable)
    || (key !in s.notify && key in s'.notify)
    || (!s.HasInfo(key) && s'.HasInfo(key))
  }

  lemma SetmapGains(s: State, key: string, codes: Option<set<Byte>>)
    requires codes.Some? ==> key !in s.writable
    ensures var s' := WithSetmap(s, key, codes); Grows(s, s', key) && (codes.Some? <==> Gains(s, s', key))
  {
  }

  lemma StatmapGains(s: State, key: string, codes: Option<set<Byte>>)
    requires codes.Some? ==> key !in s.notify
    ensures var s' := WithStatmap(s, key, codes); Grows(s, s', key) && (codes.Some? <==> Gains(s, s', key))
  {
  }

  lemma InfoGains(s: State, dev: Device, info: Option<DeviceInfo>)
    requires info.Some? ==> !s.HasInfo(KeyOf(dev)) && R.Identifies(info.value)
    ensures var s' := WithInfo(s, dev, info); Grows(s, s', KeyOf(dev)) && (info.Some? <==> Gains(s, s', KeyOf(dev)))
  {
    if info.Some? {
      assert WithInfo(s, dev, info).Entry(KeyOf(dev)).info == Completed(dev, info.value);
    }
  }

  lemma GainsLast(s: State, s1: State, s2: State, key: string)
    requires Grows(s, s1, key) && Grows(s1, s2, key)
    ensures Grows(s, s2, key)
    ensures Gains(s, s1, key) || Gains(s1, s2, key) ==> Gains(s, s2, key)
  {
  }

  /**
   * A reconciliation that nobody disturbs changes the cache exactly when the subscriber is told, and then it fills in
   * something missing; it never changes a recorded map or loses an identity.
   */
  lemma HealsAccumulate(oracle: Client.Oracle, at: nat, s: State, dev: Device, cancelled: nat -> bool,
                        identity: Option<DeviceInfo>, a: Answers)
    requires HeardFrom(oracle, at, s, dev, cancelled, (k: nat) => [], identity, a)
    ensures var s' := Healed(s, dev, (k: nat) => [], a);
            && Grows(s, s', KeyOf(dev)) && (s' != s <==> a.Any()) && (a.Any() ==> Gains(s, s', KeyOf(dev)))
  {
    var key, quiet := KeyOf(dev), (k: nat) => [];
    var s1, s2 := WithSetmap(s, key, a.setmap), WithStatmap(WithSetmap(s, key, a.setmap), key, a.statmap);
    assert FirstHealed(s, dev, quiet, a) == s1 && SecondHealed(s, dev, quiet, a) == s2;
    SetmapGains(s, key, a.setmap);
    StatmapGains(s1, key, a.statmap);
    InfoGains(s2, dev, a.info);
    GainsLast(s, s1, s2, key);
    GainsLast(s, s2, WithInfo(s2, dev, a.info), key);
  }

  function CodesAnswer(codes: Option<set<Byte>>): R.Answer {
    match codes case None => R.NoAnswer case Some(c) => R.Codes(c)
  }

  function IdentityAnswer(identity: Option<DeviceInfo>): R.Answer {
    match identity case None => R.NoAnswer case Some(info) => R.Identity(info)
  }

  class CapabilityReconciler {
    const cache: Cache
    const client: Client.Client
    var lastAttempt: map<string, Time>
    /** The keys with a call in flight in the single-flight group. */
    var inFlight: set<string>

    constructor (cache: Cache, client: Client.Client)
      ensures this.cache == cache && this.client == client && lastAttempt == map[] && inFlight == {}
    {
      this.cache, this.client, lastAttempt, inFlight := cache, client, map[], {};
    }

    /** The tables and the cache are those of the interleaved system in state s. */
    ghost predicate Shows(s: R.System)
      reads this, cache
    {
      lastAttempt == s.lastAttempt && inFlight == s.inFlight.Keys && cache.Value() == s.cache
    }

    /** The cooldown check of ReconcileDevice; the clock is read twice under the lock. */
    method Gate(dev: Device, check: Time, record: Time, ghost s: R.System) returns (pass: bool)
      requires Shows(s) && s.clock == check <= record
      modifies this`lastAttempt
      ensures pass <==> R.Incomplete(cache.Value(), KeyOf(dev)) && R.Cooled(old(lastAttempt), KeyOf(dev), check)
      ensures var s, key := cache.Value(), KeyOf(dev);
              pass <==>
                && (key !in s.writable || key !in s.notify ||
                    (s.Entry(key).info.manufacturer == "" && s.Entry(key).info.uid == ""))
                && (key !in old(lastAttempt) || check - old(lastAttempt)[key] >= 60_000_000_000)
      ensures lastAttempt == if pass then old(lastAttempt)[KeyOf(dev) := record] else old(lastAttempt)
      ensures var s' := R.Act(s, R.ReconcileDevice(dev, R.Incomplete(s.cache, KeyOf(dev)), record - check));
              && Shows(s')
              && s'.marks == s.marks + (if pass then [R.Mark(KeyOf(dev), true, record)] else [])
              && s'.jobs == s.jobs + if pass then [R.Job(dev, false, R.Called)] else []
    {
      if !R.Incomplete(cache.Value(), KeyOf(dev)) {
        return false;
      }
      var key := KeyOf(dev);
      if key in lastAttempt && check - lastAttempt[key] < R.RECONCILE_COOLDOWN {
        return false;
      }
      lastAttempt := lastAttempt[key := record];
      return true;
    }

    /** The group's entry: a call whose key is in flight waits for that one instead of running its body. */
    method Enter(dev: Device, ghost s: R.System, ghost i: nat) returns (runs: bool)
      requires Shows(s) && i < |s.jobs| && s.jobs[i].dev == dev && s.jobs[i].phase.Called?
      modifies this`inFlight
      ensures Shows(R.Act(s, R.Enter(i)))
      ensures runs == (KeyOf(dev) !in old(inFlight))
      ensures var p := R.Act(s, R.Enter(i)).jobs[i].phase;
              p == if runs then R.Running(if s.jobs[i].refresh then R.AskIdentity else R.CheckWritable) else R.Waiting
    {
      if KeyOf(dev) in inFlight {
        return false;
      }
      inFlight := inFlight + {KeyOf(dev)};
      return true;
    }

    method Leave(dev: Device, ghost s: R.System, ghost i: nat)
      requires Shows(s) && R.At(s, i, dev, R.Finish)
      modifies this`inFlight
      ensures Shows(R.Act(s, R.Leave(i))) && R.Act(s, R.Leave(i)).jobs[i].phase.Done?
    {
      inFlight := inFlight - {KeyOf(dev)};
    }

    /**
     * The goroutine that a passed gate starts. It runs a body unless one of the device is in flight; while the body
     * asks, others may do anything to the cache.
     */
    method RunReconcile(dev: Device, identity: Option<DeviceInfo>, cancelled: nat -> bool,
                        during: nat -> seq<Operation>, ghost s: R.System, ghost i: nat)
      returns (runs: bool, ghost s': R.System, ghost a: Answers)
      requires client.Valid() && Shows(s) && i < |s.jobs| && s.jobs[i] == R.Job(dev, false, R.Called)
      modifies this`inFlight, cache, client`sent
      ensures Shows(s') && runs == (KeyOf(dev) !in old(inFlight))
      ensures !runs ==> s' == R.Act(s, R.Enter(i)) && cache.Value() == old(cache.Value()) &&
                        cache.delivered == old(cache.delivered)
      ensures runs ==> s' == R.Act(BodyEnd(R.Act(s, R.Enter(i)), i, cancelled, during, identity, a), R.Leave(i))
      ensures runs ==> HeardFrom(client.device, |old(client.sent)|, old(cache.Value()), dev, cancelled, during,
                                 identity, a)
      ensures runs ==> cache.Value() == Healed(old(cache.Value()), dev, during, a)
      ensures runs ==>
                cache.delivered == old(cache.delivered) +
                if cache.subscribed && (a.setmap.Some? || a.statmap.Some? || a.info.Some?)
                then [cache.Value().Snapshot(dev, true)] else []
    {
      a := Answers(None, None, None);
      runs := Enter(dev, s, i);
      s' := R.Act(s, R.Enter(i));
      if runs {
        a := DoReconcile(dev, identity, cancelled, during, s', i);
        s' := BodyEnd(s', i, cancelled, during, identity, a);
        Leave(dev, s', i);
        s' := R.Act(s', R.Leave(i));
      }
    }

    /**
     * A refresh always marks the device. If a body of the device is in flight it waits for that one and renews
     * nothing; otherwise it renews the identity and then heals whatever is still missing.
     */
    method RefreshDevice(dev: Device, now: Time, identity: Option<DeviceInfo>, again: Option<DeviceInfo>,
                         cancelled: nat -> bool, before: seq<Operation>, during: nat -> seq<Operation>,
                         ghost s: R.System)
      returns (runs: bool, ghost s': R.System, ghost a: Answers)
      requires client.Valid() && Shows(s) && s.clock == now
      modifies this`lastAttempt, this`inFlight, cache, client`sent
      ensures lastAttempt == old(lastAttempt)[KeyOf(dev) := now]
      ensures Shows(s') && runs == (KeyOf(dev) !in old(inFlight))
      ensures var entered := R.Act(R.Act(s, R.RefreshDevice(dev)), R.Enter(|s.jobs|));
              if !runs
              then s' == entered && cache.Value() == old(cache.Value()) && cache.delivered == old(cache.delivered)
              else s' == R.Act(RefreshEnd(entered, |s.jobs|, cancelled, before, during, identity, again, a),
                               R.Leave(|s.jobs|))
      ensures runs ==> Refreshes(client.device, |old(client.sent)|, old(cache.Value()), cache.Value(), dev, cancelled,
                                 before, during, identity, again, a)
      ensures runs ==>
                cache.delivered == old(cache.delivered) +
                if cache.subscribed && (a.setmap.Some? || a.statmap.Some? || a.info.Some?)
                then [cache.Value().Snapshot(dev, true)] else []
    {
      ghost var i := |s.jobs|;
      a := Answers(None, None, None);
      lastAttempt := lastAttempt[KeyOf(dev) := now];
      s' := R.Act(s, R.RefreshDevice(dev));
      runs := Enter(dev, s', i);
      s' := R.Act(s', R.Enter(i));
      if runs {
        s', a := RefreshBody(dev, identity, again, cancelled, before, during, s', i);
        Leave(dev, s', i);
        s' := R.Act(s', R.Leave(i));
      }
    }

    /** Others may do `before` to the cache while the identity is asked for, and the rest as in any body. */
    method RefreshBody(dev: Device, identity: Option<DeviceInfo>, again: Option<DeviceInfo>, cancelled: nat -> bool,
                       before: seq<Operation>, during: nat -> seq<Operation>, ghost s: R.System, ghost i: nat)
      returns (ghost s': R.System, ghost a: Answers)
      requires client.Valid() && Shows(s) && R.At(s, i, dev, R.AskIdentity)
      modifies cache, client`sent
      ensures Shows(s') && R.At(s', i, dev, R.Finish)
      ensures s' == RefreshEnd(s, i, cancelled, before, during, identity, again, a)
      ensures Refreshes(client.device, |old(client.sent)|, old(cache.Value()), cache.Value(), dev, cancelled, before,
                        during, identity, again, a)
      ensures cache.delivered == old(cache.delivered) +
              if cache.subscribed && (a.setmap.Some? || a.statmap.Some? || a.info.Some?)
              then [cache.Value().Snapshot(dev, true)] else []
    {
      a := Answers(None, None, None);
      cache.Others(before);
      if identity.Some? {
        cache.UpdateInfo(dev, identity.value);
      }
      RefreshStarts(R.Used(s, before), i, dev, identity);
      s' := Renewing(s, i, before, identity);
      if R.Incomplete(cache.Value(), KeyOf(dev)) {
        ghost var now := s';
        a := DoReconcile(dev, again, cancelled, during, now, i);
        s' := BodyEnd(now, i, cancelled, during, again, a);
      }
    }

    /**
     * Asks for what is missing and records what it hears. The subscriber is told exactly when something was recorded.
     * The three reads can each be prevented by cancellation, and while each is under way others may do anything to the
     * cache.
     */
    method DoReconcile(dev: Device, identity: Option<DeviceInfo>, cancelled: nat -> bool,
                       during: nat -> seq<Operation>, ghost s: R.System, ghost i: nat)
      returns (ghost a: Answers)
      requires client.Valid() && Shows(s) && R.At(s, i, dev, R.CheckWritable)
      modifies cache, client`sent
      ensures HeardFrom(client.device, |old(client.sent)|, old(cache.Value()), dev, cancelled, during, identity, a)
      ensures cache.Value() == Healed(old(cache.Value()), dev, during, a)
      ensures cache.delivered == old(cache.delivered) +
              if cache.subscribed && (a.setmap.Some? || a.statmap.Some? || a.info.Some?)
              then [cache.Value().Snapshot(dev, true)] else []
      ensures cache.subscribed == old(cache.subscribed)
      ensures var s' := BodyEnd(s, i, cancelled, during, identity, a); Shows(s') && R.At(s', i, dev, R.Finish)
    {
      var updated;
      updated, a := HealAll(dev, identity, cancelled, during, s, i);
      if updated {
        cache.TriggerUpdate(dev);
      }
    }

    /** The three parts of a reconciliation. */
    method HealAll(dev: Device, identity: Option<DeviceInfo>, cancelled: nat -> bool, during: nat -> seq<Operation>,
                   ghost s: R.System, ghost i: nat)
      returns (updated: bool, ghost a: Answers)
      requires client.Valid() && Shows(s) && R.At(s, i, dev, R.CheckWritable)
      modifies cache, client`sent
      ensures HeardFrom(client.device, |old(client.sent)|, old(cache.Value()), dev, cancelled, during, identity, a)
      ensures cache.Value() == Healed(old(cache.Value()), dev, during, a)
      ensures updated == (a.setmap.Some? || a.statmap.Some? || a.info.Some?)
      ensures cache.delivered == old(cache.delivered) && cache.subscribed == old(cache.subscribed)
      ensures var s' := BodyEnd(s, i, cancelled, during, identity, a); Shows(s') && R.At(s', i, dev, R.Finish)
    {
      var first, second, third;
      ghost var now, setmap, statmap, info := s, None, None, None;
      first, setmap := ReconcileWritable(dev, cancelled(0), during(0), now, i);
      now := R.Passed(now, i, cancelled(0), during(0), CodesAnswer(setmap));
      second, statmap := ReconcileNotify(dev, cancelled(1), during(1), now, i);
      now := R.Passed(now, i, cancelled(1), during(1), CodesAnswer(statmap));
      third, info := ReconcileInfo(dev, cancelled(2), during(2), identity, now, i);
      a := Answers(setmap, statmap, info);
      updated := first || second || third;
    }

    method ReconcileWritable(dev: Device, cancelled: bool, during: seq<Operation>, ghost s: R.System, ghost i: nat)
      returns (updated: bool, ghost setmap: Option<set<Byte>>)
      requires client.Valid() && Shows(s) && R.At(s, i, dev, R.CheckWritable)
      modifies cache, client`sent
      ensures var before, at := old(cache.Value()), |old(client.sent)|;
              var asks := KeyOf(dev) !in old(cache.writable) && !cancelled;
              && setmap == (if asks then MapAnswer(client.device, at, SETMAP_EPC) else None)
              && |client.sent| == (if asks then Client.Fetch(client.device, at, [SETMAP_EPC], 0).next else at)
              && cache.Value() == WithSetmap(Followed(before, during), KeyOf(dev), setmap) && updated == setmap.Some?
      ensures cache.delivered == old(cache.delivered) && cache.subscribed == old(cache.subscribed)
      ensures var s' := R.Passed(s, i, cancelled, during, CodesAnswer(setmap));
              Shows(s') && R.At(s', i, dev, R.CheckNotify)
    {
      updated, setmap := false, None;
      var asks := KeyOf(dev) !in cache.writable && !cancelled;
      var answer: Option<set<Byte>> := None;
      if asks {
        answer := GetPropertyMap(client, SETMAP_EPC);
      }
      cache.Others(during);
      if answer.Some? {
        cache.SetWritableEpcs(dev, answer.value);
        updated := true;
      }
      setmap := answer;
      SetmapPassed(s, i, dev, cancelled, during, setmap);
    }

    method ReconcileNotify(dev: Device, cancelled: bool, during: seq<Operation>, ghost s: R.System, ghost i: nat)
      returns (updated: bool, ghost statmap: Option<set<Byte>>)
      requires client.Valid() && Shows(s) && R.At(s, i, dev, R.CheckNotify)
      modifies cache, client`sent
      ensures var before, at := old(cache.Value()), |old(client.sent)|;
              var asks := KeyOf(dev) !in old(cache.notify) && !cancelled;
              && statmap == (if asks then MapAnswer(client.device, at, STATMAP_EPC) else None)
              && cache.Value() == WithStatmap(Followed(before, during), KeyOf(dev), statmap)
              && updated == statmap.Some?
      ensures cache.delivered == old(cache.delivered) && cache.subscribed == old(cache.subscribed)
      ensures var s' := R.Passed(s, i, cancelled, during, CodesAnswer(statmap));
              Shows(s') && R.At(s', i, dev, R.CheckInfo)
    {
      updated, statmap := false, None;
      var asks := KeyOf(dev) !in cache.notify && !cancelled;
      var answer: Option<set<Byte>> := None;
      if asks {
        answer := GetPropertyMap(client, STATMAP_EPC);
      }
      cache.Others(during);
      if answer.Some? {
        cache.SetNotificationEpcs(dev, answer.value);
        updated := true;
      }
      statmap := answer;
      StatmapPassed(s, i, dev, cancelled, during, statmap);
    }

    method ReconcileInfo(dev: Device, cancelled: bool, during: seq<Operation>, identity: Option<DeviceInfo>,
                         ghost s: R.System, ghost i: nat)
      returns (updated: bool, ghost info: Option<DeviceInfo>)
      requires Shows(s) && R.At(s, i, dev, R.CheckInfo)
      modifies cache
      ensures info == IdentityHeard(old(cache.Value()), KeyOf(dev), cancelled, identity)
      ensures cache.Value() == WithInfo(Followed(old(cache.Value()), during), dev, info) && updated == info.Some?
      ensures cache.delivered == old(cache.delivered) && cache.subscribed == old(cache.subscribed)
      ensures var s' := R.Passed(s, i, cancelled, during, IdentityAnswer(identity));
              Shows(s') && R.At(s', i, dev, R.Finish)
    {
      updated, info := false, None;
      var asks := !cache.Value().HasInfo(KeyOf(dev)) && !cancelled;
      cache.Others(during);
      if asks && identity.Some? && R.Identifies(identity.value) {
        cache.UpdateInfo(dev, identity.value);
        updated, info := true, identity;
      }
      InfoPassed(s, i, dev, cancelled, during, identity);
    }
  }

  lemma SetmapPassed(s: R.System, i: nat, dev: Device, cancelled: bool, during: seq<Operation>,
                     codes: Option<set<Byte>>)
    requires R.At(s, i, dev, R.CheckWritable) && (KeyOf(dev) in s.cache.writable || cancelled ==> codes.None?)
    ensures R.Passed(s, i, cancelled, during, CodesAnswer(codes)) ==
            s.(cache := WithSetmap(Followed(s.cache, during), KeyOf(dev), codes),
               jobs := R.Moved(s, i, R.Running(R.CheckNotify)))
  {
    R.PassedEffect(s, i, dev, R.CheckWritable, cancelled, during, CodesAnswer(codes));
  }

  lemma StatmapPassed(s: R.System, i: nat, dev: Device, cancelled: bool, during: seq<Operation>,
                      codes: Option<set<Byte>>)
    requires R.At(s, i, dev, R.CheckNotify) && (KeyOf(dev) in s.cache.notify || cancelled ==> codes.None?)
    ensures R.Passed(s, i, cancelled, during, CodesAnswer(codes)) ==
            s.(cache := WithStatmap(Followed(s.cache, during), KeyOf(dev), codes),
               jobs := R.Moved(s, i, R.Running(R.CheckInfo)))
  {
    R.PassedEffect(s, i, dev, R.CheckNotify, cancelled, during, CodesAnswer(codes));
  }

  lemma InfoPassed(s: R.System, i: nat, dev: Device, cancelled: bool, during: seq<Operation>,
                   identity: Option<DeviceInfo>)
    requires R.At(s, i, dev, R.CheckInfo)
    ensures R.Passed(s, i, cancelled, during, IdentityAnswer(identity)) ==
            s.(cache := WithInfo(Followed(s.cache, during), dev,
                                 IdentityHeard(s.cache, KeyOf(dev), cancelled, identity)),
               jobs := R.Moved(s, i, R.Running(R.Finish)))
  {
    R.PassedEffect(s, i, dev, R.CheckInfo, cancelled, during, IdentityAnswer(identity));
  }

  /** The system after all three parts of body i. */
  function BodyEnd(s: R.System, i: nat, cancelled: nat -> bool, during: nat -> seq<Operation>,
                   identity: Option<DeviceInfo>, a: Answers): R.System {
    R.Reconciled(s, i, cancelled, during, CodesAnswer(a.setmap), CodesAnswer(a.statmap), IdentityAnswer(identity))
  }

  /** The cache after a refresh read this identity, if it read one. */
  function Renewed(s: State, dev: Device, identity: Option<DeviceInfo>): State {
    match identity
    case None => s
    case Some(info) => Apply(s, Operation.UpdateInfo(KeyOf(dev), Completed(dev, info)))
  }

  lemma RefreshStarts(s: R.System, i: nat, dev: Device, identity: Option<DeviceInfo>)
    requires R.At(s, i, dev, R.AskIdentity)
    ensures var renewed := Renewed(s.cache, dev, identity);
            R.Act(R.Act(s, R.Hear(i, IdentityAnswer(identity))), R.Check(i, false)) ==
            s.(cache := renewed,
               jobs := R.Moved(s, i,
                   R.Running(if R.Incomplete(renewed, KeyOf(dev)) then R.CheckWritable else R.Finish)))
  {
    var heard := R.Act(s, R.Hear(i, IdentityAnswer(identity)));
    assert heard.cache == Renewed(s.cache, dev, identity) && R.At(heard, i, dev, R.CheckAny);
    var stage := if R.Incomplete(heard.cache, KeyOf(dev)) then R.CheckWritable else R.Finish;
    assert R.Moved(heard, i, R.Running(stage)) == R.Moved(s, i, R.Running(stage));
  }

  /** The system after a refresh body renewed the identity and checked what is missing. */
  function Renewing(s: R.System, i: nat, before: seq<Operation>, identity: Option<DeviceInfo>): R.System {
    R.Act(R.Act(R.Used(s, before), R.Hear(i, IdentityAnswer(identity))), R.Check(i, false))
  }

  /** The system at the end of a refresh body: if something was missing, after a whole reconciliation. */
  function RefreshEnd(s: R.System, i: nat, cancelled: nat -> bool, before: seq<Operation>,
                      during: nat -> seq<Operation>, identity: Option<DeviceInfo>, again: Option<DeviceInfo>,
                      a: Answers): R.System {
    var checked := Renewing(s, i, before, identity);
    if i < |checked.jobs| && checked.jobs[i].phase == R.Running(R.Finish) then checked
    else BodyEnd(checked, i, cancelled, during, again, a)
  }

  /** What a refresh does to the cache: it renews the identity it read and then heals if anything is missing. */
  predicate Refreshes(oracle: Client.Oracle, at: nat, s: State, s': State, dev: Device, cancelled: nat -> bool,
                      before: seq<Operation>, during: nat -> seq<Operation>, identity: Option<DeviceInfo>,
                      again: Option<DeviceInfo>, a: Answers) {
    var renewed := Renewed(Followed(s, before), dev, identity);
    if R.Incomplete(renewed, KeyOf(dev)) then
      HeardFrom(oracle, at, renewed, dev, cancelled, during, again, a) && s' == Healed(renewed, dev, during, a)
    else !a.Any() && s' == renewed
  }

  /** A device that answers with the standard's encoding of a set of codes has exactly that set recorded. */
  lemma RecordsTheAnnouncedSet(dev: Client.Oracle, at: nat, epc: Byte, codes: set<Byte>)
    requires forall e :: e in codes ==> e >= 0x80
    requires dev(at, [epc]) == Ok([Property(epc, |PropertyMap.EncodeMap(codes)| % 256, PropertyMap.EncodeMap(codes))])
    ensures MapAnswer(dev, at, epc) == Some(codes)
  {
    PropertyMap.MapRoundTrip(codes);
    var props := dev(at, [epc]).value;
    Client.FetchUndivided(dev, at, [epc], 0);
    assert props[0].epc == epc;
  }

  // ----- When a map is recorded -----

  /** The datagram answers a Get with some data for this code. */
  ghost predicate Announces(answer: Option<seq<Byte>>, epc: Byte) {
    answer.Some? && FrameOf(answer.value).Ok? &&
    var f := FrameOf(answer.value).value;
    && (f.esv == ESV_GET_RES || f.esv == ESV_GET_SNA)
    && exists p :: p in f.props && p.epc == epc && |p.edt| > 0
  }

  /**
   * A map is recorded exactly when the answer has data for it, and then the first such data is decoded. So a device
   * that refuses the read records none, not even the empty one.
   */
  lemma MapNeedsData(net: Client.Network, dev: Client.Oracle, at: nat, epc: Byte)
    requires dev(at, [epc]) == Client.AnswerOf(net, at, [epc])
    ensures MapAnswer(dev, at, epc).Some? <==> Announces(net(at, [epc]), epc)
    ensures MapAnswer(dev, at, epc).Some? ==>
              var props := FrameOf(net(at, [epc]).value).value.props;
              Prop(props, epc).Some? && MapAnswer(dev, at, epc).value == PropertyMap.MapOf(Prop(props, epc).value)
  {
    Client.FetchUndivided(dev, at, [epc], 0);
    if net(at, [epc]).Some? && FrameOf(net(at, [epc]).value).Ok? {
      var data := net(at, [epc]).value;
      var f := FrameOf(data).value;
      PropertiesReadsAs(data[12..], data[11]);
      AdaptiveFetch.WithDataKeepsLookups(f.props, epc);
    }
  }

  /** A refusal by Get_SNA, byte for byte: nothing is recorded. */
  lemma RefusedMapIsNotRecorded(net: Client.Network, dev: Client.Oracle, at: nat)
    requires dev(at, [SETMAP_EPC]) == Client.AnswerOf(net, at, [SETMAP_EPC])
    requires net(at, [SETMAP_EPC]) == Some([0x10, 0x81, 0, 1, 1, 0x30, 1, 5, 0xFF, 1, 0x52, 1, SETMAP_EPC, 0])
    ensures FrameOf(net(at, [SETMAP_EPC]).value).Ok?
    ensures FrameOf(net(at, [SETMAP_EPC]).value).value.esv == ESV_GET_SNA
    ensures MapAnswer(dev, at, SETMAP_EPC) == None
  {
    MapNeedsData(net, dev, at, SETMAP_EPC);
    var data := net(at, [SETMAP_EPC]).value;
    assert data[12..] == [SETMAP_EPC, 0];
    assert data[12..][2..] == [];
    assert Properties(data[12..], 1) == [Property(SETMAP_EPC, 0, [])];
  }

  // ----- Which codes the maps have -----

  /** The SETMAP is property 0x9E, the STATMAP 0x9D, and each is asked for by a request for this code alone. */
  lemma MapCodes(oracle: Client.Oracle, at: nat, s: State, dev: Device, cancelled: nat -> bool,
                 during: nat -> seq<Operation>, identity: Option<DeviceInfo>, a: Answers)
    requires HeardFrom(oracle, at, s, dev, cancelled, during, identity, a)
    ensures a.setmap.Some? ==> oracle(at, [0x9E]).Ok? && Prop(oracle(at, [0x9E]).value, 0x9E).Some?
    ensures a.statmap.Some? ==>
              exists n :: at <= n <= at + 1 && oracle(n, [0x9D]).Ok? && Prop(oracle(n, [0x9D]).value, 0x9D).Some?
  {
    var key, asks := KeyOf(dev), KeyOf(dev) !in s.writable && !cancelled(0);
    Client.FetchUndivided(oracle, at, [SETMAP_EPC], 0);
    Client.FetchUndivided(oracle, if asks then at + 1 else at, [STATMAP_EPC], 0);
  }

  // ----- What a body leaves behind -----

  predicate Quiet(during: nat -> seq<Operation>) {
    during(0) == [] && during(1) == [] && during(2) == []
  }

  lemma QuietHealing(s: State, dev: Device, during: nat -> seq<Operation>, a: Answers)
    requires Quiet(during)
    ensures var s1 := WithSetmap(s, KeyOf(dev), a.setmap);
            var s2 := WithStatmap(s1, KeyOf(dev), a.statmap);
            && FirstHealed(s, dev, during, a) == s1 && SecondHealed(s, dev, during, a) == s2
            && Healed(s, dev, during, a) == WithInfo(s2, dev, a.info)
  {
  }

  /** A list of one code is asked for once, whatever comes back. */
  lemma OneRequest(oracle: Client.Oracle, at: nat, epc: Byte)
    ensures Client.Fetch(oracle, at, [epc], 0).next == at + 1
  {
    Client.FetchUndivided(oracle, at, [epc], 0);
  }

  /** What is recorded of answers like these. */
  lemma HealedIs(s: State, dev: Device, during: nat -> seq<Operation>, a: Answers)
    requires Quiet(during)
    ensures var key := KeyOf(dev);
            Healed(s, dev, during, a) ==
            s.(writable := if a.setmap.Some? then s.writable[key := a.setmap.value] else s.writable,
               notify := if a.statmap.Some? then s.notify[key := a.statmap.value] else s.notify,
               devices := if a.info.Some?
                          then s.devices[key := s.Entry(key).(info := Completed(dev, a.info.value))] else s.devices)
  {
    var key := KeyOf(dev);
    var s1 := WithSetmap(s, key, a.setmap);
    QuietHealing(s, dev, during, a);
    MapsStored(s, key, a.setmap, a.statmap);
    InfoStored(WithStatmap(s1, key, a.statmap), s.Entry(key), dev, a.info);
  }

  lemma MapsStored(s: State, key: string, setmap: Option<set<Byte>>, statmap: Option<set<Byte>>)
    ensures var s2 := WithStatmap(WithSetmap(s, key, setmap), key, statmap);
            && s2.Entry(key) == s.Entry(key) && (s2.HasInfo(key) <==> s.HasInfo(key))
            && s2 == s.(writable := if setmap.Some? then s.writable[key := setmap.value] else s.writable,
                        notify := if statmap.Some? then s.notify[key := statmap.value] else s.notify)
  {
  }

  lemma InfoStored(s: State, before: DeviceCache, dev: Device, info: Option<DeviceInfo>)
    requires before == s.Entry(KeyOf(dev))
    ensures WithInfo(s, dev, info) ==
            if info.None? then s
            else s.(devices := s.devices[KeyOf(dev) := before.(info := Completed(dev, info.value))])
  {
  }

  /**
   * What a reconciliation that nobody disturbs hears: the SETMAP is asked for first and the STATMAP after it, each only
   * if it is missing, and an identity is taken only if none is known and it identifies anything.
   */
  lemma AnswersHeard(oracle: Client.Oracle, at: nat, s: State, dev: Device, cancelled: nat -> bool,
                     during: nat -> seq<Operation>, identity: Option<DeviceInfo>, a: Answers)
    requires HeardFrom(oracle, at, s, dev, cancelled, during, identity, a) && Quiet(during)
    ensures var key, asked := KeyOf(dev), KeyOf(dev) !in s.writable && !cancelled(0);
            && a.setmap == (if asked then MapAnswer(oracle, at, 0x9E) else None)
            && a.statmap == (if key in s.notify || cancelled(1) then None
                             else MapAnswer(oracle, if asked then at + 1 else at, 0x9D))
    ensures var known := s.Entry(KeyOf(dev)).info.manufacturer != "" || s.Entry(KeyOf(dev)).info.uid != "";
            var useful := identity.Some? && (identity.value.manufacturer != "" || identity.value.uid != "");
            a.info == if known || cancelled(2) || !useful then None else identity
  {
    QuietHealing(s, dev, during, a);
    OneRequest(oracle, at, SETMAP_EPC);
    var s1 := WithSetmap(s, KeyOf(dev), a.setmap);
    assert s1.notify == s.notify;
    MapsStored(s, KeyOf(dev), a.setmap, a.statmap);
  }

  /** The two states differ at most in the maps and the identity of this device. */
  ghost predicate AgreeElsewhere(s: State, t: State, key: string) {
    && s.specs == t.specs && s.eojs == t.eojs && s.lastPush == t.lastPush && s.forcePolling == t.forcePolling
    && (forall k :: k != key ==> (k in s.writable <==> k in t.writable) && (k in s.notify <==> k in t.notify))
    && (forall k :: k != key && k in s.writable ==> s.writable[k] == t.writable[k])
    && (forall k :: k != key && k in s.notify ==> s.notify[k] == t.notify[k])
    && (forall k :: k != key ==> s.Entry(k) == t.Entry(k))
    && s.Entry(key).metrics == t.Entry(key).metrics && s.Entry(key).groups == t.Entry(key).groups
  }

  /** What an operation makes of a device's own record depends on that record alone. */
  function NextEntry(dc: DeviceCache, op: Operation, key: string): DeviceCache {
    match op
    case Update(k, group, interval, success, durationSec, metrics, errMsg, now) =>
      if k != key then dc
      else
        var gs := if group in dc.groups then dc.groups[group] else NO_STATUS;
        dc.(groups := dc.groups[group := NextStatus(gs, interval, success, durationSec, errMsg, now)],
            metrics := if success then dc.metrics + metrics else dc.metrics)
    case MergeMetrics(k, metrics) => if k != key then dc else dc.(metrics := dc.metrics + metrics)
    case UpdateInfo(k, info) => if k != key then dc else dc.(info := info)
    case _ => dc
  }

  lemma EntryAfter(s: State, op: Operation, key: string)
    ensures Apply(s, op).Entry(key) == NextEntry(s.Entry(key), op, key)
  {
  }

  lemma EntriesKeepAgreement(s: State, t: State, key: string, op: Operation)
    requires AgreeElsewhere(s, t, key) && (op.Update? || op.MergeMetrics? || op.UpdateInfo?)
    ensures AgreeElsewhere(Apply(s, op), Apply(t, op), key)
  {
    var s', t' := Apply(s, op), Apply(t, op);
    assert s' == s.(devices := s'.devices) && t' == t.(devices := t'.devices);
    forall k ensures k != key ==> s'.Entry(k) == t'.Entry(k) {
      EntryAfter(s, op, k);
      EntryAfter(t, op, k);
    }
    EntryAfter(s, op, key);
    EntryAfter(t, op, key);
  }

  lemma MapsKeepAgreement(s: State, t: State, key: string, op: Operation)
    requires AgreeElsewhere(s, t, key) && (op.SetWritable? || op.SetNotify?)
    ensures AgreeElsewhere(Apply(s, op), Apply(t, op), key)
  {
    var s', t' := Apply(s, op), Apply(t, op);
    forall k ensures s'.Entry(k) == s.Entry(k) && t'.Entry(k) == t.Entry(k) {
    }
  }

  lemma ApplyKeepsAgreement(s: State, t: State, key: string, op: Operation)
    requires AgreeElsewhere(s, t, key)
    ensures AgreeElsewhere(Apply(s, op), Apply(t, op), key)
  {
    if op.Update? || op.MergeMetrics? || op.UpdateInfo? {
      EntriesKeepAgreement(s, t, key, op);
    } else if op.SetWritable? || op.SetNotify? {
      MapsKeepAgreement(s, t, key, op);
    } else {
      OthersKeepAgreement(s, t, key, op);
    }
  }

  lemma OthersKeepAgreement(s: State, t: State, key: string, op: Operation)
    requires AgreeElsewhere(s, t, key) && (op.RecordPush? || op.SetSpecs? || op.SetEoj? || op.SetForcePolling?)
    ensures AgreeElsewhere(Apply(s, op), Apply(t, op), key)
  {
    var s', t' := Apply(s, op), Apply(t, op);
    assert s'.writable == s.writable && t'.writable == t.writable && s'.notify == s.notify && t'.notify == t.notify;
    forall k ensures s'.Entry(k) == s.Entry(k) && t'.Entry(k) == t.Entry(k) {
    }
  }

  lemma {:induction false} FollowedKeepsAgreement(s: State, t: State, key: string, ops: seq<Operation>)
    requires AgreeElsewhere(s, t, key)
    ensures AgreeElsewhere(Followed(s, ops), Followed(t, ops), key)
  {
    if |ops| > 0 {
      FollowedKeepsAgreement(s, t, key, ops[..|ops| - 1]);
      ApplyKeepsAgreement(Followed(s, ops[..|ops| - 1]), Followed(t, ops[..|ops| - 1]), key, ops[|ops| - 1]);
    }
  }

  lemma SetmapIsElsewhere(s: State, t: State, key: string, codes: Option<set<Byte>>)
    requires AgreeElsewhere(s, t, key)
    ensures AgreeElsewhere(WithSetmap(s, key, codes), t, key)
  {
  }

  lemma StatmapIsElsewhere(s: State, t: State, key: string, codes: Option<set<Byte>>)
    requires AgreeElsewhere(s, t, key)
    ensures AgreeElsewhere(WithStatmap(s, key, codes), t, key)
  {
  }

  lemma InfoIsElsewhere(s: State, t: State, dev: Device, info: Option<DeviceInfo>)
    requires AgreeElsewhere(s, t, KeyOf(dev))
    ensures AgreeElsewhere(WithInfo(s, dev, info), t, KeyOf(dev))
  {
    var s' := WithInfo(s, dev, info);
    forall k ensures k != KeyOf(dev) ==> s'.Entry(k) == s.Entry(k) {
    }
  }

  /** Nothing that others do while a body asks is lost, except what they record as maps or identity of this device. */
  lemma OthersAreKept(s: State, dev: Device, during: nat -> seq<Operation>, a: Answers)
    ensures AgreeElsewhere(Healed(s, dev, during, a),
                           Followed(Followed(Followed(s, during(0)), during(1)), during(2)), KeyOf(dev))
  {
    var key := KeyOf(dev);
    var t0 := Followed(s, during(0));
    var t1 := Followed(t0, during(1));
    var t2 := Followed(t1, during(2));
    var s1, s2 := FirstHealed(s, dev, during, a), SecondHealed(s, dev, during, a);
    SetmapIsElsewhere(t0, t0, key, a.setmap);
    FollowedKeepsAgreement(s1, t0, key, during(1));
    StatmapIsElsewhere(Followed(s1, during(1)), t1, key, a.statmap);
    FollowedKeepsAgreement(s2, t1, key, during(2));
    InfoIsElsewhere(Followed(s2, during(2)), t2, dev, a.info);
  }

  /**
   * A refresh that nobody disturbs stores the identity it read, completed from the configuration, and keeps the known
   * one if it read none; known maps it leaves alone.
   */
  lemma RefreshRenews(oracle: Client.Oracle, at: nat, s: State, s': State, dev: Device, cancelled: nat -> bool,
                      during: nat -> seq<Operation>, identity: Option<DeviceInfo>, again: Option<DeviceInfo>,
                      a: Answers)
    requires Refreshes(oracle, at, s, s', dev, cancelled, [], during, identity, again, a) && Quiet(during)
    ensures var key := KeyOf(dev);
            && (key in s.writable ==> key in s'.writable && s'.writable[key] == s.writable[key])
            && (key in s.notify ==> key in s'.notify && s'.notify[key] == s.notify[key])
            && (key !in s.writable && !cancelled(0) && MapAnswer(oracle, at, 0x9E).Some? ==>
                  key in s'.writable && s'.writable[key] == MapAnswer(oracle, at, 0x9E).value)
    ensures identity.Some? ==>
              var info := identity.value;
              var full := info.(manufacturer := if info.manufacturer == "" then dev.manufacturer else info.manufacturer,
                                productCode := if info.productCode == "" then dev.model else info.productCode);
              (full.manufacturer != "" || full.uid != "") ==> s'.Entry(KeyOf(dev)).info == full
    ensures identity.None? && s.HasInfo(KeyOf(dev)) ==> s'.Entry(KeyOf(dev)).info == s.Entry(KeyOf(dev)).info
  {
    var renewed := Renewed(s, dev, identity);
    if R.Incomplete(renewed, KeyOf(dev)) {
      AnswersHeard(oracle, at, renewed, dev, cancelled, during, again, a);
      HealedIs(renewed, dev, during, a);
    }
  }
}
