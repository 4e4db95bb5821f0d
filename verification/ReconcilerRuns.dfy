/**
 * All interleavings of reconciliation: scrapes and commands calling ReconcileDevice, the periodic refresh, the
 * bodies they run in the single-flight group step by step, and everyone else's cache operations. An action that is
 * not enabled changes nothing, so every list of actions is a run.
 */
module ReconcilerRuns {
  import opened Bytes
  import opened Cache
  import CacheRuns

  const RECONCILE_COOLDOWN := 60 * SECOND

  predicate Incomplete(s: State, key: string) {
    key !in s.writable || key !in s.notify || !s.HasInfo(key)
  }

  predicate Identifies(info: DeviceInfo) {
    info.manufacturer != "" || info.uid != ""
  }

  /** No attempt was recorded for the device, or the last one is at least a minute old. */
  predicate Cooled(lastAttempt: map<string, Time>, key: string, now: Time) {
    key !in lastAttempt || now - lastAttempt[key] >= RECONCILE_COOLDOWN
  }

  /** Where a body is: each part is first checked for and then, if it is missing, asked for. */
  datatype Stage =
    | AskIdentity
    | CheckAny
    | CheckWritable
    | AskWritable
    | CheckNotify
    | AskNotify
    | CheckInfo
    | AskInfo
    | Finish

  /** A goroutine on its way through the single-flight group. */
  datatype Phase = Called | Running(stage: Stage) | Waiting | Done

  datatype Job = Job(dev: Device, refresh: bool, phase: Phase) {
    function Key(): string {
      KeyOf(dev)
    }
  }

  /** A recorded attempt: a pass of the ReconcileDevice gate, or a refresh. */
  datatype Mark = Mark(key: string, gate: bool, at: Time)

  /** What the device has to say: a property map, an identity, or nothing usable. */
  datatype Answer = NoAnswer | Codes(codes: set<Byte>) | Identity(info: DeviceInfo)

  datatype System = System(
    clock: Time,
    lastAttempt: map<string, Time>,
    marks: seq<Mark>,
    inFlight: map<string, nat>,
    jobs: seq<Job>,
    cache: State
  )

  const START := System(0, map[], [], map[], [], EMPTY)

  datatype Action =
    | Elapse(time: nat)
    | ReconcileDevice(dev: Device, needed: bool, time: nat)
    | RefreshDevice(dev: Device)
    | Enter(job: nat)
    | Check(job: nat, cancelled: bool)
    | Hear(job: nat, answer: Answer)
    | Leave(job: nat)
    | UseCache(op: Operation)

  /** A new goroutine heads for the single-flight group. */
  function Marked(s: System, dev: Device, refresh: bool, at: Time): System {
    s.(clock := at, lastAttempt := s.lastAttempt[KeyOf(dev) := at], marks := s.marks + [Mark(KeyOf(dev), !refresh, at)],
       jobs := s.jobs + [Job(dev, refresh, Called)])
  }

  function Moved(s: System, i: nat, phase: Phase): seq<Job>
    requires i < |s.jobs|
  {
    s.jobs[i := s.jobs[i].(phase := phase)]
  }

  /** Those who waited for the body of this key share its result. */
  function Released(jobs: seq<Job>, key: string): (out: seq<Job>)
    ensures |out| == |jobs|
    ensures forall i :: 0 <= i < |jobs| ==>
              out[i] == if jobs[i].Key() == key && jobs[i].phase.Waiting? then jobs[i].(phase := Done) else jobs[i]
  {
    seq(|jobs|, i requires 0 <= i < |jobs| =>
      if jobs[i].Key() == key && jobs[i].phase.Waiting? then jobs[i].(phase := Done) else jobs[i])
  }

  /** What a body does after looking into the cache. */
  function Checked(cache: State, key: string, stage: Stage, cancelled: bool): Stage {
    match stage
    case CheckAny => if Incomplete(cache, key) then CheckWritable else Finish
    case CheckWritable => if key !in cache.writable && !cancelled then AskWritable else CheckNotify
    case CheckNotify => if key !in cache.notify && !cancelled then AskNotify else CheckInfo
    case CheckInfo => if !cache.HasInfo(key) && !cancelled then AskInfo else Finish
    case _ => stage
  }

  predicate Asks(stage: Stage) {
    stage.AskIdentity? || stage.AskWritable? || stage.AskNotify? || stage.AskInfo?
  }

  /** What a body does with an answer: a refresh renews any identity, the rest fills in what it asked for. */
  function Heard(cache: State, dev: Device, stage: Stage, answer: Answer): State {
    match (stage, answer)
    case (AskIdentity, Identity(info)) => Apply(cache, Operation.UpdateInfo(KeyOf(dev), Completed(dev, info)))
    case (AskWritable, Codes(codes)) => Apply(cache, SetWritable(KeyOf(dev), codes))
    case (AskNotify, Codes(codes)) => Apply(cache, SetNotify(KeyOf(dev), codes))
    case (AskInfo, Identity(info)) =>
      if Identifies(info) then Apply(cache, Operation.UpdateInfo(KeyOf(dev), Completed(dev, info))) else cache
    case _ => cache
  }

  function AfterAnswer(stage: Stage): Stage {
    match stage
    case AskIdentity => CheckAny
    case AskWritable => CheckNotify
    case AskNotify => CheckInfo
    case AskInfo => Finish
    case _ => stage
  }

  function Entered(s: System, i: nat): System
    requires i < |s.jobs|
  {
    var job := s.jobs[i];
    if job.Key() in s.inFlight then s.(jobs := Moved(s, i, Waiting))
    else
      s.(inFlight := s.inFlight[job.Key() := i],
         jobs := Moved(s, i, Running(if job.refresh then AskIdentity else CheckWritable)))
  }

  function Act(s: System, a: Action): System {
    match a
    case Elapse(time) => s.(clock := s.clock + time)
    case ReconcileDevice(dev, needed, time) =>
      // The clock is read once for the check and again, `time` later, for the record.
      if needed && Cooled(s.lastAttempt, KeyOf(dev), s.clock) then Marked(s, dev, false, s.clock + time) else s
    case RefreshDevice(dev) => Marked(s, dev, true, s.clock)
    case Enter(i) => if i < |s.jobs| && s.jobs[i].phase.Called? then Entered(s, i) else s
    case Check(i, cancelled) =>
      if i < |s.jobs| && s.jobs[i].phase.Running? then
        s.(jobs := Moved(s, i, Running(Checked(s.cache, s.jobs[i].Key(), s.jobs[i].phase.stage, cancelled))))
      else s
    case Hear(i, answer) =>
      if i < |s.jobs| && s.jobs[i].phase.Running? && Asks(s.jobs[i].phase.stage) then
        s.(cache := Heard(s.cache, s.jobs[i].dev, s.jobs[i].phase.stage, answer),
           jobs := Moved(s, i, Running(AfterAnswer(s.jobs[i].phase.stage))))
      else s
    case Leave(i) =>
      if i < |s.jobs| && s.jobs[i].phase == Running(Finish) then
        s.(inFlight := s.inFlight - {s.jobs[i].Key()}, jobs := Released(Moved(s, i, Done), s.jobs[i].Key()))
      else s
    case UseCache(op) => s.(cache := Apply(s.cache, op))
  }

  function After(actions: seq<Action>): System {
    if |actions| == 0 then START else Act(After(actions[..|actions| - 1]), actions[|actions| - 1])
  }

  // ----- Cooldown -----

  /** The gate lets a device pass only a minute after its last recorded attempt of either kind. */
  ghost predicate Spaced(s: System) {
    forall i, j :: 0 <= i < j < |s.marks| && s.marks[i].key == s.marks[j].key && s.marks[j].gate ==>
      s.marks[i].at + RECONCILE_COOLDOWN <= s.marks[j].at
  }

  ghost predicate Recorded(s: System) {
    forall i :: 0 <= i < |s.marks| ==>
      s.marks[i].key in s.lastAttempt && s.marks[i].at <= s.lastAttempt[s.marks[i].key] <= s.clock
  }

  lemma MarkKeepsSpacing(s: System, dev: Device, refresh: bool, at: Time)
    requires Spaced(s) && Recorded(s) && s.clock <= at
    requires refresh || Cooled(s.lastAttempt, KeyOf(dev), s.clock)
    ensures Spaced(Marked(s, dev, refresh, at)) && Recorded(Marked(s, dev, refresh, at))
  {
  }

  lemma OthersMarkNothing(s: System, a: Action)
    requires !a.ReconcileDevice? && !a.RefreshDevice?
    ensures Act(s, a).marks == s.marks && Act(s, a).lastAttempt == s.lastAttempt && Act(s, a).clock >= s.clock
  {
  }

  lemma SpacingFrame(s: System, s': System)
    requires Spaced(s) && Recorded(s)
    requires s'.marks == s.marks && s'.lastAttempt == s.lastAttempt && s'.clock >= s.clock
    ensures Spaced(s') && Recorded(s')
  {
  }

  lemma ActKeepsSpacing(s: System, a: Action)
    requires Spaced(s) && Recorded(s)
    ensures Spaced(Act(s, a)) && Recorded(Act(s, a))
  {
    match a
    case ReconcileDevice(dev, needed, time) =>
      if needed && Cooled(s.lastAttempt, KeyOf(dev), s.clock) {
        MarkKeepsSpacing(s, dev, false, s.clock + time);
      }
    case RefreshDevice(dev) => MarkKeepsSpacing(s, dev, true, s.clock);
    case _ =>
      OthersMarkNothing(s, a);
      SpacingFrame(s, Act(s, a));
  }

  // ----- Single flight -----

  /** The group's table names exactly the running bodies, and whoever waits has a running body to wait for. */
  ghost predicate SingleFlight(s: System) {
    && (forall k :: k in s.inFlight ==>
          s.inFlight[k] < |s.jobs| && s.jobs[s.inFlight[k]].Key() == k && s.jobs[s.inFlight[k]].phase.Running?)
    && (forall i :: 0 <= i < |s.jobs| && s.jobs[i].phase.Running? ==>
          s.jobs[i].Key() in s.inFlight && s.inFlight[s.jobs[i].Key()] == i)
    && (forall i :: 0 <= i < |s.jobs| && s.jobs[i].phase.Waiting? ==> s.jobs[i].Key() in s.inFlight)
  }

  lemma WaitKeepsSingleFlight(s: System, i: nat)
    requires SingleFlight(s) && i < |s.jobs| && s.jobs[i].phase.Called? && s.jobs[i].Key() in s.inFlight
    ensures SingleFlight(s.(jobs := Moved(s, i, Waiting)))
  {
  }

  lemma StartKeepsSingleFlight(s: System, i: nat, stage: Stage)
    requires SingleFlight(s) && i < |s.jobs| && s.jobs[i].phase.Called? && s.jobs[i].Key() !in s.inFlight
    ensures SingleFlight(s.(inFlight := s.inFlight[s.jobs[i].Key() := i], jobs := Moved(s, i, Running(stage))))
  {
  }

  lemma MoveKeepsSingleFlight(s: System, s': System, i: nat, stage: Stage)
    requires SingleFlight(s) && i < |s.jobs| && s.jobs[i].phase.Running?
    requires s'.inFlight == s.inFlight && s'.jobs == Moved(s, i, Running(stage))
    ensures SingleFlight(s')
  {
  }

  /** Body i ended and released those who waited for it; everyone else stays as he is. */
  ghost predicate Left(s: System, s': System, i: nat)
    requires i < |s.jobs|
  {
    && |s'.jobs| == |s.jobs| && s'.inFlight == s.inFlight - {s.jobs[i].Key()}
    && forall j :: 0 <= j < |s.jobs| ==>
         && s'.jobs[j].Key() == s.jobs[j].Key()
         && (s'.jobs[j].phase.Running? ==> j != i)
         && (s'.jobs[j].phase.Waiting? ==> s.jobs[j].Key() != s.jobs[i].Key())
         && (s'.jobs[j] == s.jobs[j] || s'.jobs[j].phase.Done?)
         && (j != i && s.jobs[j].phase.Running? ==> s'.jobs[j] == s.jobs[j])
  }

  lemma LeaveIsLeft(s: System, i: nat)
    requires i < |s.jobs| && s.jobs[i].phase == Running(Finish)
    ensures Left(s, Act(s, Leave(i)), i)
  {
  }

  lemma LeftKeepsSingleFlight(s: System, s': System, i: nat)
    requires SingleFlight(s) && i < |s.jobs| && s.jobs[i].phase.Running? && Left(s, s', i)
    ensures SingleFlight(s')
  {
  }

  lemma EnterKeepsSingleFlight(s: System, i: nat)
    requires SingleFlight(s) && i < |s.jobs| && s.jobs[i].phase.Called?
    ensures SingleFlight(Entered(s, i))
  {
    if s.jobs[i].Key() in s.inFlight {
      WaitKeepsSingleFlight(s, i);
    } else {
      StartKeepsSingleFlight(s, i, Entered(s, i).jobs[i].phase.stage);
    }
  }

  /** Actions that only add jobs on their way to the group. */
  lemma SingleFlightFrame(s: System, s': System)
    requires SingleFlight(s) && s'.inFlight == s.inFlight && s.jobs <= s'.jobs
    requires forall i :: |s.jobs| <= i < |s'.jobs| ==> s'.jobs[i].phase.Called?
    ensures SingleFlight(s')
  {
  }

  lemma ActKeepsSingleFlight(s: System, a: Action)
    requires SingleFlight(s)
    ensures SingleFlight(Act(s, a))
  {
    match a
    case Enter(i) =>
      if i < |s.jobs| && s.jobs[i].phase.Called? {
        EnterKeepsSingleFlight(s, i);
      }
    case Check(i, _) =>
      if i < |s.jobs| && s.jobs[i].phase.Running? {
        MoveKeepsSingleFlight(s, Act(s, a), i, Act(s, a).jobs[i].phase.stage);
      }
    case Hear(i, _) =>
      if i < |s.jobs| && s.jobs[i].phase.Running? && Asks(s.jobs[i].phase.stage) {
        MoveKeepsSingleFlight(s, Act(s, a), i, Act(s, a).jobs[i].phase.stage);
      }
    case Leave(i) =>
      if i < |s.jobs| && s.jobs[i].phase == Running(Finish) {
        LeaveIsLeft(s, i);
        LeftKeepsSingleFlight(s, Act(s, a), i);
      }
    case _ => SingleFlightFrame(s, Act(s, a));
  }

  lemma {:induction false} RunInvariant(actions: seq<Action>)
    ensures Spaced(After(actions)) && Recorded(After(actions)) && SingleFlight(After(actions))
  {
    if |actions| > 0 {
      var s, a := After(actions[..|actions| - 1]), actions[|actions| - 1];
      RunInvariant(actions[..|actions| - 1]);
      ActKeepsSpacing(s, a);
      ActKeepsSingleFlight(s, a);
    }
  }

  /**
   * In every run: two passes of the gate for one device, or a refresh and a later pass, are at least a minute
   * apart; no two bodies of one device run at once; and nobody waits for a body that has ended.
   */
  lemma ReconcilerDiscipline(actions: seq<Action>, i: nat, j: nat)
    ensures var s := After(actions);
            && (i < j < |s.marks| && s.marks[i].key == s.marks[j].key && s.marks[j].gate ==>
                  s.marks[j].at - s.marks[i].at >= 60_000_000_000)
            && (i < j < |s.jobs| && s.jobs[i].phase.Running? && s.jobs[j].phase.Running? ==>
                  s.jobs[i].Key() != s.jobs[j].Key())
            && (i < |s.jobs| && s.jobs[i].phase.Waiting? ==>
                  exists k :: 0 <= k < |s.jobs| && s.jobs[k].Key() == s.jobs[i].Key() && s.jobs[k].phase.Running?)
  {
    RunInvariant(actions);
  }

  // ----- Recorded maps -----

  lemma {:induction false} RecordedMapsStay(actions: seq<Action>, n: nat)
    requires n <= |actions|
    ensures var before, now := After(actions[..n]).cache, After(actions).cache;
            before.writable.Keys <= now.writable.Keys && before.notify.Keys <= now.notify.Keys
  {
    if n == |actions| {
      assert actions[..n] == actions;
    } else {
      var init := actions[..|actions| - 1];
      assert init[..n] == actions[..n];
      RecordedMapsStay(init, n);
      ActKeepsMaps(After(init), actions[|actions| - 1]);
    }
  }

  lemma HeardKeepsMaps(cache: State, dev: Device, stage: Stage, answer: Answer)
    ensures cache.writable.Keys <= Heard(cache, dev, stage, answer).writable.Keys
    ensures cache.notify.Keys <= Heard(cache, dev, stage, answer).notify.Keys
  {
  }

  lemma ActKeepsMaps(s: System, a: Action)
    ensures s.cache.writable.Keys <= Act(s, a).cache.writable.Keys
    ensures s.cache.notify.Keys <= Act(s, a).cache.notify.Keys
  {
    match a
    case UseCache(op) => CacheRuns.StepMaps(s.cache, op);
    case Hear(i, answer) =>
      if i < |s.jobs| && s.jobs[i].phase.Running? {
        HeardKeepsMaps(s.cache, s.jobs[i].dev, s.jobs[i].phase.stage, answer);
      }
    case _ => assert Act(s, a).cache == s.cache;
  }

  /** The action records this map of the device from outside the reconciler, as startup discovery does. */
  predicate RecordsSetmap(a: Action, key: string) {
    a.UseCache? && a.op.SetWritable? && a.op.key == key
  }

  predicate RecordsStatmap(a: Action, key: string) {
    a.UseCache? && a.op.SetNotify? && a.op.key == key
  }

  ghost predicate Asking(s: System, key: string, stage: Stage) {
    exists i :: 0 <= i < |s.jobs| && s.jobs[i].Key() == key && s.jobs[i].phase == Running(stage)
  }

  /** A map of the device is recorded from outside only if it is new and no body is asking for it, or known already. */
  ghost predicate Polite(s: System, a: Action, key: string) {
    && (RecordsSetmap(a, key) ==>
          if key in s.cache.writable then s.cache.writable[key] == a.op.codes else !Asking(s, key, AskWritable))
    && (RecordsStatmap(a, key) ==>
          if key in s.cache.notify then s.cache.notify[key] == a.op.codes else !Asking(s, key, AskNotify))
  }

  ghost predicate PoliteRun(actions: seq<Action>, key: string) {
    forall k: nat :: k < |actions| ==> Polite(After(actions[..k]), actions[k], key)
  }

  lemma PolitePrefix(actions: seq<Action>, key: string)
    requires PoliteRun(actions, key) && |actions| > 0
    ensures PoliteRun(actions[..|actions| - 1], key)
    ensures Polite(After(actions[..|actions| - 1]), actions[|actions| - 1], key)
  {
    var init := actions[..|actions| - 1];
    forall k: nat | k < |init| ensures Polite(After(init[..k]), init[k], key) {
      assert init[..k] == actions[..k] && init[k] == actions[k];
    }
  }

  /** A body of this device that asks for a map asks for one that is not recorded. */
  ghost predicate AsksForMissing(s: System, key: string) {
    forall i :: 0 <= i < |s.jobs| && s.jobs[i].Key() == key ==>
      && (s.jobs[i].phase == Running(AskWritable) ==> key !in s.cache.writable)
      && (s.jobs[i].phase == Running(AskNotify) ==> key !in s.cache.notify)
  }

  predicate SameMaps(s: State, s': State, key: string) {
    && (key in s.writable ==> key in s'.writable && s'.writable[key] == s.writable[key])
    && (key in s.notify ==> key in s'.notify && s'.notify[key] == s.notify[key])
  }

  /** An answer changes a map of the device only where the body asked for it. */
  lemma HeardWhereAsked(cache: State, dev: Device, stage: Stage, answer: Answer, key: string)
    ensures var cache' := Heard(cache, dev, stage, answer);
            && (!(key == KeyOf(dev) && stage == AskWritable) ==>
                  (key in cache'.writable <==> key in cache.writable) &&
                  (key in cache.writable ==> cache'.writable[key] == cache.writable[key]))
            && (!(key == KeyOf(dev) && stage == AskNotify) ==>
                  (key in cache'.notify <==> key in cache.notify) &&
                  (key in cache.notify ==> cache'.notify[key] == cache.notify[key]))
  {
  }

  lemma HearKeepsRecorded(s: System, i: nat, answer: Answer, key: string)
    requires SingleFlight(s) && AsksForMissing(s, key)
    requires i < |s.jobs| && s.jobs[i].phase.Running? && Asks(s.jobs[i].phase.stage)
    ensures SameMaps(s.cache, Act(s, Hear(i, answer)).cache, key) && AsksForMissing(Act(s, Hear(i, answer)), key)
  {
    var s' := Act(s, Hear(i, answer));
    HeardWhereAsked(s.cache, s.jobs[i].dev, s.jobs[i].phase.stage, answer, key);
    forall j | 0 <= j < |s'.jobs| && s'.jobs[j].Key() == key &&
        s'.jobs[j].phase in {Running(AskWritable), Running(AskNotify)}
      ensures j != i && s.jobs[j] == s'.jobs[j] && s.jobs[i].Key() != key
    {
    }
  }

  lemma CheckKeepsRecorded(s: System, i: nat, cancelled: bool, key: string)
    requires AsksForMissing(s, key)
    ensures SameMaps(s.cache, Act(s, Check(i, cancelled)).cache, key) &&
        AsksForMissing(Act(s, Check(i, cancelled)), key)
  {
  }

  lemma UseKeepsRecorded(s: System, op: Operation, key: string)
    requires AsksForMissing(s, key) && Polite(s, UseCache(op), key)
    ensures SameMaps(s.cache, Act(s, UseCache(op)).cache, key) && AsksForMissing(Act(s, UseCache(op)), key)
  {
  }

  /** Steps that leave the cache alone and bring no body to the point of asking for a map. */
  lemma FrameKeepsRecorded(s: System, s': System, key: string)
    requires AsksForMissing(s, key) && s'.cache == s.cache
    requires forall i :: 0 <= i < |s'.jobs| && s'.jobs[i].phase in {Running(AskWritable), Running(AskNotify)} ==>
                           i < |s.jobs| && s.jobs[i] == s'.jobs[i]
    ensures SameMaps(s.cache, s'.cache, key) && AsksForMissing(s', key)
  {
  }

  lemma ActKeepsRecorded(s: System, a: Action, key: string)
    requires SingleFlight(s) && AsksForMissing(s, key) && Polite(s, a, key)
    ensures SameMaps(s.cache, Act(s, a).cache, key) && AsksForMissing(Act(s, a), key)
  {
    match a
    case Hear(i, answer) =>
      if i < |s.jobs| && s.jobs[i].phase.Running? && Asks(s.jobs[i].phase.stage) {
        HearKeepsRecorded(s, i, answer, key);
      }
    case Check(i, cancelled) => CheckKeepsRecorded(s, i, cancelled, key);
    case UseCache(op) => UseKeepsRecorded(s, op, key);
    case _ => FrameKeepsRecorded(s, Act(s, a), key);
  }

  lemma {:induction false} RunAsksForMissing(actions: seq<Action>, key: string)
    requires PoliteRun(actions, key)
    ensures AsksForMissing(After(actions), key)
  {
    if |actions| > 0 {
      var init := actions[..|actions| - 1];
      PolitePrefix(actions, key);
      RunAsksForMissing(init, key);
      RunInvariant(init);
      ActKeepsRecorded(After(init), actions[|actions| - 1], key);
    }
  }

  /**
   * A body looks for a map in one step and records it in another. Because one body per device runs at a time, a map
   * it records never replaces a recorded one: as long as others record maps of the device politely, its SETMAP and
   * STATMAP keep the values first recorded, in every run.
   */
  lemma {:induction false} RecordedMapsKeepTheirValues(actions: seq<Action>, n: nat, key: string)
    requires n <= |actions| && PoliteRun(actions, key)
    ensures SameMaps(After(actions[..n]).cache, After(actions).cache, key)
  {
    if n == |actions| {
      assert actions[..n] == actions;
    } else {
      var init := actions[..|actions| - 1];
      assert init[..n] == actions[..n];
      PolitePrefix(actions, key);
      RecordedMapsKeepTheirValues(init, n, key);
      RunAsksForMissing(init, key);
      RunInvariant(init);
      ActKeepsRecorded(After(init), actions[|actions| - 1], key);
    }
  }

  predicate Replaces(s: System, a: Action, key: string) {
    !SameMaps(s.cache, Act(s, a).cache, key)
  }

  /** The condition is exact: the first impolite record replaces a map at once or can be replaced by the next answer. */
  lemma PoliteIsExact(actions: seq<Action>, s: System, a: Action, key: string)
    requires PoliteRun(actions, key) && s == After(actions)
    ensures Polite(s, a, key) <==>
            !Replaces(s, a, key) && forall i: nat, answer :: !Replaces(Act(s, a), Hear(i, answer), key)
  {
    RunInvariant(actions);
    RunAsksForMissing(actions, key);
    if Polite(s, a, key) {
      ActKeepsRecorded(s, a, key);
      ActKeepsSingleFlight(s, a);
      forall i: nat, answer ensures !Replaces(Act(s, a), Hear(i, answer), key) {
        ActKeepsRecorded(Act(s, a), Hear(i, answer), key);
      }
    } else if !Replaces(s, a, key) {
      var i, answer := ImpoliteIsReplaced(s, a, key);
    }
  }

  lemma ImpoliteIsReplaced(s: System, a: Action, key: string) returns (i: nat, answer: Answer)
    requires !Polite(s, a, key) && !Replaces(s, a, key)
    ensures Replaces(Act(s, a), Hear(i, answer), key)
  {
    var other := if a.op.codes == {} then {0x80} else {};
    answer := Codes(other);
    if RecordsSetmap(a, key) {
      i :| 0 <= i < |s.jobs| && s.jobs[i].Key() == key && s.jobs[i].phase == Running(AskWritable);
      HearReplacesSetmap(Act(s, a), i, other);
    } else {
      i :| 0 <= i < |s.jobs| && s.jobs[i].Key() == key && s.jobs[i].phase == Running(AskNotify);
      HearReplacesStatmap(Act(s, a), i, other);
    }
  }

  lemma HearReplacesSetmap(s: System, i: nat, codes: set<Byte>)
    requires i < |s.jobs| && s.jobs[i].phase == Running(AskWritable)
    requires s.jobs[i].Key() in s.cache.writable && s.cache.writable[s.jobs[i].Key()] != codes
    ensures Replaces(s, Hear(i, Codes(codes)), s.jobs[i].Key())
  {
  }

  lemma HearReplacesStatmap(s: System, i: nat, codes: set<Byte>)
    requires i < |s.jobs| && s.jobs[i].phase == Running(AskNotify)
    requires s.jobs[i].Key() in s.cache.notify && s.cache.notify[s.jobs[i].Key()] != codes
    ensures Replaces(s, Hear(i, Codes(codes)), s.jobs[i].Key())
  {
  }

  /** The first body of a device on its way to asking for the SETMAP. */
  function FirstAsk(dev: Device): seq<Action> {
    [ReconcileDevice(dev, true, 0), Enter(0), Check(0, false)]
  }

  lemma FirstAskAsks(dev: Device)
    ensures var key := KeyOf(dev);
            After(FirstAsk(dev)) == System(0, map[key := 0], [Mark(key, true, 0)], map[key := 0],
                                           [Job(dev, false, Running(AskWritable))], EMPTY)
  {
    var start, enter, check := ReconcileDevice(dev, true, 0), Enter(0), Check(0, false);
    OneMore([], start);
    OneMore([start], enter);
    OneMore([start, enter], check);
    assert [] + [start] == [start] && [start] + [enter] == [start, enter];
    assert [start, enter] + [check] == FirstAsk(dev);
  }

  /** Such a run: a map recorded while the first body of the device is asking for it is replaced. */
  lemma OutsideMapIsReplaced(dev: Device, outside: set<Byte>, heard: set<Byte>)
    requires outside != heard
    ensures var key, recorded := KeyOf(dev), FirstAsk(dev) + [UseCache(SetWritable(KeyOf(dev), outside))];
            && After(recorded).cache.writable == map[key := outside]
            && After(recorded + [Hear(0, Codes(heard))]).cache.writable == map[key := heard]
            && !PoliteRun(recorded, key)
  {
    var key, asking := KeyOf(dev), FirstAsk(dev);
    var record := UseCache(SetWritable(key, outside));
    FirstAskAsks(dev);
    OneMore(asking, record);
    OneMore(asking + [record], Hear(0, Codes(heard)));
    RecordedWhileAsked(After(asking), dev, outside, heard);
    assert (asking + [record])[..3] == asking && (asking + [record])[3] == record;
  }

  lemma RecordedWhileAsked(s: System, dev: Device, outside: set<Byte>, heard: set<Byte>)
    requires s.jobs == [Job(dev, false, Running(AskWritable))] && s.cache == EMPTY
    ensures var key, record := KeyOf(dev), UseCache(SetWritable(KeyOf(dev), outside));
            && Act(s, record).cache.writable == map[key := outside]
            && Act(Act(s, record), Hear(0, Codes(heard))).cache.writable == map[key := heard]
            && !Polite(s, record, key)
  {
    assert s.jobs[0].Key() == KeyOf(dev);
  }

  lemma OneMore(actions: seq<Action>, a: Action)
    ensures After(actions + [a]) == Act(After(actions), a)
  {
    assert (actions + [a])[..|actions|] == actions;
  }

  // ----- Discovery at startup -----

  predicate Starts(a: Action, key: string) {
    (a.ReconcileDevice? || a.RefreshDevice?) && KeyOf(a.dev) == key
  }

  /** Maps of the device are recorded from outside before its first reconciliation, each once. */
  ghost predicate DiscoveredFirst(actions: seq<Action>, key: string) {
    && (forall j, k :: 0 <= j < k < |actions| && RecordsSetmap(actions[k], key) ==>
          !Starts(actions[j], key) && !RecordsSetmap(actions[j], key))
    && (forall j, k :: 0 <= j < k < |actions| && RecordsStatmap(actions[k], key) ==>
          !Starts(actions[j], key) && !RecordsStatmap(actions[j], key))
  }

  ghost predicate NoBody(s: System, key: string) {
    forall i :: 0 <= i < |s.jobs| ==> s.jobs[i].Key() != key
  }

  /** Without a start there is no body of the device, and a map nobody recorded is unknown. */
  lemma {:induction false} NothingWithoutStart(actions: seq<Action>, key: string)
    requires forall j :: 0 <= j < |actions| ==> !Starts(actions[j], key)
    ensures var s := After(actions);
            && NoBody(s, key)
            && ((forall j :: 0 <= j < |actions| ==> !RecordsSetmap(actions[j], key)) ==> key !in s.cache.writable)
            && ((forall j :: 0 <= j < |actions| ==> !RecordsStatmap(actions[j], key)) ==> key !in s.cache.notify)
  {
    if |actions| > 0 {
      var init, a := actions[..|actions| - 1], actions[|actions| - 1];
      NothingWithoutStart(init, key);
      NothingStays(After(init), a, key);
    }
  }

  lemma NothingStays(s: System, a: Action, key: string)
    requires NoBody(s, key) && !Starts(a, key)
    ensures NoBody(Act(s, a), key)
    ensures !RecordsSetmap(a, key) && key !in s.cache.writable ==> key !in Act(s, a).cache.writable
    ensures !RecordsStatmap(a, key) && key !in s.cache.notify ==> key !in Act(s, a).cache.notify
  {
    match a
    case Hear(i, answer) => HearAddsNothing(s, i, answer, key);
    case UseCache(op) => UseAddsNothing(s.cache, op, key);
    case _ => NoBodyStays(s, a, key);
  }

  lemma UseAddsNothing(cache: State, op: Operation, key: string)
    ensures !(op.SetWritable? && op.key == key) && key !in cache.writable ==> key !in Apply(cache, op).writable
    ensures !(op.SetNotify? && op.key == key) && key !in cache.notify ==> key !in Apply(cache, op).notify
  {
  }

  lemma HearAddsNothing(s: System, i: nat, answer: Answer, key: string)
    requires NoBody(s, key)
    ensures NoBody(Act(s, Hear(i, answer)), key)
    ensures key !in s.cache.writable ==> key !in Act(s, Hear(i, answer)).cache.writable
    ensures key !in s.cache.notify ==> key !in Act(s, Hear(i, answer)).cache.notify
  {
    if i < |s.jobs| && s.jobs[i].phase.Running? && Asks(s.jobs[i].phase.stage) {
      HeardWhereAsked(s.cache, s.jobs[i].dev, s.jobs[i].phase.stage, answer, key);
    }
  }

  lemma NoBodyStays(s: System, a: Action, key: string)
    requires NoBody(s, key) && !Starts(a, key) && !a.Hear? && !a.UseCache?
    ensures NoBody(Act(s, a), key) && Act(s, a).cache == s.cache
  {
  }

  /**
   * Discovery is polite unless a reconciliation of the device starts before it ends. Then the maps it records stay,
   * also the empty STATMAP it records when notifications are disabled.
   */
  lemma DiscoveryIsPolite(actions: seq<Action>, key: string)
    requires DiscoveredFirst(actions, key)
    ensures PoliteRun(actions, key)
  {
    forall k: nat | k < |actions| ensures Polite(After(actions[..k]), actions[k], key) {
      if RecordsSetmap(actions[k], key) || RecordsStatmap(actions[k], key) {
        NothingWithoutStart(actions[..k], key);
      }
    }
  }

  // ----- Bodies step by step -----

  function StageRank(stage: Stage): nat {
    match stage
    case AskIdentity => 8
    case CheckAny => 7
    case CheckWritable => 6
    case AskWritable => 5
    case CheckNotify => 4
    case AskNotify => 3
    case CheckInfo => 2
    case AskInfo => 1
    case Finish => 0
  }

  /** A running body can always take a step of its own that brings it closer to its end, whatever the device answers. */
  lemma BodyCanMove(s: System, i: nat, cancelled: bool, answer: Answer) returns (a: Action)
    requires i < |s.jobs| && s.jobs[i].phase.Running?
    ensures a in {Check(i, cancelled), Hear(i, answer), Leave(i)}
    ensures var p := Act(s, a).jobs[i].phase;
            p.Done? || (p.Running? && StageRank(p.stage) < StageRank(s.jobs[i].phase.stage))
  {
    var stage := s.jobs[i].phase.stage;
    a := if stage.Finish? then Leave(i) else if Asks(stage) then Hear(i, answer) else Check(i, cancelled);
  }

  predicate At(s: System, i: nat, dev: Device, stage: Stage) {
    i < |s.jobs| && s.jobs[i].dev == dev && s.jobs[i].phase == Running(stage)
  }

  /** Others use the cache. */
  function Used(s: System, ops: seq<Operation>): System {
    s.(cache := Followed(s.cache, ops))
  }

  function Uses(ops: seq<Operation>): seq<Action> {
    if |ops| == 0 then [] else Uses(ops[..|ops| - 1]) + [UseCache(ops[|ops| - 1])]
  }

  /** What others do to the cache is a run of their steps. */
  lemma {:induction false} UsesAreSteps(actions: seq<Action>, s: System, ops: seq<Operation>)
    requires s == After(actions)
    ensures After(actions + Uses(ops)) == Used(s, ops)
  {
    if |ops| == 0 {
      assert actions + Uses(ops) == actions;
    } else {
      var init, last := ops[..|ops| - 1], UseCache(ops[|ops| - 1]);
      UsesAreSteps(actions, s, init);
      OneMore(actions + Uses(init), last);
      assert actions + Uses(ops) == actions + Uses(init) + [last];
    }
  }

  /** Body i looks for one part and, if it is missing, asks for it and, after what others did meanwhile, is answered. */
  function Passed(s: System, i: nat, cancelled: bool, during: seq<Operation>, answer: Answer): System {
    var s' := Used(Act(s, Check(i, cancelled)), during);
    if i < |s'.jobs| && s'.jobs[i].phase.Running? && Asks(s'.jobs[i].phase.stage) then Act(s', Hear(i, answer)) else s'
  }

  /** All three parts, one after the other. */
  function Reconciled(s: System, i: nat, cancelled: nat -> bool, during: nat -> seq<Operation>, setmap: Answer,
                      statmap: Answer, identity: Answer): System {
    var s1 := Passed(s, i, cancelled(0), during(0), setmap);
    var s2 := Passed(s1, i, cancelled(1), during(1), statmap);
    Passed(s2, i, cancelled(2), during(2), identity)
  }

  /** A part is asked for only when it is missing, and then what is heard is recorded. */
  lemma PassedEffect(s: System, i: nat, dev: Device, stage: Stage, cancelled: bool, during: seq<Operation>,
                     answer: Answer)
    requires At(s, i, dev, stage) && stage in {CheckWritable, CheckNotify, CheckInfo}
    ensures var next, cache := Checked(s.cache, KeyOf(dev), stage, cancelled), Followed(s.cache, during);
            Passed(s, i, cancelled, during, answer) ==
            s.(cache := if Asks(next) then Heard(cache, dev, next, answer) else cache,
               jobs := Moved(s, i, Running(AfterAnswer(next))))
  {
    var s' := Used(Act(s, Check(i, cancelled)), during);
    assert Moved(s', i, Running(AfterAnswer(Checked(s.cache, KeyOf(dev), stage, cancelled)))) ==
           Moved(s, i, Running(AfterAnswer(Checked(s.cache, KeyOf(dev), stage, cancelled))));
  }
}
