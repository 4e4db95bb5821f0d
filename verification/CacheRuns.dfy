/**
 * What the cache holds after any sequence of atomic operations, said in terms of the operations alone. Interleaved
 * callers produce such sequences: every critical section of the cache is one operation or two of them.
 */
module CacheRuns {
  import opened Metrics
  import opened Cache

  function Replay(ops: seq<Operation>): State {
    if |ops| == 0 then EMPTY else Apply(Replay(ops[..|ops| - 1]), ops[|ops| - 1])
  }

  // ----- Metrics: the last writer wins -----

  /** The operation stores a value under this metric name: a successful poll, or a push or verification read. */
  predicate Writes(op: Operation, key: string, name: string) {
    || (op.Update? && op.key == key && op.success && name in op.metrics)
    || (op.MergeMetrics? && op.key == key && name in op.metrics)
  }

  /** The i-th operation is the last to store this metric. */
  ghost predicate IsLastWrite(ops: seq<Operation>, i: int, key: string, name: string) {
    0 <= i < |ops| && Writes(ops[i], key, name) && forall j :: i < j < |ops| ==> !Writes(ops[j], key, name)
  }

  function MetricsAfter(ops: seq<Operation>, key: string): MetricMap {
    Replay(ops).Entry(key).metrics
  }

  lemma StepMetrics(s: State, op: Operation, key: string, name: string)
    ensures var before, after := s.Entry(key).metrics, Apply(s, op).Entry(key).metrics;
            if Writes(op, key, name) then name in after && after[name] == op.metrics[name]
            else (name in after <==> name in before) && (name in before ==> after[name] == before[name])
  {
  }

  lemma {:induction false} LastWriteIsHeld(ops: seq<Operation>, i: int, key: string, name: string)
    requires IsLastWrite(ops, i, key, name)
    ensures name in MetricsAfter(ops, key) && MetricsAfter(ops, key)[name] == ops[i].metrics[name]
  {
    var n := |ops| - 1;
    StepMetrics(Replay(ops[..n]), ops[n], key, name);
    if i < n {
      LastWriteIsHeld(ops[..n], i, key, name);
    }
  }

  lemma {:induction false} HeldWasWritten(ops: seq<Operation>, key: string, name: string) returns (i: int)
    requires name in MetricsAfter(ops, key)
    ensures IsLastWrite(ops, i, key, name)
  {
    var n := |ops| - 1;
    StepMetrics(Replay(ops[..n]), ops[n], key, name);
    if Writes(ops[n], key, name) {
      i := n;
    } else {
      i := HeldWasWritten(ops[..n], key, name);
    }
  }

  /**
   * After any run a device has exactly the metrics some operation stored, each with the value of the last
   * operation that stored it; failed polls, other devices and all other operations leave no trace.
   */
  lemma LastWriterWins(ops: seq<Operation>, key: string, name: string, v: MetricValue)
    ensures name in MetricsAfter(ops, key) && MetricsAfter(ops, key)[name] == v <==>
            exists i :: IsLastWrite(ops, i, key, name) && ops[i].metrics[name] == v
  {
    if name in MetricsAfter(ops, key) && MetricsAfter(ops, key)[name] == v {
      var i := HeldWasWritten(ops, key, name);
      LastWriteIsHeld(ops, i, key, name);
    }
    if i :| IsLastWrite(ops, i, key, name) && ops[i].metrics[name] == v {
      LastWriteIsHeld(ops, i, key, name);
    }
  }

  /** A metric name once present stays present. */
  lemma {:induction false} MetricsNeverDisappear(ops: seq<Operation>, n: nat, key: string)
    requires n <= |ops|
    ensures MetricsAfter(ops[..n], key).Keys <= MetricsAfter(ops, key).Keys
  {
    if n == |ops| {
      assert ops[..n] == ops;
    } else {
      var init := ops[..|ops| - 1];
      MetricsNeverDisappear(init, n, key);
      assert init[..n] == ops[..n];
      forall name | name in MetricsAfter(init, key) ensures name in MetricsAfter(ops, key) {
        StepMetrics(Replay(init), ops[|ops| - 1], key, name);
      }
    }
  }

  // ----- Status: what Get reports depends on the polls of that device only -----

  predicate Polls(op: Operation, key: string) {
    op.Update? && op.key == key
  }

  predicate PollsGroup(op: Operation, key: string, group: string) {
    Polls(op, key) && op.group == group
  }

  function PollsOf(ops: seq<Operation>, key: string): seq<Operation> {
    if |ops| == 0 then []
    else PollsOf(ops[..|ops| - 1], key) + if Polls(ops[|ops| - 1], key) then [ops[|ops| - 1]] else []
  }

  function GroupsAfter(ops: seq<Operation>, key: string): map<string, GroupStatus> {
    Replay(ops).Entry(key).groups
  }

  /** Removing every operation that is not a poll of the device changes nothing that Get aggregates. */
  lemma {:induction false} StatusDependsOnPolls(ops: seq<Operation>, key: string)
    ensures GroupsAfter(ops, key) == GroupsAfter(PollsOf(ops, key), key)
  {
    if |ops| == 0 {
    } else {
      var init, op := ops[..|ops| - 1], ops[|ops| - 1];
      StatusDependsOnPolls(init, key);
      if Polls(op, key) {
        var kept := PollsOf(ops, key);
        assert kept[..|kept| - 1] == PollsOf(init, key);
        StepGroups(Replay(init), op, key);
        StepGroups(Replay(PollsOf(init, key)), op, key);
      } else {
        StepGroups(Replay(init), op, key);
        assert PollsOf(ops, key) == PollsOf(init, key);
      }
    }
  }

  function Next(groups: map<string, GroupStatus>, op: Operation): map<string, GroupStatus>
    requires op.Update?
  {
    var gs := if op.group in groups then groups[op.group] else NO_STATUS;
    groups[op.group := NextStatus(gs, op.interval, op.success, op.durationSec, op.errMsg, op.now)]
  }

  lemma StepGroups(s: State, op: Operation, key: string)
    ensures Apply(s, op).Entry(key).groups == if Polls(op, key) then Next(s.Entry(key).groups, op)
        else s.Entry(key).groups
  {
  }

  /** Clock readings of polls are positive and never run backwards. */
  ghost predicate Clocked(ops: seq<Operation>) {
    && (forall i :: 0 <= i < |ops| && ops[i].Update? ==> ops[i].now > 0)
    && (forall i, j :: 0 <= i < j < |ops| && ops[i].Update? && ops[j].Update? ==> ops[i].now <= ops[j].now)
  }

  ghost predicate IsLastPoll(ops: seq<Operation>, i: int, key: string) {
    0 <= i < |ops| && Polls(ops[i], key) && forall j :: i < j < |ops| ==> !Polls(ops[j], key)
  }

  /** No other poll of the device has the clock reading of the i-th operation. */
  ghost predicate OnlyPollAt(ops: seq<Operation>, i: int, key: string)
    requires 0 <= i < |ops| && Polls(ops[i], key)
  {
    forall j :: 0 <= j < |ops| && Polls(ops[j], key) && ops[j].now == ops[i].now ==> j == i
  }

  ghost predicate IsLastSuccess(ops: seq<Operation>, i: int, key: string) {
    && 0 <= i < |ops| && Polls(ops[i], key) && ops[i].success
    && forall j :: i < j < |ops| ==> !(Polls(ops[j], key) && ops[j].success)
  }

  ghost predicate IsLastOfGroup(ops: seq<Operation>, i: int, key: string, group: string) {
    0 <= i < |ops| && PollsGroup(ops[i], key, group) && forall j :: i < j < |ops| ==> !PollsGroup(ops[j], key, group)
  }

  /** A successful poll vouches for its device for twice its interval, and never for less than five seconds. */
  predicate Fresh(poll: Operation, now: Time)
    requires poll.Update?
  {
    poll.success && (now - poll.now <= 2 * poll.interval || now - poll.now <= 5 * SECOND)
  }

  function ErrorOf(poll: Operation): string
    requires poll.Update?
  {
    if poll.success then "" else if poll.errMsg == "" then "scrape failed" else poll.errMsg
  }

  /**
   * A group's status after a run: it comes from the group's last poll, and its last success from its last
   * successful one.
   */
  ghost predicate Reflects(ops: seq<Operation>, key: string, group: string, gs: GroupStatus, i: int) {
    && IsLastOfGroup(ops, i, key, group)
    && gs.interval == ops[i].interval && gs.success == ops[i].success
    && gs.durationSec == ops[i].durationSec && gs.lastAttempt == ops[i].now && gs.lastError == ErrorOf(ops[i])
    && (gs.lastSuccess != 0 ==>
          exists j ::
            0 <= j < |ops| && PollsGroup(ops[j], key, group) && ops[j].success && gs.lastSuccess == ops[j].now)
    && (forall j :: 0 <= j < |ops| && PollsGroup(ops[j], key, group) && ops[j].success ==> ops[j].now <= gs.lastSuccess)
  }

  lemma ReflectsLonger(ops: seq<Operation>, key: string, group: string, gs: GroupStatus, i: int)
    requires |ops| > 0 && Reflects(ops[..|ops| - 1], key, group, gs, i)
    requires !PollsGroup(ops[|ops| - 1], key, group)
    ensures Reflects(ops, key, group, gs, i)
  {
  }

  lemma ClockedInit(ops: seq<Operation>)
    requires Clocked(ops) && |ops| > 0
    ensures Clocked(ops[..|ops| - 1])
  {
  }

  lemma ReflectsPoll(ops: seq<Operation>, key: string, group: string, before: GroupStatus, i: int)
    requires |ops| > 0 && Clocked(ops) && PollsGroup(ops[|ops| - 1], key, group)
    requires || (before == NO_STATUS && forall j :: 0 <= j < |ops| - 1 ==> !PollsGroup(ops[j], key, group))
             || Reflects(ops[..|ops| - 1], key, group, before, i)
    ensures var op := ops[|ops| - 1];
            Reflects(ops, key, group, NextStatus(before, op.interval, op.success, op.durationSec, op.errMsg, op.now),
                |ops| - 1)
  {
  }

  /** A device has exactly the groups that were polled, each with the status of its last poll. */
  lemma {:induction false} StatusReflectsPolls(ops: seq<Operation>, key: string, group: string) returns (i: int)
    requires Clocked(ops)
    ensures group in GroupsAfter(ops, key) ==> Reflects(ops, key, group, GroupsAfter(ops, key)[group], i)
    ensures group !in GroupsAfter(ops, key) ==> forall j :: 0 <= j < |ops| ==> !PollsGroup(ops[j], key, group)
  {
    i := 0;
    if |ops| > 0 {
      var n := |ops| - 1;
      var init, op := ops[..n], ops[n];
      ClockedInit(ops);
      i := StatusReflectsPolls(init, key, group);
      StepGroups(Replay(init), op, key);
      var groups := GroupsAfter(init, key);
      if PollsGroup(op, key, group) {
        ReflectsPoll(ops, key, group, if group in groups then groups[group] else NO_STATUS, i);
        i := n;
      } else if group in groups {
        ReflectsLonger(ops, key, group, groups[group], i);
      }
    }
  }

  function PollsFrom(ops: seq<Operation>, i: nat, key: string, group: string): set<nat> {
    set j: nat | i <= j < |ops| && PollsGroup(ops[j], key, group)
  }

  /** Operation i - 1 is the last successful poll of the group, or i is 0 and there is none. */
  ghost predicate FailingSince(ops: seq<Operation>, i: nat, key: string, group: string) {
    && i <= |ops| && (i > 0 ==> PollsGroup(ops[i - 1], key, group) && ops[i - 1].success)
    && forall j :: i <= j < |ops| && PollsGroup(ops[j], key, group) ==> !ops[j].success
  }

  /** The failure count of a group is the number of its polls since the last successful one. */
  lemma {:induction false} FailuresAreCounted(ops: seq<Operation>, key: string, group: string) returns (i: nat)
    ensures FailingSince(ops, i, key, group)
    ensures var groups := GroupsAfter(ops, key);
            (if group in groups then groups[group].failures else 0) == |PollsFrom(ops, i, key, group)|
  {
    i := 0;
    if |ops| > 0 {
      var n: nat := |ops| - 1;
      var init, op := ops[..n], ops[n];
      i := FailuresAreCounted(init, key, group);
      StepGroups(Replay(init), op, key);
      if PollsGroup(op, key, group) && op.success {
        i := n + 1;
        assert PollsFrom(ops, i, key, group) == {};
      } else {
        OneMorePoll(ops, i, key, group);
      }
    } else {
      assert PollsFrom(ops, i, key, group) == {};
    }
  }

  lemma OneMorePoll(ops: seq<Operation>, i: nat, key: string, group: string)
    requires |ops| > 0 && FailingSince(ops[..|ops| - 1], i, key, group)
    requires PollsGroup(ops[|ops| - 1], key, group) ==> !ops[|ops| - 1].success
    ensures FailingSince(ops, i, key, group)
    ensures |PollsFrom(ops, i, key, group)| ==
            |PollsFrom(ops[..|ops| - 1], i, key, group)| + if PollsGroup(ops[|ops| - 1], key, group) then 1 else 0
  {
    var n: nat := |ops| - 1;
    var before := PollsFrom(ops[..n], i, key, group);
    assert PollsFrom(ops, i, key, group) == before + if PollsGroup(ops[n], key, group) then {n} else {};
  }

  /**
   * The last scrape time that Get reports is the time of the device's last successful poll, and it reports success
   * exactly when the last poll of some group is a fresh success. Its duration is that of the last poll, or of another
   * group's last poll at the same clock reading.
   */
  lemma GetReportsHistory(ops: seq<Operation>, key: string, now: Time, success: bool, durationSec: real,
      lastScrape: Time)
    requires Clocked(ops) && Aggregates(GroupsAfter(ops, key), now, success, durationSec, lastScrape)
    ensures success <==> exists i, g :: IsLastOfGroup(ops, i, key, g) && Fresh(ops[i], now)
    ensures forall i :: IsLastPoll(ops, i, key) ==>
              exists j, g ::
                  IsLastOfGroup(ops, j, key, g) && ops[j].now == ops[i].now && ops[j].durationSec == durationSec
    ensures forall i :: IsLastPoll(ops, i, key) && OnlyPollAt(ops, i, key) ==> durationSec == ops[i].durationSec
    ensures forall i :: IsLastSuccess(ops, i, key) ==> lastScrape == ops[i].now
    ensures (forall i :: 0 <= i < |ops| ==> !Polls(ops[i], key)) ==> durationSec == 0.0
    ensures (forall i :: 0 <= i < |ops| ==> !(Polls(ops[i], key) && ops[i].success)) ==> lastScrape == 0
  {
    SuccessReported(ops, key, now, success, durationSec, lastScrape);
    forall i | IsLastPoll(ops, i, key)
      ensures exists j, g ::
          IsLastOfGroup(ops, j, key, g) && ops[j].now == ops[i].now && ops[j].durationSec == durationSec
      ensures OnlyPollAt(ops, i, key) ==> durationSec == ops[i].durationSec
    {
      DurationReported(ops, key, now, success, durationSec, lastScrape, i);
    }
    forall i | IsLastSuccess(ops, i, key) ensures lastScrape == ops[i].now {
      LastScrapeReported(ops, key, now, success, durationSec, lastScrape, i);
    }
    NothingReported(ops, key, now, success, durationSec, lastScrape);
  }

  lemma SuccessReported(ops: seq<Operation>, key: string, now: Time, success: bool, durationSec: real, lastScrape: Time)
    requires Clocked(ops) && Aggregates(GroupsAfter(ops, key), now, success, durationSec, lastScrape)
    ensures success <==> exists i, g :: IsLastOfGroup(ops, i, key, g) && Fresh(ops[i], now)
  {
    var groups := GroupsAfter(ops, key);
    if success {
      var g :| g in groups && Vouches(groups[g], now);
      var i := StatusReflectsPolls(ops, key, g);
      assert IsLastOfGroup(ops, i, key, g) && Fresh(ops[i], now);
    }
    if i, g :| IsLastOfGroup(ops, i, key, g) && Fresh(ops[i], now) {
      var i' := StatusReflectsPolls(ops, key, g);
      assert i' == i;
      assert Vouches(groups[g], now);
    }
  }

  lemma DurationReported(ops: seq<Operation>, key: string, now: Time, success: bool, durationSec: real,
      lastScrape: Time, i: int)
    requires Clocked(ops) && Aggregates(GroupsAfter(ops, key), now, success, durationSec, lastScrape)
    requires IsLastPoll(ops, i, key)
    ensures exists j, g ::
        IsLastOfGroup(ops, j, key, g) && ops[j].now == ops[i].now && ops[j].durationSec == durationSec
    ensures OnlyPollAt(ops, i, key) ==> durationSec == ops[i].durationSec
  {
    var groups := GroupsAfter(ops, key);
    var own := ops[i].group;
    var i' := StatusReflectsPolls(ops, key, own);
    assert i' == i && groups[own].lastAttempt > 0;
    var g :| g in groups && groups[g].durationSec == durationSec &&
             forall g' :: g' in groups ==> groups[g'].lastAttempt <= groups[g].lastAttempt;
    var k := StatusReflectsPolls(ops, key, g);
    assert ops[i].now <= ops[k].now;
    assert k <= i && IsLastOfGroup(ops, k, key, g);
  }

  lemma LastScrapeReported(ops: seq<Operation>, key: string, now: Time, success: bool, durationSec: real,
      lastScrape: Time, i: int)
    requires Clocked(ops) && Aggregates(GroupsAfter(ops, key), now, success, durationSec, lastScrape)
    requires IsLastSuccess(ops, i, key)
    ensures lastScrape == ops[i].now
  {
    var groups := GroupsAfter(ops, key);
    var k := StatusReflectsPolls(ops, key, ops[i].group);
    assert ops[i].now <= groups[ops[i].group].lastSuccess <= lastScrape;
    var g :| g in groups && groups[g].lastSuccess == lastScrape;
    k := StatusReflectsPolls(ops, key, g);
    var j :| 0 <= j < |ops| && Polls(ops[j], key) && ops[j].success && lastScrape == ops[j].now;
    assert j <= i;
  }

  lemma NothingReported(ops: seq<Operation>, key: string, now: Time, success: bool, durationSec: real, lastScrape: Time)
    requires Clocked(ops) && Aggregates(GroupsAfter(ops, key), now, success, durationSec, lastScrape)
    ensures (forall i :: 0 <= i < |ops| ==> !Polls(ops[i], key)) ==> durationSec == 0.0
    ensures (forall i :: 0 <= i < |ops| ==> !(Polls(ops[i], key) && ops[i].success)) ==> lastScrape == 0
  {
    var groups := GroupsAfter(ops, key);
    if durationSec != 0.0 {
      var g :| g in groups && groups[g].lastAttempt != 0;
      var i := StatusReflectsPolls(ops, key, g);
      assert Polls(ops[i], key);
    }
    if lastScrape != 0 {
      var g :| g in groups && groups[g].lastSuccess == lastScrape;
      var i := StatusReflectsPolls(ops, key, g);
    }
  }

  lemma StepMaps(s: State, op: Operation)
    ensures s.writable.Keys <= Apply(s, op).writable.Keys && s.notify.Keys <= Apply(s, op).notify.Keys
  {
  }

  /** A property map once recorded stays recorded. */
  lemma {:induction false} MapsNeverRemoved(ops: seq<Operation>, n: nat)
    requires n <= |ops|
    ensures Replay(ops[..n]).writable.Keys <= Replay(ops).writable.Keys
    ensures Replay(ops[..n]).notify.Keys <= Replay(ops).notify.Keys
  {
    if n == |ops| {
      assert ops[..n] == ops;
    } else {
      var init := ops[..|ops| - 1];
      MapsNeverRemoved(init, n);
      assert init[..n] == ops[..n];
      StepMaps(Replay(init), ops[|ops| - 1]);
    }
  }

  // ----- Device keys -----

  lemma ShorterThenPipe(a: string, x: string, b: string, y: string)
    requires a + "|" + x == b + "|" + y
    ensures |a| < |b| ==> '|' in b
  {
    if |a| < |b| {
      assert (b + "|" + y)[|a|] == b[|a|];
      assert (a + "|" + x)[|a|] == '|';
    }
  }

  lemma FirstPipe(a: string, x: string, b: string, y: string)
    requires a + "|" + x == b + "|" + y
    requires '|' !in a && '|' !in b
    ensures a == b && x == y
  {
    ShorterThenPipe(a, x, b, y);
    ShorterThenPipe(b, y, a, x);
    var left, right := a + "|" + x, b + "|" + y;
    assert a == left[..|a|] && b == right[..|b|];
    assert x == left[|a| + 1..] && y == right[|b| + 1..];
  }

  lemma LongerThenPipe(a: string, x: string, b: string, y: string)
    requires a + "|" + x == b + "|" + y
    ensures |x| < |y| ==> '|' in y
  {
    if |x| < |y| {
      assert (b + "|" + y)[|a|] == y[|a| - |b| - 1];
      assert (a + "|" + x)[|a|] == '|';
    }
  }

  lemma LastPipe(a: string, x: string, b: string, y: string)
    requires a + "|" + x == b + "|" + y
    requires '|' !in x && '|' !in y
    ensures a == b && x == y
  {
    LongerThenPipe(a, x, b, y);
    LongerThenPipe(b, y, a, x);
    var left, right := a + "|" + x, b + "|" + y;
    assert a == left[..|a|] && b == right[..|b|];
    assert x == left[|a| + 1..] && y == right[|b| + 1..];
  }

  predicate SameDevice(a: Device, b: Device) {
    a.name == b.name && a.ip == b.ip && a.class_ == b.class_
  }

  /**
   * Two devices share a key only when name, address and class agree, if in both at most one and the same field
   * holds a '|'.
   */
  lemma KeysAreDistinct(a: Device, b: Device)
    requires var name, ip := '|' !in a.name && '|' !in b.name, '|' !in a.ip && '|' !in b.ip;
             var class_ := '|' !in a.class_ && '|' !in b.class_;
             (name && ip) || (ip && class_) || (name && class_)
    ensures KeyOf(a) == KeyOf(b) <==> SameDevice(a, b)
  {
    if KeyOf(a) == KeyOf(b) {
      var x, y := a.ip + "|" + a.class_, b.ip + "|" + b.class_;
      assert KeyOf(a) == a.name + "|" + x && KeyOf(b) == b.name + "|" + y;
      if '|' !in a.name && '|' !in b.name {
        FirstPipe(a.name, x, b.name, y);
        if '|' !in a.ip && '|' !in b.ip {
          FirstPipe(a.ip, a.class_, b.ip, b.class_);
        } else {
          LastPipe(a.ip, a.class_, b.ip, b.class_);
        }
      } else {
        LastPipe(a.name + "|" + a.ip, a.class_, b.name + "|" + b.ip, b.class_);
        LastPipe(a.name, a.ip, b.name, b.ip);
      }
    }
  }

  /** With a '|' in a name and in an address two configured devices share a key. */
  lemma KeysCanCollide()
    ensures var a, b := Device("x|y", "10.0.0.1", "home_ac", "", ""), Device("x", "y|10.0.0.1", "home_ac", "", "");
            KeyOf(a) == KeyOf(b) && !SameDevice(a, b)
  {
    var a, b := Device("x|y", "10.0.0.1", "home_ac", "", ""), Device("x", "y|10.0.0.1", "home_ac", "", "");
    assert KeyOf(a) == "x|y|10.0.0.1|home_ac" == KeyOf(b);
    assert |a.name| != |b.name|;
  }

  predicate PipeFree(a: Device) {
    '|' !in a.name && '|' !in a.ip && '|' !in a.class_
  }

  lemma PipesOfKey(a: Device)
    ensures multiset(KeyOf(a))['|'] == 2 + multiset(a.name)['|'] + multiset(a.ip)['|'] + multiset(a.class_)['|']
  {
  }

  lemma AtPipe(text: string) returns (before: string, after: string)
    requires '|' in text
    ensures text == before + "|" + after
  {
    var k :| 0 <= k < |text| && text[k] == '|';
    before, after := text[..k], text[k + 1..];
  }

  lemma MovePipe(name: string, x: string, y: string, z: string)
    ensures (name + "|" + x) + "|" + y + "|" + z == name + "|" + (x + "|" + y) + "|" + z
  {
  }

  lemma MovePipeOn(name: string, x: string, y: string, z: string)
    ensures name + "|" + (x + "|" + y) + "|" + z == name + "|" + x + "|" + (y + "|" + z)
  {
  }

  /** Another device with the same key, if some field of this one holds a '|'. */
  lemma SharesKey(a: Device) returns (b: Device)
    requires !PipeFree(a)
    ensures KeyOf(a) == KeyOf(b) && !SameDevice(a, b)
  {
    if '|' in a.name {
      var before, after := AtPipe(a.name);
      b := Device(before, after + "|" + a.ip, a.class_, "", "");
      MovePipe(before, after, a.ip, a.class_);
      assert |b.name| < |a.name|;
    } else if '|' in a.ip {
      var before, after := AtPipe(a.ip);
      b := Device(a.name + "|" + before, after, a.class_, "", "");
      MovePipe(a.name, before, after, a.class_);
      assert |b.name| > |a.name|;
    } else {
      var before, after := AtPipe(a.class_);
      b := Device(a.name, a.ip + "|" + before, after, "", "");
      MovePipeOn(a.name, a.ip, before, after);
      assert |b.ip| > |a.ip|;
    }
  }

  /** A device shares its key with no other device exactly when none of its three fields holds a '|'. */
  lemma KeyIsUnique(a: Device)
    ensures PipeFree(a) <==> forall b :: KeyOf(b) == KeyOf(a) ==> SameDevice(a, b)
  {
    if PipeFree(a) {
      forall b | KeyOf(b) == KeyOf(a) ensures SameDevice(a, b) {
        PipesOfKey(a);
        PipesOfKey(b);
        KeysAreDistinct(a, b);
      }
    } else {
      var b := SharesKey(a);
    }
  }

  // ----- What the subscriber is told -----

  predicate RecordsWritable(op: Operation, key: string) {
    op.SetWritable? && op.key == key
  }

  predicate RecordsSpecs(op: Operation, key: string) {
    op.SetSpecs? && op.key == key
  }

  predicate RecordsInfo(op: Operation, key: string) {
    op.UpdateInfo? && op.key == key
  }

  /** Operation i is the last one that does this for the device. */
  ghost predicate IsLast(ops: seq<Operation>, i: int, key: string, does: (Operation, string) -> bool) {
    0 <= i < |ops| && does(ops[i], key) && forall j :: i < j < |ops| ==> !does(ops[j], key)
  }

  ghost predicate Never(ops: seq<Operation>, key: string, does: (Operation, string) -> bool) {
    forall j :: 0 <= j < |ops| ==> !does(ops[j], key)
  }

  lemma LastStays(ops: seq<Operation>, i: int, key: string, does: (Operation, string) -> bool)
    requires |ops| > 0 && !does(ops[|ops| - 1], key)
    ensures IsLast(ops[..|ops| - 1], i, key, does) ==> IsLast(ops, i, key, does)
    ensures Never(ops[..|ops| - 1], key, does) ==> Never(ops, key, does)
  {
  }

  lemma StepWritable(s: State, op: Operation, key: string)
    ensures var s' := Apply(s, op);
            if RecordsWritable(op, key) then key in s'.writable && s'.writable[key] == op.codes
            else (key in s'.writable <==> key in s.writable) &&
                 (key in s.writable ==> s'.writable[key] == s.writable[key])
  {
  }

  lemma StepSpecs(s: State, op: Operation, key: string)
    ensures var s' := Apply(s, op);
            if RecordsSpecs(op, key) then key in s'.specs && s'.specs[key] == op.metricSpecs
            else (key in s'.specs <==> key in s.specs) && (key in s.specs ==> s'.specs[key] == s.specs[key])
  {
  }

  lemma StepInfo(s: State, op: Operation, key: string)
    ensures Apply(s, op).Entry(key).info == if RecordsInfo(op, key) then op.info else s.Entry(key).info
  {
  }

  lemma {:induction false} WritableAfter(ops: seq<Operation>, key: string) returns (i: int)
    ensures if key in Replay(ops).writable
            then IsLast(ops, i, key, RecordsWritable) && Replay(ops).writable[key] == ops[i].codes
            else Never(ops, key, RecordsWritable)
  {
    i := 0;
    if |ops| > 0 {
      var n := |ops| - 1;
      i := WritableAfter(ops[..n], key);
      StepWritable(Replay(ops[..n]), ops[n], key);
      if RecordsWritable(ops[n], key) {
        i := n;
      } else {
        LastStays(ops, i, key, RecordsWritable);
      }
    }
  }

  lemma {:induction false} SpecsAfter(ops: seq<Operation>, key: string) returns (i: int)
    ensures if key in Replay(ops).specs
            then IsLast(ops, i, key, RecordsSpecs) && Replay(ops).specs[key] == ops[i].metricSpecs
            else Never(ops, key, RecordsSpecs)
  {
    i := 0;
    if |ops| > 0 {
      var n := |ops| - 1;
      i := SpecsAfter(ops[..n], key);
      StepSpecs(Replay(ops[..n]), ops[n], key);
      if RecordsSpecs(ops[n], key) {
        i := n;
      } else {
        LastStays(ops, i, key, RecordsSpecs);
      }
    }
  }

  lemma {:induction false} InfoAfter(ops: seq<Operation>, key: string) returns (i: int)
    ensures var info := Replay(ops).Entry(key).info;
            || (IsLast(ops, i, key, RecordsInfo) && info == ops[i].info)
            || (Never(ops, key, RecordsInfo) && info == DeviceInfo("", "", ""))
  {
    i := 0;
    if |ops| > 0 {
      var n := |ops| - 1;
      i := InfoAfter(ops[..n], key);
      StepInfo(Replay(ops[..n]), ops[n], key);
      if RecordsInfo(ops[n], key) {
        i := n;
      } else {
        LastStays(ops, i, key, RecordsInfo);
      }
    }
  }

  /**
   * What the subscriber is told of a device is the history of the cache: each metric as the last operation that
   * stored it left it, and the identity, the specs and the SETMAP recorded last.
   */
  lemma SnapshotTellsHistory(ops: seq<Operation>, dev: Device, ok: bool, name: string, v: MetricValue)
    returns (i: int, j: int, k: int)
    ensures var st, key := Replay(ops).Snapshot(dev, ok), KeyOf(dev);
            && st.device == dev && st.success == ok
            && (name in st.metrics && st.metrics[name] == v <==>
                exists w :: IsLastWrite(ops, w, key, name) && ops[w].metrics[name] == v)
            && (match st.writable
                case Some(codes) => IsLast(ops, i, key, RecordsWritable) && codes == ops[i].codes
                case None => Never(ops, key, RecordsWritable))
            && ((IsLast(ops, j, key, RecordsSpecs) && st.specs == ops[j].metricSpecs) ||
                (Never(ops, key, RecordsSpecs) && st.specs == []))
            && ((IsLast(ops, k, key, RecordsInfo) && st.info == ops[k].info) ||
                (Never(ops, key, RecordsInfo) && st.info == DeviceInfo("", "", "")))
  {
    i := WritableAfter(ops, KeyOf(dev));
    j := SpecsAfter(ops, KeyOf(dev));
    k := InfoAfter(ops, KeyOf(dev));
    LastWriterWins(ops, KeyOf(dev), name, v);
  }

  predicate RecordsNotify(op: Operation, key: string) {
    op.SetNotify? && op.key == key
  }

  predicate RecordsEoj(op: Operation, key: string) {
    op.SetEoj? && op.key == key
  }

  predicate RecordsForce(op: Operation, key: string) {
    op.SetForcePolling?
  }

  lemma StepLookups(s: State, op: Operation, key: string)
    ensures var s' := Apply(s, op);
            && (if RecordsNotify(op, key) then key in s'.notify && s'.notify[key] == op.codes
                else (key in s'.notify <==> key in s.notify) && (key in s.notify ==> s'.notify[key] == s.notify[key]))
            && (if RecordsEoj(op, key) then key in s'.eojs && s'.eojs[key] == op.eoj
                else (key in s'.eojs <==> key in s.eojs) && (key in s.eojs ==> s'.eojs[key] == s.eojs[key]))
            && s'.forcePolling == if RecordsForce(op, key) then op.force else s.forcePolling
  {
  }

  /** The STATMAP, the object and forced polling are those recorded last; polling is not forced before. */
  lemma {:induction false} LookupsTellHistory(ops: seq<Operation>, key: string) returns (i: int, j: int, k: int)
    ensures var s := Replay(ops);
            && (if key in s.notify then IsLast(ops, i, key, RecordsNotify) && s.notify[key] == ops[i].codes
                else Never(ops, key, RecordsNotify))
            && (if key in s.eojs then IsLast(ops, j, key, RecordsEoj) && s.eojs[key] == ops[j].eoj
                else Never(ops, key, RecordsEoj))
            && ((IsLast(ops, k, key, RecordsForce) && s.forcePolling == ops[k].force) ||
                (Never(ops, key, RecordsForce) && !s.forcePolling))
  {
    i, j, k := 0, 0, 0;
    if |ops| > 0 {
      var n := |ops| - 1;
      var op := ops[n];
      i, j, k := LookupsTellHistory(ops[..n], key);
      StepLookups(Replay(ops[..n]), op, key);
      if !RecordsNotify(op, key) {
        LastStays(ops, i, key, RecordsNotify);
      }
      if !RecordsEoj(op, key) {
        LastStays(ops, j, key, RecordsEoj);
      }
      if !RecordsForce(op, key) {
        LastStays(ops, k, key, RecordsForce);
      }
      i, j, k := if RecordsNotify(op, key) then n else i, if RecordsEoj(op, key) then n else j,
                 if RecordsForce(op, key) then n else k;
    }
  }
}
