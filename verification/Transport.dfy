/**
 * The transport's tables as the program keeps them: the TID counter, the waiters by "host|tid" and the requests that
 * timed out recently. Sockets, timers and the ephemeral-port fallback are outside the model.
 */
module Transport {
  import opened Bytes
  import opened Results
  import opened Sets
  import Protocol
  import R = TransportRuns

  type Time = nat

  const MAX_EXPIRED_WAITERS := 128
  const EXPIRED_WAITERS_TTL := 30_000_000_000

  // ----- Waiter keys -----

  function HexDigit(n: nat): char
    requires n < 16
  {
    "0123456789abcdef"[n]
  }

  function Hex4(tid: Tid): (h: string)
    ensures |h| == 4
  {
    [HexDigit(tid / 4096), HexDigit(tid / 256 % 16), HexDigit(tid / 16 % 16), HexDigit(tid % 16)]
  }

  function WaiterKey(host: string, tid: Tid): string {
    host + "|" + Hex4(tid)
  }

  /** The address and the TID in four hexadecimal digits. */
  lemma WaiterKeyExample()
    ensures WaiterKey("10.0.0.1", 0x0A1B) == "10.0.0.1|0a1b"
  {
  }

  lemma HexDigitInjective(a: nat, b: nat)
    requires a < 16 && b < 16 && HexDigit(a) == HexDigit(b)
    ensures a == b
  {
  }

  lemma FourDigits(a: Tid)
    ensures a == 4096 * (a / 4096) + 256 * (a / 256 % 16) + 16 * (a / 16 % 16) + a % 16
  {
    assert a / 256 == 16 * (a / 4096) + a / 256 % 16;
    assert a / 16 == 16 * (a / 256) + a / 16 % 16;
  }

  lemma Hex4Injective(a: Tid, b: Tid)
    requires Hex4(a) == Hex4(b)
    ensures a == b
  {
    var x, y := Hex4(a), Hex4(b);
    HexDigitInjective(a / 4096, b / 4096) by { assert x[0] == y[0]; }
    HexDigitInjective(a / 256 % 16, b / 256 % 16) by { assert x[1] == y[1]; }
    HexDigitInjective(a / 16 % 16, b / 16 % 16) by { assert x[2] == y[2]; }
    HexDigitInjective(a % 16, b % 16) by { assert x[3] == y[3]; }
    FourDigits(a);
    FourDigits(b);
  }

  /** Two requests share a waiter key only when host and TID agree, whatever the hosts look like. */
  lemma WaiterKeyInjective(host: string, tid: Tid, host': string, tid': Tid)
    ensures WaiterKey(host, tid) == WaiterKey(host', tid') <==> host == host' && tid == tid'
  {
    var a, b := WaiterKey(host, tid), WaiterKey(host', tid');
    if a == b {
      assert host == a[..|a| - 5] && host' == b[..|b| - 5];
      assert Hex4(tid) == a[|a| - 4..] && Hex4(tid') == b[|b| - 4..];
      Hex4Injective(tid, tid');
    }
  }

  /** A table of waiters by their keys, as strings and as pairs of host and TID. */
  ghost predicate SameTable(byName: map<string, nat>, byKey: map<R.Key, nat>) {
    && (forall k :: k in byKey ==> WaiterKey(k.host, k.tid) in byName && byName[WaiterKey(k.host, k.tid)] == byKey[k])
    && (forall name :: name in byName ==> exists k :: k in byKey && name == WaiterKey(k.host, k.tid))
  }

  lemma SameLookup(byName: map<string, nat>, byKey: map<R.Key, nat>, k: R.Key)
    requires SameTable(byName, byKey)
    ensures k in byKey <==> WaiterKey(k.host, k.tid) in byName
  {
    if WaiterKey(k.host, k.tid) in byName {
      var k' :| k' in byKey && WaiterKey(k.host, k.tid) == WaiterKey(k'.host, k'.tid);
      WaiterKeyInjective(k.host, k.tid, k'.host, k'.tid);
    }
  }

  lemma SameTableAdd(byName: map<string, nat>, byKey: map<R.Key, nat>, k: R.Key, channel: nat)
    requires SameTable(byName, byKey)
    ensures SameTable(byName[WaiterKey(k.host, k.tid) := channel], byKey[k := channel])
  {
    var names, keys := byName[WaiterKey(k.host, k.tid) := channel], byKey[k := channel];
    forall k' | k' in keys
        ensures WaiterKey(k'.host, k'.tid) in names && names[WaiterKey(k'.host, k'.tid)] == keys[k'] {
      WaiterKeyInjective(k.host, k.tid, k'.host, k'.tid);
    }
    forall name | name in names ensures exists k' :: k' in keys && name == WaiterKey(k'.host, k'.tid) {
      if name == WaiterKey(k.host, k.tid) {
        assert k in keys;
      } else {
        var k' :| k' in byKey && name == WaiterKey(k'.host, k'.tid);
        assert k' in keys;
      }
    }
  }

  lemma SameTableRemove(byName: map<string, nat>, byKey: map<R.Key, nat>, k: R.Key)
    requires SameTable(byName, byKey)
    ensures SameTable(byName - {WaiterKey(k.host, k.tid)}, byKey - {k})
  {
    var names, keys := byName - {WaiterKey(k.host, k.tid)}, byKey - {k};
    forall k' | k' in keys
        ensures WaiterKey(k'.host, k'.tid) in names && names[WaiterKey(k'.host, k'.tid)] == keys[k'] {
      WaiterKeyInjective(k.host, k.tid, k'.host, k'.tid);
    }
    forall name | name in names ensures exists k' :: k' in keys && name == WaiterKey(k'.host, k'.tid) {
      var k' :| k' in byKey && name == WaiterKey(k'.host, k'.tid);
      assert k' in keys;
    }
  }

  // ----- Expired waiters -----

  datatype ExpiredWaiter = ExpiredWaiter(expiredAt: Time, caller: string)

  type ExpiredMap = map<string, ExpiredWaiter>

  /** A full table drops what is older than its lifetime, and everything when that frees no room. */
  function Trimmed(expired: ExpiredMap, now: Time): ExpiredMap {
    if |expired| < MAX_EXPIRED_WAITERS then expired
    else
      var young := map k | k in expired && now - expired[k].expiredAt <= EXPIRED_WAITERS_TTL :: expired[k];
      if |young| >= MAX_EXPIRED_WAITERS then map[] else young
  }

  /** The table never outgrows its limit, and what was just recorded is in it. */
  lemma ExpiredWaitersBounded(expired: ExpiredMap, key: string, entry: ExpiredWaiter, now: Time)
    ensures |Trimmed(expired, now)[key := entry]| <= 128
    ensures forall k :: k in Trimmed(expired, now) ==> k in expired && Trimmed(expired, now)[k] == expired[k]
  {
  }

  /**
   * Nothing is forgotten while fewer than 128 requests are remembered; after that what expired more than 30 seconds
   * ago, and everything if nothing did.
   */
  lemma TrimmedExactly(expired: ExpiredMap, now: Time)
    ensures |expired| < 128 ==> Trimmed(expired, now) == expired
    ensures |expired| >= 128 ==>
              var young := map k | k in expired && now <= expired[k].expiredAt + 30_000_000_000 :: expired[k];
              Trimmed(expired, now) == if |young| < 128 then young else map[]
  {
    var young := map k | k in expired && now <= expired[k].expiredAt + 30_000_000_000 :: expired[k];
    assert young == map k | k in expired && now - expired[k].expiredAt <= EXPIRED_WAITERS_TTL :: expired[k];
  }

  /** The loop over a full table. */
  method DropOld(expired: ExpiredMap, now: Time) returns (young: ExpiredMap)
    ensures young == map k | k in expired && now - expired[k].expiredAt <= EXPIRED_WAITERS_TTL :: expired[k]
  {
    young := expired;
    var todo := expired.Keys;
    while todo != {}
      invariant todo <= expired.Keys
      invariant young == map k | k in expired &&
          (k in todo || now - expired[k].expiredAt <= EXPIRED_WAITERS_TTL) :: expired[k]
    {
      EmptyOrString(todo);
      var k :| k in todo;
      if now - expired[k].expiredAt > EXPIRED_WAITERS_TTL {
        young := young - {k};
      }
      todo := todo - {k};
    }
  }

  // ----- The tables -----

  const COUNTER_SIZE := 0x1_0000_0000

  lemma CounterResidue(n: int, q: int, r: int)
    requires n == COUNTER_SIZE * q + r && 0 <= r < COUNTER_SIZE
    ensures n % COUNTER_SIZE == r
  {
  }

  lemma TidResidue(n: int, q: int, r: int)
    requires n == 0x1_0000 * q + r && 0 <= r < 0x1_0000
    ensures n % 0x1_0000 == r
  {
  }

  /** The counter wraps at a multiple of the TID's range, so TIDs continue as if it did not wrap. */
  lemma CounterWraps(n: nat)
    ensures (n % COUNTER_SIZE + 1) % COUNTER_SIZE == (n + 1) % COUNTER_SIZE
    ensures Uint16((n + 1) % COUNTER_SIZE) == Uint16(n + 1)
  {
    var q, r := n / COUNTER_SIZE, n % COUNTER_SIZE;
    if r + 1 < COUNTER_SIZE {
      CounterResidue(n + 1, q, r + 1);
      CounterResidue(r + 1, 0, r + 1);
    } else {
      CounterResidue(n + 1, q + 1, 0);
      CounterResidue(r + 1, 1, 0);
    }
    var c := (n + 1) % COUNTER_SIZE;
    TidResidue(n + 1, 0x1_0000 * ((n + 1) / COUNTER_SIZE) + c / 0x1_0000, c % 0x1_0000);
  }

  /** The notification channel holds the queued datagrams, here with their senders, in their order. */
  ghost predicate SameQueue(notes: seq<(string, seq<Byte>)>, queue: seq<nat>, datagrams: seq<R.Datagram>) {
    |notes| == |queue| &&
    forall k :: 0 <= k < |queue| ==> queue[k] < |datagrams| && notes[k].0 == datagrams[queue[k]].host
  }

  lemma SameQueueGrows(notes: seq<(string, seq<Byte>)>, queue: seq<nat>, datagrams: seq<R.Datagram>,
                       note: (string, seq<Byte>), dg: R.Datagram)
    requires SameQueue(notes, queue, datagrams) && note.0 == dg.host
    ensures SameQueue(notes, queue, datagrams + [dg])
    ensures SameQueue(notes + [note], queue + [|datagrams|], datagrams + [dg])
  {
  }

  lemma SameQueueShrinks(notes: seq<(string, seq<Byte>)>, queue: seq<nat>, datagrams: seq<R.Datagram>)
    requires SameQueue(notes, queue, datagrams) && notes != []
    ensures SameQueue(notes[1..], queue[1..], datagrams)
  {
    forall k | 0 <= k < |queue| - 1
      ensures queue[1..][k] < |datagrams| && notes[1..][k].0 == datagrams[queue[1..][k]].host
    {
      assert queue[1..][k] == queue[k + 1] && notes[1..][k] == notes[k + 1];
    }
  }

  class Transport {
    /** Go's uint32. */
    var tidCounter: nat
    /** The channel of each waiting request. */
    var waiters: map<string, nat>
    var expiredWaiters: ExpiredMap
    /** Whether a notification channel was set, and the datagrams in it, oldest first. */
    var connected: bool
    var notifications: seq<(string, seq<Byte>)>

    /** The tables are those of the interleaved system in state s. */
    ghost predicate Shows(s: R.System)
      reads this
    {
      && tidCounter == s.counter % COUNTER_SIZE
      && SameTable(waiters, s.waiters)
      && |expiredWaiters| <= MAX_EXPIRED_WAITERS
      && SameQueue(notifications, s.inbox.queue, s.datagrams)
    }

    constructor ()
      ensures Shows(R.START) && expiredWaiters == map[] && !connected
    {
      tidCounter, waiters, expiredWaiters, connected, notifications := 0, map[], map[], false, [];
    }

    method SetNotificationChan(ghost s: R.System)
      requires Shows(s) && !connected
      modifies this`connected
      ensures Shows(s) && connected
    {
      connected := true;
    }

    /** The counter wraps at 2^32, the TID at 2^16. */
    method NextTid(host: string, ghost s: R.System) returns (tid: Tid)
      requires Shows(s)
      modifies this`tidCounter
      ensures Shows(R.Act(s, R.Call(host)))
      ensures tid == Uint16(s.counter + 1)
    {
      CounterWraps(s.counter);
      tidCounter := (tidCounter + 1) % COUNTER_SIZE;
      tid := Uint16(tidCounter);
    }

    method AddWaiter(host: string, tid: Tid, channel: nat, ghost s: R.System, ghost i: nat)
      requires Shows(s) && R.LocksOk(s) && R.WaitersOk(s) && R.Enabled(s, R.Listen(i))
      requires R.KeyOf(s.requests[i]) == R.Key(host, tid) && channel == |s.channels|
      modifies this`waiters
      ensures Shows(R.Act(s, R.Listen(i)))
      ensures WaiterKey(host, tid) !in old(waiters)
    {
      R.ListenRegisters(s, i);
      SameLookup(waiters, s.waiters, R.Key(host, tid));
      SameTableAdd(waiters, s.waiters, R.Key(host, tid), channel);
      waiters := waiters[WaiterKey(host, tid) := channel];
    }

    method RemoveWaiter(host: string, tid: Tid, ghost s: R.System, ghost i: nat)
      requires Shows(s) && R.Enabled(s, R.Remove(i)) && R.KeyOf(s.requests[i]) == R.Key(host, tid)
      modifies this`waiters
      ensures Shows(R.Act(s, R.Remove(i)))
    {
      SameTableRemove(waiters, s.waiters, R.Key(host, tid));
      waiters := waiters - {WaiterKey(host, tid)};
    }

    method RecordExpiredWaiter(host: string, tid: Tid, caller: string, now: Time, ghost s: R.System)
      requires Shows(s)
      modifies this`expiredWaiters
      ensures Shows(s)
      ensures expiredWaiters == Trimmed(old(expiredWaiters), now)[WaiterKey(host, tid) := ExpiredWaiter(now, caller)]
    {
      ExpiredWaitersBounded(expiredWaiters, WaiterKey(host, tid), ExpiredWaiter(now, caller), now);
      if |expiredWaiters| >= MAX_EXPIRED_WAITERS {
        expiredWaiters := DropOld(expiredWaiters, now);
        if |expiredWaiters| >= MAX_EXPIRED_WAITERS {
          expiredWaiters := map[];
        }
      }
      expiredWaiters := expiredWaiters[WaiterKey(host, tid) := ExpiredWaiter(now, caller)];
    }

    /**
     * The receiver: short datagrams are dropped; others go to the waiter of their host and TID. Without one they count
     * as late when their request expired, and go to the notification channel if it has room.
     */
    method Route(from: string, data: seq<Byte>, ghost s: R.System) returns (channel: Option<nat>, late: bool)
      requires Shows(s)
      modifies this`expiredWaiters, this`notifications
      ensures |data| < Protocol.MIN_RESPONSE_LEN ==>
                Shows(s) && channel == None && !late && expiredWaiters == old(expiredWaiters) &&
                    notifications == old(notifications)
      ensures |data| >= Protocol.MIN_RESPONSE_LEN ==>
                var key := R.Key(from, Protocol.TidOf(data));
                var name := WaiterKey(key.host, key.tid);
                && Shows(R.Act(s, R.Receive(R.Datagram(key.host, key.tid, None), connected)))
                && channel == (if key in s.waiters then Some(s.waiters[key]) else None)
                && (late <==> key !in s.waiters && name in old(expiredWaiters))
                && expiredWaiters == (if late then old(expiredWaiters) - {name} else old(expiredWaiters))
                && notifications == old(notifications) +
                   if key !in s.waiters && connected && |old(notifications)| < R.NOTIFICATION_CAPACITY
                   then [(from, data)] else []
    {
      channel, late := None, false;
      if |data| < Protocol.MIN_RESPONSE_LEN {
        return;
      }
      var tid := Protocol.TidOf(data);
      SameQueueGrows(notifications, s.inbox.queue, s.datagrams, (from, data), R.Datagram(from, tid, None));
      R.ReceiveEffect(s, R.Datagram(from, tid, None), connected);
      var name := WaiterKey(from, tid);
      SameLookup(waiters, s.waiters, R.Key(from, tid));
      if name in waiters {
        channel := Some(waiters[name]);
        return;
      }
      late := PopExpired(name);
      if connected && |notifications| < R.NOTIFICATION_CAPACITY {
        notifications := notifications + [(from, data)];
      }
    }

    /** The notification listener receives the oldest datagram. */
    method NextNotification(ghost s: R.System) returns (note: (string, seq<Byte>))
      requires Shows(s) && R.Enabled(s, R.Handle)
      modifies this`notifications
      ensures Shows(R.Act(s, R.Handle)) && old(notifications) == [note] + notifications
    {
      SameQueueShrinks(notifications, s.inbox.queue, s.datagrams);
      note, notifications := notifications[0], notifications[1..];
    }

    method PopExpired(name: string) returns (found: bool)
      requires |expiredWaiters| <= MAX_EXPIRED_WAITERS
      modifies this`expiredWaiters
      ensures found <==> name in old(expiredWaiters)
      ensures expiredWaiters == if found then old(expiredWaiters) - {name} else old(expiredWaiters)
      ensures |expiredWaiters| <= MAX_EXPIRED_WAITERS
    {
      found := name in expiredWaiters;
      if found {
        ghost var before := expiredWaiters;
        expiredWaiters := expiredWaiters - {name};
        assert before.Keys == expiredWaiters.Keys + {name};
      }
    }
  }
}
