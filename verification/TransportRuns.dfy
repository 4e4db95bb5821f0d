/**
 * Requests and answers on the shared port over all interleavings: callers, timeouts and cancellations, retries, the
 * receiver and the network, which may bring anything at any time. Hosts are canonical IP addresses, so the host lock
 * and the waiter of a request go by the same name. An action that is not enabled changes nothing.
 */
module TransportRuns {
  import opened Bytes
  import opened Results

  const MAX_SEND_ATTEMPTS := 2

  /** How an attempt ended: with the datagram of this number, by timeout, or by cancellation or a write error. */
  datatype Outcome = Got(datagram: nat) | TimedOut | Failed

  /**
   * Where a Send is: at the host lock, between attempts, waiting on its channel, about to remove its waiter,
   * returned.
   */
  datatype Phase =
    | Queued
    | Locked(attempt: nat)
    | Listening(attempt: nat, channel: nat)
    | Leaving(attempt: nat, channel: nat, outcome: Outcome)
    | Done(outcome: Outcome)

  /** counter is the number of TIDs issued up to and including this request's. */
  datatype Request = Request(host: string, counter: nat, phase: Phase) {
    function Tid(): Tid {
      Uint16(counter)
    }
  }

  datatype Key = Key(host: string, tid: Tid)

  /** A response channel with room for one datagram, made for one attempt. */
  datatype Channel = Channel(key: Key, buffer: Option<nat>)

  /**
   * A datagram long enough to have a TID; `answers` is the request it was caused by, if a device sent it as an
   * answer.
   */
  datatype Datagram = Datagram(host: string, tid: Tid, answers: Option<nat>)

  /** The room in the notification channel. */
  const NOTIFICATION_CAPACITY := 256

  /** What became of a received datagram last, recorded for the proofs; where it is, the other fields say. */
  datatype Fate = Routed(channel: nat) | Buffered(channel: nat) | Returned(request: nat) | Notified | Handled | Dropped

  datatype Inbox = Inbox(
    /** Datagrams that a receiver has looked up and not yet delivered, with their channels. */
    hand: map<nat, nat>,
    /** The notification channel, and what its reader has taken from it, oldest first. */
    queue: seq<nat>,
    handled: seq<nat>,
    dropped: set<nat>
  )

  datatype System = System(
    counter: nat,
    requests: seq<Request>,
    locks: map<string, nat>,
    waiters: map<Key, nat>,
    channels: seq<Channel>,
    datagrams: seq<Datagram>,
    inbox: Inbox,
    fates: seq<Fate>
  )

  const START := System(0, [], map[], map[], [], [], Inbox(map[], [], [], {}), [])

  datatype Action =
    | Call(host: string)
    | Lock(i: nat)
    | Listen(i: nat)
    | Take(i: nat)
    | Expire(i: nat)
    | Fail(i: nat)
    | Remove(i: nat)
    | GiveUp(i: nat)
    | Receive(datagram: Datagram, connected: bool)
    | Deliver(d: nat)
    | Handle

  function KeyOf(r: Request): Key {
    Key(r.host, r.Tid())
  }

  predicate Enabled(s: System, a: Action) {
    match a
    case Call(_) => true
    case Lock(i) => i < |s.requests| && s.requests[i].phase.Queued? && s.requests[i].host !in s.locks
    case Listen(i) => i < |s.requests| && s.requests[i].phase.Locked?
    case Take(i) =>
      && i < |s.requests| && s.requests[i].phase.Listening?
      && s.requests[i].phase.channel < |s.channels| && s.channels[s.requests[i].phase.channel].buffer.Some?
      && s.channels[s.requests[i].phase.channel].buffer.value < |s.fates|
    case Expire(i) => i < |s.requests| && s.requests[i].phase.Listening?
    case Fail(i) => i < |s.requests| && s.requests[i].phase.Listening?
    case Remove(i) => i < |s.requests| && s.requests[i].phase.Leaving?
    case GiveUp(i) => i < |s.requests| && s.requests[i].phase.Locked?
    case Receive(_, _) => true
    case Deliver(d) => d in s.inbox.hand && d < |s.fates| && s.inbox.hand[d] < |s.channels|
    case Handle => |s.inbox.queue| > 0 && s.inbox.queue[0] < |s.fates|
  }

  function Moved(s: System, i: nat, phase: Phase): seq<Request>
    requires i < |s.requests|
  {
    s.requests[i := s.requests[i].(phase := phase)]
  }

  /** The end of an attempt: after a timeout there may be another one under the same lock and TID. */
  function Removed(s: System, i: nat): System
    requires Enabled(s, Remove(i))
  {
    var r, p := s.requests[i], s.requests[i].phase;
    var waiters := s.waiters - {KeyOf(r)};
    if p.outcome.TimedOut? && p.attempt < MAX_SEND_ATTEMPTS then
      s.(waiters := waiters, requests := Moved(s, i, Locked(p.attempt + 1)))
    else
      s.(waiters := waiters, requests := Moved(s, i, Done(p.outcome)), locks := s.locks - {r.host})
  }

  function Do(s: System, a: Action): System
    requires Enabled(s, a)
  {
    match a
    case Call(host) => s.(counter := s.counter + 1, requests := s.requests + [Request(host, s.counter + 1, Queued)])
    case Lock(i) => s.(locks := s.locks[s.requests[i].host := i], requests := Moved(s, i, Locked(1)))
    case Listen(i) =>
      var key := KeyOf(s.requests[i]);
      s.(channels := s.channels + [Channel(key, None)], waiters := s.waiters[key := |s.channels|],
         requests := Moved(s, i, Listening(s.requests[i].phase.attempt, |s.channels|)))
    case Take(i) =>
      var p := s.requests[i].phase;
      var d := s.channels[p.channel].buffer.value;
      s.(channels := s.channels[p.channel := s.channels[p.channel].(buffer := None)],
          fates := s.fates[d := Returned(i)],
         requests := Moved(s, i, Leaving(p.attempt, p.channel, Got(d))))
    case Expire(i) => s.(requests := Moved(s, i,
        Leaving(s.requests[i].phase.attempt, s.requests[i].phase.channel, TimedOut)))
    case Fail(i) => s.(requests := Moved(s, i,
        Leaving(s.requests[i].phase.attempt, s.requests[i].phase.channel, Failed)))
    case Remove(i) => Removed(s, i)
    case GiveUp(i) => s.(requests := Moved(s, i, Done(Failed)), locks := s.locks - {s.requests[i].host})
    case Receive(dg, connected) => Received(s, dg, connected)
    case Deliver(d) => Delivered(s, d)
    case Handle => HandledNext(s)
  }

  /** The receiver looks the waiter up; without one the datagram goes to the notification channel, if there is room. */
  function Received(s: System, dg: Datagram, connected: bool): System {
    var d, key, box := |s.datagrams|, Key(dg.host, dg.tid), s.inbox;
    var s' := s.(datagrams := s.datagrams + [dg]);
    if key in s.waiters then
      s'.(inbox := box.(hand := box.hand[d := s.waiters[key]]), fates := s.fates + [Routed(s.waiters[key])])
    else if connected && |box.queue| < NOTIFICATION_CAPACITY then
      s'.(inbox := box.(queue := box.queue + [d]), fates := s.fates + [Notified])
    else
      s'.(inbox := box.(dropped := box.dropped + {d}), fates := s.fates + [Dropped])
  }

  /** What a receive changes in the tables. */
  lemma ReceiveEffect(s: System, dg: Datagram, connected: bool)
    ensures var s', passes := Act(s, Receive(dg, connected)), Key(dg.host, dg.tid) !in s.waiters && connected;
            && s'.counter == s.counter && s'.waiters == s.waiters && s'.datagrams == s.datagrams + [dg]
            && s'.inbox.queue == s.inbox.queue +
               if passes && |s.inbox.queue| < NOTIFICATION_CAPACITY then [|s.datagrams|] else []
  {
  }

  /** A full channel drops the datagram. */
  function Delivered(s: System, d: nat): System
    requires Enabled(s, Deliver(d))
  {
    var c, box := s.inbox.hand[d], s.inbox.(hand := s.inbox.hand - {d});
    if s.channels[c].buffer.None? then
      s.(channels := s.channels[c := s.channels[c].(buffer := Some(d))], inbox := box,
          fates := s.fates[d := Buffered(c)])
    else
      s.(inbox := box.(dropped := box.dropped + {d}), fates := s.fates[d := Dropped])
  }

  /** The reader of the notification channel takes the oldest datagram. */
  function HandledNext(s: System): System
    requires Enabled(s, Handle)
  {
    var d, rest := s.inbox.queue[0], s.inbox.queue[1..];
    s.(inbox := s.inbox.(queue := rest, handled := s.inbox.handled + [d]), fates := s.fates[d := Handled])
  }

  function Act(s: System, a: Action): System {
    if Enabled(s, a) then Do(s, a) else s
  }

  function After(actions: seq<Action>): System {
    if |actions| == 0 then START else Act(After(actions[..|actions| - 1]), actions[|actions| - 1])
  }

  // ----- Host locks -----

  predicate Holds(p: Phase) {
    p.Locked? || p.Listening? || p.Leaving?
  }

  ghost predicate LocksOk(s: System) {
    && (forall h :: h in s.locks ==>
        s.locks[h] < |s.requests| && s.requests[s.locks[h]].host == h && Holds(s.requests[s.locks[h]].phase))
    && (forall i :: 0 <= i < |s.requests| && Holds(s.requests[i].phase) ==>
          s.requests[i].host in s.locks && s.locks[s.requests[i].host] == i)
  }

  /** A request that keeps its lock, or keeps doing without, only changes its phase. */
  lemma MoveKeepsLocks(s: System, i: nat, phase: Phase)
    requires LocksOk(s) && i < |s.requests| && (Holds(s.requests[i].phase) <==> Holds(phase))
    ensures LocksOk(s.(requests := Moved(s, i, phase)))
  {
  }

  lemma UnlockKeepsLocks(s: System, i: nat, outcome: Outcome)
    requires LocksOk(s) && i < |s.requests| && Holds(s.requests[i].phase)
    ensures LocksOk(s.(requests := Moved(s, i, Done(outcome)), locks := s.locks - {s.requests[i].host}))
  {
  }

  lemma LockKeepsLocks(s: System, i: nat)
    requires LocksOk(s) && Enabled(s, Lock(i))
    ensures LocksOk(Do(s, Lock(i)))
  {
  }

  /** LocksOk only looks at requests and locks. */
  lemma LocksFrame(s: System, s': System)
    requires LocksOk(s) && s'.requests == s.requests && s'.locks == s.locks
    ensures LocksOk(s')
  {
  }

  lemma RemoveKeepsLocks(s: System, i: nat)
    requires LocksOk(s) && Enabled(s, Remove(i))
    ensures LocksOk(Removed(s, i))
  {
  }

  lemma DoKeepsLocks(s: System, a: Action)
    requires LocksOk(s) && Enabled(s, a)
    ensures LocksOk(Do(s, a))
  {
    var s' := Do(s, a);
    match a
    case Call(_) =>
    case Lock(i) => LockKeepsLocks(s, i);
    case Listen(i) => MoveKeepsLocks(s, i, s'.requests[i].phase);
    case Take(i) => MoveKeepsLocks(s, i, s'.requests[i].phase);
    case Expire(i) => MoveKeepsLocks(s, i, s'.requests[i].phase);
    case Fail(i) => MoveKeepsLocks(s, i, s'.requests[i].phase);
    case Remove(i) => RemoveKeepsLocks(s, i);
    case GiveUp(i) => UnlockKeepsLocks(s, i, Failed);
    case Receive(_, _) => LocksFrame(s, s');
    case Deliver(_) => LocksFrame(s, s');
    case Handle => LocksFrame(s, s');
  }

  // ----- Waiters -----

  predicate Waits(p: Phase) {
    p.Listening? || p.Leaving?
  }

  /** The waiter map holds exactly the channels of the requests that wait, each under its own host and TID. */
  ghost predicate WaitersOk(s: System) {
    && (forall k :: k in s.waiters ==> Waiter(s, k))
    && (forall i :: 0 <= i < |s.requests| && Waits(s.requests[i].phase) ==>
          && KeyOf(s.requests[i]) in s.waiters && s.waiters[KeyOf(s.requests[i])] == s.requests[i].phase.channel
          && s.requests[i].phase.channel < |s.channels| &&
              s.channels[s.requests[i].phase.channel].key == KeyOf(s.requests[i]))
  }

  ghost predicate Waiter(s: System, k: Key)
    requires k in s.waiters
  {
    && k.host in s.locks && s.locks[k.host] < |s.requests|
    && var r := s.requests[s.locks[k.host]];
       Waits(r.phase) && KeyOf(r) == k && s.waiters[k] == r.phase.channel
  }

  lemma WaitsOfHost(s: System, i: nat, k: Key)
    requires LocksOk(s) && WaitersOk(s) && i < |s.requests| && Holds(s.requests[i].phase)
    requires k in s.waiters && k.host == s.requests[i].host
    ensures Waits(s.requests[i].phase) && k == KeyOf(s.requests[i])
  {
  }

  /** A request that is about to register finds no waiter of its host, so it overwrites none. */
  lemma ListenKeepsWaiters(s: System, i: nat)
    requires LocksOk(s) && WaitersOk(s) && Enabled(s, Listen(i))
    ensures WaitersOk(Do(s, Listen(i)))
    ensures forall k :: k in s.waiters ==> k.host != s.requests[i].host
  {
    forall k | k in s.waiters ensures k.host != s.requests[i].host {
      if k.host == s.requests[i].host {
        WaitsOfHost(s, i, k);
      }
    }
  }

  lemma ListenRegisters(s: System, i: nat)
    requires LocksOk(s) && WaitersOk(s) && Enabled(s, Listen(i))
    ensures KeyOf(s.requests[i]) !in s.waiters
    ensures var s' := Act(s, Listen(i));
            && s'.waiters == s.waiters[KeyOf(s.requests[i]) := |s.channels|]
            && s'.counter == s.counter && s'.inbox == s.inbox && s'.datagrams == s.datagrams
  {
    ListenKeepsWaiters(s, i);
  }

  lemma RemoveKeepsWaiters(s: System, i: nat)
    requires LocksOk(s) && WaitersOk(s) && Enabled(s, Remove(i))
    ensures WaitersOk(Do(s, Remove(i)))
  {
    var s' := Do(s, Remove(i));
    forall k | k in s'.waiters ensures Waiter(s', k) {
      assert Waiter(s, k);
      if k.host == s.requests[i].host {
        WaitsOfHost(s, i, k);
      }
    }
  }

  /** A request that stays with its channel, or has none before and after, only changes its phase. */
  lemma MoveKeepsWaiters(s: System, i: nat, phase: Phase)
    requires WaitersOk(s) && i < |s.requests| && (Waits(s.requests[i].phase) <==> Waits(phase))
    requires Waits(phase) ==> phase.channel == s.requests[i].phase.channel
    ensures WaitersOk(s.(requests := Moved(s, i, phase)))
  {
  }

  /** WaitersOk only looks at requests, waiters, the keys of channels, and the locks of hosts that have waiters. */
  lemma WaitersFrame(s: System, s': System)
    requires WaitersOk(s) && s'.requests == s.requests && s'.waiters == s.waiters
    requires |s'.channels| == |s.channels| && forall c :: 0 <= c < |s.channels| ==>
        s'.channels[c].key == s.channels[c].key
    requires forall k :: k in s.waiters ==> k.host in s'.locks && s'.locks[k.host] == s.locks[k.host]
    ensures WaitersOk(s')
  {
  }

  lemma LockKeepsWaiters(s: System, i: nat)
    requires WaitersOk(s) && Enabled(s, Lock(i))
    ensures WaitersOk(Do(s, Lock(i)))
  {
  }

  lemma GiveUpKeepsWaiters(s: System, i: nat)
    requires LocksOk(s) && WaitersOk(s) && Enabled(s, GiveUp(i))
    ensures WaitersOk(Do(s, GiveUp(i)))
  {
  }

  lemma CallKeepsWaiters(s: System, host: string)
    requires WaitersOk(s)
    ensures WaitersOk(Do(s, Call(host)))
  {
  }

  lemma TakeKeepsWaiters(s: System, i: nat)
    requires WaitersOk(s) && Enabled(s, Take(i))
    ensures WaitersOk(Do(s, Take(i)))
  {
  }

  lemma SameLocksKeepWaiters(s: System, s': System)
    requires WaitersOk(s) && s'.requests == s.requests && s'.waiters == s.waiters && s'.locks == s.locks
    requires |s'.channels| == |s.channels| && forall c :: 0 <= c < |s.channels| ==>
        s'.channels[c].key == s.channels[c].key
    ensures WaitersOk(s')
  {
    assert forall k :: k in s.waiters ==> Waiter(s, k);
    WaitersFrame(s, s');
  }

  lemma LeavingKeepsWaiters(s: System, i: nat, outcome: Outcome)
    requires WaitersOk(s) && i < |s.requests| && s.requests[i].phase.Listening?
    ensures var p := s.requests[i].phase;
            WaitersOk(s.(requests := Moved(s, i, Leaving(p.attempt, p.channel, outcome))))
  {
    var p := s.requests[i].phase;
    MoveKeepsWaiters(s, i, Leaving(p.attempt, p.channel, outcome));
  }

  lemma DoKeepsWaiters(s: System, a: Action)
    requires LocksOk(s) && WaitersOk(s) && Enabled(s, a)
    ensures WaitersOk(Do(s, a))
  {
    match a
    case Listen(i) => ListenKeepsWaiters(s, i);
    case Remove(i) => RemoveKeepsWaiters(s, i);
    case Call(host) => CallKeepsWaiters(s, host);
    case Lock(i) => LockKeepsWaiters(s, i);
    case Take(i) => TakeKeepsWaiters(s, i);
    case Expire(i) => LeavingKeepsWaiters(s, i, TimedOut);
    case Fail(i) => LeavingKeepsWaiters(s, i, Failed);
    case GiveUp(i) => GiveUpKeepsWaiters(s, i);
    case _ => SameLocksKeepWaiters(s, Do(s, a));
  }

  // ----- Datagrams -----

  predicate Concluded(p: Phase) {
    p.Leaving? || p.Done?
  }

  /** A datagram is routed only to a channel of its own host and TID. */
  ghost predicate FatesOk(s: System) {
    && |s.fates| == |s.datagrams|
    && (forall d :: 0 <= d < |s.fates| && (s.fates[d].Routed? || s.fates[d].Buffered?) ==>
          && s.fates[d].channel < |s.channels|
          && s.channels[s.fates[d].channel].key == Key(s.datagrams[d].host, s.datagrams[d].tid)
          && (s.fates[d].Buffered? ==> s.channels[s.fates[d].channel].buffer == Some(d)))
    && (forall c :: 0 <= c < |s.channels| && s.channels[c].buffer.Some? ==>
          s.channels[c].buffer.value < |s.fates| && s.fates[s.channels[c].buffer.value] == Buffered(c))
  }

  predicate IsFate(fates: seq<Fate>, d: nat, fate: Fate) {
    d < |fates| && fates[d] == fate
  }

  /** The receivers' hands, the notification channel, its reader and the dropped datagrams, in terms of the fates. */
  ghost predicate PlacesOk(box: Inbox, fates: seq<Fate>) {
    && (forall d :: d in box.hand ==> IsFate(fates, d, Routed(box.hand[d])))
    && (forall d :: 0 <= d < |fates| && fates[d].Routed? ==> d in box.hand)
    && (forall d :: d in box.queue ==> IsFate(fates, d, Notified))
    && (forall d :: 0 <= d < |fates| && fates[d].Notified? ==> d in box.queue)
    && (forall d :: d in box.handled ==> IsFate(fates, d, Handled))
    && (forall d :: 0 <= d < |fates| && fates[d].Handled? ==> d in box.handled)
    && (forall d :: d in box.dropped ==> IsFate(fates, d, Dropped))
    && (forall d :: 0 <= d < |fates| && fates[d].Dropped? ==> d in box.dropped)
  }

  /** The notification channel keeps the order of arrival and never overflows. */
  ghost predicate QueueOk(s: System) {
    && |s.inbox.queue| <= NOTIFICATION_CAPACITY && |s.fates| == |s.datagrams|
    && (forall k :: 0 <= k < |s.inbox.handled + s.inbox.queue| ==> (s.inbox.handled + s.inbox.queue)[k] < |s.fates|)
    && (var passed := s.inbox.handled + s.inbox.queue;
        forall j, k :: 0 <= j < k < |passed| ==> passed[j] < passed[k])
  }

  /** What a request got is a datagram from its host with its TID, and nobody else got it. */
  ghost predicate ResultsOk(s: System) {
    && |s.fates| == |s.datagrams|
    && (forall i :: 0 <= i < |s.requests| && Concluded(s.requests[i].phase) && s.requests[i].phase.outcome.Got? ==>
          var d := s.requests[i].phase.outcome.datagram;
          && d < |s.fates| && s.fates[d] == Returned(i)
          && Key(s.datagrams[d].host, s.datagrams[d].tid) == KeyOf(s.requests[i]))
    && (forall d :: 0 <= d < |s.fates| && s.fates[d].Returned? ==>
          var i := s.fates[d].request;
          i < |s.requests| && Concluded(s.requests[i].phase) && s.requests[i].phase.outcome == Got(d))
  }

  lemma ListenKeepsFates(s: System, i: nat)
    requires FatesOk(s) && Enabled(s, Listen(i))
    ensures FatesOk(Do(s, Listen(i)))
  {
  }

  lemma TakeKeepsFates(s: System, i: nat)
    requires FatesOk(s) && Enabled(s, Take(i))
    ensures FatesOk(Do(s, Take(i)))
  {
  }

  lemma ReceiveKeepsFates(s: System, dg: Datagram, connected: bool)
    requires LocksOk(s) && WaitersOk(s) && FatesOk(s)
    ensures FatesOk(Received(s, dg, connected))
  {
  }

  lemma BufferedKeepsFates(s: System, d: nat, c: nat, s': System)
    requires FatesOk(s) && d < |s.fates| && s.fates[d] == Routed(c) && s.channels[c].buffer.None?
    requires s'.datagrams == s.datagrams && s'.fates == s.fates[d := Buffered(c)]
    requires s'.channels == s.channels[c := s.channels[c].(buffer := Some(d))]
    ensures FatesOk(s')
  {
  }

  lemma DroppedKeepsFates(s: System, d: nat, s': System)
    requires FatesOk(s) && d < |s.fates| && s.fates[d].Routed?
    requires s'.datagrams == s.datagrams && s'.fates == s.fates[d := Dropped] && s'.channels == s.channels
    ensures FatesOk(s')
  {
  }

  lemma DeliverKeepsFates(s: System, d: nat)
    requires FatesOk(s) && PlacesOk(s.inbox, s.fates) && Enabled(s, Deliver(d))
    ensures FatesOk(Delivered(s, d))
  {
    var c := s.inbox.hand[d];
    assert IsFate(s.fates, d, Routed(c));
    if s.channels[c].buffer.None? {
      BufferedKeepsFates(s, d, c, Delivered(s, d));
    } else {
      DroppedKeepsFates(s, d, Delivered(s, d));
    }
  }

  lemma HandleKeepsFates(s: System)
    requires FatesOk(s) && PlacesOk(s.inbox, s.fates) && Enabled(s, Handle)
    ensures FatesOk(HandledNext(s))
  {
    assert s.inbox.queue[0] in s.inbox.queue;
  }

  /** FatesOk only looks at datagrams, channels and fates. */
  lemma FatesFrame(s: System, s': System)
    requires FatesOk(s) && s'.datagrams == s.datagrams && s'.channels == s.channels && s'.fates == s.fates
    ensures FatesOk(s')
  {
  }

  lemma DoKeepsFates(s: System, a: Action)
    requires LocksOk(s) && WaitersOk(s) && FatesOk(s) && PlacesOk(s.inbox, s.fates) && Enabled(s, a)
    ensures FatesOk(Do(s, a))
  {
    match a
    case Listen(i) => ListenKeepsFates(s, i);
    case Take(i) => TakeKeepsFates(s, i);
    case Receive(dg, connected) => ReceiveKeepsFates(s, dg, connected);
    case Deliver(d) => DeliverKeepsFates(s, d);
    case Handle => HandleKeepsFates(s);
    case _ => FatesFrame(s, Do(s, a));
  }

  lemma TakenKeepsPlaces(box: Inbox, fates: seq<Fate>, d: nat, i: nat)
    requires PlacesOk(box, fates) && d < |fates| && fates[d].Buffered?
    ensures PlacesOk(box, fates[d := Returned(i)])
  {
  }

  lemma TakeKeepsPlaces(s: System, i: nat)
    requires FatesOk(s) && PlacesOk(s.inbox, s.fates) && Enabled(s, Take(i))
    ensures PlacesOk(s.inbox, Do(s, Take(i)).fates)
  {
    TakenKeepsPlaces(s.inbox, s.fates, s.channels[s.requests[i].phase.channel].buffer.value, i);
  }

  lemma NewInHand(box: Inbox, fates: seq<Fate>, c: nat)
    requires PlacesOk(box, fates)
    ensures PlacesOk(box.(hand := box.hand[|fates| := c]), fates + [Routed(c)])
  {
  }

  lemma NewInQueue(box: Inbox, fates: seq<Fate>)
    requires PlacesOk(box, fates)
    ensures PlacesOk(box.(queue := box.queue + [|fates|]), fates + [Notified])
  {
  }

  lemma NewDropped(box: Inbox, fates: seq<Fate>)
    requires PlacesOk(box, fates)
    ensures PlacesOk(box.(dropped := box.dropped + {|fates|}), fates + [Dropped])
  {
  }

  lemma ReceiveKeepsPlaces(s: System, dg: Datagram, connected: bool)
    requires FatesOk(s) && PlacesOk(s.inbox, s.fates)
    ensures PlacesOk(Received(s, dg, connected).inbox, Received(s, dg, connected).fates)
  {
    var key := Key(dg.host, dg.tid);
    if key in s.waiters {
      NewInHand(s.inbox, s.fates, s.waiters[key]);
    } else if connected && |s.inbox.queue| < NOTIFICATION_CAPACITY {
      NewInQueue(s.inbox, s.fates);
    } else {
      NewDropped(s.inbox, s.fates);
    }
  }

  lemma BufferedKeepsPlaces(box: Inbox, fates: seq<Fate>, d: nat, c: nat)
    requires PlacesOk(box, fates) && d in box.hand
    ensures PlacesOk(box.(hand := box.hand - {d}), fates[d := Buffered(c)])
  {
  }

  lemma DroppedKeepsPlaces(box: Inbox, fates: seq<Fate>, d: nat)
    requires PlacesOk(box, fates) && d in box.hand
    ensures PlacesOk(box.(hand := box.hand - {d}, dropped := box.dropped + {d}), fates[d := Dropped])
  {
  }

  lemma DeliverKeepsPlaces(s: System, d: nat)
    requires PlacesOk(s.inbox, s.fates) && Enabled(s, Deliver(d))
    ensures PlacesOk(Delivered(s, d).inbox, Delivered(s, d).fates)
  {
    BufferedKeepsPlaces(s.inbox, s.fates, d, s.inbox.hand[d]);
    DroppedKeepsPlaces(s.inbox, s.fates, d);
  }

  lemma QueueHead(queue: seq<nat>, d: nat)
    requires |queue| > 0
    ensures d in queue <==> d == queue[0] || d in queue[1..]
  {
    assert queue == [queue[0]] + queue[1..];
  }

  lemma QueueWithoutRepeats(s: System)
    requires QueueOk(s) && |s.inbox.queue| > 0
    ensures s.inbox.queue[0] !in s.inbox.queue[1..]
  {
    var passed, n := s.inbox.handled + s.inbox.queue, |s.inbox.handled|;
    forall k | 0 <= k < |s.inbox.queue[1..]| ensures s.inbox.queue[1..][k] != s.inbox.queue[0] {
      assert passed[n] < passed[n + 1 + k];
    }
  }

  lemma HandleKeepsPlaces(s: System)
    requires PlacesOk(s.inbox, s.fates) && QueueOk(s) && Enabled(s, Handle)
    ensures PlacesOk(HandledNext(s).inbox, HandledNext(s).fates)
  {
    QueueWithoutRepeats(s);
    forall d: nat ensures d in s.inbox.queue <==> d == s.inbox.queue[0] || d in s.inbox.queue[1..] {
      QueueHead(s.inbox.queue, d);
    }
  }

  lemma DoKeepsPlaces(s: System, a: Action)
    requires FatesOk(s) && PlacesOk(s.inbox, s.fates) && QueueOk(s) && Enabled(s, a)
    ensures PlacesOk(Do(s, a).inbox, Do(s, a).fates)
  {
    match a
    case Take(i) => TakeKeepsPlaces(s, i);
    case Receive(dg, connected) => ReceiveKeepsPlaces(s, dg, connected);
    case Deliver(d) => DeliverKeepsPlaces(s, d);
    case Handle => HandleKeepsPlaces(s);
    case _ => assert Do(s, a).inbox == s.inbox && Do(s, a).fates == s.fates;
  }

  lemma ReceiveKeepsQueue(s: System, dg: Datagram, connected: bool)
    requires QueueOk(s)
    ensures QueueOk(Received(s, dg, connected))
  {
    assert s.inbox.handled + (s.inbox.queue + [|s.datagrams|]) == (s.inbox.handled + s.inbox.queue) + [|s.datagrams|];
  }

  lemma HandleKeepsQueue(s: System)
    requires QueueOk(s) && Enabled(s, Handle)
    ensures QueueOk(HandledNext(s))
  {
    assert s.inbox.handled + [s.inbox.queue[0]] + s.inbox.queue[1..] == s.inbox.handled + s.inbox.queue;
  }

  lemma QueueFrame(s: System, s': System)
    requires QueueOk(s) && s'.inbox.queue == s.inbox.queue && s'.inbox.handled == s.inbox.handled
    requires |s'.fates| == |s.fates| && |s'.datagrams| == |s.datagrams|
    ensures QueueOk(s')
  {
  }

  lemma DoKeepsQueue(s: System, a: Action)
    requires QueueOk(s) && Enabled(s, a)
    ensures QueueOk(Do(s, a))
  {
    match a
    case Receive(dg, connected) => ReceiveKeepsQueue(s, dg, connected);
    case Handle => HandleKeepsQueue(s);
    case _ => QueueFrame(s, Do(s, a));
  }

  lemma TakeKeepsResults(s: System, i: nat)
    requires WaitersOk(s) && FatesOk(s) && ResultsOk(s) && Enabled(s, Take(i))
    ensures ResultsOk(Do(s, Take(i)))
  {
  }

  lemma ReceiveKeepsResults(s: System, dg: Datagram, connected: bool)
    requires ResultsOk(s)
    ensures ResultsOk(Received(s, dg, connected))
  {
  }

  /** Changing the fate of a datagram that nobody got. */
  lemma FateKeepsResults(s: System, s': System, d: nat, fate: Fate)
    requires ResultsOk(s) && d < |s.fates| && !s.fates[d].Returned? && !fate.Returned?
    requires s'.requests == s.requests && s'.datagrams == s.datagrams && s'.fates == s.fates[d := fate]
    ensures ResultsOk(s')
  {
  }

  predicate HasResult(p: Phase) {
    Concluded(p) && p.outcome.Got?
  }

  /**
   * ResultsOk only looks at datagrams, fates and requests; a request may change its phase as long as its result
   * stays.
   */
  lemma MoveKeepsResults(s: System, s': System, i: nat, phase: Phase)
    requires ResultsOk(s) && i < |s.requests| && s'.requests == Moved(s, i, phase)
    requires s'.datagrams == s.datagrams && s'.fates == s.fates
    requires HasResult(phase) <==> HasResult(s.requests[i].phase)
    requires HasResult(phase) ==> phase.outcome == s.requests[i].phase.outcome
    ensures ResultsOk(s')
  {
  }

  lemma CallKeepsResults(s: System, host: string)
    requires ResultsOk(s)
    ensures ResultsOk(Do(s, Call(host)))
  {
  }

  predicate Moves(a: Action) {
    a.Lock? || a.Listen? || a.Expire? || a.Fail? || a.Remove? || a.GiveUp?
  }

  lemma MovesKeepResults(s: System, a: Action)
    requires ResultsOk(s) && Moves(a) && Enabled(s, a)
    ensures ResultsOk(Do(s, a))
  {
    MoveKeepsResults(s, Do(s, a), a.i, Do(s, a).requests[a.i].phase);
  }

  lemma DoKeepsResults(s: System, a: Action)
    requires LocksOk(s) && WaitersOk(s) && FatesOk(s) && PlacesOk(s.inbox, s.fates) && ResultsOk(s) && Enabled(s, a)
    ensures ResultsOk(Do(s, a))
  {
    match a
    case Call(host) => CallKeepsResults(s, host);
    case Take(i) => TakeKeepsResults(s, i);
    case Receive(dg, connected) => ReceiveKeepsResults(s, dg, connected);
    case Deliver(d) => FateKeepsResults(s, Delivered(s, d), d, Delivered(s, d).fates[d]);
    case Handle =>
      assert s.inbox.queue[0] in s.inbox.queue;
      FateKeepsResults(s, HandledNext(s), s.inbox.queue[0], Handled);
    case _ => MovesKeepResults(s, a);
  }

  ghost predicate CountersOk(s: System) {
    && (forall i :: 0 <= i < |s.requests| ==> s.requests[i].counter <= s.counter)
    && (forall i, j :: 0 <= i < j < |s.requests| ==> s.requests[i].counter < s.requests[j].counter)
  }

  lemma CountersFrame(s: System, s': System)
    requires CountersOk(s) && s'.counter == s.counter && |s'.requests| == |s.requests|
    requires forall i :: 0 <= i < |s.requests| ==> s'.requests[i].counter == s.requests[i].counter
    ensures CountersOk(s')
  {
  }

  lemma DoKeepsCounters(s: System, a: Action)
    requires CountersOk(s) && Enabled(s, a)
    ensures CountersOk(Do(s, a))
  {
    if !a.Call? {
      CountersFrame(s, Do(s, a));
    }
  }

  // ----- All runs -----

  ghost predicate Inv(s: System) {
    LocksOk(s) && WaitersOk(s) && FatesOk(s) && PlacesOk(s.inbox, s.fates) && QueueOk(s) && ResultsOk(s) &&
        CountersOk(s)
  }

  lemma ActKeepsInv(s: System, a: Action)
    requires Inv(s)
    ensures Inv(Act(s, a))
  {
    if Enabled(s, a) {
      DoKeepsLocks(s, a);
      DoKeepsWaiters(s, a);
      DoKeepsFates(s, a);
      DoKeepsPlaces(s, a);
      DoKeepsQueue(s, a);
      DoKeepsResults(s, a);
      DoKeepsCounters(s, a);
    }
  }

  lemma {:induction false} RunInvariant(actions: seq<Action>)
    ensures Inv(After(actions))
  {
    if |actions| > 0 {
      RunInvariant(actions[..|actions| - 1]);
      ActKeepsInv(After(actions[..|actions| - 1]), actions[|actions| - 1]);
    }
  }

  predicate Returns(s: System, i: nat, d: nat) {
    i < |s.requests| && d < |s.datagrams| && s.requests[i].phase == Done(Got(d))
  }

  /** In every run a Send returns only a datagram from its own host with its own TID, and no two return the same one. */
  lemma RoutingIsSafe(actions: seq<Action>, i: nat)
    requires var s := After(actions); i < |s.requests| && s.requests[i].phase.Done? && s.requests[i].phase.outcome.Got?
    ensures var s := After(actions);
            var d := s.requests[i].phase.outcome.datagram;
            && d < |s.datagrams| && s.datagrams[d].host == s.requests[i].host &&
                s.datagrams[d].tid == s.requests[i].Tid()
            && forall j :: Returns(s, j, d) ==> j == i
  {
    RunInvariant(actions);
  }

  /**
   * In every run a host has at most one waiter, and it belongs to a request that is in flight under the host's
   * lock.
   */
  lemma OneWaiterPerHost(actions: seq<Action>, j: Key, k: Key)
    requires var s := After(actions); j in s.waiters && k in s.waiters
    ensures var s := After(actions);
            && (j.host == k.host ==> j == k)
            && exists i :: 0 <= i < |s.requests| && Waits(s.requests[i].phase) && KeyOf(s.requests[i]) == k &&
                           k.host in s.locks && s.locks[k.host] == i && s.requests[i].phase.channel == s.waiters[k]
  {
    RunInvariant(actions);
    var s := After(actions);
    assert Waiter(s, j) && Waiter(s, k);
    assert Waits(s.requests[s.locks[k.host]].phase);
  }

  /** Registering a waiter never overwrites one. */
  lemma WaitersAreNotOverwritten(actions: seq<Action>, i: nat)
    requires Enabled(After(actions), Listen(i))
    ensures KeyOf(After(actions).requests[i]) !in After(actions).waiters
  {
    RunInvariant(actions);
    ListenRegisters(After(actions), i);
  }

  ghost predicate InChannel(s: System, d: nat) {
    exists c :: 0 <= c < |s.channels| && s.channels[c].buffer == Some(d)
  }

  /** Some request took the datagram from its channel, and returns it or has returned it. */
  ghost predicate IsResult(s: System, d: nat) {
    exists i :: 0 <= i < |s.requests| && HasResult(s.requests[i].phase) && s.requests[i].phase.outcome.datagram == d
  }

  function One(b: bool): nat {
    if b then 1 else 0
  }

  /** The six places a received datagram can be in. */
  ghost function Places(s: System, d: nat): nat {
    One(d in s.inbox.hand) + One(InChannel(s, d)) + One(IsResult(s, d)) +
    One(d in s.inbox.queue) + One(d in s.inbox.handled) + One(d in s.inbox.dropped)
  }

  lemma PlacesByFate(s: System, d: nat)
    requires Inv(s) && d < |s.datagrams|
    ensures d in s.inbox.hand <==> s.fates[d].Routed?
    ensures InChannel(s, d) <==> s.fates[d].Buffered?
    ensures IsResult(s, d) <==> s.fates[d].Returned?
    ensures d in s.inbox.queue <==> s.fates[d].Notified?
    ensures d in s.inbox.handled <==> s.fates[d].Handled?
    ensures d in s.inbox.dropped <==> s.fates[d].Dropped?
  {
    if s.fates[d].Buffered? {
      assert s.channels[s.fates[d].channel].buffer == Some(d);
    }
    if s.fates[d].Returned? {
      assert HasResult(s.requests[s.fates[d].request].phase);
    }
  }

  /**
   * In every run each received datagram is in exactly one place: on its way to a channel, in a channel, taken by a
   * request, in the notification channel, taken by its reader, or dropped.
   */
  lemma EveryDatagramIsInOnePlace(actions: seq<Action>, d: nat)
    requires d < |After(actions).datagrams|
    ensures Places(After(actions), d) == 1
  {
    RunInvariant(actions);
    PlacesByFate(After(actions), d);
  }

  /** Notifications are handled in the order of arrival, each once, and at most 256 wait. */
  lemma NotificationsInOrder(actions: seq<Action>, j: nat, k: nat)
    ensures var s := After(actions);
            && |s.inbox.queue| <= 256
            && var passed := s.inbox.handled + s.inbox.queue; (j < k < |passed| ==> passed[j] < passed[k])
  {
    RunInvariant(actions);
  }

  /**
   * A datagram that nobody waits for is queued exactly when someone listens and fewer than 256 wait, and whatever is
   * queued can be read.
   */
  lemma QueuedUnlessFull(actions: seq<Action>, s: System, dg: Datagram, connected: bool)
    requires s == After(actions) && Key(dg.host, dg.tid) !in s.waiters
    ensures Act(s, Receive(dg, connected)).inbox.queue ==
            s.inbox.queue + if connected && |s.inbox.queue| < 256 then [|s.datagrams|] else []
    ensures s.inbox.queue != [] ==>
              var s' := Act(s, Handle);
              s'.inbox.handled == s.inbox.handled + [s.inbox.queue[0]] && s'.inbox.queue == s.inbox.queue[1..]
  {
    QueuedHaveFates(actions);
    ReceiveEffect(s, dg, connected);
  }

  lemma QueuedHaveFates(actions: seq<Action>)
    ensures var s := After(actions); forall k :: 0 <= k < |s.inbox.queue| ==> s.inbox.queue[k] < |s.fates|
  {
    RunInvariant(actions);
    var s := After(actions);
    forall k | 0 <= k < |s.inbox.queue| ensures s.inbox.queue[k] < |s.fates| {
      assert (s.inbox.handled + s.inbox.queue)[|s.inbox.handled| + k] == s.inbox.queue[k];
    }
  }

  // ----- Stale answers -----

  /** Devices copy the TID of the request into the answer. */
  ghost predicate Echoes(s: System) {
    forall d :: 0 <= d < |s.datagrams| && s.datagrams[d].answers.Some? ==>
        s.datagrams[d].tid == Uint16(s.datagrams[d].answers.value)
  }

  /**
   * An answer to the request with counter c is returned by the request with counter c' only if the two agree modulo
   * 2^16. So while fewer than 2^16 TIDs are issued between them, no answer goes to the wrong request.
   */
  lemma StaleAnswers(actions: seq<Action>, i: nat, d: nat)
    requires Echoes(After(actions)) && Returns(After(actions), i, d) && After(actions).datagrams[d].answers.Some?
    ensures Congruent(After(actions).datagrams[d].answers.value, After(actions).requests[i].counter)
  {
    RunInvariant(actions);
    StaleInState(After(actions), i, d);
  }

  predicate Congruent(c: nat, c': nat) {
    (c - c') % 0x1_0000 == 0 && (-0x1_0000 < c - c' < 0x1_0000 ==> c == c')
  }

  lemma StaleInState(s: System, i: nat, d: nat)
    requires ResultsOk(s) && Echoes(s) && Returns(s, i, d) && s.datagrams[d].answers.Some?
    ensures Congruent(s.datagrams[d].answers.value, s.requests[i].counter)
  {
    ReturnedMatches(s, i, d);
    SameResidue(s.datagrams[d].answers.value, s.requests[i].counter);
  }

  lemma ReturnedMatches(s: System, i: nat, d: nat)
    requires ResultsOk(s) && Returns(s, i, d)
    ensures s.datagrams[d].tid == Uint16(s.requests[i].counter)
  {
  }

  lemma SameResidue(a: nat, b: nat)
    requires Uint16(a) == Uint16(b)
    ensures Congruent(a, b)
  {
  }

  /** A new request to this host gets as far as waiting for its answer. */
  function Asking(s: System, host: string): System {
    Act(Act(Act(s, Call(host)), Lock(|s.requests|)), Listen(|s.requests|))
  }

  lemma CallGetsThrough(s: System, host: string)
    requires host !in s.locks
    ensures var s' := Asking(s, host);
            && |s'.requests| == |s.requests| + 1
            && s'.requests[|s.requests|] == Request(host, s.counter + 1, Listening(1, |s.channels|))
            && Key(host, Uint16(s.counter + 1)) in s'.waiters &&
                s'.waiters[Key(host, Uint16(s.counter + 1))] == |s.channels|
            && |s'.channels| == |s.channels| + 1 && s'.channels[|s.channels|].buffer.None?
            && s'.datagrams == s.datagrams && s'.fates == s.fates
  {
  }

  /** The datagram arrives, is handed to request i, and the request returns. */
  function Answering(s: System, i: nat, dg: Datagram): System {
    Act(Act(Act(Act(s, Receive(dg, true)), Deliver(|s.fates|)), Take(i)), Remove(i))
  }

  lemma AnswerGetsThrough(s: System, i: nat, dg: Datagram, d: nat)
    requires i < |s.requests| && s.requests[i].phase.Listening? && |s.fates| == |s.datagrams| == d
    requires Key(dg.host, dg.tid) in s.waiters &&
        s.waiters[Key(dg.host, dg.tid)] == s.requests[i].phase.channel < |s.channels|
    requires s.channels[s.requests[i].phase.channel].buffer.None?
    ensures var end := Answering(s, i, dg);
            Returns(end, i, d) && end.datagrams[d] == dg && end.requests[i].counter == s.requests[i].counter
  {
  }

  /** The next request to this host, whose counter is one up, returns the datagram that answers request c. */
  ghost predicate TakesAnswer(s: System, host: string, c: nat) {
    var i, d := |s.requests|, |s.datagrams|;
    var end := Answering(Asking(s, host), i, Datagram(host, Uint16(c), Some(c)));
    && Returns(end, i, d) && end.datagrams[d].answers == Some(c)
    && i < |end.requests| && end.requests[i].counter == s.counter + 1
  }

  /**
   * The condition is exact: a late answer to request c is taken by the next request of a free host whenever that
   * one's counter agrees with c modulo 2^16.
   */
  lemma CongruentAnswerIsTaken(actions: seq<Action>, s: System, host: string, c: nat)
    requires s == After(actions) && host !in s.locks && Uint16(c) == Uint16(s.counter + 1)
    ensures TakesAnswer(s, host, c)
  {
    EveryDatagramHasFate(actions);
    AnswerIsTakenFrom(s, host, c);
  }

  lemma EveryDatagramHasFate(actions: seq<Action>)
    ensures |After(actions).fates| == |After(actions).datagrams|
  {
    RunInvariant(actions);
  }

  lemma AnswerIsTakenFrom(s: System, host: string, c: nat)
    requires |s.fates| == |s.datagrams| && host !in s.locks && Uint16(c) == Uint16(s.counter + 1)
    ensures TakesAnswer(s, host, c)
  {
    CallGetsThrough(s, host);
    AnswerGetsThrough(Asking(s, host), |s.requests|, Datagram(host, Uint16(c), Some(c)), |s.datagrams|);
  }

  lemma ActKeepsRequest(s: System, a: Action, i: nat)
    requires i < |s.requests|
    ensures i < |Act(s, a).requests|
    ensures Act(s, a).requests[i].counter == s.requests[i].counter && Act(s, a).requests[i].host == s.requests[i].host
  {
  }

  /** In every run a request keeps its host and counter, hence its TID, through all its attempts. */
  lemma {:induction false} RetriesReuseTheTid(actions: seq<Action>, n: nat, i: nat)
    requires n <= |actions| && i < |After(actions[..n]).requests|
    ensures i < |After(actions).requests|
    ensures After(actions).requests[i].counter == After(actions[..n]).requests[i].counter
    ensures After(actions).requests[i].host == After(actions[..n]).requests[i].host
  {
    if n == |actions| {
      assert actions[..n] == actions;
    } else {
      var init := actions[..|actions| - 1];
      assert init[..n] == actions[..n];
      RetriesReuseTheTid(init, n, i);
      ActKeepsRequest(After(init), actions[|actions| - 1], i);
    }
  }

  /** No two requests share a counter. */
  lemma CountersDiffer(actions: seq<Action>, i: nat, j: nat)
    requires i < j < |After(actions).requests|
    ensures After(actions).requests[i].counter < After(actions).requests[j].counter <= After(actions).counter
  {
    RunInvariant(actions);
  }

  // ----- Every Send ends -----

  /** What is left of a request: the wait for the lock and three steps per attempt. */
  function PhaseRank(p: Phase): nat {
    match p
    case Queued => 3 * MAX_SEND_ATTEMPTS + 1
    case Locked(k) => 3 * Left(k) + 3
    case Listening(k, _) => 3 * Left(k) + 2
    case Leaving(k, _, _) => 3 * Left(k) + 1
    case Done(_) => 0
  }

  /** Attempts after the k-th. */
  function Left(k: nat): nat {
    if k < MAX_SEND_ATTEMPTS then MAX_SEND_ATTEMPTS - k else 0
  }

  ghost predicate AttemptsOk(s: System) {
    forall i :: 0 <= i < |s.requests| && Holds(s.requests[i].phase) ==>
        1 <= s.requests[i].phase.attempt <= MAX_SEND_ATTEMPTS
  }

  lemma DoKeepsAttempts(s: System, a: Action)
    requires AttemptsOk(s) && Enabled(s, a)
    ensures AttemptsOk(Do(s, a))
  {
  }

  lemma ActAdvances(s: System, a: Action, i: nat)
    requires i < |s.requests| && AttemptsOk(s)
    ensures i < |Act(s, a).requests| && PhaseRank(Act(s, a).requests[i].phase) <= PhaseRank(s.requests[i].phase)
    ensures Act(s, a).requests[i].phase != s.requests[i].phase ==>
              PhaseRank(Act(s, a).requests[i].phase) < PhaseRank(s.requests[i].phase)
  {
  }

  /** In every run a request that moves comes closer to its end, so it moves at most seven times. */
  lemma {:induction false} RequestsAdvance(actions: seq<Action>, n: nat, i: nat)
    requires n <= |actions| && i < |After(actions[..n]).requests|
    ensures i < |After(actions).requests|
    ensures var before, now := After(actions[..n]).requests[i].phase, After(actions).requests[i].phase;
            PhaseRank(now) <= PhaseRank(before) <= 7 && (PhaseRank(now) == PhaseRank(before) ==> now == before)
  {
    AtMostTwoAttempts(actions[..n]);
    if n == |actions| {
      assert actions[..n] == actions;
    } else {
      var init := actions[..|actions| - 1];
      assert init[..n] == actions[..n];
      AtMostTwoAttempts(init);
      RequestsAdvance(init, n, i);
      ActAdvances(After(init), actions[|actions| - 1], i);
    }
  }

  /**
   * A request that holds its host's lock can always take a step of its own, so a lock is held for at most six
   * of them.
   */
  lemma LockHolderCanMove(s: System, i: nat) returns (a: Action)
    requires i < |s.requests| && AttemptsOk(s) && Holds(s.requests[i].phase)
    ensures Enabled(s, a) &&
        PhaseRank(Do(s, a).requests[i].phase) < PhaseRank(s.requests[i].phase) <= 6
  {
    match s.requests[i].phase
    case Locked(_) => a := Listen(i);
    case Listening(_, _) => a := Expire(i);
    case Leaving(_, _, _) => a := Remove(i);
  }

  lemma {:induction false} AtMostTwoAttempts(actions: seq<Action>)
    ensures AttemptsOk(After(actions))
    ensures var s := After(actions);
            forall i :: 0 <= i < |s.requests| && Holds(s.requests[i].phase) ==> 1 <= s.requests[i].phase.attempt <= 2
  {
    if |actions| > 0 {
      var s, a := After(actions[..|actions| - 1]), actions[|actions| - 1];
      AtMostTwoAttempts(actions[..|actions| - 1]);
      if Enabled(s, a) {
        DoKeepsAttempts(s, a);
      }
    }
  }

  /** Counters, and so TIDs, are issued one after the other. */
  lemma {:induction false} CountersAreConsecutive(actions: seq<Action>, i: nat)
    ensures var s := After(actions);
            s.counter == |s.requests| && (i < |s.requests| ==> s.requests[i].counter == i + 1)
  {
    if |actions| > 0 {
      var s, a := After(actions[..|actions| - 1]), actions[|actions| - 1];
      CountersAreConsecutive(actions[..|actions| - 1], i);
      CountersStep(s, a, i);
    }
  }

  lemma CountersStep(s: System, a: Action, i: nat)
    requires s.counter == |s.requests| && (i < |s.requests| ==> s.requests[i].counter == i + 1)
    ensures var s' := Act(s, a);
            s'.counter == |s'.requests| && (i < |s'.requests| ==> s'.requests[i].counter == i + 1)
  {
  }

  // ----- Which attempt decides -----

  predicate Expires(s: System, a: Action, i: nat) {
    a == Expire(i) && i < |s.requests| && s.requests[i].phase.Listening?
  }

  /** How many attempts of request i ran into their timeout. */
  function Expiries(actions: seq<Action>, i: nat): nat {
    if |actions| == 0 then 0
    else
      var init := actions[..|actions| - 1];
      Expiries(init, i) + if Expires(After(init), actions[|actions| - 1], i) then 1 else 0
  }

  predicate Accounts(p: Phase, n: nat) {
    match p
    case Queued => n == 0
    case Locked(k) => n == k - 1
    case Listening(k, _) => n == k - 1
    case Leaving(k, _, outcome) => n == if outcome.TimedOut? then k else k - 1
    case Done(outcome) => if outcome.TimedOut? then n == MAX_SEND_ATTEMPTS else n < MAX_SEND_ATTEMPTS
  }

  predicate IsStepOf(a: Action, i: nat) {
    (Moves(a) || a.Take?) && a.i == i
  }

  lemma OthersLeaveRequest(s: System, a: Action, i: nat)
    requires !IsStepOf(a, i)
    ensures i < |s.requests| ==> i < |Act(s, a).requests| && Act(s, a).requests[i] == s.requests[i]
    ensures |s.requests| <= i < |Act(s, a).requests| ==> Act(s, a).requests[i].phase.Queued?
  {
  }

  lemma StepAccounts(s: System, a: Action, i: nat, n: nat)
    requires AttemptsOk(s) && IsStepOf(a, i) && i < |s.requests| && Accounts(s.requests[i].phase, n)
    ensures i < |Act(s, a).requests|
    ensures Accounts(Act(s, a).requests[i].phase, n + if Expires(s, a, i) then 1 else 0)
  {
  }

  lemma ActAccounts(s: System, a: Action, i: nat, n: nat)
    requires AttemptsOk(s) && if i < |s.requests| then Accounts(s.requests[i].phase, n) else n == 0
    ensures var s', n' := Act(s, a), n + if Expires(s, a, i) then 1 else 0;
            if i < |s'.requests| then Accounts(s'.requests[i].phase, n') else n' == 0
  {
    if !IsStepOf(a, i) {
      OthersLeaveRequest(s, a, i);
    } else if i < |s.requests| {
      StepAccounts(s, a, i, n);
    } else {
      assert Act(s, a) == s;
    }
  }

  lemma {:induction false} RunAccounts(actions: seq<Action>, i: nat)
    ensures var s, n := After(actions), Expiries(actions, i);
            if i < |s.requests| then Accounts(s.requests[i].phase, n) else n == 0
  {
    if |actions| > 0 {
      var init := actions[..|actions| - 1];
      RunAccounts(init, i);
      AtMostTwoAttempts(init);
      ActAccounts(After(init), actions[|actions| - 1], i, Expiries(init, i));
    }
  }

  /**
   * Only timeouts are retried, once: a Send returns a timeout exactly when two of its attempts expired, and a datagram
   * or an error when at most one did.
   */
  lemma TimesOutAfterTwoAttempts(actions: seq<Action>, i: nat)
    requires i < |After(actions).requests| && After(actions).requests[i].phase.Done?
    ensures After(actions).requests[i].phase.outcome.TimedOut? <==> Expiries(actions, i) == 2
    ensures !After(actions).requests[i].phase.outcome.TimedOut? <==> Expiries(actions, i) <= 1
  {
    RunAccounts(actions, i);
  }
}
