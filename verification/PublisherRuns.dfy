/**
 * The coalescing publish pipeline over all interleavings of its producers and its worker. It coalesces the states of
 * one device name; two devices may share one (see PublishedDevices). States are known by their
 * position in the order of insertion. An action that is not enabled changes nothing, so every list of actions is a run.
 */
module PublisherRuns {

  /** What the worker does: wait for a signal, drain, or publish one state; `final` marks the drain after stop. */
  datatype Worker = Idle | Draining(final: bool) | Publishing(index: nat, final: bool) | Exited

  datatype System = System(
    /** The device name of every inserted state, oldest first. */
    names: seq<string>,
    /** Per name the state awaiting publication. */
    pending: map<string, nat>,
    /** The token in the wake channel, whose capacity is one. */
    wake: bool,
    stopped: bool,
    /** Producers that have inserted a state and not yet signalled. */
    signalling: nat,
    worker: Worker,
    /** The states handed to the publish function, oldest first. */
    handed: seq<nat>,
    /** How many states had been inserted when the worker exited. */
    closed: nat
  )

  const START := System([], map[], false, false, 0, Idle, [], 0)

  datatype Action =
    | Insert(name: string)
    | Signal
    | Stop
    | Wake
    | SeeStop
    | Take(name: string)
    | Publish
    | EndDrain

  predicate Enabled(s: System, a: Action) {
    match a
    case Insert(_) => true
    case Signal => s.signalling > 0
    case Stop => !s.stopped
    case Wake => s.worker.Idle? && s.wake
    case SeeStop => s.worker.Idle? && s.stopped
    case Take(name) => s.worker.Draining? && name in s.pending
    case Publish => s.worker.Publishing?
    case EndDrain => s.worker.Draining? && s.pending == map[]
  }

  function Do(s: System, a: Action): System
    requires Enabled(s, a)
  {
    match a
    case Insert(name) =>
      s.(names := s.names + [name], pending := s.pending[name := |s.names|], signalling := s.signalling + 1)
    case Signal => s.(signalling := s.signalling - 1, wake := true)
    case Stop => s.(stopped := true)
    case Wake => s.(wake := false, worker := Draining(false))
    case SeeStop => s.(worker := Draining(true))
    case Take(name) => s.(pending := s.pending - {name}, worker := Publishing(s.pending[name], s.worker.final))
    case Publish => s.(handed := s.handed + [s.worker.index], worker := Draining(s.worker.final))
    case EndDrain => if s.worker.final then s.(worker := Exited, closed := |s.names|) else s.(worker := Idle)
  }

  function Act(s: System, a: Action): System {
    if Enabled(s, a) then Do(s, a) else s
  }

  function After(actions: seq<Action>): System {
    if |actions| == 0 then START else Act(After(actions[..|actions| - 1]), actions[|actions| - 1])
  }

  // ----- No lost wakeup -----

  /** Something pending is on its way: a token, a drain in progress, or a producer about to signal. */
  ghost predicate NoLostWakeup(s: System) {
    s.pending != map[] && s.worker.Idle? ==> s.wake || s.signalling > 0
  }

  lemma DoKeepsWakeup(s: System, a: Action)
    requires NoLostWakeup(s) && Enabled(s, a)
    ensures NoLostWakeup(Do(s, a))
  {
  }

  // ----- Order -----

  ghost predicate InBounds(s: System) {
    && (forall k :: 0 <= k < |s.handed| ==> s.handed[k] < |s.names|)
    && (forall d :: d in s.pending ==> s.pending[d] < |s.names| && s.names[s.pending[d]] == d)
    && (s.worker.Publishing? ==> s.worker.index < |s.names|)
    && s.closed <= |s.names|
  }

  /**
   * Of one name, states are handed over in the order of insertion, and what waits is newer than what was
   * handed over.
   */
  ghost predicate Ordered(s: System)
    requires InBounds(s)
  {
    && (forall j, k :: 0 <= j < k < |s.handed| && s.names[s.handed[j]] == s.names[s.handed[k]] ==>
        s.handed[j] < s.handed[k])
    && (forall k :: 0 <= k < |s.handed| && s.names[s.handed[k]] in s.pending ==>
        s.handed[k] < s.pending[s.names[s.handed[k]]])
    && (s.worker.Publishing? ==>
          var i := s.worker.index;
          && (forall k :: 0 <= k < |s.handed| && s.names[s.handed[k]] == s.names[i] ==> s.handed[k] < i)
          && (s.names[i] in s.pending ==> i < s.pending[s.names[i]]))
  }

  lemma DoKeepsBounds(s: System, a: Action)
    requires InBounds(s) && Enabled(s, a)
    ensures InBounds(Do(s, a))
  {
  }

  lemma InsertKeepsOrder(s: System, name: string)
    requires InBounds(s) && Ordered(s) && InBounds(Do(s, Insert(name)))
    ensures Ordered(Do(s, Insert(name)))
  {
  }

  lemma TakeKeepsOrder(s: System, name: string)
    requires InBounds(s) && Ordered(s) && Enabled(s, Take(name)) && InBounds(Do(s, Take(name)))
    ensures Ordered(Do(s, Take(name)))
  {
  }

  lemma PublishKeepsOrder(s: System)
    requires InBounds(s) && Ordered(s) && Enabled(s, Publish) && InBounds(Do(s, Publish))
    ensures Ordered(Do(s, Publish))
  {
  }

  lemma DoKeepsOrder(s: System, a: Action)
    requires InBounds(s) && Ordered(s) && Enabled(s, a)
    ensures InBounds(Do(s, a)) && Ordered(Do(s, a))
  {
    DoKeepsBounds(s, a);
    match a
    case Insert(name) => InsertKeepsOrder(s, name);
    case Take(name) => TakeKeepsOrder(s, name);
    case Publish => PublishKeepsOrder(s);
    case Signal =>
    case Stop =>
    case Wake =>
    case SeeStop =>
    case EndDrain =>
  }

  // ----- Nothing is lost -----

  /** This state, or a later one of the same name, was handed over. */
  ghost predicate Handed(s: System, i: nat)
    requires InBounds(s) && i < |s.names|
  {
    exists k :: 0 <= k < |s.handed| && i <= s.handed[k] && s.names[s.handed[k]] == s.names[i]
  }

  /** It, or a later one of the same name, was handed over or is still to come. */
  ghost predicate Covered(s: System, i: nat)
    requires InBounds(s) && i < |s.names|
  {
    || Handed(s, i)
    || (s.worker.Publishing? && i <= s.worker.index && s.names[s.worker.index] == s.names[i])
    || (s.names[i] in s.pending && i <= s.pending[s.names[i]])
  }

  ghost predicate NothingLost(s: System)
    requires InBounds(s)
  {
    && (forall i: nat :: i < |s.names| ==> Covered(s, i))
    && (s.worker.Exited? ==> forall i: nat :: i < s.closed ==> Handed(s, i))
    && (s.worker.Exited? ==> forall k :: 0 <= k < |s.handed| ==> s.handed[k] < s.closed)
  }

  lemma HandedStays(s: System, a: Action, i: nat)
    requires InBounds(s) && Ordered(s) && Enabled(s, a) && i < |s.names| && InBounds(Do(s, a)) && Handed(s, i)
    ensures Handed(Do(s, a), i)
  {
  }

  lemma CoveredStays(s: System, a: Action, i: nat)
    requires InBounds(s) && Ordered(s) && Enabled(s, a) && i < |s.names| && InBounds(Do(s, a)) && Covered(s, i)
    ensures Covered(Do(s, a), i)
  {
    var s' := Do(s, a);
    if Handed(s, i) {
      HandedStays(s, a, i);
    } else if a.Publish? && i <= s.worker.index && s.names[s.worker.index] == s.names[i] {
      assert s'.handed[|s.handed|] == s.worker.index;
    }
  }

  lemma DoKeepsEverything(s: System, a: Action)
    requires InBounds(s) && Ordered(s) && NothingLost(s) && Enabled(s, a) && InBounds(Do(s, a))
    ensures NothingLost(Do(s, a))
  {
    var s' := Do(s, a);
    forall i: nat | i < |s'.names| ensures Covered(s', i) {
      if i < |s.names| {
        CoveredStays(s, a, i);
      }
    }
    if s'.worker.Exited? {
      forall i: nat | i < s'.closed ensures Handed(s', i) {
        if s.worker.Exited? {
          HandedStays(s, a, i);
        } else {
          assert Covered(s, i);
        }
      }
    }
  }

  // ----- All runs -----

  ghost predicate Inv(s: System) {
    NoLostWakeup(s) && InBounds(s) && Ordered(s) && NothingLost(s)
  }

  lemma ActKeepsInv(s: System, a: Action)
    requires Inv(s)
    ensures Inv(Act(s, a))
  {
    if Enabled(s, a) {
      DoKeepsWakeup(s, a);
      DoKeepsOrder(s, a);
      DoKeepsEverything(s, a);
    }
  }

  lemma {:induction false} RunInvariant(actions: seq<Action>)
    ensures Inv(After(actions))
  {
    if |actions| > 0 {
      RunInvariant(actions[..|actions| - 1]);
      ActKeepsInv(After(actions[..|actions| - 1]), actions[|actions| - 1]);
    }
  }

  /** Nothing is left to do unless a producer comes along. */
  predicate Quiescent(s: System) {
    s.signalling == 0 && (s.worker.Exited? || (s.worker.Idle? && !s.wake && !s.stopped))
  }

  /** State i is the last one inserted under its name among the first n. */
  ghost predicate LastOf(s: System, i: nat, n: nat) {
    i < n <= |s.names| && forall j :: i < j < n ==> s.names[j] != s.names[i]
  }

  /** State i was handed over, and no state of its name after it. */
  ghost predicate LastHanded(s: System, i: nat)
    requires InBounds(s) && i < |s.names|
  {
    exists k :: 0 <= k < |s.handed| && s.handed[k] == i &&
                forall l :: k < l < |s.handed| ==> s.names[s.handed[l]] != s.names[i]
  }

  lemma LastIsHanded(s: System, i: nat, n: nat)
    requires InBounds(s) && Ordered(s) && LastOf(s, i, n) && Handed(s, i)
    requires forall k :: 0 <= k < |s.handed| ==> s.handed[k] < n
    ensures LastHanded(s, i)
  {
  }

  lemma AtRestAllIsHanded(s: System, i: nat)
    requires Inv(s) && Quiescent(s) && !s.worker.Exited? && LastOf(s, i, |s.names|)
    ensures LastHanded(s, i)
  {
    assert s.pending == map[];
    assert Covered(s, i);
    LastIsHanded(s, i, |s.names|);
  }

  /**
   * In every interleaving, whenever the pipeline is at rest with its worker alive, the last state handed over for
   * each name is the last state inserted under it.
   */
  lemma {:induction false} NoLostUpdate(actions: seq<Action>, i: nat)
    requires var s := After(actions); Quiescent(s) && !s.worker.Exited? && LastOf(s, i, |s.names|)
    ensures InBounds(After(actions)) && LastHanded(After(actions), i)
  {
    RunInvariant(actions);
    AtRestAllIsHanded(After(actions), i);
  }

  /**
   * After the stop, whatever was inserted before the worker exited was handed over, or a later state of its name
   * was, and the last state handed over for a name is the last one inserted before the exit.
   */
  lemma {:induction false} FinalDrainIsComplete(actions: seq<Action>, i: nat)
    requires var s := After(actions); s.worker.Exited? && i < s.closed
    ensures var s := After(actions);
            InBounds(s) && Handed(s, i) && (LastOf(s, i, s.closed) ==> LastHanded(s, i))
  {
    RunInvariant(actions);
    if LastOf(After(actions), i, After(actions).closed) {
      LastIsHanded(After(actions), i, After(actions).closed);
    }
  }

  /**
   * Of each name the states handed over are a subsequence of those inserted, in the same order and without
   * repeats.
   */
  lemma {:induction false} HandedInOrder(actions: seq<Action>, j: nat, k: nat)
    requires j < k < |After(actions).handed|
    ensures var s := After(actions);
            && s.handed[j] < |s.names| && s.handed[k] < |s.names|
            && (s.names[s.handed[j]] == s.names[s.handed[k]] ==> s.handed[j] < s.handed[k])
  {
    RunInvariant(actions);
  }

  // ----- The pipeline comes to rest -----

  predicate Internal(a: Action) {
    !a.Insert? && !a.Stop?
  }

  function WorkerRank(w: Worker): nat {
    match w
    case Idle => 2
    case Draining(final) => if final then 1 else 3
    case Publishing(_, final) => if final then 2 else 4
    case Exited => 0
  }

  function Rank(s: System): nat {
    3 * s.signalling + (if s.wake then 2 else 0) + 2 * |s.pending| + WorkerRank(s.worker)
  }

  lemma RankDecreases(s: System, a: Action)
    requires Enabled(s, a) && Internal(a)
    ensures Rank(Do(s, a)) < Rank(s)
  {
  }

  /** There is no deadlock: unless the pipeline is at rest, some step of a producer or the worker can be taken. */
  lemma RestOrProgress(s: System)
    requires NoLostWakeup(s)
    ensures Quiescent(s) <==> forall a :: Internal(a) ==> !Enabled(s, a)
    ensures Quiescent(s) && !s.worker.Exited? ==> s.pending == map[]
  {
    if s.signalling > 0 {
      assert Enabled(s, Signal);
    } else if s.worker.Idle? && s.wake {
      assert Enabled(s, Wake);
    } else if s.worker.Idle? && s.stopped {
      assert Enabled(s, SeeStop);
    } else if s.worker.Publishing? {
      assert Enabled(s, Publish);
    } else if s.worker.Draining? {
      if name :| name in s.pending {
        assert Enabled(s, Take(name));
      } else {
        assert s.pending == map[];
        assert Enabled(s, EndDrain);
      }
    }
  }

  /** Each step of the list is one that can be taken, and none is a new producer or the stop. */
  ghost predicate Undisturbed(s: System, actions: seq<Action>)
    decreases |actions|
  {
    |actions| == 0 || (Internal(actions[0]) && Enabled(s, actions[0]) && Undisturbed(Do(s, actions[0]), actions[1..]))
  }

  function Continue(s: System, actions: seq<Action>): System
    decreases |actions|
  {
    if |actions| == 0 then s else Continue(Act(s, actions[0]), actions[1..])
  }

  /** Every one of these actions is possible when its turn comes. */
  ghost predicate Possible(s: System, actions: seq<Action>)
    decreases |actions|
  {
    |actions| == 0 || (Enabled(s, actions[0]) && Possible(Do(s, actions[0]), actions[1..]))
  }

  lemma {:induction false} MoreSteps(s: System, first: seq<Action>, more: seq<Action>)
    requires Possible(s, first) && Possible(Continue(s, first), more)
    ensures Possible(s, first + more) && Continue(s, first + more) == Continue(Continue(s, first), more)
    decreases |first|
  {
    if |first| == 0 {
      assert first + more == more;
    } else {
      assert (first + more)[1..] == first[1..] + more;
      MoreSteps(Act(s, first[0]), first[1..], more);
    }
  }

  lemma OneStep(s: System, a: Action)
    requires Enabled(s, a)
    ensures Possible(s, [a]) && Continue(s, [a]) == Do(s, a)
  {
    assert [a][1..] == [];
  }

  lemma TwoSteps(s: System, a: Action, b: Action)
    requires Enabled(s, a) && Enabled(Do(s, a), b)
    ensures Possible(s, [a, b]) && Continue(s, [a, b]) == Do(Do(s, a), b)
  {
    OneStep(Do(s, a), b);
    assert [a, b][1..] == [b];
  }

  lemma {:induction false} UndisturbedIsShort(s: System, actions: seq<Action>)
    requires Inv(s) && Undisturbed(s, actions)
    ensures |actions| <= Rank(s) && Inv(Continue(s, actions))
    decreases |actions|
  {
    if |actions| > 0 {
      RankDecreases(s, actions[0]);
      ActKeepsInv(s, actions[0]);
      UndisturbedIsShort(Do(s, actions[0]), actions[1..]);
    }
  }

  /**
   * Left alone, the pipeline publishes everything: from any state s of any run, however the scheduler picks among
   * the possible steps, it can take at most Rank(s) of them, and when it can take no more the last state handed
   * over for each name is the last one inserted under it.
   */
  lemma {:induction false} EventuallyPublished(actions: seq<Action>, more: seq<Action>, i: nat)
    requires var s := After(actions);
             var end := Continue(s, more);
             && Undisturbed(s, more)
             && (forall a :: Internal(a) ==> !Enabled(end, a)) && !end.worker.Exited? && LastOf(end, i, |end.names|)
    ensures |more| <= Rank(After(actions))
    ensures InBounds(Continue(After(actions), more)) && LastHanded(Continue(After(actions), more), i)
  {
    RunInvariant(actions);
    UndisturbedIsShort(After(actions), more);
    RestOrProgress(Continue(After(actions), more));
    AtRestAllIsHanded(Continue(After(actions), more), i);
  }
}
