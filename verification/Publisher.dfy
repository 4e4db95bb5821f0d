/**
 * The publisher's queue as the program keeps it: a map of the latest state per device name under a lock, and a wake
 * channel with room for one token. Every method is one critical section or channel operation, and takes the step of
 * the same name of the interleaved system.
 */
module Publisher {
  import opened Results
  import opened Sets
  import Cache
  import R = PublisherRuns

  type DeviceState = Cache.DeviceState

  /** What the producers inserted in these turns. */
  function Arrived(turns: seq<Option<DeviceState>>): seq<DeviceState> {
    if |turns| == 0 then []
    else
      var last := turns[|turns| - 1];
      Arrived(turns[..|turns| - 1]) + if last.Some? then [last.value] else []
  }

  lemma ArrivedMore(turns: seq<Option<DeviceState>>, k: nat)
    requires k < |turns|
    ensures Arrived(turns[..k + 1]) == Arrived(turns[..k]) + if turns[k].Some? then [turns[k].value] else []
  {
    assert turns[..k + 1][..k] == turns[..k];
  }

  class Publisher {
    var pending: map<string, DeviceState>
    var wake: bool
    /** What the publish function was called with, oldest first. */
    var handed: seq<DeviceState>

    constructor ()
      ensures Shows([], R.START)
    {
      pending, wake, handed := map[], false, [];
    }

    /** The queue is in state s, where `inserted` lists all states inserted so far. */
    ghost predicate Shows(inserted: seq<DeviceState>, s: R.System)
      reads this
    {
      && |s.names| == |inserted| && (forall i :: 0 <= i < |inserted| ==> s.names[i] == inserted[i].device.name)
      && pending.Keys == s.pending.Keys
      && (forall d :: d in pending ==> s.pending[d] < |inserted| && pending[d] == inserted[s.pending[d]])
      && wake == s.wake
      && |handed| == |s.handed| &&
          (forall k :: 0 <= k < |handed| ==> s.handed[k] < |inserted| && handed[k] == inserted[s.handed[k]])
    }

    /** The first half of EnqueueDeviceState: the latest state under a name replaces one still waiting. */
    method Insert(st: DeviceState, ghost inserted: seq<DeviceState>, ghost s: R.System)
      requires Shows(inserted, s)
      modifies this`pending
      ensures Shows(inserted + [st], R.Act(s, R.Insert(st.device.name)))
    {
      pending := pending[st.device.name := st];
    }

    /** The second half: a token is put into the wake channel unless there is one. */
    method Signal(ghost inserted: seq<DeviceState>, ghost s: R.System)
      requires Shows(inserted, s) && R.Enabled(s, R.Signal)
      modifies this`wake
      ensures Shows(inserted, R.Act(s, R.Signal))
    {
      wake := true;
    }

    /** The worker's receive from the wake channel. */
    method Receive(ghost inserted: seq<DeviceState>, ghost s: R.System)
      requires Shows(inserted, s) && R.Enabled(s, R.Wake)
      modifies this`wake
      ensures Shows(inserted, R.Act(s, R.Wake)) && R.Act(s, R.Wake).worker.Draining?
    {
      wake := false;
    }

    /** One round of drainPending under the lock: some waiting state is removed, if there is one. */
    method TakeOne(ghost inserted: seq<DeviceState>, ghost s: R.System) returns (name: string, st: Option<DeviceState>)
      requires Shows(inserted, s) && s.worker.Draining?
      modifies this`pending
      ensures st.None? ==> pending == map[] && R.Enabled(s, R.EndDrain) && Shows(inserted, R.Do(s, R.EndDrain))
      ensures st.Some? ==> name in old(pending) && pending.Keys == old(pending).Keys - {name}
      ensures st.Some? ==> R.Enabled(s, R.Take(name)) && Shows(inserted, R.Do(s, R.Take(name)))
      ensures st.Some? ==> st.value == inserted[s.pending[name]]
    {
      EmptyOrString(pending.Keys);
      if pending.Keys == {} {
        assert s.pending.Keys == {};
        return "", None;
      }
      name :| name in pending.Keys;
      st := Some(pending[name]);
      pending := pending - {name};
    }

    /** The removed state goes to the publish function, whose failure is recovered from. */
    method Publish(st: DeviceState, ghost inserted: seq<DeviceState>, ghost s: R.System)
      requires Shows(inserted, s) && s.worker.Publishing? && s.worker.index < |inserted| &&
          st == inserted[s.worker.index]
      modifies this`handed
      ensures Shows(inserted, R.Act(s, R.Publish))
    {
      handed := handed + [st];
    }

    /**
     * A whole drain. At every turn either a producer inserts a state or the worker goes one round; after the last turn
     * given the producers stay away. It takes steps of the system only and leaves nothing waiting, whatever came in.
     */
    method DrainPending(turns: seq<Option<DeviceState>>, ghost inserted: seq<DeviceState>, ghost s: R.System)
      returns (ghost steps: seq<R.Action>, ghost past: nat)
      requires Shows(inserted, s) && s.worker.Draining?
      modifies this`pending, this`handed
      ensures past <= |turns| && Shows(inserted + Arrived(turns[..past]), R.Continue(s, steps))
      ensures R.Possible(s, steps)
      ensures pending == map[] && !R.Continue(s, steps).worker.Draining?
    {
      steps := [];
      var found, k := true, 0;
      while found
        invariant k <= |turns| && R.Possible(s, steps)
        invariant Shows(inserted + Arrived(turns[..k]), R.Continue(s, steps))
        invariant R.Continue(s, steps).worker.Draining? == found
        invariant !found ==> pending == map[]
        decreases |turns| - k, pending.Keys, found
      {
        ghost var all := inserted + Arrived(turns[..k]);
        ghost var next;
        if k < |turns| {
          found, next := Turn(turns[k], all, R.Continue(s, steps));
          ArrivedMore(turns, k);
          assert inserted + Arrived(turns[..k + 1]) == all + if turns[k].Some? then [turns[k].value] else [];
          k := k + 1;
        } else {
          found, next := DrainOne(all, R.Continue(s, steps));
        }
        R.MoreSteps(s, steps, next);
        steps := steps + next;
      }
      past := k;
    }

    method Turn(turn: Option<DeviceState>, ghost inserted: seq<DeviceState>, ghost s: R.System)
      returns (found: bool, ghost steps: seq<R.Action>)
      requires Shows(inserted, s) && s.worker.Draining?
      modifies this`pending, this`handed
      ensures R.Possible(s, steps) && R.Continue(s, steps).worker.Draining? == found
      ensures Shows(inserted + if turn.Some? then [turn.value] else [], R.Continue(s, steps))
      ensures !found ==> pending == map[]
    {
      if turn.Some? {
        Insert(turn.value, inserted, s);
        found, steps := true, [R.Insert(turn.value.device.name)];
        R.OneStep(s, steps[0]);
      } else {
        assert inserted + [] == inserted;
        found, steps := DrainOne(inserted, s);
      }
    }

    /** One round of the loop: take and publish a state, or find nothing left. */
    method DrainOne(ghost inserted: seq<DeviceState>, ghost s: R.System)
      returns (found: bool, ghost steps: seq<R.Action>)
      requires Shows(inserted, s) && s.worker.Draining?
      modifies this`pending, this`handed
      ensures R.Possible(s, steps) && Shows(inserted, R.Continue(s, steps))
      ensures R.Continue(s, steps).worker.Draining? == found
      ensures if found then pending.Keys < old(pending).Keys else pending == map[]
    {
      var name, st := TakeOne(inserted, s);
      found := st.Some?;
      if found {
        Publish(st.value, inserted, R.Do(s, R.Take(name)));
        steps := [R.Take(name), R.Publish];
        R.TwoSteps(s, R.Take(name), R.Publish);
      } else {
        steps := [R.EndDrain];
        R.OneStep(s, R.EndDrain);
      }
    }
  }
}
