/**
 * The publish pipeline seen from the devices. It coalesces by device name, while the cache tells devices apart by name,
 * address and class, so what holds for every name holds for a device exactly when it shares its name with no other.
 */
module PublishedDevices {
  import Cache
  import CacheRuns
  import opened PublisherRuns

  type Device = Cache.Device

  /** The i-th inserted state is one of device owners[i]. */
  ghost predicate InsertedBy(s: System, owners: seq<Device>) {
    |owners| == |s.names| && forall i :: 0 <= i < |owners| ==> owners[i].name == s.names[i]
  }

  predicate Same(owners: seq<Device>, j: int, dev: Device) {
    0 <= j < |owners| && CacheRuns.SameDevice(owners[j], dev)
  }

  ghost predicate LastOfDevice(owners: seq<Device>, i: nat, dev: Device) {
    Same(owners, i, dev) && forall j :: i < j < |owners| ==> !Same(owners, j, dev)
  }

  /** The last state inserted for the device was handed over, and no other state of the device after it. */
  ghost predicate UpToDate(s: System, owners: seq<Device>, dev: Device) {
    forall i: nat :: LastOfDevice(owners, i, dev) ==>
      exists k :: 0 <= k < |s.handed| && s.handed[k] == i &&
                  forall l :: k < l < |s.handed| ==> !Same(owners, s.handed[l], dev)
  }

  ghost predicate AtRest(s: System) {
    Quiescent(s) && !s.worker.Exited?
  }

  ghost predicate AllOf(owners: seq<Device>, devices: set<Device>) {
    forall i :: 0 <= i < |owners| ==> owners[i] in devices
  }

  /** In every run with states of these devices only, whenever the pipeline is at rest. */
  ghost predicate AlwaysUpToDate(devices: set<Device>, dev: Device) {
    forall actions, owners ::
      InsertedBy(After(actions), owners) && AllOf(owners, devices) && AtRest(After(actions)) ==>
        UpToDate(After(actions), owners, dev)
  }

  ghost predicate OwnsItsName(devices: set<Device>, dev: Device) {
    forall other :: other in devices && other.name == dev.name ==> CacheRuns.SameDevice(other, dev)
  }

  lemma OwnNameIsUpToDate(devices: set<Device>, dev: Device, actions: seq<Action>, owners: seq<Device>)
    requires OwnsItsName(devices, dev) && InsertedBy(After(actions), owners) && AtRest(After(actions))
    requires AllOf(owners, devices)
    ensures UpToDate(After(actions), owners, dev)
  {
    var s := After(actions);
    forall i: nat | LastOfDevice(owners, i, dev)
      ensures exists k :: 0 <= k < |s.handed| && s.handed[k] == i &&
                          forall l :: k < l < |s.handed| ==> !Same(owners, s.handed[l], dev)
    {
      forall j | i < j < |s.names| ensures s.names[j] != s.names[i] {
        assert !Same(owners, j, dev);
      }
      NoLostUpdate(actions, i);
    }
  }

  // ----- Two devices of one name -----

  /** Two states are inserted under one name before the worker wakes up for the first time. */
  function TwoInserts(name: string): seq<Action> {
    [Insert(name), Insert(name), Signal, Signal, Wake, Take(name), Publish, EndDrain]
  }

  lemma TwoInsertsHandOne(name: string)
    ensures After(TwoInserts(name)) == System([name, name], map[], false, false, 0, Idle, [1], 0)
  {
    var all := TwoInserts(name);
    Step(all, 0, START, OneInsert(name));
    Step(all, 1, OneInsert(name), BothInserted(name, 2, false, Idle));
    Step(all, 2, BothInserted(name, 2, false, Idle), BothInserted(name, 1, true, Idle));
    Step(all, 3, BothInserted(name, 1, true, Idle), BothInserted(name, 0, true, Idle));
    Step(all, 4, BothInserted(name, 0, true, Idle), BothInserted(name, 0, false, Draining(false)));
    Step(all, 5, BothInserted(name, 0, false, Draining(false)), Taken(name));
    Step(all, 6, Taken(name), HandedOver(name));
    Step(all, 7, HandedOver(name), HandedOver(name).(worker := Idle));
    assert all[..8] == all;
  }

  lemma Step(actions: seq<Action>, n: nat, s: System, s': System)
    requires n < |actions| && After(actions[..n]) == s && Act(s, actions[n]) == s'
    ensures After(actions[..n + 1]) == s'
  {
    assert actions[..n + 1][..n] == actions[..n];
  }

  function OneInsert(name: string): System {
    System([name], map[name := 0], false, false, 1, Idle, [], 0)
  }

  function BothInserted(name: string, signalling: nat, wake: bool, worker: Worker): System {
    System([name, name], map[name := 1], wake, false, signalling, worker, [], 0)
  }

  function Taken(name: string): System {
    System([name, name], map[], false, false, 0, Publishing(1, false), [], 0)
  }

  function HandedOver(name: string): System {
    System([name, name], map[], false, false, 0, Draining(false), [1], 0)
  }

  /** The state of the one is overwritten by that of the other and never handed over. */
  lemma SharedNameIsOverwritten(a: Device, b: Device)
    requires a.name == b.name && !CacheRuns.SameDevice(a, b)
    ensures var s := After(TwoInserts(a.name));
            InsertedBy(s, [a, b]) && AtRest(s) && s.handed == [1] && !UpToDate(s, [a, b], a)
  {
    TwoInsertsHandOne(a.name);
    assert LastOfDevice([a, b], 0, a);
  }

  /**
   * The exact condition: in every run whatever is handed over last for a device is the last state inserted for it, if
   * and only if no other device has its name.
   */
  lemma UpToDateExactlyWhen(devices: set<Device>, dev: Device)
    requires dev in devices
    ensures AlwaysUpToDate(devices, dev) <==> OwnsItsName(devices, dev)
  {
    if OwnsItsName(devices, dev) {
      forall actions, owners | InsertedBy(After(actions), owners) && AllOf(owners, devices) && AtRest(After(actions))
        ensures UpToDate(After(actions), owners, dev)
      {
        OwnNameIsUpToDate(devices, dev, actions, owners);
      }
    } else {
      var other :| other in devices && other.name == dev.name && !CacheRuns.SameDevice(other, dev);
      SharedNameIsOverwritten(dev, other);
      assert AllOf([dev, other], devices);
    }
  }
}
