// The outbound connect loops of engine/native/src/paired_connections.rs: one
// task per connectable device, kept in step with the stored list, and the
// reconnect delays of a loop.

module ConnectTasks {
  import opened DeviceStore
  import opened Numbers
  import opened Wrappers
  import PairedNode

  // Exited: the loop broke by itself, its handle is still in the map.
  datatype Phase = Running | Exited | Aborted

  datatype Loop = Loop(key: string, phase: Phase)

  // tasks maps a lower-cased id to the loop spawned for it; loops holds every
  // loop ever spawned.
  datatype Manager = Manager(tasks: map<string, nat>, loops: seq<Loop>, shutdown: bool)

  function ActiveKeys(devices: seq<Device>): (r: set<string>)
    ensures forall k :: k in r <==> exists d :: d in devices && Connectable(d.status) && Key(d) == k
  {
    set d | d in devices && Connectable(d.status) :: Key(d)
  }

  // JoinHandle::abort
  function Abort(l: Loop): Loop {
    if l.phase.Running? then l.(phase := Aborted) else l
  }

  // The handle of loop i is in the map but its device is not wanted.
  predicate Unwanted(m: Manager, wanted: set<string>, i: nat)
    requires i < |m.loops|
  {
    var k := m.loops[i].key;
    k in m.tasks && m.tasks[k] == i && k !in wanted
  }

  function Retained(m: Manager, wanted: set<string>): (r: Manager)
    ensures |r.loops| == |m.loops|
  {
    Manager(map k | k in m.tasks && k in wanted :: m.tasks[k],
            seq(|m.loops|, i requires 0 <= i < |m.loops| =>
              if Unwanted(m, wanted, i) then Abort(m.loops[i]) else m.loops[i]),
            m.shutdown)
  }

  function Spawned(m: Manager, key: string): Manager {
    if key in m.tasks then m
    else m.(tasks := m.tasks[key := |m.loops|], loops := m.loops + [Loop(key, Running)])
  }

  function SpawnedAll(m: Manager, devices: seq<Device>): Manager {
    if devices == [] then m
    else
      var n := |devices| - 1;
      var before := SpawnedAll(m, devices[..n]);
      if Connectable(devices[n].status) then Spawned(before, Key(devices[n])) else before
  }

  function Refreshed(m: Manager, devices: seq<Device>): Manager {
    SpawnedAll(Retained(m, ActiveKeys(devices)), devices)
  }

  function Forgot(m: Manager, id: string): Manager {
    var key := Lower(id);
    if key in m.tasks && m.tasks[key] < |m.loops|
    then m.(tasks := m.tasks - {key}, loops := m.loops[m.tasks[key] := Abort(m.loops[m.tasks[key]])])
    else m
  }

  function ShutDown(m: Manager): Manager {
    Retained(m, {}).(shutdown := true)
  }

  // device_still_active asks for Active, not merely connectable.
  predicate StillActive(devices: seq<Device>, key: string) {
    var i := IndexOf(devices, key);
    i < |devices| && devices[i].status.Active?
  }

  // The head of a running loop's next turn.
  function Turned(m: Manager, i: nat, devices: seq<Device>): Manager {
    if i < |m.loops| && m.loops[i].phase.Running? && (m.shutdown || !StillActive(devices, m.loops[i].key))
    then m.(loops := m.loops[i := m.loops[i].(phase := Exited)]) else m
  }

  datatype Action =
    | Refresh(devices: seq<Device>)
    | Forget(id: string)
    | Shutdown
    | Turn(index: nat, devices: seq<Device>)

  function Step(m: Manager, a: Action): Manager {
    match a
    case Refresh(devices) => Refreshed(m, devices)
    case Forget(id) => Forgot(m, id)
    case Shutdown => ShutDown(m)
    case Turn(i, devices) => Turned(m, i, devices)
  }

  function Run(m: Manager, acts: seq<Action>): Manager {
    if acts == [] then m else Step(Run(m, acts[..|acts| - 1]), acts[|acts| - 1])
  }

  class PairedConnectionManager {
    var tasks: map<string, nat>
    var loops: seq<Loop>
    var shutdown: bool

    function View(): Manager
      reads this
    {
      Manager(tasks, loops, shutdown)
    }

    method AbortUnwanted(wanted: set<string>)
      modifies this
      ensures View() == Retained(old(View()), wanted)
    {
      for i := 0 to |loops|
        invariant |loops| == |old(loops)| && tasks == old(tasks) && shutdown == old(shutdown)
        invariant forall j :: 0 <= j < i ==>
                    loops[j] == if Unwanted(old(View()), wanted, j) then Abort(old(loops)[j]) else old(loops)[j]
        invariant forall j :: i <= j < |loops| ==> loops[j] == old(loops)[j]
      {
        if Unwanted(View(), wanted, i) {
          loops := loops[i := Abort(loops[i])];
        }
      }
      tasks := map k | k in tasks && k in wanted :: tasks[k];
    }

    method RefreshTasks(devices: seq<Device>)
      modifies this
      ensures View() == Refreshed(old(View()), devices)
    {
      var wanted := ActiveKeys(devices);
      AbortUnwanted(wanted);
      for k := 0 to |devices|
        invariant View() == SpawnedAll(Retained(old(View()), wanted), devices[..k])
      {
        assert devices[..k + 1][..k] == devices[..k];
        if Connectable(devices[k].status) {
          var key := Key(devices[k]);
          if key !in tasks {
            tasks := tasks[key := |loops|];
            loops := loops + [Loop(key, Running)];
          }
        }
      }
      assert devices[..|devices|] == devices;
    }

    method ForgetDevice(id: string)
      requires forall k :: k in tasks ==> tasks[k] < |loops|
      modifies this
      ensures View() == Forgot(old(View()), id)
    {
      var key := Lower(id);
      if key in tasks {
        loops := loops[tasks[key] := Abort(loops[tasks[key]])];
        tasks := tasks - {key};
      }
    }

    method ShutdownAll()
      modifies this
      ensures View() == ShutDown(old(View()))
    {
      AbortUnwanted({});
      shutdown := true;
    }
  }

  // ---------------------------------------------------------- one loop a device

  // Every handle in the map is a loop for its key, and every running loop has
  // its handle in the map.
  predicate Tracked(m: Manager) {
    && (forall k :: k in m.tasks ==> m.tasks[k] < |m.loops| && m.loops[m.tasks[k]].key == k)
    && (forall i :: 0 <= i < |m.loops| && m.loops[i].phase.Running? ==>
          m.loops[i].key in m.tasks && m.tasks[m.loops[i].key] == i)
  }

  lemma RetainedTracked(m: Manager, wanted: set<string>)
    requires Tracked(m)
    ensures Tracked(Retained(m, wanted))
  {
  }

  lemma {:induction false} SpawnedAllTracked(m: Manager, devices: seq<Device>)
    requires Tracked(m)
    ensures Tracked(SpawnedAll(m, devices))
  {
    if devices != [] {
      SpawnedAllTracked(m, devices[..|devices| - 1]);
    }
  }

  lemma StepTracked(m: Manager, a: Action)
    requires Tracked(m)
    ensures Tracked(Step(m, a))
  {
    match a
    case Refresh(devices) =>
      RetainedTracked(m, ActiveKeys(devices));
      SpawnedAllTracked(Retained(m, ActiveKeys(devices)), devices);
    case Forget(id) =>
    case Shutdown =>
      RetainedTracked(m, {});
    case Turn(i, devices) =>
  }

  // Over any sequence of refreshes, forgets, shutdowns and turns there is at
  // most one running loop per device.
  lemma {:induction false} AtMostOneLoop(acts: seq<Action>, i: nat, j: nat)
    requires var m := Run(Manager(map[], [], false), acts);
             && i < |m.loops| && j < |m.loops| && m.loops[i].key == m.loops[j].key
             && m.loops[i].phase.Running? && m.loops[j].phase.Running?
    ensures i == j
  {
    AlwaysTracked(acts);
  }

  lemma {:induction false} AlwaysTracked(acts: seq<Action>)
    ensures Tracked(Run(Manager(map[], [], false), acts))
  {
    hide Step;
    if acts != [] {
      AlwaysTracked(acts[..|acts| - 1]);
      StepTracked(Run(Manager(map[], [], false), acts[..|acts| - 1]), acts[|acts| - 1]);
    }
  }

  // ------------------------------------------------------ stopping loops

  // Forgetting a device leaves it without task or running loop, and every other
  // device as it was.
  lemma ForgetStops(m: Manager, id: string)
    requires Tracked(m)
    ensures var m', key := Forgot(m, id), Lower(id);
            && key !in m'.tasks && m'.shutdown == m.shutdown && |m'.loops| == |m.loops|
            && (forall i :: 0 <= i < |m.loops| && m.loops[i].key == key ==> !m'.loops[i].phase.Running?)
            && (forall i :: 0 <= i < |m.loops| && m.loops[i].key != key ==> m'.loops[i] == m.loops[i])
            && (forall k :: k != key ==> (k in m'.tasks <==> k in m.tasks))
            && (forall k :: k != key && k in m.tasks ==> m'.tasks[k] == m.tasks[k])
  {
    hide Lower;
    StepTracked(m, Forget(id));
  }

  lemma ShutdownStops(m: Manager)
    requires Tracked(m)
    ensures var m' := ShutDown(m);
            m'.shutdown && m'.tasks == map[] && forall i :: 0 <= i < |m'.loops| ==> !m'.loops[i].phase.Running?
  {
    StepTracked(m, Shutdown);
    assert ShutDown(m).tasks.Keys == {};
  }

  // The next turn of a running loop ends it exactly if the manager was shut down
  // or its device is not stored as Active.
  lemma TurnExits(m: Manager, i: nat, devices: seq<Device>)
    requires i < |m.loops| && m.loops[i].phase.Running?
    ensures var m', d := Turned(m, i, devices), IndexOf(devices, m.loops[i].key);
            && m'.tasks == m.tasks && m'.shutdown == m.shutdown && |m'.loops| == |m.loops|
            && (forall j :: 0 <= j < |m.loops| && j != i ==> m'.loops[j] == m.loops[j])
            && m'.loops[i].key == m.loops[i].key
            && (m'.loops[i].phase == Running <==> !m.shutdown && d < |devices| && devices[d].status.Active?)
            && (m'.loops[i].phase == Exited <==> m'.loops[i].phase != Running)
  {
  }

  // Once shut down it stays so: any loop a later refresh starts ends at its first
  // turn.
  lemma {:induction false} ShutdownStays(acts: seq<Action>)
    ensures Run(Manager(map[], [], false), acts).shutdown <==> Shutdown in acts
  {
    if acts != [] {
      var n := |acts| - 1;
      ShutdownStays(acts[..n]);
      assert acts == acts[..n] + [acts[n]];
      if acts[n].Refresh? {
        var m := Run(Manager(map[], [], false), acts[..n]);
        SpawnedFlag(Retained(m, ActiveKeys(acts[n].devices)), acts[n].devices);
      }
    }
  }

  lemma {:induction false} SpawnedFlag(m: Manager, devices: seq<Device>)
    ensures SpawnedAll(m, devices).shutdown == m.shutdown
  {
    if devices != [] {
      SpawnedFlag(m, devices[..|devices| - 1]);
    }
  }

  // ---------------------------------------------------------- after a refresh

  lemma {:induction false} SpawnedKeys(m: Manager, devices: seq<Device>)
    ensures forall k :: k in SpawnedAll(m, devices).tasks <==> k in m.tasks || k in ActiveKeys(devices)
  {
    if devices != [] {
      var n := |devices| - 1;
      SpawnedKeys(m, devices[..n]);
      assert devices == devices[..n] + [devices[n]];
    }
  }

  // The task keys are exactly the connectable ids of the list that was read.
  lemma RefreshKeys(m: Manager, devices: seq<Device>)
    ensures Refreshed(m, devices).tasks.Keys == ActiveKeys(devices)
  {
    hide ActiveKeys;
    SpawnedKeys(Retained(m, ActiveKeys(devices)), devices);
  }

  // Refreshing from the node's list leaves one task for each allowed id, under
  // its printed form.
  lemma RefreshMatchesAllowlist(x: PairedNode.Texts, n: PairedNode.Node, m: Manager)
    requires PairedNode.Lawful(x) && PairedNode.Agrees(x, n)
    ensures Refreshed(m, n.devices).tasks.Keys == set id | id in n.allowed :: x.show(id)
  {
    RefreshKeys(m, n.devices);
    hide Refreshed;
    forall key
      ensures key in ActiveKeys(n.devices) <==> exists id :: id in n.allowed && x.show(id) == key
    {
      if key in ActiveKeys(n.devices) {
        var d :| d in n.devices && Connectable(d.status) && Key(d) == key;
        assert PairedNode.OwnText(x, d);
        var id :| d.endpointId == x.show(id);
        assert x.parse(x.show(id)) == Some(id) && Lower(x.show(id)) == x.show(id);
        assert id in n.allowed;
      }
      if id :| id in n.allowed && x.show(id) == key {
        PairedNode.ListedIsConnectable(x, n.devices, id);
        var i :| 0 <= i < |n.devices| && Connectable(n.devices[i].status) && n.devices[i].endpointId == x.show(id);
        assert n.devices[i] in n.devices && Lower(x.show(id)) == x.show(id);
      }
    }
  }

  predicate HasLoop(m: Manager, key: string, phase: Phase) {
    key in m.tasks && m.tasks[key] < |m.loops| && m.loops[m.tasks[key]].phase == phase
  }

  lemma {:induction false} SpawnedLoops(m: Manager, devices: seq<Device>, key: string)
    requires Tracked(m) && key in ActiveKeys(devices)
    ensures HasLoop(SpawnedAll(m, devices), key, Running) <==> key !in m.tasks || HasLoop(m, key, Running)
    ensures key in m.tasks ==> SpawnedKeeps(m, SpawnedAll(m, devices), key)
  {
    var n := |devices| - 1;
    assert devices == devices[..n] + [devices[n]];
    var before := SpawnedAll(m, devices[..n]);
    SpawnedAllTracked(m, devices[..n]);
    if key in ActiveKeys(devices[..n]) {
      SpawnedLoops(m, devices[..n], key);
      SpawnedKeys(m, devices[..n]);
      assert key in before.tasks;
    } else {
      SpawnedOther(m, devices[..n], key);
    }
  }

  predicate SpawnedKeeps(m: Manager, m': Manager, key: string) {
    key in m.tasks && key in m'.tasks && m'.tasks[key] == m.tasks[key] < |m.loops| <= |m'.loops|
    && m'.loops[m.tasks[key]] == m.loops[m.tasks[key]]
  }

  lemma {:induction false} SpawnedOther(m: Manager, devices: seq<Device>, key: string)
    requires Tracked(m) && key !in ActiveKeys(devices)
    ensures key in m.tasks ==> SpawnedKeeps(m, SpawnedAll(m, devices), key)
    ensures key !in m.tasks ==> key !in SpawnedAll(m, devices).tasks
  {
    if devices != [] {
      var n := |devices| - 1;
      assert devices == devices[..n] + [devices[n]];
      SpawnedOther(m, devices[..n], key);
    }
  }

  // After a refresh a connectable device has a running loop unless the map
  // still holds the handle of one that is no longer running.
  lemma RunningAfterRefresh(m: Manager, devices: seq<Device>, key: string)
    requires Tracked(m) && key in ActiveKeys(devices)
    ensures HasLoop(Refreshed(m, devices), key, Running) <==> key !in m.tasks || HasLoop(m, key, Running)
  {
    hide ActiveKeys;
    RetainedTracked(m, ActiveKeys(devices));
    SpawnedLoops(Retained(m, ActiveKeys(devices)), devices, key);
  }

  // Once a device's loop has exited with its handle still in the map, nothing
  // but dropping the device starts another: refreshing does not.
  lemma ExitedStaysExited(m: Manager, a: Action, key: string)
    requires Tracked(m) && HasLoop(m, key, Exited)
    requires match a
             case Refresh(devices) => key in ActiveKeys(devices)
             case Forget(id) => Lower(id) != key
             case Shutdown => false
             case Turn(_, _) => true
    ensures HasLoop(Step(m, a), key, Exited)
  {
    hide ActiveKeys;
    if a.Refresh? {
      RetainedTracked(m, ActiveKeys(a.devices));
      SpawnedLoops(Retained(m, ActiveKeys(a.devices)), a.devices, key);
    }
  }

  function StaleDevice(): Device {
    Device("ab", "peer", "desktop", "linux", 0, 0, None, StaleLocalIdentity)
  }

  // A device marked stale by an identity rotation gets a loop that exits on its
  // first turn; pairing it again does not start another.
  lemma RepairedDeviceHasNoLoop()
    ensures var stale, active := [StaleDevice()], [StaleDevice().(status := Active)];
            var m := Run(Manager(map[], [], false), [Refresh(stale), Turn(0, stale), Refresh(active)]);
            Key(StaleDevice()) in m.tasks && !HasLoop(m, Key(StaleDevice()), Running)
  {
    var stale, active, empty := [StaleDevice()], [StaleDevice().(status := Active)], Manager(map[], [], false);
    var acts := [Refresh(stale), Turn(0, stale), Refresh(active)];
    var key := Key(StaleDevice());
    assert acts[..2] == [Refresh(stale), Turn(0, stale)] && acts[..2][..1] == [Refresh(stale)];
    var m1 := Refreshed(empty, stale);
    var m2 := Turned(m1, 0, stale);
    assert stale[0] in stale && active[0] in active;
    assert key in ActiveKeys(stale) && key in ActiveKeys(active);
    assert stale[..0] == [] && SpawnedAll(Retained(empty, ActiveKeys(stale)), stale) == m1;
    assert m1.tasks[key] == 0 && m1.loops == [Loop(key, Running)];
    assert !StillActive(stale, key);
    assert Tracked(m2);
    RunningAfterRefresh(m2, active, key);
    RefreshKeys(m2, active);
    assert Run(empty, acts[..1]) == m1 by {
      assert acts[..1][..0] == [];
    }
    assert acts[..2][..1] == acts[..1];
    assert Run(empty, acts) == Refreshed(m2, active);
  }

  // ------------------------------------------------------------------ backoff

  const MIN_SECS: nat := 5
  const MAX_SECS: nat := 60

  // How many waits came before wait i since the last successful connect.
  function WaitIndex(connected: seq<bool>, i: nat): nat
    requires i < |connected|
  {
    if connected[i] || i == 0 then 0 else 1 + WaitIndex(connected, i - 1)
  }

  // The n-th wait since the last successful connect, in seconds.
  function Wait(n: nat): nat {
    Min(MIN_SECS * Pow2(n), MAX_SECS)
  }

  lemma Doubling(n: nat)
    ensures Min(Wait(n) * 2, MAX_SECS) == Wait(n + 1) && Wait(0) == MIN_SECS
  {
  }

  // 5, 10, 20 and 40 seconds, and a minute from then on.
  lemma WaitSeconds(n: nat)
    ensures Wait(0) == 5 && Wait(1) == 10 && Wait(2) == 20 && Wait(3) == 40
    ensures n >= 4 ==> Wait(n) == 60
  {
    if n >= 4 {
      AtLeast16(n);
    }
    assert Pow2(1) == 2 && Pow2(2) == 4 && Pow2(3) == 8;
  }

  lemma {:induction false} AtLeast16(n: nat)
    requires n >= 4
    ensures Pow2(n) >= 16
  {
    if n > 4 {
      AtLeast16(n - 1);
    } else {
      assert Pow2(2) == 4;
    }
  }

  // The waits of a connect loop, given how each attempt ended.
  method ConnectLoop(connected: seq<bool>) returns (waits: seq<nat>)
    ensures |waits| == |connected|
    ensures forall i :: 0 <= i < |waits| ==> waits[i] == Wait(WaitIndex(connected, i))
  {
    hide Wait, Min;
    waits := [];
    var backoff := MIN_SECS;
    for k := 0 to |connected|
      invariant |waits| == k
      invariant backoff == if k == 0 then MIN_SECS else Wait(WaitIndex(connected, k - 1) + 1)
      invariant forall i :: 0 <= i < k ==> waits[i] == Wait(WaitIndex(connected, i))
    {
      if connected[k] {
        backoff := MIN_SECS;
      }
      Doubling(WaitIndex(connected, k));
      waits := waits + [backoff];
      backoff := Min(backoff * 2, MAX_SECS);
    }
  }
}
