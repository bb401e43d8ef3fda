// The persisted list of paired devices (engine/native/src/device_identity.rs)
// and the allowlist the node keeps beside it (engine/native/src/node.rs).

module DeviceStore {
  import opened Wrappers

  datatype Status = Active | UnpairedRemotely | StaleLocalIdentity

  predicate Connectable(s: Status) {
    s.Active? || s.StaleLocalIdentity?
  }

  datatype Device = Device(
    endpointId: string,
    displayName: string,
    deviceType: string,
    os: string,
    pairedAt: nat,
    lastSeenAt: nat,
    relayUrl: Option<string>,
    status: Status)

  function LowerChar(c: char): char {
    if 'A' <= c <= 'Z' then c - 'A' + 'a' else c
  }

  function Lower(s: string): (r: string)
    ensures |r| == |s| && forall i :: 0 <= i < |s| ==> r[i] == LowerChar(s[i])
  {
    seq(|s|, i requires 0 <= i < |s| => LowerChar(s[i]))
  }

  function Key(d: Device): string {
    Lower(d.endpointId)
  }

  // First device stored under a lower-cased id, or the length of the list.
  function IndexOf(ds: seq<Device>, key: string): (r: nat)
    ensures r <= |ds| && (r < |ds| ==> Key(ds[r]) == key)
    ensures forall i :: 0 <= i < r ==> Key(ds[i]) != key
  {
    if ds == [] || Key(ds[0]) == key then 0 else 1 + IndexOf(ds[1..], key)
  }

  // ------------------------------------------------------ what the methods do

  function Updated(existing: Device, d: Device): Device {
    existing.(displayName := d.displayName, deviceType := d.deviceType, os := d.os, lastSeenAt := d.lastSeenAt,
          relayUrl := if d.relayUrl.Some? then d.relayUrl else existing.relayUrl, status := Active)
  }

  function Remembered(ds: seq<Device>, d: Device): seq<Device> {
    var i := IndexOf(ds, Key(d));
    if i < |ds| then ds[i := Updated(ds[i], d)] else ds + [d]
  }

  function Renamed(ds: seq<Device>, id: string, name: string): seq<Device> {
    var i := IndexOf(ds, Lower(id));
    if i < |ds| then ds[i := ds[i].(displayName := name)] else ds
  }

  function Forgotten(ds: seq<Device>, id: string): seq<Device> {
    if ds == [] then []
    else (if Key(ds[0]) != Lower(id) then [ds[0]] else []) + Forgotten(ds[1..], id)
  }

  lemma {:induction false} ForgottenMembers(ds: seq<Device>, id: string)
    ensures forall d :: d in Forgotten(ds, id) <==> d in ds && Key(d) != Lower(id)
  {
    if ds != [] {
      ForgottenMembers(ds[1..], id);
      assert ds == [ds[0]] + ds[1..];
    }
  }

  // Forgetting looks at one device at a time and keeps the order.
  lemma {:induction false} ForgottenConcat(a: seq<Device>, b: seq<Device>, id: string)
    ensures Forgotten(a + b, id) == Forgotten(a, id) + Forgotten(b, id)
  {
    hide Key, Lower;
    if a == [] {
      assert a + b == b;
    } else {
      assert (a + b)[1..] == a[1..] + b;
      ForgottenConcat(a[1..], b, id);
    }
  }

  function Touched(ds: seq<Device>, id: string, at: nat): seq<Device> {
    var i := IndexOf(ds, Lower(id));
    if i < |ds| then ds[i := ds[i].(lastSeenAt := at)] else ds
  }

  function Unpaired(ds: seq<Device>, id: string): seq<Device> {
    var i := IndexOf(ds, Lower(id));
    if i < |ds| then ds[i := ds[i].(status := UnpairedRemotely)] else ds
  }

  function StaleOne(d: Device): Device {
    if d.status.Active? then d.(status := StaleLocalIdentity) else d
  }

  function Stale(ds: seq<Device>): (r: seq<Device>)
    ensures |r| == |ds| && forall i :: 0 <= i < |ds| ==> r[i] == StaleOne(ds[i])
  {
    seq(|ds|, i requires 0 <= i < |ds| => StaleOne(ds[i]))
  }

  function ActiveBelow(ds: seq<Device>, k: nat): set<nat>
    requires k <= |ds|
  {
    set i: nat | i < k && ds[i].status.Active?
  }

  lemma ActiveBelowNext(ds: seq<Device>, k: nat)
    requires k < |ds|
    ensures |ActiveBelow(ds, k + 1)| == |ActiveBelow(ds, k)| + if ds[k].status.Active? then 1 else 0
  {
    assert ActiveBelow(ds, k + 1) == ActiveBelow(ds, k) + if ds[k].status.Active? then {k} else {};
  }

  // Only the i-th device may have changed.
  predicate OnlyAt(ds: seq<Device>, ds': seq<Device>, i: nat) {
    |ds'| == |ds| && forall j :: 0 <= j < |ds| && j != i ==> ds'[j] == ds[j]
  }

  // ------------------------------------------------------------- the store

  class PairedDeviceStore {
    var devices: seq<Device>

    method Find(id: string) returns (i: nat)
      ensures i == IndexOf(devices, Lower(id))
    {
      i := 0;
      while i < |devices| && Key(devices[i]) != Lower(id)
        invariant i <= |devices|
        invariant IndexOf(devices, Lower(id)) == i + IndexOf(devices[i..], Lower(id))
      {
        i := i + 1;
      }
    }

    method Remember(device: Device) returns (saved: Device)
      modifies this
      ensures devices == Remembered(old(devices), device)
      ensures var i := IndexOf(old(devices), Key(device));
              i < |devices| && saved == devices[i] && Key(saved) == Key(device)
      ensures saved.displayName == device.displayName && saved.os == device.os
           && saved.deviceType == device.deviceType && saved.lastSeenAt == device.lastSeenAt
           && (device.relayUrl.Some? ==> saved.relayUrl == device.relayUrl)
      ensures var was, i := old(devices), IndexOf(old(devices), Key(device));
              if i == |was| then devices == was + [device]
              else && OnlyAt(was, devices, i) && saved.status.Active?
                   && saved.endpointId == was[i].endpointId && saved.pairedAt == was[i].pairedAt
                   && (device.relayUrl.None? ==> saved.relayUrl == was[i].relayUrl)
    {
      var i := Find(device.endpointId);
      if i < |devices| {
        var existing := devices[i];
        existing := existing.(displayName := device.displayName);
        existing := existing.(deviceType := device.deviceType);
        existing := existing.(os := device.os);
        existing := existing.(lastSeenAt := device.lastSeenAt);
        if device.relayUrl.Some? {
          existing := existing.(relayUrl := device.relayUrl);
        }
        existing := existing.(status := Active);
        devices := devices[i := existing];
        assert devices[i] == existing;
        return existing;
      }
      devices := devices + [device];
      assert devices[|devices| - 1] == device;
      saved := device;
    }

    // `normalized` is the outcome of normalize_display_name.
    method Rename(id: string, normalized: Option<string>) returns (ok: bool)
      modifies this
      ensures ok == (normalized.Some? && IndexOf(old(devices), Lower(id)) < |old(devices)|)
      ensures devices == if normalized.Some? then Renamed(old(devices), id, normalized.value) else old(devices)
      ensures !ok ==> devices == old(devices)
      ensures ok ==> var was, i := old(devices), IndexOf(old(devices), Lower(id));
                     OnlyAt(was, devices, i) && devices[i] == was[i].(displayName := normalized.value)
    {
      if normalized.None? {
        return false;
      }
      var i := Find(id);
      ok := i < |devices|;
      if ok {
        devices := devices[i := devices[i].(displayName := normalized.value)];
      }
    }

    method Forget(id: string)
      modifies this
      ensures devices == Forgotten(old(devices), id)
    {
      hide Key, Lower;
      var kept: seq<Device>, i := [], 0;
      while i < |devices|
        invariant i <= |devices| && devices == old(devices)
        invariant Forgotten(devices, id) == kept + Forgotten(devices[i..], id)
      {
        if Key(devices[i]) != Lower(id) {
          kept := kept + [devices[i]];
        }
        assert devices[i..][1..] == devices[i + 1..];
        i := i + 1;
      }
      devices := kept;
    }

    method Touch(id: string, at: nat)
      modifies this
      ensures devices == Touched(old(devices), id, at)
      ensures var was, i := old(devices), IndexOf(old(devices), Lower(id));
              OnlyAt(was, devices, i) && (i < |was| ==> devices[i] == was[i].(lastSeenAt := at))
    {
      var i := Find(id);
      if i < |devices| {
        devices := devices[i := devices[i].(lastSeenAt := at)];
      }
    }

    method MarkUnpairedRemotely(id: string) returns (saved: Option<Device>)
      modifies this
      ensures devices == Unpaired(old(devices), id)
      ensures var was, i := old(devices), IndexOf(old(devices), Lower(id));
              OnlyAt(was, devices, i) && (i < |was| ==> devices[i] == was[i].(status := UnpairedRemotely))
      ensures saved.Some? <==> IndexOf(old(devices), Lower(id)) < |old(devices)|
      ensures saved.Some? ==> saved.value == devices[IndexOf(old(devices), Lower(id))] && Key(saved.value) == Lower(id)
    {
      var i := Find(id);
      if i < |devices| {
        devices := devices[i := devices[i].(status := UnpairedRemotely)];
        assert devices[i].status.UnpairedRemotely?;
        return Some(devices[i]);
      }
      saved := None;
    }

    method MarkStaleAfterLocalIdentityRotation() returns (updated: nat)
      modifies this
      ensures devices == Stale(old(devices))
      ensures |devices| == |old(devices)| && forall i :: 0 <= i < |devices| ==>
                devices[i] == if old(devices)[i].status.Active? then old(devices)[i].(status := StaleLocalIdentity)
                              else old(devices)[i]
      ensures updated == |ActiveBelow(old(devices), |old(devices)|)|
    {
      updated := 0;
      assert ActiveBelow(devices, 0) == {};
      hide ActiveBelow;
      var k := 0;
      while k < |devices|
        invariant k <= |devices| == |old(devices)|
        invariant forall i :: 0 <= i < k ==> devices[i] == StaleOne(old(devices)[i])
        invariant forall i :: k <= i < |devices| ==> devices[i] == old(devices)[i]
        invariant updated == |ActiveBelow(old(devices), k)|
      {
        ActiveBelowNext(old(devices), k);
        if devices[k].status.Active? {
          devices := devices[k := devices[k].(status := StaleLocalIdentity)];
          updated := updated + 1;
        }
        k := k + 1;
      }
    }
  }

  // ---------------------------------------------------- unique up to case

  predicate UniqueKeys(ds: seq<Device>) {
    forall i, j :: 0 <= i < j < |ds| ==> Key(ds[i]) != Key(ds[j])
  }

  lemma RememberedUnique(ds: seq<Device>, d: Device)
    requires UniqueKeys(ds)
    ensures UniqueKeys(Remembered(ds, d))
  {
  }

  lemma {:induction false} ForgottenUnique(ds: seq<Device>, id: string)
    requires UniqueKeys(ds)
    ensures UniqueKeys(Forgotten(ds, id))
  {
    if ds != [] {
      ForgottenUnique(ds[1..], id);
      ForgottenMembers(ds[1..], id);
      forall d | d in ds[1..]
        ensures Key(d) != Key(ds[0])
      {
        var i :| 1 <= i < |ds| && ds[i] == d;
      }
    }
  }
}

module PairedNode {
  import opened DeviceStore
  import opened Wrappers

  datatype EndpointId = EndpointId(key: nat)

  // EndpointId::from_str and to_string.
  datatype Texts = Texts(parse: string -> Option<EndpointId>, show: EndpointId -> string)

  // Printing is undone by parsing and yields lower case.
  ghost predicate Lawful(x: Texts) {
    forall id :: x.parse(x.show(id)) == Some(id) && Lower(x.show(id)) == x.show(id)
  }

  lemma ShowInjective(x: Texts, a: EndpointId, b: EndpointId)
    requires Lawful(x) && x.show(a) == x.show(b)
    ensures a == b
  {
    assert x.parse(x.show(a)) == Some(a) && x.parse(x.show(b)) == Some(b);
  }

  datatype Node = Node(devices: seq<Device>, allowed: set<EndpointId>)

  // The ids of the stored devices that may connect.
  function ConnectableIds(x: Texts, ds: seq<Device>): (r: set<EndpointId>)
    ensures forall id :: id in r <==> exists d :: d in ds && Connectable(d.status) && x.parse(d.endpointId) == Some(id)
  {
    set d | d in ds && Connectable(d.status) && x.parse(d.endpointId).Some? :: x.parse(d.endpointId).value
  }

  method LoadAllowedFromStore(x: Texts, devices: seq<Device>) returns (allowed: set<EndpointId>)
    ensures allowed == ConnectableIds(x, devices)
  {
    allowed := {};
    for i := 0 to |devices|
      invariant allowed == ConnectableIds(x, devices[..i])
    {
      var d := devices[i];
      assert devices[..i + 1] == devices[..i] + [d];
      if Connectable(d.status) {
        var id := x.parse(d.endpointId);
        if id.Some? {
          allowed := allowed + {id.value};
        }
      }
    }
    assert devices[..|devices|] == devices;
  }

  // What the node does to its list and allowlist, each handler one step.
  datatype Op =
    | Start(rotated: bool)                            // a restart; was the identity rotated?
    | HostPaired(remote: EndpointId, info: Device)    // the host side of pairing
    | Joined(info: Device)                            // the joining side
    | ForgetPaired(text: string)                      // the user forgets a device
    | ForgetReceived(remote: EndpointId)              // a verified Forget message
    | RenamePaired(text: string, name: string)
    | Touch(text: string, at: nat)

  function Apply(x: Texts, n: Node, op: Op): Node {
    match op
    case Start(rotated) => Node(if rotated then Stale(n.devices) else n.devices, ConnectableIds(x, n.devices))
    case HostPaired(remote, info) => Node(Remembered(n.devices, info.(status := Active)), n.allowed + {remote})
    case Joined(info) =>
      var peer := x.parse(info.endpointId);
      if peer.None? then n
      else Node(Remembered(n.devices, info.(status := Active)), n.allowed + {peer.value})
    case ForgetPaired(text) =>
      var id := x.parse(text);
      Node(Forgotten(n.devices, text), if id.Some? then n.allowed - {id.value} else n.allowed)
    case ForgetReceived(remote) =>
      if IndexOf(n.devices, Lower(x.show(remote))) < |n.devices|
      then Node(Unpaired(n.devices, x.show(remote)), n.allowed - {remote}) else n
    case RenamePaired(text, name) => n.(devices := Renamed(n.devices, text, name))
    case Touch(text, at) => n.(devices := Touched(n.devices, text, at))
  }

  function Run(x: Texts, n: Node, ops: seq<Op>): Node {
    if ops == [] then n else Apply(x, Run(x, n, ops[..|ops| - 1]), ops[|ops| - 1])
  }

  // The handlers, over the store object and the allowlist they share.
  class NodeService {
    const store: PairedDeviceStore
    var allowed: set<EndpointId>

    constructor (store: PairedDeviceStore, x: Texts, rotated: bool)
      modifies store
      ensures this.store == store
      ensures View() == Apply(x, Node(old(store.devices), {}), Start(rotated))
    {
      var loaded := LoadAllowedFromStore(x, store.devices);
      this.store := store;
      this.allowed := loaded;
      new;
      if rotated {
        var updated := store.MarkStaleAfterLocalIdentityRotation();
      }
    }

    function View(): Node
      reads this, store
    {
      Node(store.devices, allowed)
    }

    method HostPaired(x: Texts, remote: EndpointId, info: Device)
      modifies this, store
      ensures View() == Apply(x, old(View()), Op.HostPaired(remote, info))
    {
      var saved := store.Remember(info.(status := Active));
      allowed := allowed + {remote};
    }

    method JoinPairing(x: Texts, info: Device) returns (ok: bool)
      modifies this, store
      ensures View() == Apply(x, old(View()), Joined(info))
      ensures ok == x.parse(info.endpointId).Some?
    {
      var peer := x.parse(info.endpointId);
      if peer.None? {
        return false;
      }
      var saved := store.Remember(info.(status := Active));
      allowed := allowed + {peer.value};
      ok := true;
    }

    method ForgetPaired(x: Texts, text: string)
      modifies this, store
      ensures View() == Apply(x, old(View()), Op.ForgetPaired(text))
    {
      var id := x.parse(text);
      if id.Some? {
        allowed := allowed - {id.value};
      }
      store.Forget(text);
    }

    method HandleForget(x: Texts, remote: EndpointId)
      modifies this, store
      ensures View() == Apply(x, old(View()), ForgetReceived(remote))
    {
      var saved := store.MarkUnpairedRemotely(x.show(remote));
      if saved.Some? {
        allowed := allowed - {remote};
      }
    }
  }

  // ------------------------------------------------------------- agreement

  // A device is stored under the printed form of its id.
  ghost predicate OwnText(x: Texts, d: Device) {
    exists id :: d.endpointId == x.show(id)
  }

  ghost predicate WellNamed(x: Texts, ds: seq<Device>) {
    UniqueKeys(ds) && forall d :: d in ds ==> OwnText(x, d)
  }

  // The allowlist is exactly the connectable devices of the list.
  ghost predicate Agrees(x: Texts, n: Node) {
    WellNamed(x, n.devices) && n.allowed == ConnectableIds(x, n.devices)
  }

  // A device with this id that may connect is stored.
  ghost predicate Listed(x: Texts, ds: seq<Device>, id: EndpointId) {
    exists i :: 0 <= i < |ds| && Connectable(ds[i].status) && ds[i].endpointId == x.show(id)
  }

  lemma ListedIsConnectable(x: Texts, ds: seq<Device>, id: EndpointId)
    requires Lawful(x) && WellNamed(x, ds)
    ensures id in ConnectableIds(x, ds) <==> Listed(x, ds, id)
  {
    if id in ConnectableIds(x, ds) {
      var d :| d in ds && Connectable(d.status) && x.parse(d.endpointId) == Some(id);
      var i :| 0 <= i < |ds| && ds[i] == d;
      var own :| d.endpointId == x.show(own);
      assert x.parse(x.show(own)) == Some(own);
    }
    if Listed(x, ds, id) {
      var i :| 0 <= i < |ds| && Connectable(ds[i].status) && ds[i].endpointId == x.show(id);
      assert ds[i] in ds && x.parse(x.show(id)) == Some(id);
    }
  }

  // Whoever is stored at the index found for an id is that id.
  lemma FoundIsOwn(x: Texts, ds: seq<Device>, id: EndpointId)
    requires Lawful(x) && WellNamed(x, ds)
    ensures var i := IndexOf(ds, Lower(x.show(id))); i < |ds| ==> ds[i].endpointId == x.show(id)
    ensures forall i :: 0 <= i < |ds| && ds[i].endpointId == x.show(id) ==> i == IndexOf(ds, Lower(x.show(id)))
  {
    assert Lower(x.show(id)) == x.show(id);
    var i := IndexOf(ds, Lower(x.show(id)));
    if i < |ds| {
      assert ds[i] in ds;
      var own :| ds[i].endpointId == x.show(own);
      assert Lower(x.show(own)) == x.show(own);
    }
  }

  lemma RememberAgrees(x: Texts, ds: seq<Device>, d: Device, id: EndpointId)
    requires Lawful(x) && WellNamed(x, ds) && d.endpointId == x.show(id) && d.status.Active?
    ensures WellNamed(x, Remembered(ds, d))
    ensures ConnectableIds(x, Remembered(ds, d)) == ConnectableIds(x, ds) + {id}
  {
    hide ConnectableIds;
    var r, i := Remembered(ds, d), IndexOf(ds, Key(d));
    RememberedUnique(ds, d);
    FoundIsOwn(x, ds, id);
    assert OwnText(x, d);
    assert forall e :: e in r ==> OwnText(x, e) by {
      forall e | e in r
        ensures OwnText(x, e)
      {
        var j :| 0 <= j < |r| && r[j] == e;
        assert j < |ds| ==> ds[j] in ds && OwnText(x, ds[j]);
      }
    }
    forall other
      ensures other in ConnectableIds(x, r) <==> other in ConnectableIds(x, ds) || other == id
    {
      ListedIsConnectable(x, r, other);
      ListedIsConnectable(x, ds, other);
      RememberLists(x, ds, d, id, other);
    }
  }

  lemma RememberLists(x: Texts, ds: seq<Device>, d: Device, id: EndpointId, other: EndpointId)
    requires Lawful(x) && WellNamed(x, ds) && d.endpointId == x.show(id) && d.status.Active?
    ensures Listed(x, Remembered(ds, d), other) <==> Listed(x, ds, other) || other == id
  {
    var r, i := Remembered(ds, d), IndexOf(ds, Key(d));
    FoundIsOwn(x, ds, id);
    assert r[i].endpointId == x.show(id) && r[i].status.Active?;
    if Listed(x, ds, other) {
      var j :| 0 <= j < |ds| && Connectable(ds[j].status) && ds[j].endpointId == x.show(other);
      assert Connectable(r[j].status) && r[j].endpointId == x.show(other);
    }
    if Listed(x, r, other) && other != id {
      var j :| 0 <= j < |r| && Connectable(r[j].status) && r[j].endpointId == x.show(other);
      if j == i {
        ShowInjective(x, id, other);
      }
      assert Connectable(ds[j].status) && ds[j].endpointId == x.show(other);
    }
  }

  // Lists that differ only in names and times have the same connectable ids.
  ghost predicate SameIds(ds: seq<Device>, r: seq<Device>) {
    && |r| == |ds|
    && forall i :: 0 <= i < |ds| ==>
         r[i].endpointId == ds[i].endpointId && (Connectable(r[i].status) <==> Connectable(ds[i].status))
  }

  lemma SameIdsAgree(x: Texts, ds: seq<Device>, r: seq<Device>)
    requires Lawful(x) && WellNamed(x, ds) && SameIds(ds, r)
    ensures WellNamed(x, r) && ConnectableIds(x, r) == ConnectableIds(x, ds)
  {
    hide ConnectableIds, Connectable;
    forall e | e in r
      ensures OwnText(x, e)
    {
      var j :| 0 <= j < |r| && r[j] == e;
      assert ds[j] in ds && OwnText(x, ds[j]);
    }
    forall id
      ensures id in ConnectableIds(x, r) <==> id in ConnectableIds(x, ds)
    {
      ListedIsConnectable(x, r, id);
      ListedIsConnectable(x, ds, id);
      SameIdsList(x, ds, r, id);
    }
  }

  lemma SameIdsList(x: Texts, ds: seq<Device>, r: seq<Device>, id: EndpointId)
    requires SameIds(ds, r)
    ensures Listed(x, r, id) <==> Listed(x, ds, id)
  {
    hide Connectable;
    if Listed(x, r, id) {
      var i :| 0 <= i < |r| && Connectable(r[i].status) && r[i].endpointId == x.show(id);
      assert Connectable(ds[i].status) && ds[i].endpointId == x.show(id);
    }
    if Listed(x, ds, id) {
      var i :| 0 <= i < |ds| && Connectable(ds[i].status) && ds[i].endpointId == x.show(id);
      assert Connectable(r[i].status) && r[i].endpointId == x.show(id);
    }
  }

  lemma ForgetAgrees(x: Texts, ds: seq<Device>, text: string)
    requires Lawful(x) && WellNamed(x, ds)
    ensures WellNamed(x, Forgotten(ds, text))
    ensures forall id :: id in ConnectableIds(x, Forgotten(ds, text)) <==>
                           id in ConnectableIds(x, ds) && x.show(id) != Lower(text)
  {
    hide ConnectableIds, Connectable;
    var r := Forgotten(ds, text);
    ForgottenUnique(ds, text);
    ForgottenMembers(ds, text);
    assert WellNamed(x, r);
    forall id
      ensures id in ConnectableIds(x, r) <==> id in ConnectableIds(x, ds) && x.show(id) != Lower(text)
    {
      ListedIsConnectable(x, r, id);
      ListedIsConnectable(x, ds, id);
      assert Lower(x.show(id)) == x.show(id);
      if Listed(x, r, id) {
        var i :| 0 <= i < |r| && Connectable(r[i].status) && r[i].endpointId == x.show(id);
        assert r[i] in r && r[i] in ds;
        var j :| 0 <= j < |ds| && ds[j] == r[i];
      }
      if Listed(x, ds, id) && x.show(id) != Lower(text) {
        var i :| 0 <= i < |ds| && Connectable(ds[i].status) && ds[i].endpointId == x.show(id);
        assert ds[i] in ds && ds[i] in r;
        var j :| 0 <= j < |r| && r[j] == ds[i];
      }
    }
  }

  lemma UnpairAgrees(x: Texts, ds: seq<Device>, remote: EndpointId)
    requires Lawful(x) && WellNamed(x, ds)
    ensures WellNamed(x, Unpaired(ds, x.show(remote)))
    ensures ConnectableIds(x, Unpaired(ds, x.show(remote))) == ConnectableIds(x, ds) - {remote}
  {
    hide ConnectableIds;
    var r, i := Unpaired(ds, x.show(remote)), IndexOf(ds, Lower(x.show(remote)));
    FoundIsOwn(x, ds, remote);
    forall e | e in r
      ensures OwnText(x, e)
    {
      var j :| 0 <= j < |r| && r[j] == e;
      assert ds[j] in ds && OwnText(x, ds[j]);
    }
    forall id
      ensures id in ConnectableIds(x, r) <==> id in ConnectableIds(x, ds) && id != remote
    {
      ListedIsConnectable(x, r, id);
      ListedIsConnectable(x, ds, id);
      if Listed(x, r, id) {
        var j :| 0 <= j < |r| && Connectable(r[j].status) && r[j].endpointId == x.show(id);
        assert Connectable(ds[j].status) && ds[j].endpointId == x.show(id);
      }
      if Listed(x, ds, id) && id != remote {
        var j :| 0 <= j < |ds| && Connectable(ds[j].status) && ds[j].endpointId == x.show(id);
        if j == i {
          ShowInjective(x, id, remote);
        }
        assert Connectable(r[j].status) && r[j].endpointId == x.show(id);
      }
    }
  }

  // -------------------------------------------------- exactly when they agree

  // Peers name themselves in PairingInfo, and a text the user forgets by means
  // the same device whether it is parsed or compared.
  ghost predicate Faithful(x: Texts, n: Node, op: Op) {
    match op
    case HostPaired(remote, info) => info.endpointId == x.show(remote)
    case Joined(info) => x.parse(info.endpointId).Some? ==> OwnText(x, info)
    case ForgetPaired(text) =>
      forall id :: id in n.allowed ==> (x.parse(text) == Some(id) <==> Lower(text) == x.show(id))
    case _ => true
  }

  // Agreement for lists whose texts need not be the printed ones.
  ghost predicate InStep(x: Texts, n: Node) {
    n.allowed == ConnectableIds(x, n.devices)
  }

  // The id a device announced under this text is connectable by once stored: a
  // device found keeps the text it has.
  function StoredAs(x: Texts, ds: seq<Device>, text: string): Option<EndpointId> {
    var i := IndexOf(ds, Lower(text));
    x.parse(if i < |ds| then ds[i].endpointId else text)
  }

  function Announced(x: Texts, ds: seq<Device>, text: string): set<EndpointId> {
    var id := StoredAs(x, ds, text);
    if id.Some? then {id.value} else {}
  }

  lemma RememberConnectable(x: Texts, ds: seq<Device>, d: Device)
    requires d.status.Active?
    ensures ConnectableIds(x, Remembered(ds, d)) == ConnectableIds(x, ds) + Announced(x, ds, d.endpointId)
  {
    var r, i := Remembered(ds, d), IndexOf(ds, Key(d));
    hide IndexOf, Lower, ConnectableIds;
    assert r[i] in r;
    assert x.parse(r[i].endpointId) == StoredAs(x, ds, d.endpointId) && r[i].status.Active?;
    forall id
      ensures id in ConnectableIds(x, r) <==> id in ConnectableIds(x, ds) || id in Announced(x, ds, d.endpointId)
    {
      if id in ConnectableIds(x, r) {
        var e :| e in r && Connectable(e.status) && x.parse(e.endpointId) == Some(id);
        var j :| 0 <= j < |r| && r[j] == e;
        assert j != i ==> ds[j] in ds && ds[j] == e;
      }
      if id in ConnectableIds(x, ds) {
        var e :| e in ds && Connectable(e.status) && x.parse(e.endpointId) == Some(id);
        var j :| 0 <= j < |ds| && ds[j] == e;
        assert r[j] in r && Connectable(r[j].status) && r[j].endpointId == e.endpointId;
      }
    }
  }

  // Whatever text a peer announces, host pairing keeps list and allowlist in
  // step exactly when the device is stored under the connection's id, or nothing
  // new is allowed on either side.
  lemma HostPairedInStep(x: Texts, n: Node, remote: EndpointId, info: Device)
    requires InStep(x, n)
    ensures var stored := StoredAs(x, n.devices, info.endpointId);
            InStep(x, Apply(x, n, HostPaired(remote, info))) <==>
            stored == Some(remote) || (remote in n.allowed && (stored.Some? ==> stored.value in n.allowed))
  {
    RememberConnectable(x, n.devices, info.(status := Active));
    hide ConnectableIds, Remembered, StoredAs;
    var stored, after := StoredAs(x, n.devices, info.endpointId), n.allowed + {remote};
    assert remote in after;
    if stored.Some? {
      assert stored.value in n.allowed + Announced(x, n.devices, info.endpointId);
    }
  }

  // The joining side allows the id it parsed, so only a device stored before
  // under another text for it can put the two out of step.
  lemma JoinedInStep(x: Texts, n: Node, info: Device)
    requires InStep(x, n)
    ensures var peer, stored := x.parse(info.endpointId), StoredAs(x, n.devices, info.endpointId);
            InStep(x, Apply(x, n, Joined(info))) <==>
            peer.None? || stored == peer || (peer.value in n.allowed && (stored.Some? ==> stored.value in n.allowed))
  {
    hide ConnectableIds, Remembered, StoredAs;
    var peer := x.parse(info.endpointId);
    if peer.Some? {
      HostPairedInStep(x, n, peer.value, info);
    }
  }

  // For any announced text: full agreement also needs a device that is new to
  // the list to be announced in printed form.
  lemma HostPairedExact(x: Texts, n: Node, remote: EndpointId, info: Device)
    requires Lawful(x) && Agrees(x, n)
    ensures var stored := StoredAs(x, n.devices, info.endpointId);
            Agrees(x, Apply(x, n, HostPaired(remote, info))) <==>
            && (stored == Some(remote) || (remote in n.allowed && (stored.Some? ==> stored.value in n.allowed)))
            && (OwnText(x, info) || IndexOf(n.devices, Key(info)) < |n.devices|)
  {
    hide ConnectableIds, StoredAs, Remembered;
    HostPairedInStep(x, n, remote, info);
    RememberedNamed(x, n.devices, info.(status := Active));
  }

  lemma RememberedNamed(x: Texts, ds: seq<Device>, d: Device)
    requires WellNamed(x, ds)
    ensures WellNamed(x, Remembered(ds, d)) <==> OwnText(x, d) || IndexOf(ds, Key(d)) < |ds|
  {
    RememberedUnique(ds, d);
    var r, i := Remembered(ds, d), IndexOf(ds, Key(d));
    hide Key, UniqueKeys;
    if i < |ds| {
      assert OwnText(x, ds[i]);
      assert OwnText(x, r[i]);
      forall e | e in r
        ensures OwnText(x, e)
      {
        var j :| 0 <= j < |r| && r[j] == e;
        assert j != i ==> ds[j] in ds && ds[j] == e;
      }
    } else {
      assert r[i] == d && d in r;
    }
  }

  // A host that stores a device under another id than the connection's keeps
  // its two records in step only if both were connectable already.
  lemma HostPairedPrinted(x: Texts, n: Node, remote: EndpointId, named: EndpointId, info: Device)
    requires Lawful(x) && Agrees(x, n) && info.endpointId == x.show(named)
    ensures Agrees(x, Apply(x, n, HostPaired(remote, info)))
       <==> named == remote || (named in n.allowed && remote in n.allowed)
  {
    hide ConnectableIds, Remembered, Key, UniqueKeys;
    HostPairedExact(x, n, remote, info);
    FoundIsOwn(x, n.devices, named);
    assert OwnText(x, info);
    assert x.parse(x.show(named)) == Some(named);
  }

  // Forgetting by text keeps the records in step exactly when, for every allowed
  // id, the text parses to it just when it spells it up to case.
  lemma ForgetPairedExact(x: Texts, n: Node, text: string)
    requires Lawful(x) && Agrees(x, n)
    ensures Agrees(x, Apply(x, n, ForgetPaired(text))) <==> Faithful(x, n, ForgetPaired(text))
  {
    hide ConnectableIds, WellNamed, Forgotten;
    ForgetAgrees(x, n.devices, text);
    var n' := Apply(x, n, ForgetPaired(text));
    assert forall id :: id in n'.allowed <==> id in n.allowed && x.parse(text) != Some(id);
    if Faithful(x, n, ForgetPaired(text)) {
      assert n'.allowed == ConnectableIds(x, n'.devices);
    }
  }

  // ------------------------------------------- in step, whatever the texts are

  // A connectable device other than the i-th parses to this id.
  ghost predicate HeldBeside(x: Texts, ds: seq<Device>, i: nat, id: EndpointId) {
    exists j :: 0 <= j < |ds| && j != i && Connectable(ds[j].status) && x.parse(ds[j].endpointId) == Some(id)
  }

  // A connectable device stored under another key parses to this id.
  ghost predicate HeldElsewhere(x: Texts, ds: seq<Device>, key: string, id: EndpointId) {
    exists d :: d in ds && Key(d) != key && Connectable(d.status) && x.parse(d.endpointId) == Some(id)
  }

  lemma ConnectableAt(x: Texts, ds: seq<Device>, id: EndpointId)
    ensures id in ConnectableIds(x, ds) <==> HeldBeside(x, ds, |ds|, id)
  {
    if id in ConnectableIds(x, ds) {
      var d :| d in ds && Connectable(d.status) && x.parse(d.endpointId) == Some(id);
      var j :| 0 <= j < |ds| && ds[j] == d;
    }
  }

  lemma UnpairedConnectable(x: Texts, ds: seq<Device>, text: string, id: EndpointId)
    requires IndexOf(ds, Lower(text)) < |ds|
    ensures id in ConnectableIds(x, Unpaired(ds, text)) <==> HeldBeside(x, ds, IndexOf(ds, Lower(text)), id)
  {
    hide ConnectableIds, IndexOf, Lower;
    var r, i := Unpaired(ds, text), IndexOf(ds, Lower(text));
    ConnectableAt(x, r, id);
    assert !Connectable(r[i].status) && forall j :: 0 <= j < |ds| && j != i ==> r[j] == ds[j];
  }

  lemma ForgottenConnectable(x: Texts, ds: seq<Device>, text: string, id: EndpointId)
    ensures id in ConnectableIds(x, Forgotten(ds, text)) <==> HeldElsewhere(x, ds, Lower(text), id)
  {
    hide Forgotten, Lower, Connectable;
    ForgottenMembers(ds, text);
  }

  lemma SameIdsConnectable(x: Texts, ds: seq<Device>, r: seq<Device>)
    requires SameIds(ds, r)
    ensures ConnectableIds(x, r) == ConnectableIds(x, ds)
  {
    hide ConnectableIds, Connectable;
    forall id
      ensures id in ConnectableIds(x, r) <==> id in ConnectableIds(x, ds)
    {
      ConnectableAt(x, ds, id);
      ConnectableAt(x, r, id);
      SameIdsHeld(x, ds, r, id);
      SameIdsHeld(x, r, ds, id);
    }
  }

  lemma SameIdsHeld(x: Texts, ds: seq<Device>, r: seq<Device>, id: EndpointId)
    requires SameIds(ds, r)
    ensures HeldBeside(x, ds, |ds|, id) ==> HeldBeside(x, r, |r|, id)
  {
    hide Connectable;
    if HeldBeside(x, ds, |ds|, id) {
      var j :| 0 <= j < |ds| && j != |ds| && Connectable(ds[j].status) && x.parse(ds[j].endpointId) == Some(id);
      assert Connectable(r[j].status) && x.parse(r[j].endpointId) == Some(id);
    }
  }

  // Exactly when a handler keeps list and allowlist in step, for any texts.
  ghost predicate Keeps(x: Texts, n: Node, op: Op) {
    match op
    case HostPaired(remote, info) =>
      var stored := StoredAs(x, n.devices, info.endpointId);
      stored == Some(remote) || (remote in n.allowed && (stored.Some? ==> stored.value in n.allowed))
    case Joined(info) =>
      var peer, stored := x.parse(info.endpointId), StoredAs(x, n.devices, info.endpointId);
      peer.None? || stored == peer || (peer.value in n.allowed && (stored.Some? ==> stored.value in n.allowed))
    case ForgetPaired(text) =>
      // Nobody stored under another key is the parsed id, and whoever is stored
      // under this one is that id or is held elsewhere too.
      && (x.parse(text).Some? ==> !HeldElsewhere(x, n.devices, Lower(text), x.parse(text).value))
      && (forall d :: d in n.devices && Key(d) == Lower(text) && Connectable(d.status) ==>
            var id := x.parse(d.endpointId);
            id == x.parse(text) || (id.Some? ==> HeldElsewhere(x, n.devices, Lower(text), id.value)))
    case ForgetReceived(remote) =>
      // The same for the device found under the printed id, if there is one.
      var i := IndexOf(n.devices, Lower(x.show(remote)));
      i < |n.devices| ==>
        && !HeldBeside(x, n.devices, i, remote)
        && var id := x.parse(n.devices[i].endpointId);
           Connectable(n.devices[i].status) && id.Some? && id.value != remote ==> HeldBeside(x, n.devices, i, id.value)
    case _ => true
  }

  lemma ForgetReceivedInStep(x: Texts, n: Node, remote: EndpointId)
    requires InStep(x, n)
    ensures InStep(x, Apply(x, n, ForgetReceived(remote))) <==> Keeps(x, n, ForgetReceived(remote))
  {
    var ds, i := n.devices, IndexOf(n.devices, Lower(x.show(remote)));
    if i < |ds| {
      var r := Unpaired(ds, x.show(remote));
      hide ConnectableIds, IndexOf, Lower, Unpaired;
      forall id
        ensures id in ConnectableIds(x, r) <==> HeldBeside(x, ds, i, id)
        ensures id in n.allowed <==>
                HeldBeside(x, ds, i, id) || (Connectable(ds[i].status) && x.parse(ds[i].endpointId) == Some(id))
      {
        UnpairedConnectable(x, ds, x.show(remote), id);
        ConnectableAt(x, ds, id);
        HeldOrOwn(x, ds, i, id);
      }
    }
  }

  lemma HeldOrOwn(x: Texts, ds: seq<Device>, i: nat, id: EndpointId)
    requires i < |ds|
    ensures HeldBeside(x, ds, |ds|, id) <==>
            HeldBeside(x, ds, i, id) || (Connectable(ds[i].status) && x.parse(ds[i].endpointId) == Some(id))
  {
  }

  lemma ForgetPairedInStep(x: Texts, n: Node, text: string)
    requires InStep(x, n)
    ensures InStep(x, Apply(x, n, ForgetPaired(text))) <==> Keeps(x, n, ForgetPaired(text))
  {
    var ds, r := n.devices, Forgotten(n.devices, text);
    hide Lower, Forgotten;
    forall id
      ensures id in ConnectableIds(x, r) <==> HeldElsewhere(x, ds, Lower(text), id)
    {
      ForgottenConnectable(x, ds, text, id);
    }
    var after := Apply(x, n, ForgetPaired(text)).allowed;
    if Keeps(x, n, ForgetPaired(text)) {
      assert forall id :: id in after <==> id in ConnectableIds(x, r);
    }
    if after == ConnectableIds(x, r) {
      forall d | d in ds && Key(d) == Lower(text) && Connectable(d.status) && x.parse(d.endpointId).Some?
        ensures x.parse(d.endpointId) == x.parse(text)
             || HeldElsewhere(x, ds, Lower(text), x.parse(d.endpointId).value)
      {
        assert x.parse(d.endpointId).value in n.allowed;
      }
    }
  }

  // For every handler the condition is exact.
  lemma StepInStepIff(x: Texts, n: Node, op: Op)
    requires InStep(x, n)
    ensures InStep(x, Apply(x, n, op)) <==> Keeps(x, n, op)
  {
    hide ConnectableIds, StoredAs, Remembered, Forgotten, Unpaired;
    match op
    case Start(rotated) =>
      StaleSameIds(n.devices);
      SameIdsConnectable(x, n.devices, Stale(n.devices));
    case HostPaired(remote, info) =>
      HostPairedInStep(x, n, remote, info);
    case Joined(info) =>
      JoinedInStep(x, n, info);
    case ForgetPaired(text) =>
      ForgetPairedInStep(x, n, text);
    case ForgetReceived(remote) =>
      ForgetReceivedInStep(x, n, remote);
    case RenamePaired(text, name) =>
      SameIdsConnectable(x, n.devices, Renamed(n.devices, text, name));
    case Touch(text, at) =>
      SameIdsConnectable(x, n.devices, Touched(n.devices, text, at));
  }

  // A start brings them in step whatever went before.
  lemma StartInStep(x: Texts, n: Node, rotated: bool)
    ensures InStep(x, Apply(x, n, Start(rotated)))
  {
    hide ConnectableIds;
    StaleSameIds(n.devices);
    SameIdsConnectable(x, n.devices, Stale(n.devices));
  }

  // At every step of a run, before it and after it.
  ghost predicate KeepsAll(x: Texts, n: Node, ops: seq<Op>) {
    ops == [] ||
    var m := |ops| - 1;
    KeepsAll(x, n, ops[..m]) && Keeps(x, Run(x, n, ops[..m]), ops[m])
  }

  ghost predicate AlwaysInStep(x: Texts, n: Node, ops: seq<Op>) {
    InStep(x, Run(x, n, ops)) && (ops == [] || AlwaysInStep(x, n, ops[..|ops| - 1]))
  }

  // Over every run from a node in step, the records are in step at every moment
  // if and only if each handler meets its condition where it runs.
  lemma {:induction false} RunInStepIff(x: Texts, n: Node, ops: seq<Op>)
    requires InStep(x, n)
    ensures AlwaysInStep(x, n, ops) <==> KeepsAll(x, n, ops)
  {
    hide Apply, Keeps, InStep;
    if ops != [] {
      var m := |ops| - 1;
      RunInStepIff(x, n, ops[..m]);
      if AlwaysInStep(x, n, ops[..m]) {
        StepInStepIff(x, Run(x, n, ops[..m]), ops[m]);
      }
    }
  }

  // ----------------------------------------------------- what a Forget achieves

  // On neither record: not allowed now, nor by any later start.
  ghost predicate Gone(x: Texts, n: Node, id: EndpointId) {
    id !in n.allowed && id !in ConnectableIds(x, n.devices)
  }

  // A verified Forget takes the peer off both records exactly if its printed id
  // is stored and no other device parses to it, or it was on neither before.
  lemma ForgetTakesOff(x: Texts, n: Node, remote: EndpointId)
    requires InStep(x, n)
    ensures var i := IndexOf(n.devices, Lower(x.show(remote)));
            Gone(x, Apply(x, n, ForgetReceived(remote)), remote) <==>
            if i < |n.devices| then !HeldBeside(x, n.devices, i, remote) else remote !in n.allowed
  {
    hide ConnectableIds, IndexOf, Lower, Unpaired;
    if IndexOf(n.devices, Lower(x.show(remote))) < |n.devices| {
      UnpairedConnectable(x, n.devices, x.show(remote), remote);
    }
  }

  lemma ForgetTakesOffAgreed(x: Texts, n: Node, remote: EndpointId)
    requires Lawful(x) && Agrees(x, n)
    ensures Gone(x, Apply(x, n, ForgetReceived(remote)), remote)
  {
    hide IndexOf, Lower, Unpaired, ConnectableIds, Lawful, WellNamed;
    UnpairAgrees(x, n.devices, remote);
    ListedIsConnectable(x, n.devices, remote);
    FoundIsOwn(x, n.devices, remote);
  }

  // So it always does where peers announce themselves by their printed ids.
  lemma ForgetTakesOffAfter(x: Texts, ops: seq<Op>, remote: EndpointId)
    requires Lawful(x) && FaithfulRun(x, Node([], {}), ops)
    ensures Gone(x, Apply(x, Run(x, Node([], {}), ops), ForgetReceived(remote)), remote)
  {
    hide Run, Apply, Gone, Agrees, Lawful;
    AlwaysAgrees(x, ops);
    ForgetTakesOffAgreed(x, Run(x, Node([], {}), ops), remote);
  }

  // A pairing that puts an id on one of the records.
  predicate BringsBack(x: Texts, n: Node, op: Op, id: EndpointId) {
    match op
    case HostPaired(remote, info) => remote == id || StoredAs(x, n.devices, info.endpointId) == Some(id)
    case Joined(info) =>
      var peer := x.parse(info.endpointId);
      peer.Some? && (peer.value == id || StoredAs(x, n.devices, info.endpointId) == Some(id))
    case _ => false
  }

  lemma StepGoneIff(x: Texts, n: Node, op: Op, id: EndpointId)
    requires Gone(x, n, id)
    ensures Gone(x, Apply(x, n, op), id) <==> !BringsBack(x, n, op, id)
  {
    hide ConnectableIds, StoredAs, Remembered, Forgotten, Unpaired, IndexOf, Lower;
    match op
    case Start(rotated) =>
      StaleSameIds(n.devices);
      SameIdsConnectable(x, n.devices, Stale(n.devices));
    case HostPaired(remote, info) =>
      RememberConnectable(x, n.devices, info.(status := Active));
    case Joined(info) =>
      RememberConnectable(x, n.devices, info.(status := Active));
    case ForgetPaired(text) =>
      ForgottenConnectable(x, n.devices, text, id);
      ElsewhereIsHeld(x, n.devices, Lower(text), id);
    case ForgetReceived(remote) =>
      if IndexOf(n.devices, Lower(x.show(remote))) < |n.devices| {
        UnpairedConnectable(x, n.devices, x.show(remote), id);
        ConnectableAt(x, n.devices, id);
        HeldOrOwn(x, n.devices, IndexOf(n.devices, Lower(x.show(remote))), id);
      }
    case RenamePaired(text, name) =>
      SameIdsConnectable(x, n.devices, Renamed(n.devices, text, name));
    case Touch(text, at) =>
      SameIdsConnectable(x, n.devices, Touched(n.devices, text, at));
  }

  lemma ElsewhereIsHeld(x: Texts, ds: seq<Device>, key: string, id: EndpointId)
    ensures HeldElsewhere(x, ds, key, id) ==> id in ConnectableIds(x, ds)
  {
  }

  ghost predicate AlwaysGone(x: Texts, n: Node, ops: seq<Op>, id: EndpointId) {
    Gone(x, Run(x, n, ops), id) && (ops == [] || AlwaysGone(x, n, ops[..|ops| - 1], id))
  }

  predicate NeverBroughtBack(x: Texts, n: Node, ops: seq<Op>, id: EndpointId) {
    ops == [] ||
    var m := |ops| - 1;
    NeverBroughtBack(x, n, ops[..m], id) && !BringsBack(x, Run(x, n, ops[..m]), ops[m], id)
  }

  // Over every run, restarts included, a peer that is gone stays gone if and only
  // if no pairing brings it back.
  lemma {:induction false} GoneStaysIff(x: Texts, n: Node, ops: seq<Op>, id: EndpointId)
    requires Gone(x, n, id)
    ensures AlwaysGone(x, n, ops, id) <==> NeverBroughtBack(x, n, ops, id)
  {
    hide Apply, BringsBack, Gone;
    if ops != [] {
      var m := |ops| - 1;
      GoneStaysIff(x, n, ops[..m], id);
      if AlwaysGone(x, n, ops[..m], id) {
        StepGoneIff(x, Run(x, n, ops[..m]), ops[m], id);
      }
    }
  }

  // A Forget is looked up by the printed id: a peer that joined under another
  // text for its id stays stored and allowed after it asked to be forgotten.
  lemma ForgetReachesPrinted(x: Texts, remote: EndpointId, info: Device)
    requires Lawful(x) && x.parse(info.endpointId) == Some(remote)
    ensures var n := Run(x, Node([], {}), [Joined(info), ForgetReceived(remote)]);
            InStep(x, n) && (remote in n.allowed <==> Lower(info.endpointId) != x.show(remote))
  {
    var stored := info.(status := Active);
    var joined := Node([stored], {remote});
    assert Apply(x, Node([], {}), Joined(info)) == joined;
    RunTwo(x, Node([], {}), Joined(info), ForgetReceived(remote));
    assert Lower(x.show(remote)) == x.show(remote);
    assert ConnectableIds(x, [stored]) == {remote} by {
      assert stored in [stored];
    }
  }

  lemma RunTwo(x: Texts, n: Node, first: Op, second: Op)
    ensures Run(x, n, [first, second]) == Apply(x, Apply(x, n, first), second)
  {
    hide Apply;
    assert [first, second][..1] == [first];
    assert Run(x, n, [first]) == Apply(x, Run(x, n, []), first);
  }

  // ------------------------------------------------------- where they part

  predicate AllOf(s: string, c: char) {
    s != "" && forall i :: 0 <= i < |s| ==> s[i] == c
  }

  // Ids with two lower-case spellings, of which the first is printed.
  const SampleTexts: Texts := Texts(
    (s: string) => if AllOf(s, 'a') || AllOf(s, 'b') then Some(EndpointId(|s| - 1)) else None,
    (id: EndpointId) => seq(id.key + 1, _ => 'a'))

  function Sample(text: string): Device {
    Device(text, "", "", "", 0, 0, None, Active)
  }

  lemma SampleLawful()
    ensures Lawful(SampleTexts)
    ensures SampleTexts.show(EndpointId(0)) == "a" && SampleTexts.parse("b") == Some(EndpointId(0))
    ensures SampleTexts.parse("A") == None
  {
    hide Lower;
    forall id: EndpointId
      ensures SampleTexts.parse(SampleTexts.show(id)) == Some(id)
      ensures Lower(SampleTexts.show(id)) == SampleTexts.show(id)
    {
      var s := SampleTexts.show(id);
      assert |s| == id.key + 1 && AllOf(s, 'a');
    }
    assert AllOf("b", 'b');
    assert "A"[0] == 'A' && !AllOf("A", 'a') && !AllOf("A", 'b');
  }

  lemma OneDevice(text: string, id: EndpointId)
    requires SampleTexts.parse(text) == Some(id)
    ensures ConnectableIds(SampleTexts, [Sample(text)]) == {id}
  {
    assert Sample(text) in [Sample(text)];
  }

  // "A" does not parse but spells the stored "a": forgetting it empties the list
  // and leaves the device allowed.
  lemma ForgetLeavesAllowed()
    ensures var n := Node([Sample("a")], {EndpointId(0)});
            && Lawful(SampleTexts) && Agrees(SampleTexts, n)
            && Apply(SampleTexts, n, ForgetPaired("A")) == Node([], {EndpointId(0)})
            && !Agrees(SampleTexts, Apply(SampleTexts, n, ForgetPaired("A")))
  {
    SampleLawful();
    hide SampleTexts;
    var n := Node([Sample("a")], {EndpointId(0)});
    assert SampleTexts.parse("a") == Some(EndpointId(0));
    OneDevice("a", EndpointId(0));
    assert OwnText(SampleTexts, Sample("a"));
    assert Lower("A") == "a" && Lower("a") == "a";
    assert Forgotten([Sample("a")], "A") == [];
  }

  // "b" parses to the id "a" prints: forgetting it disallows the device and
  // leaves it listed, for the next start to allow again.
  lemma ForgetLeavesListed()
    ensures var n := Node([Sample("a")], {EndpointId(0)});
            var n' := Apply(SampleTexts, n, ForgetPaired("b"));
            && Lawful(SampleTexts) && Agrees(SampleTexts, n) && n' == Node([Sample("a")], {})
            && Apply(SampleTexts, n', Start(false)).allowed == {EndpointId(0)}
  {
    SampleLawful();
    hide SampleTexts;
    assert SampleTexts.parse("a") == Some(EndpointId(0));
    OneDevice("a", EndpointId(0));
    assert OwnText(SampleTexts, Sample("a"));
    assert Lower("b") == "b" && Lower("a") == "a";
    assert Forgotten([Sample("a")], "b") == [Sample("a")];
  }

  lemma AliasEntries()
    ensures Remembered([], Sample("b")) == [Sample("b")]
    ensures Remembered([Sample("b")], Sample("a")) == [Sample("b"), Sample("a")]
    ensures IndexOf([Sample("b"), Sample("a")], "a") == 1
    ensures Unpaired([Sample("b"), Sample("a")], "a") == [Sample("b"), Sample("a").(status := UnpairedRemotely)]
  {
    assert Lower("b") == "b" && Lower("a") == "a";
    assert "b" != "a";
    var one, two := [Sample("b")], [Sample("b"), Sample("a")];
    assert Key(one[0]) == "b" && Key(two[0]) == "b" && Key(two[1]) == "a";
    hide IndexOf, Lower;
    assert IndexOf(one, "a") == 1 && IndexOf(two, "a") == 1;
  }

  lemma AliasConnectable(status: Status)
    ensures ConnectableIds(SampleTexts, [Sample("b"), Sample("a").(status := status)]) == {EndpointId(0)}
  {
    SampleLawful();
    hide SampleTexts;
    assert SampleTexts.parse("a") == Some(EndpointId(0));
    var ds := [Sample("b"), Sample("a").(status := status)];
    assert ds[0] in ds && forall d :: d in ds ==> d == ds[0] || d == ds[1];
  }

  // A peer that joined under "b" and again under its printed "a": its Forget marks
  // the second entry only, and the next start allows it again.
  lemma ForgetLeavesAlias()
    ensures var n := Run(SampleTexts, Node([], {}), [Joined(Sample("b")), Joined(Sample("a"))]);
            var n' := Apply(SampleTexts, n, ForgetReceived(EndpointId(0)));
            && Lawful(SampleTexts) && InStep(SampleTexts, n) && n'.allowed == {}
            && n'.devices == [Sample("b"), Sample("a").(status := UnpairedRemotely)]
            && Apply(SampleTexts, n', Start(false)).allowed == {EndpointId(0)}
  {
    SampleLawful();
    AliasEntries();
    AliasConnectable(Active);
    AliasConnectable(UnpairedRemotely);
    hide SampleTexts, Remembered, Unpaired, IndexOf, ConnectableIds;
    var x, id := SampleTexts, EndpointId(0);
    assert x.parse("a") == Some(id) by {
      assert x.parse(x.show(id)) == Some(id);
    }
    assert Lower("a") == "a";
    hide Lower;
    var one, two := Node([Sample("b")], {id}), Node([Sample("b"), Sample("a")], {id});
    assert Apply(x, Node([], {}), Joined(Sample("b"))) == one;
    assert Apply(x, one, Joined(Sample("a"))) == two;
    RunTwo(x, Node([], {}), Joined(Sample("b")), Joined(Sample("a")));
  }

  // A peer connected as 1 that announces 0 is allowed without being listed.
  lemma HostPairedAsAnother()
    ensures var n := Apply(SampleTexts, Node([], {}), HostPaired(EndpointId(1), Sample("a")));
            && Lawful(SampleTexts) && Agrees(SampleTexts, Node([], {}))
            && n == Node([Sample("a")], {EndpointId(1)}) && !InStep(SampleTexts, n)
            && ConnectableIds(SampleTexts, n.devices) == {EndpointId(0)}
  {
    SampleLawful();
    hide SampleTexts;
    assert SampleTexts.parse("a") == Some(EndpointId(0));
    OneDevice("a", EndpointId(0));
    assert EndpointId(0) in {EndpointId(0)} && EndpointId(0) !in {EndpointId(1)};
    NothingAgrees(SampleTexts);
  }

  // Every faithful step keeps the allowlist equal to the connectable devices.
  lemma StepAgrees(x: Texts, n: Node, op: Op)
    requires Lawful(x) && Agrees(x, n) && Faithful(x, n, op)
    ensures Agrees(x, Apply(x, n, op))
  {
    match op
    case Start(rotated) =>
      StaleSameIds(n.devices);
      SameIdsAgree(x, n.devices, Stale(n.devices));
    case HostPaired(remote, info) =>
      RememberAgrees(x, n.devices, info.(status := Active), remote);
    case Joined(info) =>
      if x.parse(info.endpointId).Some? {
        var id :| info.endpointId == x.show(id);
        assert x.parse(x.show(id)) == Some(id);
        RememberAgrees(x, n.devices, info.(status := Active), id);
      }
    case ForgetPaired(text) =>
      ForgetPairedExact(x, n, text);
    case ForgetReceived(remote) =>
      UnpairAgrees(x, n.devices, remote);
    case RenamePaired(text, name) =>
      SameIdsAgree(x, n.devices, Renamed(n.devices, text, name));
    case Touch(text, at) =>
      SameIdsAgree(x, n.devices, Touched(n.devices, text, at));
  }

  // After a start with a rotated identity no device is Active, and one that was
  // is stale; without a rotation the list is as it was.
  lemma RotationMarksStale(x: Texts, n: Node)
    ensures var n' := Apply(x, n, Start(true));
            && |n'.devices| == |n.devices|
            && (forall i :: 0 <= i < |n.devices| ==>
                  && !n'.devices[i].status.Active? && n'.devices[i].endpointId == n.devices[i].endpointId
                  && (n.devices[i].status.Active? ==> n'.devices[i].status.StaleLocalIdentity?)
                  && (!n.devices[i].status.Active? ==> n'.devices[i] == n.devices[i]))
    ensures Apply(x, n, Start(false)).devices == n.devices
  {
    hide ConnectableIds;
  }

  // Renaming and touching change one field of the device found and nothing else.
  lemma EditsOneField(x: Texts, n: Node, text: string, name: string, at: nat)
    ensures var i := IndexOf(n.devices, Lower(text));
            var renamed, touched := Apply(x, n, RenamePaired(text, name)), Apply(x, n, Op.Touch(text, at));
            && renamed.allowed == touched.allowed == n.allowed
            && OnlyAt(n.devices, renamed.devices, i) && OnlyAt(n.devices, touched.devices, i)
            && (i < |n.devices| ==>
                  && renamed.devices[i].displayName == name && touched.devices[i].lastSeenAt == at
                  && renamed.devices[i] == n.devices[i].(displayName := name)
                  && touched.devices[i] == n.devices[i].(lastSeenAt := at))
  {
    hide Lower;
  }

  lemma StaleSameIds(ds: seq<Device>)
    ensures SameIds(ds, Stale(ds))
  {
  }

  ghost predicate FaithfulRun(x: Texts, n: Node, ops: seq<Op>) {
    forall k :: 0 <= k < |ops| ==> Faithful(x, Run(x, n, ops[..k]), ops[k])
  }

  // For every sequence of steps the two records agree, ids stay unique up to
  // case, and a restart, with or without a rotated identity, loads the very
  // allowlist the node had.
  lemma {:induction false} AlwaysAgrees(x: Texts, ops: seq<Op>)
    requires Lawful(x) && FaithfulRun(x, Node([], {}), ops)
    ensures var n := Run(x, Node([], {}), ops);
            && Agrees(x, n) && UniqueKeys(n.devices)
            && forall rotated :: Apply(x, n, Start(rotated)).allowed == n.allowed
  {
    hide Apply;
    if ops == [] {
      NothingAgrees(x);
    } else {
      var k := |ops| - 1;
      var before := Run(x, Node([], {}), ops[..k]);
      assert FaithfulRun(x, Node([], {}), ops[..k]) by {
        forall j | 0 <= j < k
          ensures Faithful(x, Run(x, Node([], {}), ops[..k][..j]), ops[..k][j])
        {
          assert ops[..k][..j] == ops[..j];
        }
      }
      AlwaysAgrees(x, ops[..k]);
      StepAgrees(x, before, ops[k]);
    }
    RestartLoads(x, Run(x, Node([], {}), ops));
  }

  lemma NothingAgrees(x: Texts)
    ensures Agrees(x, Node([], {}))
  {
  }

  lemma RestartLoads(x: Texts, n: Node)
    requires Agrees(x, n)
    ensures forall rotated :: Apply(x, n, Start(rotated)).allowed == n.allowed
  {
  }

  // Uniqueness up to case needs no assumption about what peers send.
  lemma {:induction false} AlwaysUnique(x: Texts, ops: seq<Op>)
    ensures UniqueKeys(Run(x, Node([], {}), ops).devices)
  {
    if ops != [] {
      var k := |ops| - 1;
      AlwaysUnique(x, ops[..k]);
      StepUnique(x, Run(x, Node([], {}), ops[..k]), ops[k]);
    }
  }

  lemma StepUnique(x: Texts, n: Node, op: Op)
    requires UniqueKeys(n.devices)
    ensures UniqueKeys(Apply(x, n, op).devices)
  {
    hide ConnectableIds;
    if op.ForgetPaired? {
      ForgottenUnique(n.devices, op.text);
    }
  }
}
