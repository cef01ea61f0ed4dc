/**
 * A device manager: a singly linked list of hardware devices kept in
 * non-increasing priority order (ties in arrival order), with a count of all
 * devices and of the ACTIVE ones. Devices get ids from 1001 upward and start
 * PENDING; they can be activated, deactivated, put in error, and deleted by
 * id or by name.
 */
module DeviceNodes {
  import opened Common

  const FirstDeviceId: int := 1001

  datatype DeviceType = Usb | Pci | Network | Audio | Video | Storage | Input | Bluetooth

  datatype DeviceStatus = Active | Inactive | Error | Pending

  datatype Device = Device(
    id: int,
    name: string,
    manufacturer: string,
    kind: DeviceType,
    status: DeviceStatus,
    driverVersion: string,
    priority: int)

  /** The manager as an observer sees it; the list head is at index 0. */
  datatype Devices = Devices(devices: seq<Device>, total: int, active: int, nextId: int)

  /** 1 for an ACTIVE device, 0 otherwise. */
  function One(d: Device): nat {
    if d.status == Active then 1 else 0
  }

  /** Number of ACTIVE devices among the first n. */
  function ActiveBefore(ds: seq<Device>, n: nat): (c: nat)
    requires n <= |ds|
    ensures c <= n
  {
    if n == 0 then 0 else ActiveBefore(ds, n - 1) + One(ds[n - 1])
  }

  /** Number of ACTIVE devices in the list. */
  function ActiveCount(ds: seq<Device>): (n: nat)
    ensures n <= |ds|
  {
    ActiveBefore(ds, |ds|)
  }

  /** Highest priority first. */
  ghost predicate PriorityOrdered(ds: seq<Device>) {
    forall i, j :: 0 <= i < j < |ds| ==> ds[i].priority >= ds[j].priority
  }

  /**
   * Where a device of priority p goes: before the first device of strictly
   * lower priority, so after every device of equal or higher priority.
   */
  function InsertIndex(ds: seq<Device>, p: int): (k: nat)
    ensures k <= |ds|
    ensures forall i :: 0 <= i < k ==> ds[i].priority >= p
    ensures k < |ds| ==> ds[k].priority < p
  {
    if ds == [] || ds[0].priority < p then 0 else 1 + InsertIndex(ds[1..], p)
  }

  /** Index of the first device with the id, or |ds|. */
  function IndexOfId(ds: seq<Device>, id: int): (k: nat)
    ensures k <= |ds|
    ensures forall i :: 0 <= i < k ==> ds[i].id != id
    ensures k < |ds| ==> ds[k].id == id
  {
    if ds == [] then 0 else if ds[0].id == id then 0 else 1 + IndexOfId(ds[1..], id)
  }

  /** Index of the first device with the name, or |ds|. */
  function IndexOfName(ds: seq<Device>, name: string): (k: nat)
    ensures k <= |ds|
    ensures forall i :: 0 <= i < k ==> ds[i].name != name
    ensures k < |ds| ==> ds[k].name == name
  {
    if ds == [] then 0 else if ds[0].name == name then 0 else 1 + IndexOfName(ds[1..], name)
  }

  /**
   * The manager invariant: the totals count the list and its ACTIVE devices,
   * ids are distinct, at least 1001 and below the next id, and the list is in
   * priority order.
   */
  ghost predicate Inv(st: Devices) {
    && st.total == |st.devices|
    && st.active == ActiveCount(st.devices)
    && st.nextId >= FirstDeviceId
    && (forall i :: 0 <= i < |st.devices| ==> FirstDeviceId <= st.devices[i].id < st.nextId)
    && (forall i, j :: 0 <= i < j < |st.devices| ==> st.devices[i].id != st.devices[j].id)
    && PriorityOrdered(st.devices)
  }

  // ---------------------------------------------------------------------
  // The operations on values

  function Added(st: Devices, name: string, manufacturer: string, kind: DeviceType,
                 driverVersion: string, priority: int): Devices
  {
    var d := Device(st.nextId, name, manufacturer, kind, Pending, driverVersion, priority);
    st.(devices := InsertAt(st.devices, InsertIndex(st.devices, priority), d),
        total := st.total + 1,
        nextId := st.nextId + 1)
  }

  /** Removes the device with the id; an absent id changes nothing. */
  function DeletedById(st: Devices, id: int): Devices {
    var k := IndexOfId(st.devices, id);
    if k == |st.devices| then st
    else
      st.(devices := RemoveAt(st.devices, k),
          total := st.total - 1,
          active := if st.devices[k].status == Active then st.active - 1 else st.active)
  }

  /** Deletes by the id of the first device with the name; an absent name changes nothing. */
  function DeletedByName(st: Devices, name: string): Devices {
    var k := IndexOfName(st.devices, name);
    if k == |st.devices| then st else DeletedById(st, st.devices[k].id)
  }

  function WithStatus(st: Devices, k: nat, s: DeviceStatus): Devices
    requires k < |st.devices|
  {
    st.(devices := st.devices[k := st.devices[k].(status := s)])
  }

  /** A missing or already ACTIVE device is left alone. */
  function Activated(st: Devices, id: int): Devices {
    var k := IndexOfId(st.devices, id);
    if k == |st.devices| || st.devices[k].status == Active then st
    else WithStatus(st, k, Active).(active := st.active + 1)
  }

  /** Only an ACTIVE device becomes INACTIVE. */
  function Deactivated(st: Devices, id: int): Devices {
    var k := IndexOfId(st.devices, id);
    if k == |st.devices| || st.devices[k].status != Active then st
    else WithStatus(st, k, Inactive).(active := st.active - 1)
  }

  /** Any present device goes to ERROR, leaving the active count if it was ACTIVE. */
  function Errored(st: Devices, id: int): Devices {
    var k := IndexOfId(st.devices, id);
    if k == |st.devices| then st
    else WithStatus(st, k, Error).(active := if st.devices[k].status == Active then st.active - 1 else st.active)
  }

  // ---------------------------------------------------------------------
  // Counting lemmas

  /** Replacing the device at k shifts the counts of the prefixes that contain it. */
  lemma {:induction false} ActiveBeforeUpdate(s: seq<Device>, k: nat, d: Device, n: nat)
    requires k < |s| && n <= |s|
    ensures ActiveBefore(s[k := d], n) == ActiveBefore(s, n) + (if k < n then One(d) - One(s[k]) else 0)
  {
    if n > 0 {
      ActiveBeforeUpdate(s, k, d, n - 1);
    }
  }

  /** Replacing one device changes the active count by the difference of the two. */
  lemma ActiveCountUpdate(s: seq<Device>, k: nat, d: Device)
    requires k < |s|
    ensures ActiveCount(s[k := d]) == ActiveCount(s) - One(s[k]) + One(d)
  {
    ActiveBeforeUpdate(s, k, d, |s|);
  }

  /** Prefix counts after unlinking the device at k. */
  lemma {:induction false} ActiveBeforeRemove(s: seq<Device>, k: nat, n: nat)
    requires k < |s| && n < |s|
    ensures ActiveBefore(RemoveAt(s, k), n) == if n <= k then ActiveBefore(s, n) else ActiveBefore(s, n + 1) - One(s[k])
  {
    if n > 0 {
      ActiveBeforeRemove(s, k, n - 1);
    }
  }

  lemma ActiveCountRemove(s: seq<Device>, k: nat)
    requires k < |s|
    ensures ActiveCount(RemoveAt(s, k)) == ActiveCount(s) - One(s[k])
  {
    ActiveBeforeRemove(s, k, |s| - 1);
  }

  /** Prefix counts after linking d in at k. */
  lemma {:induction false} ActiveBeforeInsert(s: seq<Device>, k: nat, d: Device, n: nat)
    requires k <= |s| && n <= |s| + 1
    ensures ActiveBefore(InsertAt(s, k, d), n) == if n <= k then ActiveBefore(s, n) else ActiveBefore(s, n - 1) + One(d)
  {
    if n > 0 {
      ActiveBeforeInsert(s, k, d, n - 1);
    }
  }

  lemma ActiveCountInsert(s: seq<Device>, k: nat, d: Device)
    requires k <= |s|
    ensures ActiveCount(InsertAt(s, k, d)) == ActiveCount(s) + One(d)
  {
    ActiveBeforeInsert(s, k, d, |s| + 1);
  }

  // ---------------------------------------------------------------------
  // Properties

  /**
   * A device of priority p lands after every device of equal or higher
   * priority and before every lower one.
   */
  lemma InsertPlacement(ds: seq<Device>, d: Device)
    requires PriorityOrdered(ds)
    ensures var k := InsertIndex(ds, d.priority);
      && (forall i :: 0 <= i < k ==> ds[i].priority >= d.priority)
      && (forall i :: k <= i < |ds| ==> ds[i].priority < d.priority)
  {
    var k := InsertIndex(ds, d.priority);
    forall i | k < i < |ds|
      ensures ds[i].priority < d.priority
    {
      assert ds[k].priority >= ds[i].priority;
    }
  }

  /** The insertion keeps the list in priority order. */
  lemma InsertKeepsOrder(ds: seq<Device>, d: Device)
    requires PriorityOrdered(ds)
    ensures PriorityOrdered(InsertAt(ds, InsertIndex(ds, d.priority), d))
  {
    InsertPlacement(ds, d);
    var k := InsertIndex(ds, d.priority);
    var r := InsertAt(ds, k, d);
    forall i, j | 0 <= i < j < |r|
      ensures r[i].priority >= r[j].priority
    {
      if j < k {
        assert r[i] == ds[i] && r[j] == ds[j];
      } else if j == k {
        assert r[i] == ds[i];
      } else if i == k {
        assert r[j] == ds[j - 1];
      } else if i < k {
        assert r[i] == ds[i] && r[j] == ds[j - 1];
      } else {
        assert r[i] == ds[i - 1] && r[j] == ds[j - 1];
      }
    }
  }

  /** A new device has the next id and stays distinct from every device already listed. */
  lemma InsertKeepsIds(ds: seq<Device>, k: nat, d: Device, nextId: int)
    requires k <= |ds| && d.id == nextId >= FirstDeviceId
    requires forall i :: 0 <= i < |ds| ==> FirstDeviceId <= ds[i].id < nextId
    requires forall i, j :: 0 <= i < j < |ds| ==> ds[i].id != ds[j].id
    ensures var r := InsertAt(ds, k, d);
      && (forall i :: 0 <= i < |r| ==> FirstDeviceId <= r[i].id < nextId + 1)
      && (forall i, j :: 0 <= i < j < |r| ==> r[i].id != r[j].id)
  {
    var r := InsertAt(ds, k, d);
    forall i | 0 <= i < |r|
      ensures FirstDeviceId <= r[i].id < nextId + 1
      ensures i != k ==> r[i].id < nextId
    {
      if i > k {
        assert r[i] == ds[i - 1];
      }
    }
    forall i, j | 0 <= i < j < |r|
      ensures r[i].id != r[j].id
    {
      if j < k {
      } else if i > k {
        assert r[i] == ds[i - 1] && r[j] == ds[j - 1];
      } else if i < k && j > k {
        assert r[j] == ds[j - 1];
      }
    }
  }

  lemma AddedKeepsInv(st: Devices, name: string, m: string, kind: DeviceType, dv: string, p: int)
    requires Inv(st)
    ensures Inv(Added(st, name, m, kind, dv, p))
  {
    var k := InsertIndex(st.devices, p);
    var d := Device(st.nextId, name, m, kind, Pending, dv, p);
    InsertKeepsOrder(st.devices, d);
    InsertKeepsIds(st.devices, k, d, st.nextId);
    ActiveCountInsert(st.devices, k, d);
  }

  /** Unlinking one device keeps the ids in range and distinct, and the priority order. */
  lemma RemoveKeepsIdsAndOrder(ds: seq<Device>, k: nat, nextId: int)
    requires k < |ds|
    requires forall i :: 0 <= i < |ds| ==> FirstDeviceId <= ds[i].id < nextId
    requires forall i, j :: 0 <= i < j < |ds| ==> ds[i].id != ds[j].id
    requires PriorityOrdered(ds)
    ensures var r := RemoveAt(ds, k);
      && (forall i :: 0 <= i < |r| ==> FirstDeviceId <= r[i].id < nextId && r[i].id != ds[k].id)
      && (forall i, j :: 0 <= i < j < |r| ==> r[i].id != r[j].id)
      && PriorityOrdered(r)
  {
    var r := RemoveAt(ds, k);
    forall i | 0 <= i < |r|
      ensures FirstDeviceId <= r[i].id < nextId && r[i].id != ds[k].id
    {
      if i >= k {
        assert r[i] == ds[i + 1];
      }
    }
    forall i, j | 0 <= i < j < |r|
      ensures r[i].id != r[j].id && r[i].priority >= r[j].priority
    {
      if j >= k {
        assert r[j] == ds[j + 1];
        if i >= k {
          assert r[i] == ds[i + 1];
        }
      }
    }
  }

  /** Deleting by id keeps the invariant. */
  lemma DeletedInv(st: Devices, id: int)
    requires Inv(st)
    ensures Inv(DeletedById(st, id))
  {
    var k := IndexOfId(st.devices, id);
    if k < |st.devices| {
      ActiveCountRemove(st.devices, k);
      RemoveKeepsIdsAndOrder(st.devices, k, st.nextId);
    }
  }

  /**
   * Deleting an absent id changes nothing; a present one removes exactly that
   * device, keeps the others in order and keeps the invariant.
   */
  lemma DeletedKeepsInv(st: Devices, id: int)
    requires Inv(st)
    ensures var k := IndexOfId(st.devices, id);
      && (k == |st.devices| <==> DeletedById(st, id) == st)
      && (k < |st.devices| ==> DeletedById(st, id).devices == RemoveAt(st.devices, k))
    ensures Inv(DeletedById(st, id))
    ensures forall i :: 0 <= i < |DeletedById(st, id).devices| ==> DeletedById(st, id).devices[i].id != id
  {
    DeletedInv(st, id);
    var k := IndexOfId(st.devices, id);
    if k < |st.devices| {
      assert |RemoveAt(st.devices, k)| < |st.devices|;
      RemoveKeepsIdsAndOrder(st.devices, k, st.nextId);
    }
  }

  /** Deleting by name removes the first device with that name, and only it. */
  lemma DeleteByNameRemovesFirst(st: Devices, name: string)
    requires Inv(st)
    ensures var k := IndexOfName(st.devices, name);
      && (k == |st.devices| ==> DeletedByName(st, name) == st)
      && (k < |st.devices| ==> DeletedByName(st, name).devices == RemoveAt(st.devices, k))
    ensures Inv(DeletedByName(st, name))
  {
    var k := IndexOfName(st.devices, name);
    if k < |st.devices| {
      var id := st.devices[k].id;
      assert IndexOfId(st.devices, id) == k;
      DeletedKeepsInv(st, id);
    }
  }

  /** A status change keeps ids and priorities, so only the active count needs restoring. */
  lemma WithStatusKeepsInv(st: Devices, k: nat, s: DeviceStatus, active: int)
    requires Inv(st) && k < |st.devices|
    requires active == st.active - One(st.devices[k]) + (if s == Active then 1 else 0)
    ensures Inv(WithStatus(st, k, s).(active := active))
  {
    var d := st.devices[k].(status := s);
    ActiveCountUpdate(st.devices, k, d);
    var ds := st.devices[k := d];
    assert forall i :: 0 <= i < |ds| ==> ds[i].id == st.devices[i].id && ds[i].priority == st.devices[i].priority;
  }

  lemma ActivatedKeepsInv(st: Devices, id: int)
    requires Inv(st)
    ensures Inv(Activated(st, id))
  {
    var k := IndexOfId(st.devices, id);
    if k < |st.devices| && st.devices[k].status != Active {
      WithStatusKeepsInv(st, k, Active, st.active + 1);
    }
  }

  lemma DeactivatedKeepsInv(st: Devices, id: int)
    requires Inv(st)
    ensures Inv(Deactivated(st, id))
  {
    var k := IndexOfId(st.devices, id);
    if k < |st.devices| && st.devices[k].status == Active {
      WithStatusKeepsInv(st, k, Inactive, st.active - 1);
    }
  }

  lemma ErroredKeepsInv(st: Devices, id: int)
    requires Inv(st)
    ensures Inv(Errored(st, id))
  {
    var k := IndexOfId(st.devices, id);
    if k < |st.devices| {
      WithStatusKeepsInv(st, k, Error, if st.devices[k].status == Active then st.active - 1 else st.active);
    }
  }

  /**
   * Activating a device that is not ACTIVE and then deactivating it leaves it
   * INACTIVE with the active count back where it was; every other device is
   * untouched.
   */
  lemma ActivateThenDeactivate(st: Devices, id: int)
    requires Inv(st)
    requires IndexOfId(st.devices, id) < |st.devices|
    requires st.devices[IndexOfId(st.devices, id)].status != Active
    ensures var k := IndexOfId(st.devices, id);
      var st' := Deactivated(Activated(st, id), id);
      && st'.active == st.active
      && st'.devices == st.devices[k := st.devices[k].(status := Inactive)]
  {
    var k := IndexOfId(st.devices, id);
    var a := Activated(st, id);
    assert a.devices[k].id == id;
    assert forall i :: 0 <= i < k ==> a.devices[i] == st.devices[i];
    assert IndexOfId(a.devices, id) == k;
  }

  // ---------------------------------------------------------------------
  // The manager, updated in place

  /** The search loop by id: the first device with the id, or None. */
  method FindDeviceById(ds: seq<Device>, id: int) returns (k: Option<nat>)
    ensures k.None? <==> forall i :: 0 <= i < |ds| ==> ds[i].id != id
    ensures k.Some? ==> k.value == IndexOfId(ds, id) < |ds|
  {
    var i := 0;
    while i < |ds|
      invariant 0 <= i <= |ds|
      invariant forall j :: 0 <= j < i ==> ds[j].id != id
    {
      if ds[i].id == id {
        return Some(i);
      }
      i := i + 1;
    }
    return None;
  }

  /** The search loop by name: the first device with the name, or None. */
  method FindDeviceByName(ds: seq<Device>, name: string) returns (k: Option<nat>)
    ensures k.None? <==> forall i :: 0 <= i < |ds| ==> ds[i].name != name
    ensures k.Some? ==> k.value == IndexOfName(ds, name) < |ds|
  {
    var i := 0;
    while i < |ds|
      invariant 0 <= i <= |ds|
      invariant forall j :: 0 <= j < i ==> ds[j].name != name
    {
      if ds[i].name == name {
        return Some(i);
      }
      i := i + 1;
    }
    return None;
  }

  /**
   * The insertion walk: the head when the list is empty or the head has lower
   * priority, otherwise past every following device whose priority is at
   * least p.
   */
  method FindInsertIndex(ds: seq<Device>, p: int) returns (k: nat)
    ensures k == InsertIndex(ds, p)
  {
    if ds == [] || ds[0].priority < p {
      return 0;
    }
    k := 0;
    while k + 1 < |ds| && ds[k + 1].priority >= p
      invariant 0 <= k < |ds|
      invariant forall i :: 0 <= i <= k ==> ds[i].priority >= p
    {
      k := k + 1;
    }
    k := k + 1;
  }

  class DeviceManager {
    var devices: seq<Device>
    var totalDevices: int
    var activeDevices: int
    var nextDeviceId: int

    ghost function State(): Devices
      reads this
    {
      Devices(devices, totalDevices, activeDevices, nextDeviceId)
    }

    ghost predicate Valid()
      reads this
    {
      Inv(State())
    }

    constructor ()
      ensures Valid() && State() == Devices([], 0, 0, FirstDeviceId)
    {
      devices := [];
      totalDevices := 0;
      activeDevices := 0;
      nextDeviceId := FirstDeviceId;
    }

    method AddDevice(name: string, manufacturer: string, kind: DeviceType, driverVersion: string, priority: int)
      requires Valid()
      modifies this
      ensures Valid()
      ensures State() == Added(old(State()), name, manufacturer, kind, driverVersion, priority)
    {
      AddedKeepsInv(State(), name, manufacturer, kind, driverVersion, priority);
      var d := Device(nextDeviceId, name, manufacturer, kind, Pending, driverVersion, priority);
      nextDeviceId := nextDeviceId + 1;
      var k := FindInsertIndex(devices, priority);
      devices := InsertAt(devices, k, d);
      totalDevices := totalDevices + 1;
    }

    /** Returns whether a device was removed. */
    method DeleteDeviceById(id: int) returns (removed: bool)
      requires Valid()
      modifies this
      ensures Valid()
      ensures State() == DeletedById(old(State()), id)
      ensures removed <==> exists i :: 0 <= i < |old(devices)| && old(devices)[i].id == id
    {
      DeletedInv(State(), id);
      var k := FindDeviceById(devices, id);
      if k.None? {
        return false;
      }
      var i := k.value;
      if devices[i].status == Active {
        activeDevices := activeDevices - 1;
      }
      devices := RemoveAt(devices, i);
      totalDevices := totalDevices - 1;
      removed := true;
    }

    method DeleteDeviceByName(name: string) returns (removed: bool)
      requires Valid()
      modifies this
      ensures Valid()
      ensures State() == DeletedByName(old(State()), name)
      ensures removed <==> exists i :: 0 <= i < |old(devices)| && old(devices)[i].name == name
    {
      DeleteByNameRemovesFirst(State(), name);
      var k := FindDeviceByName(devices, name);
      if k.None? {
        return false;
      }
      var id := devices[k.value].id;
      assert devices[IndexOfId(devices, id)].id == id;
      removed := DeleteDeviceById(id);
    }

    method ActivateDevice(id: int)
      requires Valid()
      modifies this
      ensures Valid()
      ensures State() == Activated(old(State()), id)
    {
      ActivatedKeepsInv(State(), id);
      var k := FindDeviceById(devices, id);
      if k.None? || devices[k.value].status == Active {
        return;
      }
      devices := devices[k.value := devices[k.value].(status := Active)];
      activeDevices := activeDevices + 1;
    }

    method DeactivateDevice(id: int)
      requires Valid()
      modifies this
      ensures Valid()
      ensures State() == Deactivated(old(State()), id)
    {
      DeactivatedKeepsInv(State(), id);
      var k := FindDeviceById(devices, id);
      if k.None? || devices[k.value].status != Active {
        return;
      }
      devices := devices[k.value := devices[k.value].(status := Inactive)];
      activeDevices := activeDevices - 1;
    }

    method SetDeviceError(id: int)
      requires Valid()
      modifies this
      ensures Valid()
      ensures State() == Errored(old(State()), id)
    {
      ErroredKeepsInv(State(), id);
      var k := FindDeviceById(devices, id);
      if k.None? {
        return;
      }
      if devices[k.value].status == Active {
        activeDevices := activeDevices - 1;
      }
      devices := devices[k.value := devices[k.value].(status := Error)];
    }
  }
}
