/** Inventory snapshots, their validation, and the diff between two of them. */
module Inventory {
  import opened Core
  import opened StringOrder

  /** Everything a descriptor carries beyond identity and interface; only its equality matters here. */
  type Details(==,0,!new)

  datatype DeviceKind =
    | Unspecified(interface: InterfaceKind)
    | GpioChip | GpioLine
    | PwmChip | PwmChannel
    | I2cBus | I2cDevice
    | SpiBus | SpiDevice
    | UartPort | UartDevice
    | UsbBus | UsbDevice | UsbInterface
  {
    function Interface(): InterfaceKind {
      match this
      case Unspecified(i) => i
      case GpioChip | GpioLine => Gpio
      case PwmChip | PwmChannel => Pwm
      case I2cBus | I2cDevice => I2c
      case SpiBus | SpiDevice => Spi
      case UartPort | UartDevice => Uart
      case UsbBus | UsbDevice | UsbInterface => Usb
    }
  }

  datatype Descriptor = Descriptor(
    id: DeviceId,
    interface: InterfaceKind,
    kind: DeviceKind,
    addressInterface: Option<InterfaceKind>,
    details: Details
  ) {
    function Validate(): Option<CoreError> {
      if kind.Interface() != interface then Some(KindInterfaceMismatch)
      else if addressInterface.Some? && addressInterface.value != interface then Some(AddressInterfaceMismatch)
      else None
    }

    predicate Valid() { Validate().None? }
  }

  datatype CoreError = KindInterfaceMismatch | AddressInterfaceMismatch

  datatype DiscoveryError =
    | ProbeFailed(probe: string, message: string)
    | InvalidDescriptor(probe: string, deviceId: DeviceId, source: CoreError)
    | DuplicateDeviceId(deviceId: DeviceId)

  datatype Snapshot = Snapshot(observedAt: Option<nat>, devices: seq<Descriptor>)

  function IdSet(devices: seq<Descriptor>): (ids: set<DeviceId>)
    ensures forall i :: 0 <= i < |devices| ==> devices[i].id in ids
    ensures forall id :: id in ids ==> exists i :: 0 <= i < |devices| && devices[i].id == id
  {
    set device <- devices :: device.id
  }

  ghost predicate AllValid(devices: seq<Descriptor>) {
    forall i :: 0 <= i < |devices| ==> devices[i].Valid()
  }

  ghost predicate DistinctIds(devices: seq<Descriptor>) {
    forall i, j :: 0 <= i < j < |devices| ==> devices[i].id != devices[j].id
  }

  /** What is wrong with `device` when it follows the sound list `before`. */
  ghost predicate Faulty(before: seq<Descriptor>, device: Descriptor, fault: DiscoveryError) {
    if device.Valid() then device.id in IdSet(before) && fault == DuplicateDeviceId(device.id)
    else fault == InvalidDescriptor("snapshot", device.id, device.Validate().value)
  }

  /** The list is sound up to device `k`, which spoils it. */
  ghost predicate SpoiltAt(devices: seq<Descriptor>, k: nat, fault: DiscoveryError) {
    && k < |devices| && AllValid(devices[..k]) && DistinctIds(devices[..k])
    && Faulty(devices[..k], devices[k], fault)
  }

  /** The fault that `validate_devices` reports; there is none exactly if the list is sound. */
  function FirstFault(devices: seq<Descriptor>): (fault: Option<DiscoveryError>)
    ensures fault.None? <==> AllValid(devices) && DistinctIds(devices)
  {
    if devices == [] then None else
      var n := |devices| - 1;
      var front, last := devices[..n], devices[n];
      var earlier := FirstFault(front);
      if earlier.Some? then earlier
      else if !last.Valid() then Some(InvalidDescriptor("snapshot", last.id, last.Validate().value))
      else if last.id in IdSet(front) then Some(DuplicateDeviceId(last.id))
      else None
  }

  /** A reported fault is that of the first device spoiling the list. */
  lemma {:induction false} FaultIsFirst(devices: seq<Descriptor>)
    ensures FirstFault(devices).Some? ==> exists k :: SpoiltAt(devices, k, FirstFault(devices).value)
    decreases |devices|
  {
    if devices != [] {
      var n := |devices| - 1;
      var front := devices[..n];
      FaultIsFirst(front);
      if FirstFault(front).Some? {
        var k: nat :| SpoiltAt(front, k, FirstFault(front).value);
        assert front[..k] == devices[..k];
        assert SpoiltAt(devices, k, FirstFault(devices).value);
      } else if FirstFault(devices).Some? {
        assert SpoiltAt(devices, n, FirstFault(devices).value);
      }
    }
  }

  lemma {:induction false} FirstFaultSticks(devices: seq<Descriptor>, k: nat)
    requires k <= |devices| && FirstFault(devices[..k]).Some?
    ensures FirstFault(devices) == FirstFault(devices[..k])
    decreases |devices|
  {
    if k < |devices| {
      var front := devices[..|devices| - 1];
      assert front[..k] == devices[..k];
      FirstFaultSticks(front, k);
    } else {
      assert devices[..k] == devices;
    }
  }

  method ValidateDevices(devices: seq<Descriptor>) returns (fault: Option<DiscoveryError>)
    ensures fault == FirstFault(devices)
  {
    var seen: set<DeviceId> := {};
    for i := 0 to |devices|
      invariant FirstFault(devices[..i]).None?
      invariant seen == IdSet(devices[..i])
    {
      var device := devices[i];
      assert devices[..i + 1][..i] == devices[..i];
      if !device.Valid() {
        FirstFaultSticks(devices, i + 1);
        return Some(InvalidDescriptor("snapshot", device.id, device.Validate().value));
      }
      if device.id in seen {
        FirstFaultSticks(devices, i + 1);
        return Some(DuplicateDeviceId(device.id));
      }
      seen := seen + {device.id};
    }
    assert devices[..|devices|] == devices;
    return None;
  }

  function WithObservedAt(devices: seq<Descriptor>, observedAt: Option<nat>): Result<Snapshot, DiscoveryError> {
    match FirstFault(devices)
    case Some(fault) => Err(fault)
    case None => Ok(Snapshot(observedAt, devices))
  }

  // ---------- diff ----------

  type Devices = map<DeviceId, Descriptor>

  ghost predicate Keyed(m: Devices) {
    forall id :: id in m ==> m[id].id == id
  }

  /** The id-to-descriptor map that `diff` collects; a repeated id keeps its last descriptor. */
  function ById(devices: seq<Descriptor>): (m: Devices)
    ensures Keyed(m)
    ensures forall id :: id in m ==> m[id] in devices
    ensures forall i :: 0 <= i < |devices| ==> devices[i].id in m
  {
    if devices == [] then map[] else
      var n := |devices| - 1;
      ById(devices[..n])[devices[n].id := devices[n]]
  }

  /** Without repeated ids every descriptor of the list is found under its id. */
  lemma ByIdFinds(devices: seq<Descriptor>, d: Descriptor)
    requires DistinctIds(devices) && d in devices
    ensures d.id in ById(devices) && ById(devices)[d.id] == d
  {
  }

  datatype ChangedDevice = ChangedDevice(previous: Descriptor, current: Descriptor)

  datatype InventoryDiff = InventoryDiff(
    added: seq<Descriptor>,
    changed: seq<ChangedDevice>,
    removed: seq<DeviceId>
  ) {
    predicate IsEmpty() { added == [] && changed == [] && removed == [] }
  }

  function Ids(devices: seq<Descriptor>): (ids: seq<DeviceId>)
    ensures |ids| == |devices|
    ensures forall i :: 0 <= i < |ids| ==> ids[i] == devices[i].id
  {
    seq(|devices|, i requires 0 <= i < |devices| => devices[i].id)
  }

  function ChangedIds(changed: seq<ChangedDevice>): (ids: seq<DeviceId>)
    ensures |ids| == |changed|
    ensures forall i :: 0 <= i < |ids| ==> ids[i] == changed[i].current.id
  {
    seq(|changed|, i requires 0 <= i < |changed| => changed[i].current.id)
  }

  /** `added` lists, in id order, the devices of `b` with an id in `scope` that `a` lacks. */
  ghost predicate IsAdded(added: seq<Descriptor>, scope: seq<DeviceId>, a: Devices, b: Devices) {
    && Ascending(Ids(added))
    && (forall id :: id in Ids(added) <==> id in scope && id !in a)
    && (forall i :: 0 <= i < |added| ==> added[i].id in b && added[i] == b[added[i].id])
  }

  /** `changed` lists, in id order, the devices with an id in `scope` on which the maps disagree. */
  ghost predicate IsChanged(changed: seq<ChangedDevice>, scope: seq<DeviceId>, a: Devices, b: Devices)
    requires forall id :: id in scope ==> id in b
  {
    && Ascending(ChangedIds(changed))
    && (forall id :: id in ChangedIds(changed) <==> id in scope && id in a && a[id] != b[id])
    && (forall i :: 0 <= i < |changed| ==>
          var id := changed[i].current.id;
          id in a && id in b && changed[i] == ChangedDevice(a[id], b[id]))
  }

  ghost predicate IsRemoved(removed: seq<DeviceId>, scope: seq<DeviceId>, b: Devices) {
    && Ascending(removed)
    && (forall id :: id in removed <==> id in scope && id !in b)
  }

  /** What a diff from map `a` to map `b` must be. */
  ghost predicate IsDiff(d: InventoryDiff, a: Devices, b: Devices) {
    && IsAdded(d.added, SortedKeys(b.Keys), a, b)
    && IsChanged(d.changed, SortedKeys(b.Keys), a, b)
    && IsRemoved(d.removed, SortedKeys(a.Keys), b)
  }

  lemma AscendingSnoc(keys: seq<string>, i: nat, chosen: seq<string>)
    requires i < |keys| && Ascending(keys) && Ascending(chosen)
    requires forall x :: x in chosen ==> x in keys[..i]
    ensures Ascending(chosen + [keys[i]])
  {
    forall k | 0 <= k < |chosen| ensures Less(chosen[k], keys[i]) {
      assert chosen[k] in keys[..i];
    }
  }

  lemma AddedStep(added: seq<Descriptor>, keys: seq<DeviceId>, i: nat, a: Devices, b: Devices)
    requires i < |keys| && Ascending(keys) && Keyed(b) && keys[i] in b
    requires IsAdded(added, keys[..i], a, b)
    ensures keys[i] in a ==> IsAdded(added, keys[..i + 1], a, b)
    ensures keys[i] !in a ==> IsAdded(added + [b[keys[i]]], keys[..i + 1], a, b)
  {
    assert keys[..i + 1] == keys[..i] + [keys[i]];
    AscendingSnoc(keys, i, Ids(added));
    assert Ids(added + [b[keys[i]]]) == Ids(added) + [keys[i]];
  }

  lemma ChangedStep(changed: seq<ChangedDevice>, keys: seq<DeviceId>, i: nat, a: Devices, b: Devices)
    requires i < |keys| && Ascending(keys) && Keyed(b)
    requires forall id :: id in keys ==> id in b
    requires IsChanged(changed, keys[..i], a, b)
    ensures keys[i] !in a || a[keys[i]] == b[keys[i]] ==> IsChanged(changed, keys[..i + 1], a, b)
    ensures keys[i] in a && a[keys[i]] != b[keys[i]] ==>
      IsChanged(changed + [ChangedDevice(a[keys[i]], b[keys[i]])], keys[..i + 1], a, b)
  {
    assert keys[..i + 1] == keys[..i] + [keys[i]];
    AscendingSnoc(keys, i, ChangedIds(changed));
    if keys[i] in a {
      assert ChangedIds(changed + [ChangedDevice(a[keys[i]], b[keys[i]])]) == ChangedIds(changed) + [keys[i]];
    }
  }

  lemma RemovedStep(removed: seq<DeviceId>, keys: seq<DeviceId>, i: nat, b: Devices)
    requires i < |keys| && Ascending(keys)
    requires IsRemoved(removed, keys[..i], b)
    ensures IsRemoved(removed + (if keys[i] in b then [] else [keys[i]]), keys[..i + 1], b)
  {
    assert keys[..i + 1] == keys[..i] + [keys[i]];
    AscendingSnoc(keys, i, removed);
  }

  /** The first loop of `diff`, over the new devices. */
  method AddedAndChanged(a: Devices, b: Devices) returns (added: seq<Descriptor>, changed: seq<ChangedDevice>)
    requires Keyed(b)
    ensures IsAdded(added, SortedKeys(b.Keys), a, b)
    ensures IsChanged(changed, SortedKeys(b.Keys), a, b)
  {
    added, changed := [], [];
    var keys := SortedKeys(b.Keys);
    for i := 0 to |keys|
      invariant forall id :: id in keys ==> id in b
      invariant IsAdded(added, keys[..i], a, b)
      invariant IsChanged(changed, keys[..i], a, b)
    {
      var id := keys[i];
      AddedStep(added, keys, i, a, b);
      ChangedStep(changed, keys, i, a, b);
      if id !in a {
        added := added + [b[id]];
      } else if a[id] != b[id] {
        changed := changed + [ChangedDevice(a[id], b[id])];
      }
    }
    assert keys[..|keys|] == keys;
  }

  /** The second loop of `diff`, over the old devices. */
  method Removed(a: Devices, b: Devices) returns (removed: seq<DeviceId>)
    ensures IsRemoved(removed, SortedKeys(a.Keys), b)
  {
    removed := [];
    var previous := SortedKeys(a.Keys);
    for i := 0 to |previous|
      invariant IsRemoved(removed, previous[..i], b)
    {
      RemovedStep(removed, previous, i, b);
      if previous[i] !in b {
        removed := removed + [previous[i]];
      }
    }
    assert previous[..|previous|] == previous;
  }

  method Diff(current: Snapshot, next: Snapshot) returns (d: InventoryDiff)
    ensures IsDiff(d, ById(current.devices), ById(next.devices))
  {
    var a, b := ById(current.devices), ById(next.devices);
    var added, changed := AddedAndChanged(a, b);
    var removed := Removed(a, b);
    return InventoryDiff(added, changed, removed);
  }

  /** A diff is determined by the two maps. */
  lemma DiffUnique(d: InventoryDiff, e: InventoryDiff, a: Devices, b: Devices)
    requires IsDiff(d, a, b) && IsDiff(e, a, b)
    ensures d == e
  {
    AscendingUnique(Ids(d.added), Ids(e.added));
    AscendingUnique(ChangedIds(d.changed), ChangedIds(e.changed));
    AscendingUnique(d.removed, e.removed);
    assert forall i :: 0 <= i < |d.added| ==> d.added[i].id == Ids(d.added)[i] == Ids(e.added)[i] == e.added[i].id;
    assert forall i :: 0 <= i < |d.changed| ==>
      d.changed[i].current.id == ChangedIds(d.changed)[i] == ChangedIds(e.changed)[i] == e.changed[i].current.id;
  }

  /** The diff is empty exactly when the two maps are equal. */
  lemma EmptyDiffIffSame(d: InventoryDiff, a: Devices, b: Devices)
    requires IsDiff(d, a, b)
    ensures d.IsEmpty() <==> a == b
  {
    if d.IsEmpty() {
      assert Ids(d.added) == [] && ChangedIds(d.changed) == [];
      forall id | id in b ensures id in a && a[id] == b[id] {
        assert id in SortedKeys(b.Keys);
        assert id !in Ids(d.added) && id !in ChangedIds(d.changed);
      }
      forall id | id in a ensures id in b {
        assert id in SortedKeys(a.Keys);
        assert id !in d.removed;
      }
    } else if d.added != [] {
      assert Ids(d.added)[0] in Ids(d.added);
    } else if d.changed != [] {
      assert ChangedIds(d.changed)[0] in ChangedIds(d.changed);
    } else {
      assert d.removed[0] in d.removed;
    }
  }

  /** Diffing the other way swaps added with removed and turns every change round. */
  lemma DiffMirrors(d: InventoryDiff, e: InventoryDiff, a: Devices, b: Devices)
    requires Keyed(a) && Keyed(b)
    requires IsDiff(d, a, b) && IsDiff(e, b, a)
    ensures e.removed == Ids(d.added) && d.removed == Ids(e.added)
    ensures |d.changed| == |e.changed|
    ensures forall i :: 0 <= i < |d.changed| ==>
      e.changed[i] == ChangedDevice(d.changed[i].current, d.changed[i].previous)
  {
    AscendingUnique(e.removed, Ids(d.added));
    AscendingUnique(d.removed, Ids(e.added));
    AscendingUnique(ChangedIds(d.changed), ChangedIds(e.changed));
    assert forall i :: 0 <= i < |d.changed| ==>
      d.changed[i].current.id == ChangedIds(d.changed)[i] == ChangedIds(e.changed)[i] == e.changed[i].current.id;
  }
}
