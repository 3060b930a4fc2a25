/** The one-pass loop that turns the sorted entries of the USB sysfs directory into a tree of descriptors. */
module UsbDiscovery {
  import opened Core
  import opened StringOrder
  import opened UsbNames

  datatype VendorProduct = VendorProduct(vendor: Option<U16>, product: Option<U16>)

  /** What the attribute files of each entry hold: `readable` entries give no I/O error. */
  datatype Sysfs = Sysfs(
    readable: string -> bool,
    vendorProduct: string -> VendorProduct,
    interfaceNumber: string -> Option<U8>)

  datatype UsbDescriptor =
    | Bus(id: DeviceId, bus: U16, sysfsEntry: Option<string>)
    | Device(id: DeviceId, bus: U16, ports: seq<U8>, vendorProduct: VendorProduct, kernelName: string, parent: DeviceId)
    | Interface(id: DeviceId, bus: U16, ports: seq<U8>, configuration: U8, interfaceNumber: U8,
                vendorProduct: VendorProduct, kernelName: string, parent: DeviceId)

  datatype Note = Unreadable(name: string) | ParentNotDiscovered(name: string, parentKey: string)

  function DeviceDescriptor(a: UsbAddress, name: string, busId: DeviceId, sysfs: Sysfs): UsbDescriptor {
    Device(DeviceIdOf(a.bus, a.ports), a.bus, a.ports, sysfs.vendorProduct(name), name, busId)
  }

  function InterfaceDescriptor(
      a: UsbInterfaceAddress, name: string, parent: DeviceId, vendorProduct: VendorProduct, sysfs: Sysfs): UsbDescriptor
  {
    var number := sysfs.interfaceNumber(name);
    var interfaceNumber := if number.Some? then number.value else a.interfaceNumber;
    Interface(InterfaceIdOf(a.device.bus, a.device.ports, interfaceNumber),
              a.device.bus, a.device.ports, a.configuration, interfaceNumber, vendorProduct, name, parent)
  }

  function KeyOf(a: UsbAddress): string { UsbDeviceKey(a.bus, a.ports) }

  // ---------- the loop ----------

  /** The local variables of the loop. */
  datatype State = State(
    busIds: map<U16, DeviceId>,
    deviceIds: map<string, DeviceId>,
    vendorProducts: map<string, VendorProduct>,
    devices: seq<UsbDescriptor>,
    notes: seq<Note>)

  const START: State := State(map[], map[], map[], [], [])

  function WithNote(s: State, note: Note): State { s.(notes := s.notes + [note]) }

  function AddBus(s: State, bus: U16, sysfsEntry: Option<string>): State {
    s.(busIds := s.busIds[bus := BusId(bus)], devices := s.devices + [Bus(BusId(bus), bus, sysfsEntry)])
  }

  function BusEntry(s: State, bus: U16, name: string, sysfs: Sysfs): State {
    if bus in s.busIds then s
    else if sysfs.readable(name) then AddBus(s, bus, Some(name))
    else WithNote(s, Unreadable(name))
  }

  function DeviceEntry(s: State, a: UsbAddress, name: string, sysfs: Sysfs): State {
    var t := if a.bus in s.busIds then s else AddBus(s, a.bus, None);
    if sysfs.readable(name) then
      var d := DeviceDescriptor(a, name, t.busIds[a.bus], sysfs);
      t.(vendorProducts := t.vendorProducts[KeyOf(a) := d.vendorProduct],
         deviceIds := t.deviceIds[KeyOf(a) := d.id],
         devices := t.devices + [d])
    else WithNote(t, Unreadable(name))
  }

  function InterfaceEntry(s: State, a: UsbInterfaceAddress, name: string, sysfs: Sysfs): State {
    var key := KeyOf(a.device);
    if key !in s.deviceIds then WithNote(s, ParentNotDiscovered(name, key))
    else if sysfs.readable(name) then
      var vendorProduct := if key in s.vendorProducts then s.vendorProducts[key] else VendorProduct(None, None);
      s.(devices := s.devices + [InterfaceDescriptor(a, name, s.deviceIds[key], vendorProduct, sysfs)])
    else WithNote(s, Unreadable(name))
  }

  /** What an entry's name says it is. */
  datatype Kind =
    | BusName(bus: U16)
    | DeviceName(address: UsbAddress)
    | InterfaceName(interface: UsbInterfaceAddress)
    | OtherName

  datatype Listed = Listed(name: string, kind: Kind)

  function Classify(name: string): Kind {
    var bus, device, interface := ParseUsbBusName(name), ParseUsbDeviceName(name), ParseUsbInterfaceName(name);
    if bus.Some? then BusName(bus.value)
    else if device.Some? then DeviceName(device.value)
    else if interface.Some? then InterfaceName(interface.value)
    else OtherName
  }

  function Listing(names: seq<string>): (entries: seq<Listed>)
    ensures |entries| == |names|
    ensures forall i :: 0 <= i < |names| ==> entries[i] == Listed(names[i], Classify(names[i]))
  {
    seq(|names|, i requires 0 <= i < |names| => Listed(names[i], Classify(names[i])))
  }

  function Entry(s: State, e: Listed, sysfs: Sysfs): State {
    match e.kind
    case BusName(bus) => BusEntry(s, bus, e.name, sysfs)
    case DeviceName(a) => DeviceEntry(s, a, e.name, sysfs)
    case InterfaceName(a) => InterfaceEntry(s, a, e.name, sysfs)
    case OtherName => s
  }

  function After(entries: seq<Listed>, sysfs: Sysfs): State {
    if entries == [] then START
    else Entry(After(entries[..|entries| - 1], sysfs), entries[|entries| - 1], sysfs)
  }

  /** The loop itself, over entries whose names the three parsers have been tried on. */
  method DiscoverEntries(entries: seq<Listed>, sysfs: Sysfs) returns (devices: seq<UsbDescriptor>, notes: seq<Note>)
    ensures devices == After(entries, sysfs).devices && notes == After(entries, sysfs).notes
  {
    var busIds: map<U16, DeviceId> := map[];
    var deviceIds: map<string, DeviceId> := map[];
    var vendorProducts: map<string, VendorProduct> := map[];
    devices, notes := [], [];
    for k := 0 to |entries|
      invariant After(entries[..k], sysfs) == State(busIds, deviceIds, vendorProducts, devices, notes)
    {
      assert entries[..k + 1][..k] == entries[..k];
      var name := entries[k].name;
      match entries[k].kind {
        case BusName(bus) =>
          if bus in busIds {
            continue;
          }
          if sysfs.readable(name) {
            busIds := busIds[bus := BusId(bus)];
            devices := devices + [Bus(BusId(bus), bus, Some(name))];
          } else {
            notes := notes + [Unreadable(name)];
          }
        case DeviceName(a) =>
          if a.bus !in busIds {
            busIds := busIds[a.bus := BusId(a.bus)];
            devices := devices + [Bus(BusId(a.bus), a.bus, None)];
          }
          if sysfs.readable(name) {
            var descriptor := DeviceDescriptor(a, name, busIds[a.bus], sysfs);
            vendorProducts := vendorProducts[KeyOf(a) := descriptor.vendorProduct];
            deviceIds := deviceIds[KeyOf(a) := descriptor.id];
            devices := devices + [descriptor];
          } else {
            notes := notes + [Unreadable(name)];
          }
        case InterfaceName(a) =>
          var key := KeyOf(a.device);
          if key !in deviceIds {
            notes := notes + [ParentNotDiscovered(name, key)];
            continue;
          }
          var vendorProduct := if key in vendorProducts then vendorProducts[key] else VendorProduct(None, None);
          if sysfs.readable(name) {
            devices := devices + [InterfaceDescriptor(a, name, deviceIds[key], vendorProduct, sysfs)];
          } else {
            notes := notes + [Unreadable(name)];
          }
        case OtherName =>
      }
    }
    assert entries[..|entries|] == entries;
  }

  method Discover(names: seq<string>, sysfs: Sysfs) returns (devices: seq<UsbDescriptor>, notes: seq<Note>)
    ensures devices == After(Listing(names), sysfs).devices && notes == After(Listing(names), sysfs).notes
  {
    devices, notes := DiscoverEntries(Listing(names), sysfs);
  }

  // ---------- the tree ----------

  /** At most one bus descriptor for each bus number. */
  ghost predicate OneBusPerNumber(devices: seq<UsbDescriptor>) {
    forall i, j :: 0 <= i < j < |devices| && devices[i].Bus? && devices[j].Bus? ==> devices[i].bus != devices[j].bus
  }

  /** What a device or interface must find before it in the list: its bus; or its device, with the same bus,
      ports and vendor and product numbers. */
  ghost predicate IsParent(parent: UsbDescriptor, child: UsbDescriptor)
    requires !child.Bus?
  {
    && parent.id == child.parent && parent.bus == child.bus
    && if child.Device? then parent.Bus?
       else parent.Device? && parent.ports == child.ports && parent.vendorProduct == child.vendorProduct
  }

  /** Every device and interface has its parent earlier in the list. */
  ghost predicate Linked(devices: seq<UsbDescriptor>) {
    forall m :: 0 <= m < |devices| && !devices[m].Bus? ==> exists l :: 0 <= l < m && IsParent(devices[l], devices[m])
  }

  lemma LinkedSnoc(devices: seq<UsbDescriptor>, d: UsbDescriptor)
    requires Linked(devices)
    requires d.Bus? || exists p :: p in devices && IsParent(p, d)
    ensures Linked(devices + [d])
  {
    var more := devices + [d];
    forall m | 0 <= m < |more| && !more[m].Bus? ensures exists l :: 0 <= l < m && IsParent(more[l], more[m]) {
      if m < |devices| {
        var l :| 0 <= l < m && IsParent(devices[l], devices[m]);
        assert IsParent(more[l], more[m]);
      } else {
        var p :| p in devices && IsParent(p, d);
        var l :| 0 <= l < |devices| && devices[l] == p;
        assert IsParent(more[l], more[m]);
      }
    }
  }

  /** The device that a key of `deviceIds` stands for. */
  ghost predicate Behind(s: State, key: string, d: UsbDescriptor)
    requires key in s.deviceIds && key in s.vendorProducts
  {
    && d in s.devices && d.Device? && UsbDeviceKey(d.bus, d.ports) == key
    && d.id == s.deviceIds[key] && d.vendorProduct == s.vendorProducts[key]
  }

  /** The bus map and the bus descriptors agree, with one descriptor for each number. */
  ghost predicate BusesSound(busIds: map<U16, DeviceId>, devices: seq<UsbDescriptor>) {
    && (forall b :: b in busIds ==>
          busIds[b] == BusId(b) && exists d :: d in devices && d.Bus? && d.bus == b && d.id == BusId(b))
    && (forall d :: d in devices && d.Bus? ==> d.bus in busIds)
    && OneBusPerNumber(devices)
  }

  ghost predicate Sound(s: State) {
    && BusesSound(s.busIds, s.devices)
    && (forall key :: key in s.deviceIds ==> key in s.vendorProducts && exists d :: Behind(s, key, d))
    && Linked(s.devices)
  }

  lemma BusesSoundWithBus(busIds: map<U16, DeviceId>, devices: seq<UsbDescriptor>, bus: U16, sysfsEntry: Option<string>)
    requires BusesSound(busIds, devices) && bus !in busIds
    ensures BusesSound(busIds[bus := BusId(bus)], devices + [Bus(BusId(bus), bus, sysfsEntry)])
  {
  }

  /** A further device or interface leaves what is known about the buses alone. */
  lemma BusesSoundWithOther(busIds: map<U16, DeviceId>, devices: seq<UsbDescriptor>, d: UsbDescriptor)
    requires BusesSound(busIds, devices) && !d.Bus?
    ensures BusesSound(busIds, devices + [d])
  {
  }

  lemma AddBusSound(s: State, bus: U16, sysfsEntry: Option<string>)
    requires Sound(s) && bus !in s.busIds
    ensures Sound(AddBus(s, bus, sysfsEntry))
  {
    var t := AddBus(s, bus, sysfsEntry);
    BusesSoundWithBus(s.busIds, s.devices, bus, sysfsEntry);
    LinkedSnoc(s.devices, Bus(BusId(bus), bus, sysfsEntry));
    forall key | key in t.deviceIds ensures exists d :: Behind(t, key, d) {
      var d :| Behind(s, key, d);
      assert Behind(t, key, d);
    }
  }

  lemma AddDeviceSound(s: State, a: UsbAddress, name: string, sysfs: Sysfs)
    requires Sound(s) && a.bus in s.busIds
    ensures var d := DeviceDescriptor(a, name, s.busIds[a.bus], sysfs);
      Sound(s.(vendorProducts := s.vendorProducts[KeyOf(a) := d.vendorProduct],
               deviceIds := s.deviceIds[KeyOf(a) := d.id],
               devices := s.devices + [d]))
  {
    var d := DeviceDescriptor(a, name, s.busIds[a.bus], sysfs);
    var t := s.(vendorProducts := s.vendorProducts[KeyOf(a) := d.vendorProduct],
                deviceIds := s.deviceIds[KeyOf(a) := d.id],
                devices := s.devices + [d]);
    var b :| b in s.devices && b.Bus? && b.bus == a.bus && b.id == BusId(a.bus);
    assert IsParent(b, d);
    LinkedSnoc(s.devices, d);
    BusesSoundWithOther(s.busIds, s.devices, d);
    forall key | key in t.deviceIds ensures exists e :: Behind(t, key, e) {
      if key == KeyOf(a) {
        assert Behind(t, key, d);
      } else {
        var e :| Behind(s, key, e);
        assert Behind(t, key, e);
      }
    }
  }

  lemma InterfaceEntrySound(s: State, a: UsbInterfaceAddress, name: string, sysfs: Sysfs)
    requires Sound(s)
    ensures Sound(InterfaceEntry(s, a, name, sysfs))
  {
    var key, t := KeyOf(a.device), InterfaceEntry(s, a, name, sysfs);
    if key in s.deviceIds && sysfs.readable(name) {
      var d := InterfaceDescriptor(a, name, s.deviceIds[key], s.vendorProducts[key], sysfs);
      var p :| Behind(s, key, p);
      KeyInjective(p.bus, p.ports, a.device.bus, a.device.ports);
      assert IsParent(p, d);
      LinkedSnoc(s.devices, d);
      BusesSoundWithOther(s.busIds, s.devices, d);
    }
    forall k | k in t.deviceIds ensures exists e :: Behind(t, k, e) {
      var e :| Behind(s, k, e);
      assert Behind(t, k, e);
    }
  }

  lemma NoteSound(s: State, note: Note)
    requires Sound(s)
    ensures Sound(WithNote(s, note))
  {
    forall k | k in s.deviceIds ensures exists e :: Behind(WithNote(s, note), k, e) {
      var e :| Behind(s, k, e);
      assert Behind(WithNote(s, note), k, e);
    }
  }

  lemma EntrySound(s: State, e: Listed, sysfs: Sysfs)
    requires Sound(s)
    ensures Sound(Entry(s, e, sysfs))
  {
    match e.kind
    case BusName(bus) =>
      if bus !in s.busIds { AddBusSound(s, bus, Some(e.name)); }
      NoteSound(s, Unreadable(e.name));
    case DeviceName(a) =>
      if a.bus !in s.busIds { AddBusSound(s, a.bus, None); }
      var t := if a.bus in s.busIds then s else AddBus(s, a.bus, None);
      AddDeviceSound(t, a, e.name, sysfs);
      NoteSound(t, Unreadable(e.name));
    case InterfaceName(a) =>
      InterfaceEntrySound(s, a, e.name, sysfs);
    case OtherName =>
  }

  /** For every list of entries: one bus descriptor per number, and parents before children. */
  lemma {:induction false} DiscoveredTree(entries: seq<Listed>, sysfs: Sysfs)
    ensures Sound(After(entries, sysfs))
    ensures OneBusPerNumber(After(entries, sysfs).devices) && Linked(After(entries, sysfs).devices)
    decreases |entries|
  {
    if entries != [] {
      DiscoveredTree(entries[..|entries| - 1], sysfs);
      EntrySound(After(entries[..|entries| - 1], sysfs), entries[|entries| - 1], sysfs);
    }
  }

  // ---------- what is listed and what is skipped ----------

  /** Entry `k` is a readable device entry for this address. */
  ghost predicate BuildsAt(entries: seq<Listed>, sysfs: Sysfs, k: nat, a: UsbAddress) {
    k < |entries| && entries[k].kind == DeviceName(a) && sysfs.readable(entries[k].name)
  }

  ghost predicate ParentBuilt(entries: seq<Listed>, sysfs: Sysfs, a: UsbAddress) {
    exists k :: BuildsAt(entries, sysfs, k, a)
  }

  lemma ParentBuiltSnoc(entries: seq<Listed>, sysfs: Sysfs, a: UsbAddress)
    requires entries != []
    ensures ParentBuilt(entries, sysfs, a) <==>
      ParentBuilt(entries[..|entries| - 1], sysfs, a) || BuildsAt(entries, sysfs, |entries| - 1, a)
  {
    var front := entries[..|entries| - 1];
    if k: nat :| BuildsAt(front, sysfs, k, a) { assert BuildsAt(entries, sysfs, k, a); }
    if k: nat :| BuildsAt(entries, sysfs, k, a) && k < |front| { assert BuildsAt(front, sysfs, k, a); }
  }

  /** The device map knows exactly the addresses of the readable device entries seen so far. */
  lemma {:induction false} KnownIffBuilt(entries: seq<Listed>, sysfs: Sysfs, a: UsbAddress)
    ensures KeyOf(a) in After(entries, sysfs).deviceIds <==> ParentBuilt(entries, sysfs, a)
    decreases |entries|
  {
    if entries != [] {
      var last := entries[|entries| - 1];
      KnownIffBuilt(entries[..|entries| - 1], sysfs, a);
      ParentBuiltSnoc(entries, sysfs, a);
      if last.kind.DeviceName? && KeyOf(last.kind.address) == KeyOf(a) {
        KeyInjective(last.kind.address.bus, last.kind.address.ports, a.bus, a.ports);
      }
    }
  }

  /** Entry `k` is an interface entry of this name and parent key that came before any build of its parent. */
  ghost predicate SkippedAt(entries: seq<Listed>, sysfs: Sysfs, k: nat, name: string, key: string) {
    && k < |entries| && entries[k].name == name && entries[k].kind.InterfaceName?
    && key == KeyOf(entries[k].kind.interface.device)
    && !ParentBuilt(entries[..k], sysfs, entries[k].kind.interface.device)
  }

  ghost predicate SkippedSomewhere(entries: seq<Listed>, sysfs: Sysfs, name: string, key: string) {
    exists k :: SkippedAt(entries, sysfs, k, name, key)
  }

  lemma SkippedSnoc(entries: seq<Listed>, sysfs: Sysfs, name: string, key: string)
    requires entries != []
    ensures SkippedSomewhere(entries, sysfs, name, key) <==>
      SkippedSomewhere(entries[..|entries| - 1], sysfs, name, key)
      || SkippedAt(entries, sysfs, |entries| - 1, name, key)
  {
    var front := entries[..|entries| - 1];
    assert forall k :: 0 <= k < |entries| ==> front[..k] == entries[..k];
    if k: nat :| SkippedAt(front, sysfs, k, name, key) { assert SkippedAt(entries, sysfs, k, name, key); }
    if k: nat :| SkippedAt(entries, sysfs, k, name, key) && k < |front| {
      assert SkippedAt(front, sysfs, k, name, key);
    }
  }

  /** A skip is noted exactly for the interface entries whose parent device was not built before them. */
  lemma {:induction false} SkippedIffNoParentBefore(entries: seq<Listed>, sysfs: Sysfs, name: string, key: string)
    ensures ParentNotDiscovered(name, key) in After(entries, sysfs).notes <==>
      SkippedSomewhere(entries, sysfs, name, key)
    decreases |entries|
  {
    if entries != [] {
      var n := |entries| - 1;
      SkippedIffNoParentBefore(entries[..n], sysfs, name, key);
      SkippedSnoc(entries, sysfs, name, key);
      if entries[n].kind.InterfaceName? {
        KnownIffBuilt(entries[..n], sysfs, entries[n].kind.interface.device);
      }
    }
  }

  /** The names of the devices and interfaces in a list of descriptors. */
  function KernelNames(devices: seq<UsbDescriptor>): seq<string> {
    if devices == [] then [] else
      var n := |devices| - 1;
      KernelNames(devices[..n]) + if devices[n].Bus? then [] else [devices[n].kernelName]
  }

  lemma KernelNamesSnoc(devices: seq<UsbDescriptor>, d: UsbDescriptor)
    ensures KernelNames(devices + [d]) == KernelNames(devices) + if d.Bus? then [] else [d.kernelName]
  {
    assert (devices + [d])[..|devices|] == devices;
  }

  /** A readable entry of a device, or of an interface whose parent was built before. */
  ghost predicate Builds(earlier: seq<Listed>, e: Listed, sysfs: Sysfs) {
    && sysfs.readable(e.name)
    && (e.kind.DeviceName? || (e.kind.InterfaceName? && ParentBuilt(earlier, sysfs, e.kind.interface.device)))
  }

  ghost function BuiltNames(entries: seq<Listed>, sysfs: Sysfs): seq<string> {
    if entries == [] then [] else
      var n := |entries| - 1;
      BuiltNames(entries[..n], sysfs) + if Builds(entries[..n], entries[n], sysfs) then [entries[n].name] else []
  }

  lemma BusEntryKernelNames(s: State, bus: U16, name: string, sysfs: Sysfs)
    ensures KernelNames(BusEntry(s, bus, name, sysfs).devices) == KernelNames(s.devices)
  {
    if bus !in s.busIds && sysfs.readable(name) {
      KernelNamesSnoc(s.devices, Bus(BusId(bus), bus, Some(name)));
    } else {
      assert BusEntry(s, bus, name, sysfs).devices == s.devices;
    }
  }

  lemma DeviceEntryKernelNames(s: State, a: UsbAddress, name: string, sysfs: Sysfs)
    ensures KernelNames(DeviceEntry(s, a, name, sysfs).devices)
      == KernelNames(s.devices) + if sysfs.readable(name) then [name] else []
  {
    var t := if a.bus in s.busIds then s else AddBus(s, a.bus, None);
    KernelNamesSnoc(s.devices, Bus(BusId(a.bus), a.bus, None));
    KernelNamesSnoc(t.devices, DeviceDescriptor(a, name, t.busIds[a.bus], sysfs));
  }

  lemma InterfaceEntryKernelNames(s: State, a: UsbInterfaceAddress, name: string, sysfs: Sysfs)
    ensures KernelNames(InterfaceEntry(s, a, name, sysfs).devices)
      == KernelNames(s.devices) + if sysfs.readable(name) && KeyOf(a.device) in s.deviceIds then [name] else []
  {
    var key := KeyOf(a.device);
    if key in s.deviceIds {
      var vendorProduct := if key in s.vendorProducts then s.vendorProducts[key] else VendorProduct(None, None);
      KernelNamesSnoc(s.devices, InterfaceDescriptor(a, name, s.deviceIds[key], vendorProduct, sysfs));
    }
  }

  /** Every entry that builds gives exactly one device or interface descriptor, in listing order, and no
      other entry gives any. */
  lemma {:induction false} OneDescriptorPerEntry(entries: seq<Listed>, sysfs: Sysfs)
    ensures KernelNames(After(entries, sysfs).devices) == BuiltNames(entries, sysfs)
    decreases |entries|
  {
    if entries != [] {
      var n := |entries| - 1;
      OneDescriptorPerEntry(entries[..n], sysfs);
      var before, name := After(entries[..n], sysfs), entries[n].name;
      match entries[n].kind
      case BusName(bus) =>
        BusEntryKernelNames(before, bus, name, sysfs);
      case DeviceName(a) =>
        DeviceEntryKernelNames(before, a, name, sysfs);
      case InterfaceName(a) =>
        InterfaceEntryKernelNames(before, a, name, sysfs);
        KnownIffBuilt(entries[..n], sysfs, a.device);
      case OtherName =>
    }
  }

  /** Descriptor `d` is the one that readable device entry `k` gives. */
  ghost predicate DescribesDeviceAt(entries: seq<Listed>, sysfs: Sysfs, k: nat, d: UsbDescriptor) {
    && k < |entries| && entries[k].kind.DeviceName? && sysfs.readable(entries[k].name)
    && var name, a := entries[k].name, entries[k].kind.address;
       d == Device(DeviceIdOf(a.bus, a.ports), a.bus, a.ports, sysfs.vendorProduct(name), name, BusId(a.bus))
  }

  lemma BusEntryAddsNone(s: State, bus: U16, name: string, sysfs: Sysfs, d: UsbDescriptor)
    requires !d.Bus?
    ensures d in BusEntry(s, bus, name, sysfs).devices <==> d in s.devices
  {
  }

  lemma DeviceEntryAdds(s: State, a: UsbAddress, name: string, sysfs: Sysfs, d: UsbDescriptor)
    requires !d.Bus? && (a.bus in s.busIds ==> s.busIds[a.bus] == BusId(a.bus))
    ensures d in DeviceEntry(s, a, name, sysfs).devices <==>
      d in s.devices || (sysfs.readable(name) && d == DeviceDescriptor(a, name, BusId(a.bus), sysfs))
  {
  }

  lemma InterfaceEntryAdds(s: State, a: UsbInterfaceAddress, name: string, sysfs: Sysfs, d: UsbDescriptor)
    requires KeyOf(a.device) in s.deviceIds ==> KeyOf(a.device) in s.vendorProducts
    ensures d in InterfaceEntry(s, a, name, sysfs).devices <==>
      d in s.devices || DescribesInterface(s, Listed(name, InterfaceName(a)), sysfs, d)
  {
  }

  lemma EntryDevices(s: State, e: Listed, sysfs: Sysfs, d: UsbDescriptor)
    requires d.Device? && Sound(s)
    ensures d in Entry(s, e, sysfs).devices <==>
      d in s.devices
      || (e.kind.DeviceName? && sysfs.readable(e.name)
          && d == DeviceDescriptor(e.kind.address, e.name, BusId(e.kind.address.bus), sysfs))
  {
    match e.kind
    case BusName(bus) => BusEntryAddsNone(s, bus, e.name, sysfs, d);
    case DeviceName(a) => DeviceEntryAdds(s, a, e.name, sysfs, d);
    case InterfaceName(a) => InterfaceEntryAdds(s, a, e.name, sysfs, d);
    case OtherName =>
  }

  lemma DescribesDeviceSnoc(entries: seq<Listed>, sysfs: Sysfs, d: UsbDescriptor)
    requires entries != []
    ensures DescribesSomeDevice(entries, sysfs, d) <==>
      DescribesSomeDevice(entries[..|entries| - 1], sysfs, d) || DescribesDeviceAt(entries, sysfs, |entries| - 1, d)
  {
    var front := entries[..|entries| - 1];
    if k: nat :| DescribesDeviceAt(front, sysfs, k, d) { assert DescribesDeviceAt(entries, sysfs, k, d); }
    if k: nat :| DescribesDeviceAt(entries, sysfs, k, d) && k < |front| {
      assert DescribesDeviceAt(front, sysfs, k, d);
    }
  }

  ghost predicate DescribesSomeDevice(entries: seq<Listed>, sysfs: Sysfs, d: UsbDescriptor) {
    exists k :: DescribesDeviceAt(entries, sysfs, k, d)
  }

  /** The device descriptors are exactly those of the readable device entries. */
  lemma {:induction false} DevicesListed(entries: seq<Listed>, sysfs: Sysfs, d: UsbDescriptor)
    requires d.Device?
    ensures d in After(entries, sysfs).devices <==> DescribesSomeDevice(entries, sysfs, d)
    decreases |entries|
  {
    if entries != [] {
      var n := |entries| - 1;
      DevicesListed(entries[..n], sysfs, d);
      DiscoveredTree(entries[..n], sysfs);
      EntryDevices(After(entries[..n], sysfs), entries[n], sysfs, d);
      DescribesDeviceSnoc(entries, sysfs, d);
    }
  }

  /** The number of an interface: that of the attribute file, if there is one, or else that of its name. */
  function NumberOf(a: UsbInterfaceAddress, name: string, sysfs: Sysfs): U8 {
    match sysfs.interfaceNumber(name)
    case Some(number) => number
    case None => a.interfaceNumber
  }

  /** Descriptor `d` is what interface entry `e` adds to the state `s`. */
  ghost predicate DescribesInterface(s: State, e: Listed, sysfs: Sysfs, d: UsbDescriptor) {
    && e.kind.InterfaceName? && sysfs.readable(e.name)
    && var a, key := e.kind.interface, KeyOf(e.kind.interface.device);
       && key in s.deviceIds && key in s.vendorProducts
       && var number := NumberOf(a, e.name, sysfs);
          d == Interface(InterfaceIdOf(a.device.bus, a.device.ports, number), a.device.bus, a.device.ports,
                         a.configuration, number, s.vendorProducts[key], e.name, s.deviceIds[key])
  }

  lemma EntryInterfaces(s: State, e: Listed, sysfs: Sysfs, d: UsbDescriptor)
    requires d.Interface? && Sound(s)
    ensures d in Entry(s, e, sysfs).devices <==> d in s.devices || DescribesInterface(s, e, sysfs, d)
  {
    match e.kind
    case BusName(bus) => BusEntryAddsNone(s, bus, e.name, sysfs, d);
    case DeviceName(a) => DeviceEntryAdds(s, a, e.name, sysfs, d);
    case InterfaceName(a) => InterfaceEntryAdds(s, a, e.name, sysfs, d);
    case OtherName =>
  }

  /** Descriptor `d` is the one that readable interface entry `k` gives, its parent having been built before. */
  ghost predicate DescribesInterfaceAt(entries: seq<Listed>, sysfs: Sysfs, k: nat, d: UsbDescriptor) {
    && k < |entries| && DescribesInterface(After(entries[..k], sysfs), entries[k], sysfs, d)
    && ParentBuilt(entries[..k], sysfs, entries[k].kind.interface.device)
  }

  ghost predicate DescribesSomeInterface(entries: seq<Listed>, sysfs: Sysfs, d: UsbDescriptor) {
    exists k :: DescribesInterfaceAt(entries, sysfs, k, d)
  }

  lemma DescribesInterfaceSnoc(entries: seq<Listed>, sysfs: Sysfs, d: UsbDescriptor)
    requires entries != []
    ensures DescribesSomeInterface(entries, sysfs, d) <==>
      DescribesSomeInterface(entries[..|entries| - 1], sysfs, d)
      || DescribesInterfaceAt(entries, sysfs, |entries| - 1, d)
  {
    var front := entries[..|entries| - 1];
    assert forall k :: 0 <= k < |entries| ==> front[..k] == entries[..k];
    if k: nat :| DescribesInterfaceAt(front, sysfs, k, d) { assert DescribesInterfaceAt(entries, sysfs, k, d); }
    if k: nat :| DescribesInterfaceAt(entries, sysfs, k, d) && k < |front| {
      assert DescribesInterfaceAt(front, sysfs, k, d);
    }
  }

  /** The interface descriptors are exactly those of the readable interface entries that were not skipped. */
  lemma {:induction false} InterfacesListed(entries: seq<Listed>, sysfs: Sysfs, d: UsbDescriptor)
    requires d.Interface?
    ensures d in After(entries, sysfs).devices <==> DescribesSomeInterface(entries, sysfs, d)
    decreases |entries|
  {
    if entries != [] {
      var n := |entries| - 1;
      InterfacesListed(entries[..n], sysfs, d);
      DiscoveredTree(entries[..n], sysfs);
      EntryInterfaces(After(entries[..n], sysfs), entries[n], sysfs, d);
      DescribesInterfaceSnoc(entries, sysfs, d);
      if entries[n].kind.InterfaceName? {
        KnownIffBuilt(entries[..n], sysfs, entries[n].kind.interface.device);
      }
    }
  }

  /** Descriptors of devices and interfaces say what the names of their entries say; the interface number is
      that of the attribute file, if there is one. */
  lemma DescriptorsMatchNames(names: seq<string>, sysfs: Sysfs, d: UsbDescriptor)
    requires d in After(Listing(names), sysfs).devices && !d.Bus?
    ensures d.kernelName in names && sysfs.readable(d.kernelName)
    ensures d.Device? ==>
      ParseUsbDeviceName(d.kernelName) == Some(UsbAddress(d.bus, d.ports))
      && d.vendorProduct == sysfs.vendorProduct(d.kernelName)
    ensures d.Interface? ==>
      && ParseUsbInterfaceName(d.kernelName).Some?
      && var a := ParseUsbInterfaceName(d.kernelName).value;
         && a.device == UsbAddress(d.bus, d.ports) && a.configuration == d.configuration
         && Some(d.interfaceNumber) == (var number := sysfs.interfaceNumber(d.kernelName);
                                        if number.Some? then number else Some(a.interfaceNumber))
  {
    var entries := Listing(names);
    if d.Device? {
      DevicesListed(entries, sysfs, d);
      var k: nat :| DescribesDeviceAt(entries, sysfs, k, d);
      assert names[k] in names;
    } else {
      InterfacesListed(entries, sysfs, d);
      var k: nat :| DescribesInterfaceAt(entries, sysfs, k, d);
      assert names[k] in names;
    }
  }

  // ---------- buses ----------

  /** Entry `k` makes bus `bus` known. */
  ghost predicate NamesBusAt(entries: seq<Listed>, sysfs: Sysfs, k: nat, bus: U16) {
    k < |entries| &&
    match entries[k].kind
    case BusName(b) => b == bus && sysfs.readable(entries[k].name)
    case DeviceName(a) => a.bus == bus
    case _ => false
  }

  /** A bus is listed exactly if it has a readable bus entry or any device entry at all. */
  lemma {:induction false} BusListed(entries: seq<Listed>, sysfs: Sysfs, bus: U16)
    ensures bus in After(entries, sysfs).busIds <==> exists k :: NamesBusAt(entries, sysfs, k, bus)
    decreases |entries|
  {
    if entries != [] {
      var n := |entries| - 1;
      BusListed(entries[..n], sysfs, bus);
      if k: nat :| NamesBusAt(entries[..n], sysfs, k, bus) { assert NamesBusAt(entries, sysfs, k, bus); }
      if k: nat :| NamesBusAt(entries, sysfs, k, bus) && k < n { assert NamesBusAt(entries[..n], sysfs, k, bus); }
      if bus in After(entries, sysfs).busIds && bus !in After(entries[..n], sysfs).busIds {
        assert NamesBusAt(entries, sysfs, n, bus);
      }
    }
  }

  /** Bus entry `k` describes a bus that was unknown until then. */
  ghost predicate MadeFromEntry(entries: seq<Listed>, sysfs: Sysfs, k: nat, bus: U16, name: string) {
    k < |entries| && entries[k] == Listed(name, BusName(bus)) && bus !in After(entries[..k], sysfs).busIds
  }

  lemma BusEntryAdded(s: State, e: Listed, sysfs: Sysfs, bus: U16, name: string)
    requires Bus(BusId(bus), bus, Some(name)) in Entry(s, e, sysfs).devices
    requires Bus(BusId(bus), bus, Some(name)) !in s.devices
    ensures e == Listed(name, BusName(bus)) && bus !in s.busIds
  {
    if e.kind.BusName? {
      assert Bus(BusId(bus), bus, Some(name)) == Bus(BusId(e.kind.bus), e.kind.bus, Some(e.name));
    }
  }

  lemma {:induction false} BusEntryOrigin(entries: seq<Listed>, sysfs: Sysfs, bus: U16, name: string)
    requires Bus(BusId(bus), bus, Some(name)) in After(entries, sysfs).devices
    ensures exists k :: MadeFromEntry(entries, sysfs, k, bus, name)
    decreases |entries|
  {
    var n := |entries| - 1;
    var front := entries[..n];
    if Bus(BusId(bus), bus, Some(name)) in After(front, sysfs).devices {
      BusEntryOrigin(front, sysfs, bus, name);
      var k: nat :| MadeFromEntry(front, sysfs, k, bus, name);
      assert front[..k] == entries[..k];
      assert MadeFromEntry(entries, sysfs, k, bus, name);
    } else {
      BusEntryAdded(After(front, sysfs), entries[n], sysfs, bus, name);
      assert MadeFromEntry(entries, sysfs, n, bus, name);
    }
  }

  // ---------- sorted listings ----------

  /** The entry that an interface's name extends: the text before its colon. */
  function ParentName(name: string): string {
    match SplitOnce(name, ':')
    case Some((parent, _)) => parent
    case None => name
  }

  lemma ParentNameFirst(name: string)
    requires ':' in name
    ensures Less(ParentName(name), name)
  {
    SplitOnceParts(name, ':');
    var (parent, suffix) := SplitOnce(name, ':').value;
    assert name == parent + ([':'] + suffix);
    PrefixFirst(parent, [':'] + suffix);
  }

  lemma InterfaceNameMeaning(name: string)
    requires Classify(name).InterfaceName?
    ensures ':' in name && ParseUsbInterfaceName(name) == Some(Classify(name).interface)
  {
    InterfaceNameCharacters(name);
  }

  lemma ParentNameParses(name: string)
    requires ParseUsbInterfaceName(name).Some?
    ensures ParseUsbDeviceName(ParentName(name)) == Some(ParseUsbInterfaceName(name).value.device)
  {
  }

  lemma DeviceNameMeaning(name: string)
    requires ParseUsbDeviceName(name).Some?
    ensures Classify(name) == DeviceName(ParseUsbDeviceName(name).value)
  {
  }

  lemma ParentNameFacts(name: string)
    requires Classify(name).InterfaceName?
    ensures Less(ParentName(name), name)
    ensures Classify(ParentName(name)) == DeviceName(Classify(name).interface.device)
  {
    InterfaceNameMeaning(name);
    ParentNameFirst(name);
    ParentNameParses(name);
    DeviceNameMeaning(ParentName(name));
  }

  lemma BeforeInOrder(names: seq<string>, j: nat, k: nat)
    requires Ascending(names) && j < |names| && k < |names| && Less(names[j], names[k])
    ensures j < k
  {
    Asymmetric(names[j], names[k]);
  }

  /** In a sorted listing, an interface whose own parent entry is listed and readable finds its parent built. */
  lemma OwnParentIsBuilt(names: seq<string>, sysfs: Sysfs, k: nat)
    requires Ascending(names) && k < |names| && Classify(names[k]).InterfaceName?
    requires ParentName(names[k]) in names && sysfs.readable(ParentName(names[k]))
    ensures ParentBuilt(Listing(names)[..k], sysfs, Classify(names[k]).interface.device)
  {
    ParentNameFacts(names[k]);
    var j :| 0 <= j < |names| && names[j] == ParentName(names[k]);
    BeforeInOrder(names, j, k);
    assert BuildsAt(Listing(names)[..k], sysfs, j, Classify(names[k]).interface.device);
  }

  lemma NotSkipped(entries: seq<Listed>, sysfs: Sysfs, k: nat, key: string)
    requires k < |entries| && entries[k].kind.InterfaceName?
    requires forall l :: 0 <= l < |entries| && entries[l].name == entries[k].name ==> l == k
    requires ParentBuilt(entries[..k], sysfs, entries[k].kind.interface.device)
    ensures ParentNotDiscovered(entries[k].name, key) !in After(entries, sysfs).notes
  {
    SkippedIffNoParentBefore(entries, sysfs, entries[k].name, key);
    forall l ensures !SkippedAt(entries, sysfs, l, entries[k].name, key) {
    }
  }

  /** So it is never skipped. */
  lemma OwnParentIsNeverMissed(names: seq<string>, sysfs: Sysfs, k: nat, key: string)
    requires Ascending(names) && k < |names| && Classify(names[k]).InterfaceName?
    requires ParentName(names[k]) in names && sysfs.readable(ParentName(names[k]))
    ensures ParentNotDiscovered(names[k], key) !in After(Listing(names), sysfs).notes
  {
    OwnParentIsBuilt(names, sysfs, k);
    forall l | 0 <= l < |names| && names[l] == names[k] ensures l == k { SamePosition(names, k, l); }
    NotSkipped(Listing(names), sysfs, k, key);
  }

  lemma SamePosition(names: seq<string>, k: nat, l: nat)
    requires Ascending(names) && k < |names| && l < |names| && names[k] == names[l]
    ensures k == l
  {
    Asymmetric(names[k], names[k]);
  }

  /** In a sorted listing device entries come first, so a bus entry only ever describes a bus without any
      device entry: every other bus descriptor is made from the number alone. */
  lemma BusEntryMeansNoDevices(names: seq<string>, sysfs: Sysfs, bus: U16, name: string, j: nat)
    requires Ascending(names) && Bus(BusId(bus), bus, Some(name)) in After(Listing(names), sysfs).devices
    requires j < |names| && Classify(names[j]).DeviceName?
    ensures Classify(names[j]).address.bus != bus
  {
    var entries := Listing(names);
    BusEntryOrigin(entries, sysfs, bus, name);
    var k: nat :| MadeFromEntry(entries, sysfs, k, bus, name);
    DeviceNamesSortFirst(names[j], names[k]);
    BeforeInOrder(names, j, k);
    BusListed(entries[..k], sysfs, bus);
    assert !NamesBusAt(entries[..k], sysfs, j, bus);
  }

  // ---------- a parent that is spelt differently ----------

  lemma SmallNumbers()
    ensures ParseUnsigned("1", U8_MAX) == Some(1) && ParseUnsigned("0", U8_MAX) == Some(0)
    ensures ParseUnsigned("1", U16_MAX) == Some(1) && ParseUnsigned("01", U16_MAX) == Some(1)
    ensures Decimals([1]) == ["1"]
  {
  }

  lemma PortOne(bus: string, name: string)
    requires '-' !in bus && ':' !in bus && name == bus + "-1" && ParseUnsigned(bus, U16_MAX) == Some(1)
    ensures ParseUsbDeviceName(name) == Some(UsbAddress(1, [1]))
  {
    SmallNumbers();
    assert name == bus + ['-'] + "1";
    SplitOnceAt(bus, '-', "1");
    SplitOnceParts("1", '.');
    ParsePortsOfDecimals([1]);
  }

  lemma OddDevice()
    ensures Classify("1-1") == DeviceName(UsbAddress(1, [1])) && KeyOf(UsbAddress(1, [1])) == "1-1"
  {
    SmallNumbers();
    PortOne("1", "1-1");
    NamesAreUnambiguous("1-1");
  }

  lemma OddSplit()
    ensures SplitOnce("01-1:1.0", ':') == Some(("01-1", "1.0")) && SplitOnce("1.0", '.') == Some(("1", "0"))
  {
    assert "01-1:1.0" == "01-1" + [':'] + "1.0";
    SplitOnceAt("01-1", ':', "1.0");
    assert "1.0" == "1" + ['.'] + "0";
    SplitOnceAt("1", '.', "0");
  }

  lemma InterfaceOfParts(name: string, device: string, suffix: string, configuration: string, number: string)
    requires SplitOnce(name, ':') == Some((device, suffix)) && SplitOnce(suffix, '.') == Some((configuration, number))
    requires ParseUsbDeviceName(device).Some?
    requires ParseUnsigned(configuration, U8_MAX).Some? && ParseUnsigned(number, U8_MAX).Some?
    ensures Classify(name) == InterfaceName(UsbInterfaceAddress(
      ParseUsbDeviceName(device).value,
      ParseUnsigned(configuration, U8_MAX).value, ParseUnsigned(number, U8_MAX).value))
  {
    NamesAreUnambiguous(name);
  }

  lemma OddInterface()
    ensures Classify("01-1:1.0") == InterfaceName(UsbInterfaceAddress(UsbAddress(1, [1]), 1, 0))
  {
    SmallNumbers();
    PortOne("01", "01-1");
    OddSplit();
    InterfaceOfParts("01-1:1.0", "01-1", "1.0", "1", "0");
  }

  lemma FirstEntryIsSkipped(entries: seq<Listed>, sysfs: Sysfs)
    requires entries != [] && entries[0].kind.InterfaceName?
    ensures ParentNotDiscovered(entries[0].name, KeyOf(entries[0].kind.interface.device)) in After(entries, sysfs).notes
  {
  }

  /** A parent whose entry is spelt differently does not help: it may sort after the interface, which is
      then skipped although its parent's entry is listed and readable. */
  lemma DifferentlySpeltParentIsMissed(sysfs: Sysfs)
    ensures var names := ["01-1:1.0", "1-1"];
      && Ascending(names)
      && Classify(names[0]).InterfaceName? && Classify(names[1]) == DeviceName(Classify(names[0]).interface.device)
      && ParentNotDiscovered(names[0], "1-1") in After(Listing(names), sysfs).notes
  {
    OddDevice();
    OddInterface();
    var names := ["01-1:1.0", "1-1"];
    FirstEntryIsSkipped(Listing(names), sysfs);
  }
}
