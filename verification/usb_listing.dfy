/** What a USB discovery lists, said of the listing alone: which interfaces with whose numbers, which buses, which
    notes, and which ids. */
module UsbListing {
  import opened Core
  import opened StringOrder
  import opened UsbNames
  import opened UsbDiscovery

  // ---------- interfaces ----------

  /** Entry `j` is the last readable entry for this device. */
  ghost predicate LastBuild(entries: seq<Listed>, sysfs: Sysfs, j: nat, a: UsbAddress) {
    BuildsAt(entries, sysfs, j, a) && forall l :: j < l < |entries| ==> !BuildsAt(entries, sysfs, l, a)
  }

  /** What the loop knows about a device is what its last readable entry says. */
  ghost predicate KnownFrom(s: State, a: UsbAddress, name: string, sysfs: Sysfs) {
    && KeyOf(a) in s.deviceIds && s.deviceIds[KeyOf(a)] == DeviceIdOf(a.bus, a.ports)
    && KeyOf(a) in s.vendorProducts && s.vendorProducts[KeyOf(a)] == sysfs.vendorProduct(name)
  }

  lemma KnownStays(s: State, e: Listed, sysfs: Sysfs, a: UsbAddress, name: string)
    requires KnownFrom(s, a, name, sysfs) && !(e.kind == DeviceName(a) && sysfs.readable(e.name))
    ensures KnownFrom(Entry(s, e, sysfs), a, name, sysfs)
  {
    if e.kind.DeviceName? && KeyOf(e.kind.address) == KeyOf(a) {
      KeyInjective(e.kind.address.bus, e.kind.address.ports, a.bus, a.ports);
    }
  }

  lemma LastBuildStays(entries: seq<Listed>, sysfs: Sysfs, j: nat, a: UsbAddress)
    requires entries != [] && LastBuild(entries[..|entries| - 1], sysfs, j, a)
    requires !BuildsAt(entries, sysfs, |entries| - 1, a)
    ensures LastBuild(entries, sysfs, j, a)
  {
    var front := entries[..|entries| - 1];
    forall l | j < l < |entries| ensures !BuildsAt(entries, sysfs, l, a) {
      if l < |front| { assert !BuildsAt(front, sysfs, l, a); }
    }
  }

  lemma {:induction false} KnownFromLastBuild(entries: seq<Listed>, sysfs: Sysfs, a: UsbAddress) returns (j: nat)
    requires ParentBuilt(entries, sysfs, a)
    ensures LastBuild(entries, sysfs, j, a) && KnownFrom(After(entries, sysfs), a, entries[j].name, sysfs)
    decreases |entries|
  {
    var n := |entries| - 1;
    if BuildsAt(entries, sysfs, n, a) {
      j := n;
    } else {
      ParentBuiltSnoc(entries, sysfs, a);
      j := KnownFromLastBuild(entries[..n], sysfs, a);
      LastBuildStays(entries, sysfs, j, a);
      KnownStays(After(entries[..n], sysfs), entries[n], sysfs, a, entries[j].name);
    }
  }

  /** Descriptor `d` is the interface of entry `k`, and its device is that of entry `j`, the last readable one for it
      before: it takes over that entry's vendor and product. */
  ghost predicate InterfaceOf(entries: seq<Listed>, sysfs: Sysfs, k: nat, j: nat, d: UsbDescriptor) {
    && k < |entries| && entries[k].kind.InterfaceName? && sysfs.readable(entries[k].name)
    && var name, a := entries[k].name, entries[k].kind.interface;
       var bus, ports := a.device.bus, a.device.ports;
       && LastBuild(entries[..k], sysfs, j, a.device)
       && d.Interface? && d.kernelName == name && d.bus == bus && d.ports == ports
       && d.configuration == a.configuration
       && Some(d.interfaceNumber)
          == (if sysfs.interfaceNumber(name).Some? then sysfs.interfaceNumber(name) else Some(a.interfaceNumber))
       && d.vendorProduct == sysfs.vendorProduct(entries[j].name)
       && d.parent == DeviceIdOf(bus, ports)
       && d.id == d.parent + ".if" + Decimal(d.interfaceNumber)
  }

  lemma LastBuildUnique(entries: seq<Listed>, sysfs: Sysfs, a: UsbAddress, i: nat, j: nat)
    requires LastBuild(entries, sysfs, i, a) && LastBuild(entries, sysfs, j, a)
    ensures i == j
  {
  }

  lemma DescribedIsInterfaceOf(entries: seq<Listed>, sysfs: Sysfs, k: nat, d: UsbDescriptor) returns (j: nat)
    requires DescribesInterfaceAt(entries, sysfs, k, d)
    ensures InterfaceOf(entries, sysfs, k, j, d)
  {
    j := KnownFromLastBuild(entries[..k], sysfs, entries[k].kind.interface.device);
  }

  lemma InterfaceOfIsDescribed(entries: seq<Listed>, sysfs: Sysfs, k: nat, j: nat, d: UsbDescriptor)
    requires InterfaceOf(entries, sysfs, k, j, d)
    ensures DescribesInterfaceAt(entries, sysfs, k, d)
  {
    var a := entries[k].kind.interface.device;
    assert ParentBuilt(entries[..k], sysfs, a);
    var i := KnownFromLastBuild(entries[..k], sysfs, a);
    LastBuildUnique(entries[..k], sysfs, a, i, j);
  }

  /** The interface descriptors are exactly those of the readable interface entries with a readable entry of their
      device before them. */
  lemma InterfacesFromEntries(entries: seq<Listed>, sysfs: Sysfs, d: UsbDescriptor)
    requires d.Interface?
    ensures d in After(entries, sysfs).devices <==> exists k, j :: InterfaceOf(entries, sysfs, k, j, d)
  {
    InterfacesListed(entries, sysfs, d);
    if k: nat :| DescribesInterfaceAt(entries, sysfs, k, d) {
      var j := DescribedIsInterfaceOf(entries, sysfs, k, d);
      assert InterfaceOf(entries, sysfs, k, j, d);
    }
    if k: nat, j: nat :| InterfaceOf(entries, sysfs, k, j, d) {
      InterfaceOfIsDescribed(entries, sysfs, k, j, d);
      assert DescribesInterfaceAt(entries, sysfs, k, d);
    }
  }

  // ---------- buses ----------

  ghost predicate BusKnown(entries: seq<Listed>, sysfs: Sysfs, bus: U16) {
    exists k :: NamesBusAt(entries, sysfs, k, bus)
  }

  /** Entry `k` is the first to make the bus known, and `d` is its descriptor: with the entry's attributes if it is a
      bus entry, from the number alone if it is a device entry. */
  ghost predicate BusOf(entries: seq<Listed>, sysfs: Sysfs, k: nat, d: UsbDescriptor) {
    && d.Bus? && NamesBusAt(entries, sysfs, k, d.bus) && !BusKnown(entries[..k], sysfs, d.bus)
    && d.id == BusId(d.bus)
    && d.sysfsEntry == if entries[k].kind.BusName? then Some(entries[k].name) else None
  }

  ghost predicate BusOfSome(entries: seq<Listed>, sysfs: Sysfs, d: UsbDescriptor) {
    exists k :: BusOf(entries, sysfs, k, d)
  }

  lemma BusOfSnoc(entries: seq<Listed>, sysfs: Sysfs, d: UsbDescriptor)
    requires entries != []
    ensures BusOfSome(entries, sysfs, d) <==>
      BusOfSome(entries[..|entries| - 1], sysfs, d) || BusOf(entries, sysfs, |entries| - 1, d)
  {
    var front := entries[..|entries| - 1];
    assert forall k :: 0 <= k < |entries| ==> front[..k] == entries[..k];
    if k: nat :| BusOf(front, sysfs, k, d) { assert BusOf(entries, sysfs, k, d); }
    if k: nat :| BusOf(entries, sysfs, k, d) && k < |front| { assert BusOf(front, sysfs, k, d); }
  }

  /** Entry `e` adds the bus descriptor `d` to what is listed. */
  ghost predicate AddsBus(s: State, e: Listed, sysfs: Sysfs, d: UsbDescriptor) {
    && d.Bus? && d.bus !in s.busIds && d.id == BusId(d.bus)
    && match e.kind
       case BusName(b) => b == d.bus && sysfs.readable(e.name) && d.sysfsEntry == Some(e.name)
       case DeviceName(a) => a.bus == d.bus && d.sysfsEntry == None
       case _ => false
  }

  lemma BusEntryBuses(s: State, bus: U16, name: string, sysfs: Sysfs, d: UsbDescriptor)
    requires d.Bus?
    ensures d in BusEntry(s, bus, name, sysfs).devices <==>
      d in s.devices || AddsBus(s, Listed(name, BusName(bus)), sysfs, d)
  {
  }

  lemma DeviceEntryBuses(s: State, a: UsbAddress, name: string, sysfs: Sysfs, d: UsbDescriptor)
    requires d.Bus?
    ensures d in DeviceEntry(s, a, name, sysfs).devices <==>
      d in s.devices || AddsBus(s, Listed(name, DeviceName(a)), sysfs, d)
  {
  }

  lemma InterfaceEntryBuses(s: State, a: UsbInterfaceAddress, name: string, sysfs: Sysfs, d: UsbDescriptor)
    requires d.Bus?
    ensures d in InterfaceEntry(s, a, name, sysfs).devices <==> d in s.devices
  {
  }

  lemma EntryBuses(s: State, e: Listed, sysfs: Sysfs, d: UsbDescriptor)
    requires d.Bus?
    ensures d in Entry(s, e, sysfs).devices <==> d in s.devices || AddsBus(s, e, sysfs, d)
  {
    match e.kind
    case BusName(bus) => BusEntryBuses(s, bus, e.name, sysfs, d);
    case DeviceName(a) => DeviceEntryBuses(s, a, e.name, sysfs, d);
    case InterfaceName(a) => InterfaceEntryBuses(s, a, e.name, sysfs, d);
    case OtherName =>
  }

  /** The bus descriptors are exactly those of the entries that are the first to make their bus known. */
  lemma {:induction false} BusesFromEntries(entries: seq<Listed>, sysfs: Sysfs, d: UsbDescriptor)
    requires d.Bus?
    ensures d in After(entries, sysfs).devices <==> BusOfSome(entries, sysfs, d)
    decreases |entries|
  {
    if entries != [] {
      var n := |entries| - 1;
      BusesFromEntries(entries[..n], sysfs, d);
      BusListed(entries[..n], sysfs, d.bus);
      EntryBuses(After(entries[..n], sysfs), entries[n], sysfs, d);
      BusOfSnoc(entries, sysfs, d);
    }
  }

  // ---------- notes ----------

  /** What an entry leaves a note about: an interface without a readable entry of its device before it; else an
      entry that cannot be read, unless it is a bus entry of a bus that is known already. */
  ghost function NoteOf(earlier: seq<Listed>, e: Listed, sysfs: Sysfs): seq<Note> {
    if e.kind.InterfaceName? && !ParentBuilt(earlier, sysfs, e.kind.interface.device)
    then [ParentNotDiscovered(e.name, KeyOf(e.kind.interface.device))]
    else if sysfs.readable(e.name) || e.kind.OtherName? || (e.kind.BusName? && BusKnown(earlier, sysfs, e.kind.bus))
    then []
    else [Unreadable(e.name)]
  }

  ghost function NotesOf(entries: seq<Listed>, sysfs: Sysfs): seq<Note> {
    if entries == [] then [] else
      var n := |entries| - 1;
      NotesOf(entries[..n], sysfs) + NoteOf(entries[..n], entries[n], sysfs)
  }

  /** The notes are those of the entries, in listing order. */
  lemma {:induction false} NotesFromEntries(entries: seq<Listed>, sysfs: Sysfs)
    ensures After(entries, sysfs).notes == NotesOf(entries, sysfs)
    decreases |entries|
  {
    if entries != [] {
      var n := |entries| - 1;
      NotesFromEntries(entries[..n], sysfs);
      match entries[n].kind
      case BusName(bus) => BusListed(entries[..n], sysfs, bus);
      case InterfaceName(a) => KnownIffBuilt(entries[..n], sysfs, a.device);
      case _ =>
    }
  }

  // ---------- ids ----------

  /** The id of a descriptor tells its kind and where it is plugged in. */
  predicate HasOwnId(d: UsbDescriptor) {
    match d
    case Bus(id, bus, _) => id == BusId(bus)
    case Device(id, bus, ports, _, _, _) => id == DeviceIdOf(bus, ports)
    case Interface(id, bus, ports, _, number, _, _, _) => id == InterfaceIdOf(bus, ports, number)
  }

  ghost predicate OwnIds(devices: seq<UsbDescriptor>) {
    forall d :: d in devices ==> HasOwnId(d)
  }

  lemma OwnIdsSnoc(devices: seq<UsbDescriptor>, d: UsbDescriptor)
    requires OwnIds(devices) && HasOwnId(d)
    ensures OwnIds(devices + [d])
  {
  }

  lemma EntryOwnIds(s: State, e: Listed, sysfs: Sysfs)
    requires OwnIds(s.devices)
    ensures OwnIds(Entry(s, e, sysfs).devices)
  {
    match e.kind
    case BusName(bus) =>
      OwnIdsSnoc(s.devices, Bus(BusId(bus), bus, Some(e.name)));
    case DeviceName(a) =>
      var t := if a.bus in s.busIds then s else AddBus(s, a.bus, None);
      OwnIdsSnoc(s.devices, Bus(BusId(a.bus), a.bus, None));
      OwnIdsSnoc(t.devices, DeviceDescriptor(a, e.name, t.busIds[a.bus], sysfs));
    case InterfaceName(a) =>
      var key := KeyOf(a.device);
      if key in s.deviceIds {
        var vendorProduct := if key in s.vendorProducts then s.vendorProducts[key] else VendorProduct(None, None);
        OwnIdsSnoc(s.devices, InterfaceDescriptor(a, e.name, s.deviceIds[key], vendorProduct, sysfs));
      }
    case OtherName =>
  }

  lemma {:induction false} AllHaveOwnIds(entries: seq<Listed>, sysfs: Sysfs)
    ensures OwnIds(After(entries, sysfs).devices)
    decreases |entries|
  {
    if entries != [] {
      var n := |entries| - 1;
      AllHaveOwnIds(entries[..n], sysfs);
      EntryOwnIds(After(entries[..n], sysfs), entries[n], sysfs);
    }
  }

  lemma AllHavePorts(names: seq<string>, sysfs: Sysfs, d: UsbDescriptor)
    requires d in After(Listing(names), sysfs).devices && !d.Bus?
    ensures d.ports != []
  {
    DescriptorsMatchNames(names, sysfs, d);
    ParsedNamesHavePorts(d.kernelName);
  }

  /** The same kind of descriptor, plugged in at the same place, with the same number if it is an interface. */
  predicate SamePlace(d: UsbDescriptor, e: UsbDescriptor) {
    && d.bus == e.bus
    && (d.Bus? ==> e.Bus?)
    && (d.Device? ==> e.Device? && d.ports == e.ports)
    && (d.Interface? ==> e.Interface? && d.ports == e.ports && d.interfaceNumber == e.interfaceNumber)
  }

  /** Two descriptors of one discovery share an id exactly if they are of the same kind and from the same place. */
  lemma SharedIdIffSamePlace(names: seq<string>, sysfs: Sysfs, d: UsbDescriptor, e: UsbDescriptor)
    requires d in After(Listing(names), sysfs).devices && e in After(Listing(names), sysfs).devices
    ensures d.id == e.id <==> SamePlace(d, e)
  {
    AllHaveOwnIds(Listing(names), sysfs);
    if !d.Bus? { AllHavePorts(names, sysfs, d); }
    if !e.Bus? { AllHavePorts(names, sysfs, e); }
    if d.id == e.id {
      match (d, e) {
        case (Bus(_, b, _), Bus(_, c, _)) => BusIdInjective(b, c);
        case (Bus(_, b, _), Device(_, c, ports, _, _, _)) => BusIdIsNoOther(b, c, ports, 0);
        case (Bus(_, b, _), Interface(_, c, ports, _, n, _, _, _)) => BusIdIsNoOther(b, c, ports, n);
        case (Device(_, b, ports, _, _, _), Bus(_, c, _)) => BusIdIsNoOther(c, b, ports, 0);
        case (Device(_, b, ports, _, _, _), Device(_, c, others, _, _, _)) => DeviceIdInjective(b, ports, c, others);
        case (Device(_, b, ports, _, _, _), Interface(_, c, others, _, n, _, _, _)) =>
          DeviceIdIsNoInterfaceId(b, ports, c, others, n);
        case (Interface(_, b, ports, _, n, _, _, _), Bus(_, c, _)) => BusIdIsNoOther(c, b, ports, n);
        case (Interface(_, b, ports, _, n, _, _, _), Device(_, c, others, _, _, _)) =>
          DeviceIdIsNoInterfaceId(c, others, b, ports, n);
        case (Interface(_, b, ports, _, n, _, _, _), Interface(_, c, others, _, m, _, _, _)) =>
          InterfaceIdInjective(b, ports, n, c, others, m);
      }
    }
  }
}
