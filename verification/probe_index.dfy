/** The index that remembers which probe owns which device ids, and the merge it makes possible. */
module ProbeIndex {
  import opened Core
  import opened Inventory
  import opened ProbeRun

  type Entry = map<InterfaceKind, set<DeviceId>>
  type Index = map<string, Entry>

  function Owned(entry: Entry, interface: InterfaceKind): set<DeviceId> {
    if interface in entry then entry[interface] else {}
  }

  function EntryOf(index: Index, probe: string): Entry {
    if probe in index then index[probe] else map[]
  }

  /** The interfaces and the ids on one interface of those listed ids that the run's snapshot knows. */
  function FoundInterfaces(ids: seq<DeviceId>, devices: Devices): set<InterfaceKind> {
    set id | id in ids && id in devices :: devices[id].interface
  }

  function FoundIds(ids: seq<DeviceId>, devices: Devices, interface: InterfaceKind): set<DeviceId> {
    set id | id in ids && id in devices && devices[id].interface == interface
  }

  /** Refreshed interfaces start afresh. */
  function Cleared(entry: Entry, refreshed: seq<InterfaceKind>): Entry {
    map i | i in entry.Keys + (set r | r in refreshed) :: if i in refreshed then {} else entry[i]
  }

  /** Found ids are added to the entry of their interface. */
  function WithFound(entry: Entry, ids: seq<DeviceId>, devices: Devices): Entry {
    map i | i in entry.Keys + FoundInterfaces(ids, devices) :: Owned(entry, i) + FoundIds(ids, devices, i)
  }

  /** A probe's entry after a successful report. */
  function RecordedEntry(
      entry: Entry, refreshed: seq<InterfaceKind>, ids: seq<DeviceId>, devices: Devices): Entry
  {
    WithFound(Cleared(entry, refreshed), ids, devices)
  }

  function RecordedReport(index: Index, devices: Devices, report: ProbeReport): Index {
    if !report.Succeeded() then index
    else index[report.probe :=
           RecordedEntry(EntryOf(index, report.probe), report.refreshedInterfaces, report.discoveredIds, devices)]
  }

  function RecordedReports(index: Index, devices: Devices, reports: seq<ProbeReport>): Index {
    if reports == [] then index else
      var n := |reports| - 1;
      RecordedReport(RecordedReports(index, devices, reports[..n]), devices, reports[n])
  }

  function IdsFor(index: Index, probe: string, interface: InterfaceKind): Option<set<DeviceId>> {
    if probe in index && interface in index[probe] then Some(index[probe][interface]) else None
  }

  predicate WasReplacedBy(index: Index, id: DeviceId, interface: InterfaceKind, report: ProbeReport) {
    && report.Succeeded()
    && interface in report.refreshedInterfaces
    && report.probe in index
    && interface in index[report.probe]
    && id in index[report.probe][interface]
  }

  predicate WasReplaced(index: Index, id: DeviceId, interface: InterfaceKind, reports: seq<ProbeReport>) {
    exists report <- reports :: WasReplacedBy(index, id, interface, report)
  }

  /** The devices of the old snapshot that the run did not replace, in their old order. */
  function Retained(index: Index, devices: seq<Descriptor>, reports: seq<ProbeReport>): (kept: seq<Descriptor>)
    ensures forall d :: d in kept <==> d in devices && !WasReplaced(index, d.id, d.interface, reports)
  {
    if devices == [] then [] else
      var rest := Retained(index, devices[1..], reports);
      assert forall d :: d in devices <==> d == devices[0] || d in devices[1..];
      if WasReplaced(index, devices[0].id, devices[0].interface, reports) then rest else [devices[0]] + rest
  }

  lemma SoundCons(first: Descriptor, rest: seq<Descriptor>)
    requires first.Valid() && AllValid(rest) && DistinctIds(rest)
    requires forall k :: 0 <= k < |rest| ==> rest[k].id != first.id
    ensures AllValid([first] + rest) && DistinctIds([first] + rest)
  {
    var all := [first] + rest;
    assert forall k :: 1 <= k < |all| ==> all[k] == rest[k - 1];
  }

  lemma SoundTail(devices: seq<Descriptor>)
    requires devices != [] && AllValid(devices) && DistinctIds(devices)
    ensures devices[0].Valid() && AllValid(devices[1..]) && DistinctIds(devices[1..])
    ensures forall d :: d in devices[1..] ==> d.id != devices[0].id
  {
    var rest := devices[1..];
    assert forall k :: 0 <= k < |rest| ==> rest[k] == devices[k + 1];
  }

  lemma {:induction false} RetainedStaysSound(index: Index, devices: seq<Descriptor>, reports: seq<ProbeReport>)
    requires AllValid(devices) && DistinctIds(devices)
    ensures AllValid(Retained(index, devices, reports)) && DistinctIds(Retained(index, devices, reports))
  {
    if devices != [] {
      var rest := Retained(index, devices[1..], reports);
      SoundTail(devices);
      RetainedStaysSound(index, devices[1..], reports);
      forall k | 0 <= k < |rest| ensures rest[k].id != devices[0].id {
        assert rest[k] in rest;
      }
      SoundCons(devices[0], rest);
    }
  }

  /** Each device is kept or dropped on its own, in its old place. */
  lemma {:induction false} RetainedSplits(
      index: Index, first: seq<Descriptor>, second: seq<Descriptor>, reports: seq<ProbeReport>)
    ensures Retained(index, first + second, reports)
      == Retained(index, first, reports) + Retained(index, second, reports)
  {
    if first == [] {
      assert first + second == second;
    } else {
      assert (first + second)[1..] == first[1..] + second;
      RetainedSplits(index, first[1..], second, reports);
      var rest, end := Retained(index, first[1..], reports), Retained(index, second, reports);
      assert [first[0]] + (rest + end) == ([first[0]] + rest) + end;
    }
  }

  function Merge(index: Index, current: Snapshot, run: RunReport): Result<Snapshot, DiscoveryError> {
    var observedAt := if run.snapshot.observedAt.Some? then run.snapshot.observedAt else current.observedAt;
    WithObservedAt(Retained(index, current.devices, run.probeReports) + run.snapshot.devices, observedAt)
  }

  lemma FoundGrows(ids: seq<DeviceId>, id: DeviceId, devices: Devices, i: InterfaceKind)
    ensures FoundIds(ids + [id], devices, i)
      == FoundIds(ids, devices, i) + if id in devices && devices[id].interface == i then {id} else {}
    ensures i in FoundInterfaces(ids + [id], devices) <==>
      i in FoundInterfaces(ids, devices) || (id in devices && devices[id].interface == i)
    ensures i !in FoundInterfaces(ids, devices) ==> FoundIds(ids, devices, i) == {}
  {
  }

  lemma FoundOneMore(entry: Entry, ids: seq<DeviceId>, id: DeviceId, devices: Devices)
    ensures
      var before := WithFound(entry, ids, devices);
      WithFound(entry, ids + [id], devices)
        == if id in devices
           then before[devices[id].interface := Owned(before, devices[id].interface) + {id}]
           else before
  {
    var before := WithFound(entry, ids, devices);
    var after := WithFound(entry, ids + [id], devices);
    var expected := if id in devices
                    then before[devices[id].interface := Owned(before, devices[id].interface) + {id}]
                    else before;
    forall i ensures (i in after <==> i in expected) && (i in after ==> after[i] == expected[i]) {
      FoundGrows(ids, id, devices, i);
    }
    assert after == expected;
  }

  lemma NothingFound(entry: Entry, devices: Devices)
    ensures WithFound(entry, [], devices) == entry
  {
    assert FoundInterfaces([], devices) == {};
    var found := WithFound(entry, [], devices);
    assert found.Keys == entry.Keys;
    forall i | i in found ensures found[i] == entry[i] {
      assert FoundIds([], devices, i) == {};
    }
  }

  lemma ClearedOneMore(entry: Entry, refreshed: seq<InterfaceKind>, interface: InterfaceKind)
    ensures Cleared(entry, refreshed + [interface]) == Cleared(entry, refreshed)[interface := {}]
  {
  }

  lemma NothingCleared(entry: Entry)
    ensures Cleared(entry, []) == entry
  {
  }

  /** The first inner loop of `record_run`. */
  method ClearRefreshed(before: Entry, refreshed: seq<InterfaceKind>) returns (entry: Entry)
    ensures entry == Cleared(before, refreshed)
  {
    entry := before;
    NothingCleared(before);
    for i := 0 to |refreshed|
      invariant entry == Cleared(before, refreshed[..i])
    {
      assert refreshed[..i + 1] == refreshed[..i] + [refreshed[i]];
      ClearedOneMore(before, refreshed[..i], refreshed[i]);
      entry := entry[refreshed[i] := {}];
    }
    assert refreshed[..|refreshed|] == refreshed;
  }

  /** The second inner loop of `record_run`. */
  method AddFound(cleared: Entry, ids: seq<DeviceId>, devices: Devices) returns (entry: Entry)
    ensures entry == WithFound(cleared, ids, devices)
  {
    entry := cleared;
    NothingFound(cleared, devices);
    for i := 0 to |ids|
      invariant entry == WithFound(cleared, ids[..i], devices)
    {
      assert ids[..i + 1] == ids[..i] + [ids[i]];
      FoundOneMore(cleared, ids[..i], ids[i], devices);
      if ids[i] in devices {
        var interface := devices[ids[i]].interface;
        entry := entry[interface := Owned(entry, interface) + {ids[i]}];
      }
    }
    assert ids[..|ids|] == ids;
  }

  class ProbeInventoryIndex {
    var devicesByProbe: Index

    constructor ()
      ensures devicesByProbe == map[]
    {
      devicesByProbe := map[];
    }

    method RecordRun(run: RunReport)
      modifies this
      ensures devicesByProbe == RecordedReports(old(devicesByProbe), ById(run.snapshot.devices), run.probeReports)
    {
      var devices := ById(run.snapshot.devices);
      var reports := run.probeReports;
      for k := 0 to |reports|
        invariant devicesByProbe == RecordedReports(old(devicesByProbe), devices, reports[..k])
      {
        assert reports[..k + 1][..k] == reports[..k];
        var report := reports[k];
        if !report.Succeeded() {
          continue;
        }
        var entry := ClearRefreshed(EntryOf(devicesByProbe, report.probe), report.refreshedInterfaces);
        entry := AddFound(entry, report.discoveredIds, devices);
        devicesByProbe := devicesByProbe[report.probe := entry];
      }
      assert reports[..|reports|] == reports;
    }

    function IdsForProbeInterface(probe: string, interface: InterfaceKind): Option<set<DeviceId>>
      reads this
    {
      IdsFor(devicesByProbe, probe, interface)
    }

    function MergeSnapshot(current: Snapshot, run: RunReport): Result<Snapshot, DiscoveryError>
      reads this
    {
      Merge(devicesByProbe, current, run)
    }
  }
}
