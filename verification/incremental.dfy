/** Any number of full and incremental refreshes: index and snapshot agree with a simple table of what each probe
    last found on each interface, except for the devices that a full refresh with a failed probe stranded. */
module Incremental {
  import opened Core
  import opened Inventory
  import opened Sorting
  import opened ProbeRun
  import opened ProbeIndex

  /** What each (probe, interface) pair was last known to have. */
  type Table = map<(string, InterfaceKind), set<Descriptor>>

  function DevicesAt(table: Table, key: (string, InterfaceKind)): set<Descriptor> {
    if key in table then table[key] else {}
  }

  /** Some successful report of the run has this probe name and refreshed this interface. */
  predicate Refreshed(run: RunReport, key: (string, InterfaceKind)) {
    exists r <- run.probeReports :: r.Succeeded() && r.probe == key.0 && key.1 in r.refreshedInterfaces
  }

  /** The devices that the probe found on the interface in this run, refreshed or not. */
  function FoundIn(run: RunReport, key: (string, InterfaceKind)): set<Descriptor> {
    set d <- run.snapshot.devices |
      d.interface == key.1
      && exists r <- run.probeReports :: r.Succeeded() && r.probe == key.0 && d.id in r.discoveredIds
  }

  function TouchedKeys(run: RunReport): set<(string, InterfaceKind)> {
    (set r, i | r in run.probeReports && r.Succeeded() && i in r.refreshedInterfaces :: (r.probe, i))
    + (set r, d | r in run.probeReports && r.Succeeded() && d in run.snapshot.devices && d.id in r.discoveredIds
        :: (r.probe, d.interface))
  }

  /** A refreshed pair is replaced, a pair with further finds is extended, every other pair is kept. */
  function TableAfter(table: Table, run: RunReport): Table {
    map key | key in table.Keys + TouchedKeys(run) ::
      (if Refreshed(run, key) then {} else DevicesAt(table, key)) + FoundIn(run, key)
  }

  /** Snapshot and index of the runtime, beside the table that explains them and the stranded devices, which are in
      the snapshot but which no pair owns. */
  datatype Mirror = Mirror(current: Snapshot, index: Index, table: Table, stranded: set<Descriptor>)

  const EMPTY: Mirror := Mirror(Snapshot(None, []), map[], map[], {})

  function IndexAfter(index: Index, run: RunReport): Index {
    RecordedReports(index, ById(run.snapshot.devices), run.probeReports)
  }

  datatype RefreshMode = Full | Incremental

  predicate HasProbeFailures(run: RunReport) {
    exists r <- run.probeReports :: !r.Succeeded()
  }

  /** The next snapshot: a full refresh without failed probes starts afresh, every other merges. */
  function Materialized(m: Mirror, run: RunReport, mode: RefreshMode): Result<Snapshot, DiscoveryError> {
    if mode.Full? && !HasProbeFailures(run) then Ok(run.snapshot) else Merge(m.index, m.current, run)
  }

  /** The known devices that are not refreshed by the run. */
  function Unrefreshed(m: Mirror, run: RunReport): set<Descriptor> {
    m.stranded + set key, d | key in m.table && d in m.table[key] && !Refreshed(run, key) :: d
  }

  /** One refresh: an incremental one records the run in the index; a full one starts the index afresh, and
      strands what its merge has retained. */
  function Fold(m: Mirror, run: RunReport, mode: RefreshMode): Result<Mirror, DiscoveryError> {
    match Materialized(m, run, mode)
    case Err(fault) => Err(fault)
    case Ok(next) => Ok(
      if mode.Full?
      then Mirror(next, IndexAfter(map[], run), TableAfter(map[], run),
                  if HasProbeFailures(run) then Unrefreshed(m, run) else {})
      else Mirror(next, IndexAfter(m.index, run), TableAfter(m.table, run), m.stranded))
  }

  // ---------- what a run looks like ----------

  ghost predicate DistinctNames(reports: seq<ProbeReport>) {
    forall i, j :: 0 <= i < j < |reports| ==> reports[i].probe != reports[j].probe
  }

  ghost predicate WellFormed(run: RunReport) {
    && AllValid(run.snapshot.devices) && DistinctIds(run.snapshot.devices)
    && DistinctNames(run.probeReports)
    && ReportedIds(run.probeReports) == Ids(run.snapshot.devices)
    && (forall r :: r in run.probeReports && !r.Succeeded() ==> r.discoveredIds == [])
  }

  /** Every device of a well-formed run was found by a successful report. */
  lemma {:induction false} ReportedBySome(reports: seq<ProbeReport>, id: DeviceId)
    requires id in ReportedIds(reports)
    ensures exists k :: 0 <= k < |reports| && id in reports[k].discoveredIds
  {
    if id in reports[0].discoveredIds {
    } else {
      ReportedBySome(reports[1..], id);
      var k :| 0 <= k < |reports[1..]| && id in reports[1..][k].discoveredIds;
      assert reports[k + 1] == reports[1..][k];
    }
  }

  lemma {:induction false} ReportedIncludes(reports: seq<ProbeReport>, k: nat, id: DeviceId)
    requires k < |reports| && id in reports[k].discoveredIds
    ensures id in ReportedIds(reports)
  {
    if k > 0 { ReportedIncludes(reports[1..], k - 1, id); }
  }

  lemma NotInBoth(first: seq<DeviceId>, rest: seq<DeviceId>, id: DeviceId)
    requires NoRepeats(first + rest) && id in first
    ensures id !in rest
  {
    var i :| 0 <= i < |first| && first[i] == id;
    forall j | 0 <= j < |rest| ensures rest[j] != id {
      assert (first + rest)[i] == id && (first + rest)[|first| + j] == rest[j];
    }
  }

  /** No id is listed by two reports when the concatenated lists have no repeats. */
  lemma {:induction false} ReportedByOne(reports: seq<ProbeReport>, k: nat, l: nat, id: DeviceId)
    requires k < |reports| && l < |reports|
    requires id in reports[k].discoveredIds && id in reports[l].discoveredIds
    requires NoRepeats(ReportedIds(reports))
    ensures k == l
  {
    var first, rest := reports[0].discoveredIds, ReportedIds(reports[1..]);
    var all := ReportedIds(reports);
    assert all == first + rest;
    if k > 0 && l > 0 {
      assert forall i :: 0 <= i < |rest| ==> rest[i] == all[|first| + i];
      ReportedByOne(reports[1..], k - 1, l - 1, id);
    } else if k != l {
      var other := if k > 0 then k else l;
      ReportedIncludes(reports[1..], other - 1, id);
      NotInBoth(first, rest, id);
    }
  }

  // ---------- the invariant ----------

  ghost predicate IdsMatch(ids: set<DeviceId>, devices: set<Descriptor>) {
    forall id :: id in ids <==> exists d :: d in devices && d.id == id
  }

  ghost predicate IndexMatches(index: Index, table: Table) {
    && (forall p, i :: p in index && i in index[p] <==> (p, i) in table)
    && (forall p, i :: (p, i) in table ==> IdsMatch(index[p][i], table[(p, i)]))
  }

  ghost predicate InTable(table: Table, d: Descriptor) {
    exists key :: key in table && d in table[key]
  }

  ghost predicate SnapshotIsUnion(devices: seq<Descriptor>, table: Table, stranded: set<Descriptor>) {
    forall d :: d in devices <==> d in stranded || InTable(table, d)
  }

  ghost predicate OwnedByNone(stranded: set<Descriptor>, table: Table) {
    forall key, d, e :: key in table && d in stranded && e in table[key] ==> d.id != e.id
  }

  ghost predicate OwnInterface(table: Table) {
    forall key, d :: key in table && d in table[key] ==> d.interface == key.1
  }

  ghost predicate OneOwner(table: Table) {
    forall key, other, d, e :: key in table && other in table && d in table[key] && e in table[other] && d.id == e.id
      ==> key == other
  }

  ghost predicate Mirrors(m: Mirror) {
    && AllValid(m.current.devices) && DistinctIds(m.current.devices)
    && IndexMatches(m.index, m.table)
    && SnapshotIsUnion(m.current.devices, m.table, m.stranded)
    && OwnedByNone(m.stranded, m.table)
    && OwnInterface(m.table)
    && OneOwner(m.table)
  }

  // ---------- recording a run ----------

  lemma {:induction false} RecordedElsewhere(index: Index, devices: Devices, reports: seq<ProbeReport>, p: string)
    requires forall k :: 0 <= k < |reports| && reports[k].Succeeded() ==> reports[k].probe != p
    ensures var after := RecordedReports(index, devices, reports);
      (p in after <==> p in index) && (p in after ==> after[p] == index[p])
    decreases |reports|
  {
    if reports != [] { RecordedElsewhere(index, devices, reports[..|reports| - 1], p); }
  }

  /** With distinct probe names, a probe's new entry comes from its own report and its old entry. */
  lemma {:induction false} RecordedAt(index: Index, devices: Devices, reports: seq<ProbeReport>, k: nat)
    requires DistinctNames(reports) && k < |reports| && reports[k].Succeeded()
    ensures var after, r := RecordedReports(index, devices, reports), reports[k];
      r.probe in after
      && after[r.probe]
         == RecordedEntry(EntryOf(index, r.probe), r.refreshedInterfaces, r.discoveredIds, devices)
    decreases |reports|
  {
    var n := |reports| - 1;
    if k < n {
      RecordedAt(index, devices, reports[..n], k);
    } else {
      RecordedElsewhere(index, devices, reports[..n], reports[k].probe);
    }
  }

  /** With a repeated name, the last successful report of that name makes the index forget, on every interface it
      refreshed, what earlier reports of the name found there. */
  lemma {:induction false} RepeatedNameForgets(
      index: Index, devices: Devices, reports: seq<ProbeReport>, k: nat, i: InterfaceKind)
    requires k < |reports| && reports[k].Succeeded() && i in reports[k].refreshedInterfaces
    requires forall l :: k < l < |reports| && reports[l].Succeeded() ==> reports[l].probe != reports[k].probe
    ensures IdsFor(RecordedReports(index, devices, reports), reports[k].probe, i)
      == Some(FoundIds(reports[k].discoveredIds, devices, i))
    decreases |reports|
  {
    var n := |reports| - 1;
    if k < n {
      RepeatedNameForgets(index, devices, reports[..n], k, i);
    } else {
      RefreshForgets(EntryOf(RecordedReports(index, devices, reports[..n]), reports[k].probe), reports[k], devices, i);
    }
  }

  lemma RefreshForgets(before: Entry, report: ProbeReport, devices: Devices, i: InterfaceKind)
    requires i in report.refreshedInterfaces
    ensures var entry := RecordedEntry(before, report.refreshedInterfaces, report.discoveredIds, devices);
      i in entry && entry[i] == FoundIds(report.discoveredIds, devices, i)
  {
  }

  lemma NameIdentifiesReport(reports: seq<ProbeReport>, k: nat, r: ProbeReport)
    requires DistinctNames(reports) && k < |reports| && r in reports && r.probe == reports[k].probe
    ensures r == reports[k]
  {
  }

  lemma ByIdMembers(devices: seq<Descriptor>)
    requires DistinctIds(devices)
    ensures forall d :: d in devices ==> d.id in ById(devices) && ById(devices)[d.id] == d
    ensures forall id :: id in ById(devices) ==> ById(devices)[id] in devices && ById(devices)[id].id == id
  {
  }

  lemma ReportedRefresh(run: RunReport, k: nat, i: InterfaceKind)
    requires WellFormed(run) && k < |run.probeReports| && run.probeReports[k].Succeeded()
    ensures var r := run.probeReports[k];
      Refreshed(run, (r.probe, i)) <==> i in r.refreshedInterfaces
  {
  }

  lemma ReportedFinds(run: RunReport, k: nat, i: InterfaceKind, d: Descriptor)
    requires WellFormed(run) && k < |run.probeReports| && run.probeReports[k].Succeeded()
    ensures var r := run.probeReports[k];
      d in FoundIn(run, (r.probe, i)) <==> d in run.snapshot.devices && d.interface == i && d.id in r.discoveredIds
  {
  }

  lemma ReportedIdsMatch(run: RunReport, k: nat, i: InterfaceKind)
    requires WellFormed(run) && k < |run.probeReports| && run.probeReports[k].Succeeded()
    ensures var r := run.probeReports[k];
      IdsMatch(FoundIds(r.discoveredIds, ById(run.snapshot.devices), i), FoundIn(run, (r.probe, i)))
  {
    var r, devices := run.probeReports[k], ById(run.snapshot.devices);
    var ids, found := FoundIds(r.discoveredIds, devices, i), FoundIn(run, (r.probe, i));
    ByIdMembers(run.snapshot.devices);
    forall id ensures id in ids <==> exists d :: d in found && d.id == id {
      if id in ids {
        ReportedFinds(run, k, i, devices[id]);
        assert devices[id] in found;
      }
      if d :| d in found && d.id == id {
        ReportedFinds(run, k, i, d);
      }
    }
  }

  lemma ReportedTouched(run: RunReport, k: nat, i: InterfaceKind)
    requires WellFormed(run) && k < |run.probeReports| && run.probeReports[k].Succeeded()
    ensures var r := run.probeReports[k];
      (r.probe, i) in TouchedKeys(run) <==>
        i in r.refreshedInterfaces || i in FoundInterfaces(r.discoveredIds, ById(run.snapshot.devices))
  {
    var r, devices := run.probeReports[k], ById(run.snapshot.devices);
    var key := (r.probe, i);
    assert r in run.probeReports;
    ByIdMembers(run.snapshot.devices);
    if i in FoundInterfaces(r.discoveredIds, devices) {
      var id :| id in r.discoveredIds && id in devices && devices[id].interface == i;
      assert devices[id] in run.snapshot.devices && devices[id].id in r.discoveredIds;
      assert (r.probe, devices[id].interface) in TouchedKeys(run);
    }
    if i in r.refreshedInterfaces {
      assert key in TouchedKeys(run);
    }
    if key in TouchedKeys(run) {
      forall q | q in run.probeReports && q.probe == r.probe ensures q == r {
        NameIdentifiesReport(run.probeReports, k, q);
      }
      if i !in r.refreshedInterfaces {
        var q, d :| q in run.probeReports && q.Succeeded() && d in run.snapshot.devices
          && d.id in q.discoveredIds && (q.probe, d.interface) == key;
        assert devices[d.id].interface in FoundInterfaces(r.discoveredIds, devices);
      }
    }
  }

  /** A run leaves alone whatever belongs to a probe without a successful report. */
  lemma UnreportedKey(run: RunReport, p: string, i: InterfaceKind)
    requires forall k :: 0 <= k < |run.probeReports| && run.probeReports[k].Succeeded() ==>
      run.probeReports[k].probe != p
    ensures !Refreshed(run, (p, i)) && (p, i) !in TouchedKeys(run) && FoundIn(run, (p, i)) == {}
  {
  }

  lemma IdsMatchUnion(
      ids: set<DeviceId>, devices: set<Descriptor>, moreIds: set<DeviceId>, moreDevices: set<Descriptor>)
    requires IdsMatch(ids, devices) && IdsMatch(moreIds, moreDevices)
    ensures IdsMatch(ids + moreIds, devices + moreDevices)
  {
  }

  lemma IndexStepReported(m: Mirror, run: RunReport, k: nat, i: InterfaceKind)
    requires WellFormed(run) && IndexMatches(m.index, m.table)
    requires k < |run.probeReports| && run.probeReports[k].Succeeded()
    ensures
      var r := run.probeReports[k];
      var devices := ById(run.snapshot.devices);
      var entry := RecordedEntry(EntryOf(m.index, r.probe), r.refreshedInterfaces, r.discoveredIds, devices);
      var key, table := (r.probe, i), TableAfter(m.table, run);
      && (i in entry <==> key in table)
      && (key in table ==> IdsMatch(entry[i], table[key]))
  {
    var r := run.probeReports[k];
    var key, before := (r.probe, i), EntryOf(m.index, r.probe);
    ReportedRefresh(run, k, i);
    ReportedIdsMatch(run, k, i);
    ReportedTouched(run, k, i);
    assert i in before <==> key in m.table;
    var keptIds := if i in r.refreshedInterfaces then {} else Owned(before, i);
    var kept := if Refreshed(run, key) then {} else DevicesAt(m.table, key);
    assert IdsMatch(keptIds, kept);
    IdsMatchUnion(keptIds, kept, FoundIds(r.discoveredIds, ById(run.snapshot.devices), i), FoundIn(run, key));
  }

  lemma IndexStepAt(m: Mirror, run: RunReport, p: string, i: InterfaceKind)
    requires WellFormed(run) && IndexMatches(m.index, m.table)
    ensures
      var index, table := IndexAfter(m.index, run), TableAfter(m.table, run);
      && (p in index && i in index[p] <==> (p, i) in table)
      && ((p, i) in table ==> IdsMatch(index[p][i], table[(p, i)]))
  {
    var devices, reports := ById(run.snapshot.devices), run.probeReports;
    if k :| 0 <= k < |reports| && reports[k].Succeeded() && reports[k].probe == p {
      RecordedAt(m.index, devices, reports, k);
      IndexStepReported(m, run, k, i);
    } else {
      RecordedElsewhere(m.index, devices, reports, p);
      UnreportedKey(run, p, i);
      assert (p, i) in m.table ==> TableAfter(m.table, run)[(p, i)] == m.table[(p, i)];
    }
  }

  lemma IndexStep(m: Mirror, run: RunReport)
    requires WellFormed(run) && IndexMatches(m.index, m.table)
    ensures IndexMatches(IndexAfter(m.index, run), TableAfter(m.table, run))
  {
    var index, table := IndexAfter(m.index, run), TableAfter(m.table, run);
    forall p, i
      ensures p in index && i in index[p] <==> (p, i) in table
      ensures (p, i) in table ==> IdsMatch(index[p][i], table[(p, i)])
    {
      IndexStepAt(m, run, p, i);
    }
  }

  // ---------- merging a run ----------

  /** A device of the table is dropped by the merge exactly when its own pair was refreshed. */
  lemma KeptUnlessRefreshed(m: Mirror, run: RunReport, key: (string, InterfaceKind), d: Descriptor)
    requires Mirrors(m) && key in m.table && d in m.table[key]
    ensures WasReplaced(m.index, d.id, d.interface, run.probeReports) <==> Refreshed(run, key)
  {
  }

  /** No merge drops a stranded device. */
  lemma StrandedIsKept(m: Mirror, run: RunReport, d: Descriptor)
    requires Mirrors(m) && d in m.stranded
    ensures !WasReplaced(m.index, d.id, d.interface, run.probeReports)
  {
  }

  /** What a merge keeps is what the run does not refresh. */
  lemma RetainedIsUnrefreshed(m: Mirror, run: RunReport, d: Descriptor)
    requires Mirrors(m)
    ensures d in Retained(m.index, m.current.devices, run.probeReports) <==> d in Unrefreshed(m, run)
  {
    if d in m.stranded {
      StrandedIsKept(m, run, d);
    } else if d in m.current.devices {
      var key :| key in m.table && d in m.table[key];
      KeptUnlessRefreshed(m, run, key, d);
      if d in Unrefreshed(m, run) {
        var other :| other in m.table && d in m.table[other] && !Refreshed(run, other);
        KeptUnlessRefreshed(m, run, other, d);
      }
    }
  }

  lemma FoundBySomeProbe(run: RunReport, d: Descriptor)
    requires WellFormed(run) && d in run.snapshot.devices
    ensures exists key :: key in TouchedKeys(run) && d in FoundIn(run, key)
  {
    var reports := run.probeReports;
    var i :| 0 <= i < |run.snapshot.devices| && run.snapshot.devices[i] == d;
    assert Ids(run.snapshot.devices)[i] == d.id;
    ReportedBySome(reports, d.id);
    var k :| 0 <= k < |reports| && d.id in reports[k].discoveredIds;
    assert reports[k] in reports && reports[k].Succeeded();
    assert d in FoundIn(run, (reports[k].probe, d.interface));
  }

  /** A device that stays in the table under its key: kept from before, or found by the run. */
  lemma TableEntry(m: Mirror, run: RunReport, key: (string, InterfaceKind), d: Descriptor)
    requires Mirrors(m)
    ensures key in TableAfter(m.table, run) && d in TableAfter(m.table, run)[key] <==>
      (d in DevicesAt(m.table, key) && !Refreshed(run, key)) || (key in TouchedKeys(run) && d in FoundIn(run, key))
  {
  }

  /** What a merge gives is in the new table or stranded. */
  lemma MergedIsInTable(m: Mirror, run: RunReport, d: Descriptor)
    requires Mirrors(m) && WellFormed(run)
    requires d in Retained(m.index, m.current.devices, run.probeReports) || d in run.snapshot.devices
    ensures d in m.stranded || InTable(TableAfter(m.table, run), d)
  {
    if d in run.snapshot.devices {
      FoundBySomeProbe(run, d);
      var key :| key in TouchedKeys(run) && d in FoundIn(run, key);
      TableEntry(m, run, key, d);
    } else if d !in m.stranded {
      RetainedIsUnrefreshed(m, run, d);
      var key :| key in m.table && d in m.table[key] && !Refreshed(run, key);
      TableEntry(m, run, key, d);
    }
  }

  lemma TableIsMerged(m: Mirror, run: RunReport, key: (string, InterfaceKind), d: Descriptor)
    requires Mirrors(m) && key in TableAfter(m.table, run) && d in TableAfter(m.table, run)[key]
    ensures d in Retained(m.index, m.current.devices, run.probeReports) || d in run.snapshot.devices
  {
    TableEntry(m, run, key, d);
    RetainedIsUnrefreshed(m, run, d);
  }

  lemma UnionStep(m: Mirror, run: RunReport)
    requires Mirrors(m) && WellFormed(run)
    ensures SnapshotIsUnion(
      Retained(m.index, m.current.devices, run.probeReports) + run.snapshot.devices,
      TableAfter(m.table, run), m.stranded)
  {
    var merged := Retained(m.index, m.current.devices, run.probeReports) + run.snapshot.devices;
    forall d ensures d in merged <==> d in m.stranded || InTable(TableAfter(m.table, run), d) {
      if d in merged {
        MergedIsInTable(m, run, d);
      } else if d in m.stranded {
        RetainedIsUnrefreshed(m, run, d);
      } else if key :| key in TableAfter(m.table, run) && d in TableAfter(m.table, run)[key] {
        TableIsMerged(m, run, key, d);
      }
    }
  }

  lemma FoundByOneProbe(run: RunReport, key: (string, InterfaceKind), other: (string, InterfaceKind), d: Descriptor)
    requires WellFormed(run) && d in FoundIn(run, key) && d in FoundIn(run, other)
    ensures key == other
  {
    var reports := run.probeReports;
    var r :| r in reports && r.Succeeded() && r.probe == key.0 && d.id in r.discoveredIds;
    var q :| q in reports && q.Succeeded() && q.probe == other.0 && d.id in q.discoveredIds;
    var k :| 0 <= k < |reports| && reports[k] == r;
    var l :| 0 <= l < |reports| && reports[l] == q;
    ReportedByOne(reports, k, l, d.id);
  }

  lemma NotRetainedAndFound(retained: seq<Descriptor>, found: seq<Descriptor>, d: Descriptor, e: Descriptor)
    requires DistinctIds(retained + found) && d in retained && e in found
    ensures d.id != e.id
  {
    var i :| 0 <= i < |retained| && retained[i] == d;
    var j :| 0 <= j < |found| && found[j] == e;
    assert (retained + found)[i] == d && (retained + found)[|retained| + j] == e;
  }

  lemma OwnedByNoneStep(m: Mirror, run: RunReport)
    requires Mirrors(m) && WellFormed(run)
    requires DistinctIds(Retained(m.index, m.current.devices, run.probeReports) + run.snapshot.devices)
    ensures OwnedByNone(m.stranded, TableAfter(m.table, run))
  {
    var retained, table := Retained(m.index, m.current.devices, run.probeReports), TableAfter(m.table, run);
    forall key, d: Descriptor, e: Descriptor | key in table && d in m.stranded && e in table[key]
      ensures d.id != e.id
    {
      RetainedIsUnrefreshed(m, run, d);
      TableEntry(m, run, key, e);
      if e in FoundIn(run, key) { NotRetainedAndFound(retained, run.snapshot.devices, d, e); }
    }
  }

  lemma OneOwnerStep(m: Mirror, run: RunReport)
    requires Mirrors(m) && WellFormed(run)
    requires DistinctIds(Retained(m.index, m.current.devices, run.probeReports) + run.snapshot.devices)
    ensures OneOwner(TableAfter(m.table, run))
  {
    var retained, table := Retained(m.index, m.current.devices, run.probeReports), TableAfter(m.table, run);
    var merged := retained + run.snapshot.devices;
    UnionStep(m, run);
    forall key, other, d: Descriptor, e: Descriptor |
      key in table && other in table && d in table[key] && e in table[other] && d.id == e.id
      ensures key == other
    {
      assert d in merged && e in merged;
      assert d == e;
      TableEntry(m, run, key, d);
      TableEntry(m, run, other, d);
      if d in FoundIn(run, key) && d in FoundIn(run, other) {
        FoundByOneProbe(run, key, other, d);
      } else if d in FoundIn(run, key) {
        KeptUnlessRefreshed(m, run, other, d);
        NotRetainedAndFound(retained, run.snapshot.devices, d, d);
      } else if d in FoundIn(run, other) {
        KeptUnlessRefreshed(m, run, key, d);
        NotRetainedAndFound(retained, run.snapshot.devices, d, d);
      }
    }
  }

  lemma OwnInterfaceStep(m: Mirror, run: RunReport)
    requires OwnInterface(m.table)
    ensures OwnInterface(TableAfter(m.table, run))
  {
  }

  /** A merge succeeds exactly if old and new devices together are sound, and then just joins them; the
      run's time of observation counts if it has one. */
  lemma MergeMeaning(index: Index, current: Snapshot, run: RunReport)
    ensures
      var joined := Retained(index, current.devices, run.probeReports) + run.snapshot.devices;
      && (Merge(index, current, run).Ok? <==> AllValid(joined) && DistinctIds(joined))
      && (Merge(index, current, run).Ok? ==>
            var merged := Merge(index, current, run).value;
            && merged.devices == joined
            && merged.observedAt
               == if run.snapshot.observedAt.Some? then run.snapshot.observedAt else current.observedAt)
  {
  }

  /** An incremental refresh keeps snapshot, index and table in agreement. */
  lemma IncrementalKeepsMirrors(m: Mirror, run: RunReport)
    requires Mirrors(m) && WellFormed(run) && Fold(m, run, Incremental).Ok?
    ensures Mirrors(Fold(m, run, Incremental).value)
  {
    MergeMeaning(m.index, m.current, run);
    IndexStep(m, run);
    UnionStep(m, run);
    OwnInterfaceStep(m, run);
    OneOwnerStep(m, run);
    OwnedByNoneStep(m, run);
  }

  lemma EmptyMirrors()
    ensures Mirrors(EMPTY)
  {
  }

  lemma FreshFold(run: RunReport)
    requires WellFormed(run)
    ensures Fold(EMPTY, run, Incremental).Ok?
    ensures Fold(EMPTY, run, Incremental).value.current.devices == run.snapshot.devices
  {
    MergeMeaning(EMPTY.index, EMPTY.current, run);
    assert Retained(EMPTY.index, EMPTY.current.devices, run.probeReports) + run.snapshot.devices
      == run.snapshot.devices;
  }

  /** Agreement looks at the devices alone. */
  lemma SameDevicesMirror(m: Mirror, current: Snapshot)
    requires Mirrors(m) && current.devices == m.current.devices
    ensures Mirrors(m.(current := current))
  {
  }

  /** A run alone gives an index and a table that agree with its snapshot. */
  lemma FreshMirrors(run: RunReport)
    requires WellFormed(run)
    ensures Mirrors(Mirror(run.snapshot, IndexAfter(map[], run), TableAfter(map[], run), {}))
  {
    EmptyMirrors();
    FreshFold(run);
    IncrementalKeepsMirrors(EMPTY, run);
    SameDevicesMirror(Fold(EMPTY, run, Incremental).value, run.snapshot);
  }

  /** A full refresh with a failed probe: what it retains is stranded. */
  lemma FailedFullKeepsMirrors(m: Mirror, run: RunReport)
    requires Mirrors(m) && WellFormed(run) && HasProbeFailures(run) && Fold(m, run, Full).Ok?
    ensures Mirrors(Fold(m, run, Full).value)
  {
    var retained, table := Retained(m.index, m.current.devices, run.probeReports), TableAfter(map[], run);
    MergeMeaning(m.index, m.current, run);
    FreshMirrors(run);
    forall d ensures d in retained <==> d in Unrefreshed(m, run) { RetainedIsUnrefreshed(m, run, d); }
    forall key, d: Descriptor, e: Descriptor | key in table && d in Unrefreshed(m, run) && e in table[key]
      ensures d.id != e.id
    {
      assert d in retained && e in run.snapshot.devices;
      NotRetainedAndFound(retained, run.snapshot.devices, d, e);
    }
  }

  /** A full refresh without failed probes forgets everything known before. */
  lemma FullStartsAfresh(m: Mirror, run: RunReport)
    requires WellFormed(run) && !HasProbeFailures(run)
    ensures Fold(m, run, Full).Ok?
    ensures var after := Fold(m, run, Full).value;
      Mirrors(after) && after.current == run.snapshot && after.stranded == {}
  {
    FreshMirrors(run);
  }

  /** Every refresh, full or incremental, keeps snapshot, index and table in agreement. */
  lemma FoldKeepsMirrors(m: Mirror, run: RunReport, mode: RefreshMode)
    requires Mirrors(m) && WellFormed(run) && Fold(m, run, mode).Ok?
    ensures Mirrors(Fold(m, run, mode).value)
  {
    if mode.Incremental? {
      IncrementalKeepsMirrors(m, run);
    } else if HasProbeFailures(run) {
      FailedFullKeepsMirrors(m, run);
    } else {
      FullStartsAfresh(m, run);
    }
  }

  /** The run finds an id of a known device that it does not refresh: of a stranded one, or of one that belongs to
      a pair the run did not refresh. */
  ghost predicate FindsForeignId(m: Mirror, run: RunReport) {
    exists d, e :: d in Unrefreshed(m, run) && e in run.snapshot.devices && d.id == e.id
  }

  lemma RepeatAcross(retained: seq<Descriptor>, found: seq<Descriptor>, d: Descriptor, e: Descriptor)
    requires d in retained && e in found && d.id == e.id
    ensures !DistinctIds(retained + found)
  {
    var i :| 0 <= i < |retained| && retained[i] == d;
    var j :| 0 <= j < |found| && found[j] == e;
    assert (retained + found)[i] == d && (retained + found)[|retained| + j] == e;
  }

  lemma SharedId(retained: seq<Descriptor>, found: seq<Descriptor>) returns (d: Descriptor, e: Descriptor)
    requires DistinctIds(retained) && DistinctIds(found) && !DistinctIds(retained + found)
    ensures d in retained && e in found && d.id == e.id
  {
    var all := retained + found;
    var i, j :| 0 <= i < j < |all| && all[i].id == all[j].id;
    assert i < |retained| <= j;
    return retained[i], found[j - |retained|];
  }

  lemma RepeatIsForeignId(m: Mirror, run: RunReport)
    requires Mirrors(m) && WellFormed(run)
    requires !DistinctIds(Retained(m.index, m.current.devices, run.probeReports) + run.snapshot.devices)
    ensures FindsForeignId(m, run)
  {
    var retained, found := Retained(m.index, m.current.devices, run.probeReports), run.snapshot.devices;
    RetainedStaysSound(m.index, m.current.devices, run.probeReports);
    var d, e := SharedId(retained, found);
    RetainedIsUnrefreshed(m, run, d);
  }

  lemma ForeignIdIsRepeat(m: Mirror, run: RunReport)
    requires Mirrors(m) && FindsForeignId(m, run)
    ensures !DistinctIds(Retained(m.index, m.current.devices, run.probeReports) + run.snapshot.devices)
  {
    var d, e :| d in Unrefreshed(m, run) && e in run.snapshot.devices && d.id == e.id;
    RetainedIsUnrefreshed(m, run, d);
    RepeatAcross(Retained(m.index, m.current.devices, run.probeReports), run.snapshot.devices, d, e);
  }

  /** The merge fails exactly when the run finds an id of a known device that it does not refresh. */
  lemma MergeFailsIffForeignId(m: Mirror, run: RunReport)
    requires Mirrors(m) && WellFormed(run)
    ensures Merge(m.index, m.current, run).Err? <==> FindsForeignId(m, run)
  {
    var retained := Retained(m.index, m.current.devices, run.probeReports);
    MergeMeaning(m.index, m.current, run);
    RetainedStaysSound(m.index, m.current.devices, run.probeReports);
    assert AllValid(retained + run.snapshot.devices);
    if FindsForeignId(m, run) {
      ForeignIdIsRepeat(m, run);
    } else if !DistinctIds(retained + run.snapshot.devices) {
      RepeatIsForeignId(m, run);
    }
  }

  /** The index owns every device of the snapshot exactly if none is stranded. */
  lemma AllOwnedIffNoneStranded(m: Mirror)
    requires Mirrors(m)
    ensures m.stranded == {} <==>
      forall d :: d in m.current.devices ==> exists p, i :: p in m.index && i in m.index[p] && d.id in m.index[p][i]
  {
    if m.stranded == {} {
      forall d | d in m.current.devices
        ensures exists p, i :: p in m.index && i in m.index[p] && d.id in m.index[p][i]
      {
        var key :| key in m.table && d in m.table[key];
        assert (key.0, key.1) in m.table;
        assert d.id in m.index[key.0][key.1];
      }
    } else {
      var d :| d in m.stranded;
      assert d in m.current.devices;
      forall p, i | (p, i) in m.table ensures d.id !in m.index[p][i] {
        assert IdsMatch(m.index[p][i], m.table[(p, i)]);
      }
    }
  }

  // ---------- what a refresh brings in ----------

  /** The ids that a report lists for devices on this interface. */
  function ReportedOn(run: RunReport, report: ProbeReport, i: InterfaceKind): set<DeviceId> {
    set d | d in run.snapshot.devices && d.interface == i && d.id in report.discoveredIds :: d.id
  }

  /** Snapshot and index after a refresh, in terms of the run: the snapshot holds what the run found and, unless the
      refresh is a full one without failed probes, what was known and not replaced; and the index answers for every
      refreshed pair with exactly the ids that were found there. */
  ghost predicate BringsIn(
      current: Snapshot, index: Index, mode: RefreshMode, run: RunReport, next: Snapshot, nextIndex: Index)
  {
    var merges := mode.Incremental? || exists r <- run.probeReports :: r.error.Some?;
    && (forall d :: d in next.devices <==>
          || d in run.snapshot.devices
          || (merges && d in current.devices && !WasReplaced(index, d.id, d.interface, run.probeReports)))
    && next.observedAt
       == (if merges && run.snapshot.observedAt.None? then current.observedAt else run.snapshot.observedAt)
    && (forall k, i :: 0 <= k < |run.probeReports| && AnswersAt(run, k, i) ==>
          IdsFor(nextIndex, run.probeReports[k].probe, i) == Some(ReportedOn(run, run.probeReports[k], i)))
  }

  /** Report `k` is successful and has refreshed the interface. */
  predicate AnswersAt(run: RunReport, k: nat, i: InterfaceKind)
    requires k < |run.probeReports|
  {
    run.probeReports[k].error.None? && i in run.probeReports[k].refreshedInterfaces
  }

  lemma ReportedOnIsFound(run: RunReport, report: ProbeReport, i: InterfaceKind)
    requires DistinctIds(run.snapshot.devices)
    ensures FoundIds(report.discoveredIds, ById(run.snapshot.devices), i) == ReportedOn(run, report, i)
  {
    ByIdMembers(run.snapshot.devices);
  }

  lemma IndexBringsIn(index: Index, run: RunReport, k: nat, i: InterfaceKind)
    requires WellFormed(run) && k < |run.probeReports| && AnswersAt(run, k, i)
    ensures IdsFor(IndexAfter(index, run), run.probeReports[k].probe, i)
      == Some(ReportedOn(run, run.probeReports[k], i))
  {
    RepeatedNameForgets(index, ById(run.snapshot.devices), run.probeReports, k, i);
    ReportedOnIsFound(run, run.probeReports[k], i);
  }

  /** What a served refresh brings in. */
  lemma FoldBringsIn(m: Mirror, run: RunReport, mode: RefreshMode)
    requires WellFormed(run) && Fold(m, run, mode).Ok?
    ensures var next := Fold(m, run, mode).value; BringsIn(m.current, m.index, mode, run, next.current, next.index)
  {
    var next := Fold(m, run, mode).value;
    MergeMeaning(m.index, m.current, run);
    forall k, i | 0 <= k < |run.probeReports| && AnswersAt(run, k, i)
      ensures IdsFor(next.index, run.probeReports[k].probe, i) == Some(ReportedOn(run, run.probeReports[k], i))
    {
      IndexBringsIn(if mode.Full? then map[] else m.index, run, k, i);
    }
  }

  /** The run found the device for this probe and interface. */
  predicate RunFinds(run: RunReport, probe: string, i: InterfaceKind, d: Descriptor) {
    && d in run.snapshot.devices && d.interface == i
    && exists r <- run.probeReports :: r.error.None? && r.probe == probe && d.id in r.discoveredIds
  }

  predicate RunRefreshes(run: RunReport, probe: string, i: InterfaceKind) {
    exists r <- run.probeReports :: r.error.None? && r.probe == probe && i in r.refreshedInterfaces
  }

  predicate InPair(table: Table, probe: string, i: InterfaceKind, d: Descriptor) {
    (probe, i) in table && d in table[(probe, i)]
  }

  /** The run refreshed the pair or found something there. */
  ghost predicate RunTouches(run: RunReport, probe: string, i: InterfaceKind) {
    RunRefreshes(run, probe, i) || exists d :: RunFinds(run, probe, i, d)
  }

  /** The pairs of the table after a refresh. */
  lemma FoldPairs(m: Mirror, run: RunReport, mode: RefreshMode, probe: string, i: InterfaceKind)
    requires Fold(m, run, mode).Ok?
    ensures (probe, i) in Fold(m, run, mode).value.table <==>
      RunTouches(run, probe, i) || ((probe, i) in m.table && mode.Incremental?)
  {
    if d :| RunFinds(run, probe, i, d) { assert (probe, i) in TouchedKeys(run); }
    if (probe, i) in TouchedKeys(run) && !RunRefreshes(run, probe, i) {
      var r, d :| r in run.probeReports && r.Succeeded() && d in run.snapshot.devices
        && d.id in r.discoveredIds && (r.probe, d.interface) == (probe, i);
      assert RunFinds(run, probe, i, d);
    }
  }

  /** A refresh puts into the table what its run finds, and keeps what it neither refreshes nor, being full,
      forgets. */
  lemma FoldTable(m: Mirror, run: RunReport, mode: RefreshMode, probe: string, i: InterfaceKind, d: Descriptor)
    requires Fold(m, run, mode).Ok?
    ensures InPair(Fold(m, run, mode).value.table, probe, i, d) <==>
      || RunFinds(run, probe, i, d)
      || (InPair(m.table, probe, i, d) && mode.Incremental? && !RunRefreshes(run, probe, i))
  {
    assert RunFinds(run, probe, i, d) <==> d in FoundIn(run, (probe, i));
    if RunFinds(run, probe, i, d) { assert (probe, i) in TouchedKeys(run); }
  }
}
