/** Running discovery probes: inline, or in round-robin batches on scoped worker threads. */
module ProbeRun {
  import opened Core
  import opened Inventory
  import opened Sorting

  datatype Context = Context(
    observedAt: Option<nat>,
    requestedInterfaces: set<InterfaceKind>,
    inlineProbeThreshold: Option<Usize>,
    maxParallelProbeWorkers: Option<Usize>
  ) {
    predicate Wants(interface: InterfaceKind) {
      requestedInterfaces == {} || interface in requestedInterfaces
    }
  }

  datatype ProbeDiscovery = ProbeDiscovery(devices: seq<Descriptor>, notes: seq<string>)

  /** `discover` depends on nothing but the context. */
  datatype Probe = Probe(
    name: string,
    interfaces: seq<InterfaceKind>,
    discover: Context -> Result<ProbeDiscovery, DiscoveryError>
  )

  datatype SelectedProbe = SelectedProbe(probe: Probe, refreshedInterfaces: seq<InterfaceKind>)

  datatype IndexedProbe = IndexedProbe(index: nat, selected: SelectedProbe)

  datatype ProbeResult = ProbeResult(
    index: nat,
    selected: SelectedProbe,
    discovery: Result<ProbeDiscovery, DiscoveryError>
  )

  datatype ProbeReport = ProbeReport(
    probe: string,
    interfaces: seq<InterfaceKind>,
    refreshedInterfaces: seq<InterfaceKind>,
    discoveredDevices: nat,
    discoveredIds: seq<DeviceId>,
    notes: seq<string>,
    error: Option<DiscoveryError>
  ) {
    predicate Succeeded() { error.None? }
  }

  datatype RunReport = RunReport(snapshot: Snapshot, probeReports: seq<ProbeReport>)

  // ---------- selection ----------

  function SelectedInterfaces(context: Context, interfaces: seq<InterfaceKind>): (r: seq<InterfaceKind>)
    ensures forall i :: i in r <==> i in interfaces && context.Wants(i)
  {
    if interfaces == [] then []
    else (if context.Wants(interfaces[0]) then [interfaces[0]] else [])
         + SelectedInterfaces(context, interfaces[1..])
  }

  /** A context that requests no interface in particular gets all of them. */
  lemma {:induction false} NoRequestSelectsAll(context: Context, interfaces: seq<InterfaceKind>)
    requires context.requestedInterfaces == {}
    ensures SelectedInterfaces(context, interfaces) == interfaces
  {
    if interfaces != [] {
      NoRequestSelectsAll(context, interfaces[1..]);
      assert interfaces == [interfaces[0]] + interfaces[1..];
    }
  }

  predicate WantsSome(context: Context, interfaces: seq<InterfaceKind>) {
    exists i <- interfaces :: context.Wants(i)
  }

  lemma SomeSelectedIffWanted(context: Context, interfaces: seq<InterfaceKind>)
    ensures SelectedInterfaces(context, interfaces) != [] <==> WantsSome(context, interfaces)
  {
    var selected := SelectedInterfaces(context, interfaces);
    if selected != [] { assert selected[0] in selected; }
  }

  /** A probe is selected if it has a wanted interface, and then for exactly its wanted interfaces. */
  function Selection(context: Context, probe: Probe): (r: seq<SelectedProbe>)
    ensures r == if WantsSome(context, probe.interfaces)
                 then [SelectedProbe(probe, SelectedInterfaces(context, probe.interfaces))] else []
  {
    var refreshed := SelectedInterfaces(context, probe.interfaces);
    SomeSelectedIffWanted(context, probe.interfaces);
    if refreshed == [] then [] else [SelectedProbe(probe, refreshed)]
  }

  function SelectProbes(context: Context, probes: seq<Probe>): (r: seq<SelectedProbe>)
    ensures forall s :: s in r ==>
      s.probe in probes && s.refreshedInterfaces == SelectedInterfaces(context, s.probe.interfaces)
  {
    if probes == [] then []
    else Selection(context, probes[0]) + SelectProbes(context, probes[1..])
  }

  /** Selection looks at one probe at a time and keeps their order. */
  lemma {:induction false} SelectionSplits(context: Context, first: seq<Probe>, second: seq<Probe>)
    ensures SelectProbes(context, first + second) == SelectProbes(context, first) + SelectProbes(context, second)
  {
    if first == [] {
      assert first + second == second;
    } else {
      assert (first + second)[1..] == first[1..] + second;
      SelectionSplits(context, first[1..], second);
      var head, rest := Selection(context, first[0]), SelectProbes(context, first[1..]);
      var end := SelectProbes(context, second);
      assert head + (rest + end) == (head + rest) + end;
    }
  }

  /** Each probe has its own place among the selected ones, if it is selected. */
  lemma SelectedIffWanted(context: Context, probes: seq<Probe>, k: nat)
    requires k < |probes|
    ensures SelectProbes(context, probes)
      == SelectProbes(context, probes[..k]) + Selection(context, probes[k]) + SelectProbes(context, probes[k + 1..])
  {
    assert probes == probes[..k] + probes[k..];
    assert probes[k..][1..] == probes[k + 1..];
    SelectionSplits(context, probes[..k], probes[k..]);
  }

  // ---------- running the selected probes ----------

  function RunOne(context: Context): IndexedProbe -> ProbeResult {
    (p: IndexedProbe) => ProbeResult(p.index, p.selected, p.selected.probe.discover(context))
  }

  function Enumerate(selected: seq<SelectedProbe>): seq<IndexedProbe> {
    seq(|selected|, i requires 0 <= i < |selected| => IndexedProbe(i, selected[i]))
  }

  /** What running the probes one after the other gives. */
  function SequentialResults(context: Context, selected: seq<SelectedProbe>): seq<ProbeResult> {
    Map(RunOne(context), Enumerate(selected))
  }

  const DEFAULT_INLINE_PROBE_THRESHOLD: nat := 2
  const DEFAULT_MAX_PARALLEL_PROBE_WORKERS: nat := 4

  function InlineThreshold(context: Context): nat {
    match context.inlineProbeThreshold
    case Some(threshold) => threshold
    case None => DEFAULT_INLINE_PROBE_THRESHOLD
  }

  function WorkerLimit(context: Context): nat {
    match context.maxParallelProbeWorkers
    case Some(limit) => limit
    case None => DEFAULT_MAX_PARALLEL_PROBE_WORKERS
  }

  /** One worker up to the inline threshold; above it the least of probes, processors and limit, and at least
      one. */
  function ParallelWorkerCount(context: Context, selectedCount: nat, availableParallelism: nat): (workers: nat)
    requires availableParallelism > 0
    ensures selectedCount <= InlineThreshold(context) ==> workers == 1
    ensures InlineThreshold(context) < selectedCount ==>
      && 1 <= workers <= selectedCount && workers <= availableParallelism
      && (workers == 1 || workers <= WorkerLimit(context))
      && (workers in {selectedCount, availableParallelism, WorkerLimit(context)} || WorkerLimit(context) == 0)
  {
    if selectedCount <= InlineThreshold(context) then 1 else
      var maxWorkers := if WorkerLimit(context) < 1 then 1 else WorkerLimit(context);
      var usable := if selectedCount < availableParallelism then selectedCount else availableParallelism;
      if usable < maxWorkers then usable else maxWorkers
  }

  function Flatten<T>(batches: seq<seq<T>>): seq<T> {
    if batches == [] then [] else batches[0] + Flatten(batches[1..])
  }

  lemma {:induction false} FlattenPush<T>(batches: seq<seq<T>>, w: nat, x: T)
    requires w < |batches|
    ensures multiset(Flatten(batches[w := batches[w] + [x]])) == multiset(Flatten(batches)) + multiset([x])
  {
    var pushed := batches[w := batches[w] + [x]];
    if w == 0 {
      assert pushed[1..] == batches[1..];
    } else {
      assert pushed[1..] == batches[1..][w - 1 := batches[1..][w - 1] + [x]];
      FlattenPush(batches[1..], w - 1, x);
    }
  }

  lemma {:induction false} FlattenEmpty<T>(batches: seq<seq<T>>)
    requires forall w :: 0 <= w < |batches| ==> batches[w] == []
    ensures Flatten(batches) == []
  {
    if batches != [] { FlattenEmpty(batches[1..]); }
  }

  lemma AtLeastOneTimes(k: int, n: nat)
    requires k >= 1
    ensures k * n >= n
  {
  }

  lemma DivModUnique(i: nat, n: nat, q: nat, r: nat)
    requires i == q * n + r && r < n
    ensures i / n == q && i % n == r
  {
    var q', r' := i / n, i % n;
    assert q * n - q' * n == (q - q') * n;
    if q' < q {
      AtLeastOneTimes(q - q', n);
      assert false;
    } else if q < q' {
      AtLeastOneTimes(q' - q, n);
      assert false;
    }
  }

  /** How many of the first `i` probes are dealt to batch `w` of `n`. */
  function Share(w: nat, n: nat, i: nat): nat
    requires w < n
  {
    i / n + if w < i % n then 1 else 0
  }

  lemma ShareStep(w: nat, n: nat, i: nat)
    requires w < n
    ensures Share(w, n, i + 1) == Share(w, n, i) + if w == i % n then 1 else 0
  {
    var q, r := i / n, i % n;
    if r + 1 < n {
      DivModUnique(i + 1, n, q, r + 1);
    } else {
      assert (q + 1) * n == q * n + n;
      DivModUnique(i + 1, n, q + 1, 0);
    }
  }

  /** After dealing out the first `i` probes, batch `w` of `n` holds the probes `w`, `w + n`, `w + 2n`, ...
      below `i`, in this order. */
  ghost predicate Dealt(batch: seq<IndexedProbe>, w: nat, n: nat, selected: seq<SelectedProbe>, i: nat)
    requires w < n
  {
    && |batch| == Share(w, n, i)
    && forall j :: 0 <= j < |batch| ==>
         batch[j].index == w + j * n && batch[j].index < |selected| && batch[j].selected == selected[batch[j].index]
  }

  lemma DealtStart(n: nat, w: nat, selected: seq<SelectedProbe>)
    requires w < n
    ensures Dealt([], w, n, selected, 0)
  {
  }

  lemma DealtStep(batch: seq<IndexedProbe>, w: nat, n: nat, selected: seq<SelectedProbe>, i: nat)
    requires w < n && i < |selected| && Dealt(batch, w, n, selected, i)
    ensures w != i % n ==> Dealt(batch, w, n, selected, i + 1)
    ensures w == i % n ==> Dealt(batch + [IndexedProbe(i, selected[i])], w, n, selected, i + 1)
  {
    ShareStep(w, n, i);
    assert w == i % n ==> i == w + (i / n) * n && |batch| == i / n;
  }

  ghost predicate AllDealt(batches: seq<seq<IndexedProbe>>, selected: seq<SelectedProbe>, i: nat) {
    && i <= |selected|
    && (forall w :: 0 <= w < |batches| ==> Dealt(batches[w], w, |batches|, selected, i))
    && multiset(Flatten(batches)) == multiset(Enumerate(selected[..i]))
  }

  lemma AllDealtStep(batches: seq<seq<IndexedProbe>>, selected: seq<SelectedProbe>, i: nat)
    requires batches != [] && i < |selected| && AllDealt(batches, selected, i)
    ensures var w := i % |batches|;
      AllDealt(batches[w := batches[w] + [IndexedProbe(i, selected[i])]], selected, i + 1)
  {
    var n := |batches|;
    var w := i % n;
    var dealt := batches[w := batches[w] + [IndexedProbe(i, selected[i])]];
    forall v | 0 <= v < n ensures Dealt(dealt[v], v, n, selected, i + 1) {
      DealtStep(batches[v], v, n, selected, i);
    }
    FlattenPush(batches, w, IndexedProbe(i, selected[i]));
    assert Enumerate(selected[..i + 1]) == Enumerate(selected[..i]) + [IndexedProbe(i, selected[i])];
  }

  /** Probe number `i` goes to batch `i mod workerCount`; every batch keeps the probes in order. */
  method BuildProbeBatches(selected: seq<SelectedProbe>, workerCount: nat) returns (batches: seq<seq<IndexedProbe>>)
    requires workerCount > 0
    ensures |batches| == workerCount
    ensures AllDealt(batches, selected, |selected|)
  {
    batches := seq(workerCount, _ => []);
    FlattenEmpty(batches);
    forall w | 0 <= w < workerCount { DealtStart(workerCount, w, selected); }
    for i := 0 to |selected|
      invariant |batches| == workerCount
      invariant AllDealt(batches, selected, i)
    {
      AllDealtStep(batches, selected, i);
      var w := i % workerCount;
      batches := batches[w := batches[w] + [IndexedProbe(i, selected[i])]];
    }
  }

  function RunProbeBatch(context: Context, batch: seq<IndexedProbe>): seq<ProbeResult> {
    Map(RunOne(context), batch)
  }

  /** A worker that has produced `output` and has `pending` left will have run its whole batch. */
  ghost predicate OnTrack(
      context: Context, batch: seq<IndexedProbe>, pending: seq<IndexedProbe>, output: seq<ProbeResult>)
  {
    output + RunProbeBatch(context, pending) == RunProbeBatch(context, batch)
  }

  lemma StaysOnTrack(
      context: Context, batch: seq<IndexedProbe>, pending: seq<IndexedProbe>, output: seq<ProbeResult>)
    requires pending != [] && OnTrack(context, batch, pending, output)
    ensures OnTrack(context, batch, pending[1..], output + [RunOne(context)(pending[0])])
  {
  }

  /** The scoped workers. Any worker with probes left may take the next step, so the loop stands for
      every interleaving; the handles are joined in spawn order. */
  method RunWorkers(context: Context, batches: seq<seq<IndexedProbe>>) returns (outputs: seq<seq<ProbeResult>>)
    ensures |outputs| == |batches|
    ensures forall w :: 0 <= w < |batches| ==> outputs[w] == RunProbeBatch(context, batches[w])
  {
    var pending := batches;
    outputs := seq(|batches|, _ => []);
    while exists w :: 0 <= w < |pending| && pending[w] != []
      invariant |outputs| == |pending| == |batches|
      invariant forall w :: 0 <= w < |batches| ==> OnTrack(context, batches[w], pending[w], outputs[w])
      decreases |Flatten(pending)|
    {
      var worker :| 0 <= worker < |pending| && pending[worker] != [];
      StaysOnTrack(context, batches[worker], pending[worker], outputs[worker]);
      FlattenShrinks(pending, worker);
      outputs := outputs[worker := outputs[worker] + [RunOne(context)(pending[worker][0])]];
      pending := pending[worker := pending[worker][1..]];
    }
    forall w | 0 <= w < |batches| ensures outputs[w] == RunProbeBatch(context, batches[w]) {
      assert OnTrack(context, batches[w], pending[w], outputs[w]);
    }
  }

  lemma {:induction false} FlattenShrinks<T>(batches: seq<seq<T>>, w: nat)
    requires w < |batches| && batches[w] != []
    ensures |Flatten(batches[w := batches[w][1..]])| < |Flatten(batches)|
  {
    var popped := batches[w := batches[w][1..]];
    if w == 0 {
      assert popped[1..] == batches[1..];
    } else {
      assert popped[1..] == batches[1..][w - 1 := batches[1..][w - 1][1..]];
      FlattenShrinks(batches[1..], w - 1);
    }
  }

  predicate IndexAtMost(left: ProbeResult, right: ProbeResult) { left.index <= right.index }

  lemma {:induction false} FlattenRuns(
      context: Context, batches: seq<seq<IndexedProbe>>, outputs: seq<seq<ProbeResult>>)
    requires |outputs| == |batches|
    requires forall w :: 0 <= w < |batches| ==> outputs[w] == RunProbeBatch(context, batches[w])
    ensures Flatten(outputs) == Map(RunOne(context), Flatten(batches))
  {
    if batches != [] {
      FlattenRuns(context, batches[1..], outputs[1..]);
      MapConcat(RunOne(context), batches[0], Flatten(batches[1..]));
    }
  }

  /** Sorting by index the joined outputs of any partition of the probes gives the sequential results. */
  lemma {:induction false} JoinedAndSortedIsSequential(
      context: Context, selected: seq<SelectedProbe>,
      batches: seq<seq<IndexedProbe>>, outputs: seq<seq<ProbeResult>>)
    requires multiset(Flatten(batches)) == multiset(Enumerate(selected))
    requires |outputs| == |batches|
    requires forall w :: 0 <= w < |batches| ==> outputs[w] == RunProbeBatch(context, batches[w])
    ensures Sort(IndexAtMost, Flatten(outputs)) == SequentialResults(context, selected)
  {
    var expected := SequentialResults(context, selected);
    FlattenRuns(context, batches, outputs);
    MapPermutation(RunOne(context), Flatten(batches), Enumerate(selected));
    assert forall i :: 0 <= i < |expected| ==> expected[i].index == i;
    assert NoTies(IndexAtMost, expected);
    SortOfSorted(IndexAtMost, expected);
    SortForgetsOrder(IndexAtMost, expected, Flatten(outputs));
  }

  method RunSelectedProbesParallel(context: Context, selected: seq<SelectedProbe>, workerCount: nat)
    returns (results: seq<ProbeResult>)
    requires workerCount > 0
    ensures results == SequentialResults(context, selected)
  {
    var batches := BuildProbeBatches(selected, workerCount);
    var outputs := RunWorkers(context, batches);
    assert selected[..|selected|] == selected;
    JoinedAndSortedIsSequential(context, selected, batches, outputs);
    results := Sort(IndexAtMost, Flatten(outputs));
  }

  method RunSelectedProbes(context: Context, selected: seq<SelectedProbe>, availableParallelism: nat)
    returns (results: seq<ProbeResult>)
    requires availableParallelism > 0
    ensures results == SequentialResults(context, selected)
  {
    var workerCount := ParallelWorkerCount(context, |selected|, availableParallelism);
    if workerCount <= 1 {
      results := SequentialResults(context, selected);
    } else {
      results := RunSelectedProbesParallel(context, selected, workerCount);
    }
  }

  // ---------- folding the results into a report ----------

  datatype Gathered = Gathered(devices: seq<Descriptor>, reports: seq<ProbeReport>)

  function FirstInvalid(probe: string, devices: seq<Descriptor>): (fault: Option<DiscoveryError>)
    ensures fault.None? <==> AllValid(devices)
    ensures fault.Some? ==>
      exists k :: 0 <= k < |devices| && AllValid(devices[..k]) && !devices[k].Valid()
        && fault.value == InvalidDescriptor(probe, devices[k].id, devices[k].Validate().value)
  {
    if devices == [] then None else
      var n := |devices| - 1;
      var front := devices[..n];
      assert forall k :: 0 <= k <= n ==> front[..k] == devices[..k];
      var earlier := FirstInvalid(probe, front);
      if earlier.Some? then earlier
      else if !devices[n].Valid() then Some(InvalidDescriptor(probe, devices[n].id, devices[n].Validate().value))
      else None
  }

  function FoundBy(result: ProbeResult): seq<Descriptor> {
    match result.discovery
    case Ok(discovery) => discovery.devices
    case Err(_) => []
  }

  function ReportOf(result: ProbeResult): ProbeReport {
    var selected := result.selected;
    match result.discovery
    case Ok(discovery) =>
      ProbeReport(selected.probe.name, selected.probe.interfaces, selected.refreshedInterfaces,
                  |discovery.devices|, Ids(discovery.devices), discovery.notes, None)
    case Err(error) =>
      ProbeReport(selected.probe.name, selected.probe.interfaces, selected.refreshedInterfaces,
                  0, [], [], Some(error))
  }

  /** All devices found by the probes that did not fail, in probe order. */
  function Found(results: seq<ProbeResult>): seq<Descriptor> {
    Flatten(Map(FoundBy, results))
  }

  function Gather(results: seq<ProbeResult>): Result<Gathered, DiscoveryError> {
    if results == [] then Ok(Gathered([], [])) else
      var n := |results| - 1;
      match Gather(results[..n])
      case Err(fault) => Err(fault)
      case Ok(g) =>
        match FirstInvalid(results[n].selected.probe.name, FoundBy(results[n]))
        case Some(fault) => Err(fault)
        case None => Ok(Gathered(g.devices + FoundBy(results[n]), g.reports + [ReportOf(results[n])]))
  }

  lemma {:induction false} GatherOneMore(results: seq<ProbeResult>, i: nat)
    requires i < |results| && Gather(results[..i]).Ok?
    ensures
      var g, result := Gather(results[..i]).value, results[i];
      Gather(results[..i + 1]) ==
        match FirstInvalid(result.selected.probe.name, FoundBy(result))
        case Some(fault) => Err(fault)
        case None => Ok(Gathered(g.devices + FoundBy(result), g.reports + [ReportOf(result)]))
  {
    assert results[..i + 1][..i] == results[..i];
  }

  lemma {:induction false} GatherStopsAtFault(results: seq<ProbeResult>, k: nat)
    requires k <= |results| && Gather(results[..k]).Err?
    ensures Gather(results) == Gather(results[..k])
    decreases |results|
  {
    if k < |results| {
      var front := results[..|results| - 1];
      assert front[..k] == results[..k];
      GatherStopsAtFault(front, k);
    } else {
      assert results[..k] == results;
    }
  }

  lemma {:induction false} FlattenSnoc<T>(batches: seq<seq<T>>, last: seq<T>)
    ensures Flatten(batches + [last]) == Flatten(batches) + last
  {
    if batches != [] {
      assert (batches + [last])[1..] == batches[1..] + [last];
      FlattenSnoc(batches[1..], last);
    } else {
      assert (batches + [last])[1..] == [];
    }
  }

  /** A run is gathered exactly when every found descriptor is valid, and then holds every found
      device and one report for each selected probe, in probe order. */
  lemma {:induction false} GatherMeaning(results: seq<ProbeResult>)
    ensures Gather(results).Ok? <==> AllValid(Found(results))
    ensures Gather(results).Ok? ==> Gather(results).value == Gathered(Found(results), Map(ReportOf, results))
    decreases |results|
  {
    if results != [] {
      var n := |results| - 1;
      GatherMeaning(results[..n]);
      FoundSnoc(results[..n], results[n]);
      assert results == results[..n] + [results[n]];
      AllValidConcat(Found(results[..n]), FoundBy(results[n]));
    }
  }

  lemma FoundSnoc(front: seq<ProbeResult>, last: ProbeResult)
    ensures Found(front + [last]) == Found(front) + FoundBy(last)
  {
    MapConcat(FoundBy, front, [last]);
    assert Map(FoundBy, [last]) == [FoundBy(last)];
    FlattenSnoc(Map(FoundBy, front), FoundBy(last));
  }

  lemma AllValidConcat(first: seq<Descriptor>, second: seq<Descriptor>)
    ensures AllValid(first + second) <==> AllValid(first) && AllValid(second)
  {
    var all := first + second;
    assert forall k :: 0 <= k < |first| ==> all[k] == first[k];
    assert forall k :: 0 <= k < |second| ==> all[|first| + k] == second[k];
  }

  /** Adds one probe's outcome to the devices and reports collected so far. */
  method ProcessProbeResult(result: ProbeResult, devices: seq<Descriptor>, reports: seq<ProbeReport>)
    returns (fault: Option<DiscoveryError>, moreDevices: seq<Descriptor>, moreReports: seq<ProbeReport>)
    ensures fault == FirstInvalid(result.selected.probe.name, FoundBy(result))
    ensures fault.None? ==> moreDevices == devices + FoundBy(result) && moreReports == reports + [ReportOf(result)]
  {
    moreDevices, moreReports := devices, reports;
    match result.discovery {
      case Ok(discovery) =>
        var found := discovery.devices;
        for i := 0 to |found|
          invariant FirstInvalid(result.selected.probe.name, found[..i]).None?
        {
          assert found[..i + 1][..i] == found[..i];
          if !found[i].Valid() {
            FirstInvalidSticks(result.selected.probe.name, found, i + 1);
            fault := Some(InvalidDescriptor(result.selected.probe.name, found[i].id, found[i].Validate().value));
            return;
          }
        }
        assert found[..|found|] == found;
        moreDevices := devices + found;
        moreReports := reports + [ReportOf(result)];
      case Err(_) =>
        moreReports := reports + [ReportOf(result)];
    }
    fault := None;
  }

  lemma {:induction false} FirstInvalidSticks(probe: string, devices: seq<Descriptor>, k: nat)
    requires k <= |devices| && FirstInvalid(probe, devices[..k]).Some?
    ensures FirstInvalid(probe, devices) == FirstInvalid(probe, devices[..k])
    decreases |devices|
  {
    if k < |devices| {
      var front := devices[..|devices| - 1];
      assert front[..k] == devices[..k];
      FirstInvalidSticks(probe, front, k);
    } else {
      assert devices[..k] == devices;
    }
  }

  /** The outcome of a run: a function of the context and the probe list alone. */
  function RunOutcome(context: Context, probes: seq<Probe>): Result<RunReport, DiscoveryError> {
    match Gather(SequentialResults(context, SelectProbes(context, probes)))
    case Err(fault) => Err(fault)
    case Ok(g) =>
      match WithObservedAt(g.devices, context.observedAt)
      case Err(fault) => Err(fault)
      case Ok(snapshot) => Ok(RunReport(snapshot, g.reports))
  }

  /** Neither the worker count nor the interleaving of the workers shows in the outcome. */
  method RunProbes(context: Context, probes: seq<Probe>, availableParallelism: nat)
    returns (run: Result<RunReport, DiscoveryError>)
    requires availableParallelism > 0
    ensures run == RunOutcome(context, probes)
  {
    var selected := SelectProbes(context, probes);
    var devices: seq<Descriptor>, reports: seq<ProbeReport> := [], [];
    var results := RunSelectedProbes(context, selected, availableParallelism);
    for i := 0 to |results|
      invariant Gather(results[..i]) == Ok(Gathered(devices, reports))
    {
      GatherOneMore(results, i);
      var fault;
      fault, devices, reports := ProcessProbeResult(results[i], devices, reports);
      if fault.Some? {
        GatherStopsAtFault(results, i + 1);
        return Err(fault.value);
      }
    }
    assert results[..|results|] == results;
    match WithObservedAt(devices, context.observedAt) {
      case Err(fault) => return Err(fault);
      case Ok(snapshot) => return Ok(RunReport(snapshot, reports));
    }
  }

  function ReportedIds(reports: seq<ProbeReport>): seq<DeviceId> {
    if reports == [] then [] else reports[0].discoveredIds + ReportedIds(reports[1..])
  }

  lemma {:induction false} ReportsListFoundIds(results: seq<ProbeResult>)
    ensures ReportedIds(Map(ReportOf, results)) == Ids(Found(results))
  {
    if results != [] {
      assert Map(ReportOf, results)[1..] == Map(ReportOf, results[1..]);
      assert Map(FoundBy, results)[1..] == Map(FoundBy, results[1..]);
      ReportsListFoundIds(results[1..]);
    }
  }

  /** A report tells what its probe did: it names the probe and the wanted interfaces, succeeds exactly if
      `discover` did, and then gives its notes and the ids of exactly the devices found, or else its error. */
  ghost predicate Tells(report: ProbeReport, context: Context, probe: Probe) {
    var discovery := probe.discover(context);
    && report.probe == probe.name && report.interfaces == probe.interfaces
    && (forall i :: i in report.refreshedInterfaces <==> i in probe.interfaces && context.Wants(i))
    && (report.Succeeded() <==> discovery.Ok?)
    && |report.discoveredIds| == report.discoveredDevices
    && report.discoveredIds == (if discovery.Ok? then Ids(discovery.value.devices) else [])
    && report.notes == (if discovery.Ok? then discovery.value.notes else [])
    && report.error == (if discovery.Ok? then None else Some(discovery.error))
  }

  /** The reports of a run are those of the selected probes, in order. */
  lemma ReportsTellSelection(context: Context, probes: seq<Probe>)
    requires RunOutcome(context, probes).Ok?
    ensures var selected, reports := SelectProbes(context, probes), RunOutcome(context, probes).value.probeReports;
      |reports| == |selected| && forall k :: 0 <= k < |reports| ==> Tells(reports[k], context, selected[k].probe)
  {
    var selected := SelectProbes(context, probes);
    RunMeaning(context, probes);
    forall k | 0 <= k < |selected|
      ensures Tells(RunOutcome(context, probes).value.probeReports[k], context, selected[k].probe)
    {
      assert selected[k] in selected;
      ReportTells(context, IndexedProbe(k, selected[k]));
    }
  }

  lemma ReportTells(context: Context, p: IndexedProbe)
    requires p.selected.refreshedInterfaces == SelectedInterfaces(context, p.selected.probe.interfaces)
    ensures Tells(ReportOf(RunOne(context)(p)), context, p.selected.probe)
  {
  }

  /** A run succeeds exactly when the devices found are valid and have distinct ids. Its snapshot then
      holds exactly these devices, and its reports list each of their ids once, in the same order. */
  lemma {:induction false} RunMeaning(context: Context, probes: seq<Probe>)
    ensures
      var results := SequentialResults(context, SelectProbes(context, probes));
      var run := RunOutcome(context, probes);
      && (run.Ok? <==> AllValid(Found(results)) && DistinctIds(Found(results)))
      && (run.Ok? ==>
            && run.value == RunReport(Snapshot(context.observedAt, Found(results)), Map(ReportOf, results))
            && ReportedIds(run.value.probeReports) == Ids(run.value.snapshot.devices))
  {
    var results := SequentialResults(context, SelectProbes(context, probes));
    GatherMeaning(results);
    ReportsListFoundIds(results);
  }

  /** Probe `k` of those selected found the device. */
  ghost predicate FoundByProbe(context: Context, selected: seq<SelectedProbe>, k: nat, d: Descriptor) {
    && k < |selected|
    && var discovery := selected[k].probe.discover(context); discovery.Ok? && d in discovery.value.devices
  }

  /** The devices of a run are exactly those that its selected probes discover. */
  lemma RunHoldsDiscoveries(context: Context, probes: seq<Probe>, d: Descriptor)
    requires RunOutcome(context, probes).Ok?
    ensures d in RunOutcome(context, probes).value.snapshot.devices <==>
      exists k :: FoundByProbe(context, SelectProbes(context, probes), k, d)
  {
    var selected := SelectProbes(context, probes);
    var results := SequentialResults(context, selected);
    RunMeaning(context, probes);
    FoundMembers(results, d);
    forall k: nat | k < |results| ensures d in FoundBy(results[k]) <==> FoundByProbe(context, selected, k, d) {
    }
    if k: nat :| FoundByProbe(context, selected, k, d) { assert k < |results| && d in FoundBy(results[k]); }
  }

  lemma {:induction false} FoundMembers(results: seq<ProbeResult>, d: Descriptor)
    ensures d in Found(results) <==> exists k :: 0 <= k < |results| && d in FoundBy(results[k])
    decreases |results|
  {
    if results != [] {
      var n := |results| - 1;
      FoundMembers(results[..n], d);
      FoundSnoc(results[..n], results[n]);
      assert results == results[..n] + [results[n]];
      if k :| 0 <= k < n && d in FoundBy(results[..n][k]) { assert d in FoundBy(results[k]); }
      if k :| 0 <= k < |results| && d in FoundBy(results[k]) && k < n { assert d in FoundBy(results[..n][k]); }
    }
  }

  /** Probe `k` of those selected is the first to discover an invalid descriptor, and this is the first of them. */
  ghost predicate SpoiltByProbe(
      context: Context, selected: seq<SelectedProbe>, k: nat, i: nat, fault: DiscoveryError)
  {
    && k < |selected| && EachDiscoversValid(context, selected[..k])
    && var discovery := selected[k].probe.discover(context);
       && discovery.Ok? && i < |discovery.value.devices| && AllValid(discovery.value.devices[..i])
       && var device := discovery.value.devices[i];
          && !device.Valid()
          && fault == InvalidDescriptor(selected[k].probe.name, device.id, device.Validate().value)
  }

  ghost predicate DiscoversValid(context: Context, selected: SelectedProbe) {
    var discovery := selected.probe.discover(context); discovery.Ok? ==> AllValid(discovery.value.devices)
  }

  ghost predicate EachDiscoversValid(context: Context, selected: seq<SelectedProbe>) {
    forall k :: 0 <= k < |selected| ==> DiscoversValid(context, selected[k])
  }

  /** The fault is that of the first device whose id an earlier one has. */
  ghost predicate RepeatsAt(devices: seq<Descriptor>, n: nat, fault: DiscoveryError) {
    && n < |devices| && DistinctIds(devices[..n]) && devices[n].id in IdSet(devices[..n])
    && fault == DuplicateDeviceId(devices[n].id)
  }

  ghost predicate RepeatsInRun(devices: seq<Descriptor>, fault: DiscoveryError) {
    exists n :: RepeatsAt(devices, n, fault)
  }

  ghost predicate SpoiltInRun(context: Context, selected: seq<SelectedProbe>, fault: DiscoveryError) {
    exists k, i :: SpoiltByProbe(context, selected, k, i, fault)
  }

  /** A run that fails reports the first invalid descriptor of the first selected probe with one; if there is none, it
      reports the first device whose id an earlier one has. */
  lemma RunFault(context: Context, probes: seq<Probe>)
    requires RunOutcome(context, probes).Err?
    ensures var selected, fault := SelectProbes(context, probes), RunOutcome(context, probes).error;
      if EachDiscoversValid(context, selected) then RepeatsInRun(Found(SequentialResults(context, selected)), fault)
      else SpoiltInRun(context, selected, fault)
  {
    var selected := SelectProbes(context, probes);
    FaultOfOutcome(context, probes);
    ValidIfAllDiscoverValid(context, selected);
    if EachDiscoversValid(context, selected) {
      FaultRepeats(Found(SequentialResults(context, selected)));
    } else {
      GatherFails(context, selected);
    }
  }

  lemma FaultOfOutcome(context: Context, probes: seq<Probe>)
    requires RunOutcome(context, probes).Err?
    ensures var results := SequentialResults(context, SelectProbes(context, probes));
      if AllValid(Found(results)) then FirstFault(Found(results)) == Some(RunOutcome(context, probes).error)
      else Gather(results) == Err(RunOutcome(context, probes).error)
  {
    GatherMeaning(SequentialResults(context, SelectProbes(context, probes)));
  }

  lemma GatherFails(context: Context, selected: seq<SelectedProbe>)
    requires Gather(SequentialResults(context, selected)).Err?
    ensures SpoiltInRun(context, selected, Gather(SequentialResults(context, selected)).error)
  {
    var results := SequentialResults(context, selected);
    assert results[..|selected|] == results;
    GatherFault(context, selected, |selected|);
  }

  lemma FaultRepeats(devices: seq<Descriptor>)
    requires AllValid(devices) && FirstFault(devices).Some?
    ensures RepeatsInRun(devices, FirstFault(devices).value)
  {
    FaultIsFirst(devices);
    var n: nat :| SpoiltAt(devices, n, FirstFault(devices).value);
    assert devices[n].Valid();
    assert RepeatsAt(devices, n, FirstFault(devices).value);
  }

  lemma ValidIfAllDiscoverValid(context: Context, selected: seq<SelectedProbe>)
    ensures AllValid(Found(SequentialResults(context, selected))) <==> EachDiscoversValid(context, selected)
  {
    var results := SequentialResults(context, selected);
    ValidIfEachValid(results);
    forall k | 0 <= k < |selected|
      ensures AllValid(FoundBy(results[k])) <==> DiscoversValid(context, selected[k])
    {
    }
  }

  lemma {:induction false} ValidIfEachValid(results: seq<ProbeResult>)
    ensures AllValid(Found(results)) <==> forall k :: 0 <= k < |results| ==> AllValid(FoundBy(results[k]))
    decreases |results|
  {
    if results != [] {
      var n := |results| - 1;
      ValidIfEachValid(results[..n]);
      FoundSnoc(results[..n], results[n]);
      assert results == results[..n] + [results[n]];
      AllValidConcat(Found(results[..n]), FoundBy(results[n]));
      assert forall k :: 0 <= k < n ==> results[..n][k] == results[k];
    }
  }

  /** Gathering the first `n` results stops at the first invalid descriptor. */
  lemma {:induction false} GatherFault(context: Context, selected: seq<SelectedProbe>, n: nat)
    requires n <= |selected| && Gather(SequentialResults(context, selected)[..n]).Err?
    ensures SpoiltInRun(context, selected, Gather(SequentialResults(context, selected)[..n]).error)
  {
    var results := SequentialResults(context, selected);
    assert n > 0;
    var front, last := results[..n - 1], results[n - 1];
    assert results[..n][..n - 1] == front;
    if Gather(front).Err? {
      GatherFault(context, selected, n - 1);
    } else {
      GatherMeaning(front);
      ValidIfAllDiscoverValid(context, selected[..n - 1]);
      assert SequentialResults(context, selected[..n - 1]) == front;
      var name, found := last.selected.probe.name, FoundBy(last);
      var i :| 0 <= i < |found| && AllValid(found[..i]) && !found[i].Valid()
        && FirstInvalid(name, found).value == InvalidDescriptor(name, found[i].id, found[i].Validate().value);
      assert SpoiltByProbe(context, selected, n - 1, i, FirstInvalid(name, found).value);
    }
  }
}
