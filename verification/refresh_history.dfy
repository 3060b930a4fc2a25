/** Histories of refresh requests: what is stranded and why, when requests fail, and the loop that serves them. */
module RefreshHistory {
  import opened Core
  import opened Inventory
  import opened Sorting
  import opened ProbeRun
  import opened ProbeIndex
  import opened Incremental

  // ---------- whole histories ----------

  /** One request to refresh: the context, the probes to run and the mode. */
  datatype Request = Request(context: Context, probes: seq<Probe>, mode: RefreshMode)

  function Outcome(m: Mirror, request: Request): Result<Mirror, DiscoveryError> {
    match RunOutcome(request.context, request.probes)
    case Err(fault) => Err(fault)
    case Ok(run) => Fold(m, run, request.mode)
  }

  /** A request whose run or merge fails changes nothing. */
  function Next(m: Mirror, request: Request): Mirror {
    match Outcome(m, request)
    case Ok(after) => after
    case Err(_) => m
  }

  /** Serves the requests in order. */
  function FoldAll(m: Mirror, requests: seq<Request>): Mirror {
    if requests == [] then m else Next(FoldAll(m, requests[..|requests| - 1]), requests[|requests| - 1])
  }

  lemma FoldAllOneMore(m: Mirror, requests: seq<Request>, k: nat)
    requires k < |requests|
    ensures FoldAll(m, requests[..k + 1]) == Next(FoldAll(m, requests[..k]), requests[k])
  {
    assert requests[..k + 1][..k] == requests[..k];
  }

  ghost predicate DistinctProbes(probes: seq<Probe>) {
    forall i, j :: 0 <= i < j < |probes| ==> probes[i].name != probes[j].name
  }

  ghost predicate DistinctSelected(selected: seq<SelectedProbe>) {
    forall i, j :: 0 <= i < j < |selected| ==> selected[i].probe.name != selected[j].probe.name
  }

  lemma {:induction false} SelectedNamesDistinct(context: Context, probes: seq<Probe>)
    requires DistinctProbes(probes)
    ensures DistinctSelected(SelectProbes(context, probes))
  {
    if probes != [] {
      SelectedNamesDistinct(context, probes[1..]);
      var rest := SelectProbes(context, probes[1..]);
      forall k | 0 <= k < |rest| ensures rest[k].probe.name != probes[0].name {
        NotNamedLikeHead(context, probes, k);
      }
    }
  }

  lemma NotNamedLikeHead(context: Context, probes: seq<Probe>, k: nat)
    requires probes != [] && DistinctProbes(probes) && k < |SelectProbes(context, probes[1..])|
    ensures SelectProbes(context, probes[1..])[k].probe.name != probes[0].name
  {
    var rest := SelectProbes(context, probes[1..]);
    assert rest[k] in rest;
    var l :| 0 <= l < |probes[1..]| && probes[1..][l] == rest[k].probe;
    assert probes[l + 1] == rest[k].probe;
  }

  lemma RunIsWellFormed(context: Context, probes: seq<Probe>)
    requires DistinctProbes(probes) && RunOutcome(context, probes).Ok?
    ensures WellFormed(RunOutcome(context, probes).value)
  {
    RunMeaning(context, probes);
    SelectedNamesDistinct(context, probes);
  }

  /** What a served request brings in. */
  lemma RequestBringsIn(m: Mirror, request: Request)
    requires DistinctProbes(request.probes) && FaultOf(m, request).None?
    ensures BringsIn(
      m.current, m.index, request.mode, RunOf(request), Next(m, request).current, Next(m, request).index)
  {
    RunIsWellFormed(request.context, request.probes);
    FoldBringsIn(m, RunOf(request), request.mode);
  }

  ghost predicate DistinctlyNamed(requests: seq<Request>) {
    forall k :: 0 <= k < |requests| ==> DistinctProbes(requests[k].probes)
  }

  /** When a request fails: its run fails, or the run is merged and finds the id of a known device that it does not
      refresh. */
  lemma RequestFailsIff(m: Mirror, request: Request)
    requires Mirrors(m) && DistinctProbes(request.probes)
    ensures var run := RunOutcome(request.context, request.probes);
      Outcome(m, request).Err? <==>
        run.Err? || ((request.mode.Incremental? || HasProbeFailures(run.value)) && FindsForeignId(m, run.value))
  {
    if RunOutcome(request.context, request.probes).Ok? {
      RunIsWellFormed(request.context, request.probes);
      MergeFailsIffForeignId(m, RunOutcome(request.context, request.probes).value);
    }
  }

  /** Over every history of full and incremental refreshes, each with distinct probe names, failed ones included:
      the snapshot is the union of the table and the stranded devices, and the index holds exactly the table's
      ids. */
  lemma {:induction false} HistoryMirrors(requests: seq<Request>)
    requires DistinctlyNamed(requests)
    ensures Mirrors(FoldAll(EMPTY, requests))
    decreases |requests|
  {
    if requests != [] {
      var n := |requests| - 1;
      var before, last := FoldAll(EMPTY, requests[..n]), requests[n];
      HistoryMirrors(requests[..n]);
      if Outcome(before, last).Ok? {
        RunIsWellFormed(last.context, last.probes);
        FoldKeepsMirrors(before, RunOutcome(last.context, last.probes).value, last.mode);
      }
    }
  }

  // ---------- what is stranded and what is in the table, and why ----------

  /** The run of a request; an empty one if it fails. */
  function RunOf(request: Request): RunReport {
    match RunOutcome(request.context, request.probes)
    case Ok(run) => run
    case Err(_) => RunReport(Snapshot(None, []), [])
  }

  /** One request of a history: the state it found, its run, and whether it was served. */
  datatype Step = Step(before: Mirror, mode: RefreshMode, run: RunReport, served: bool)

  function StepOf(m: Mirror, request: Request): Step {
    Step(m, request.mode, RunOf(request), FaultOf(m, request).None?)
  }

  /** The steps of a history. */
  function Steps(requests: seq<Request>): (steps: seq<Step>)
    ensures |steps| == |requests|
  {
    if requests == [] then [] else
      var n := |requests| - 1;
      Steps(requests[..n]) + [StepOf(FoldAll(EMPTY, requests[..n]), requests[n])]
  }

  /** None of the steps clears what is asked about. */
  ghost predicate NoneClears(steps: seq<Step>, clears: Step -> bool) {
    forall l :: 0 <= l < |steps| ==> !clears(steps[l])
  }

  /** Step `k` sets what is asked about, and no later step clears it. */
  ghost predicate SetLast(steps: seq<Step>, sets: Step -> bool, clears: Step -> bool, k: nat) {
    k < |steps| && sets(steps[k]) && NoneClears(steps[k + 1..], clears)
  }

  ghost predicate SetAndKept(steps: seq<Step>, sets: Step -> bool, clears: Step -> bool) {
    exists k :: SetLast(steps, sets, clears, k)
  }

  lemma NoneClearsSnoc(steps: seq<Step>, last: Step, clears: Step -> bool)
    ensures NoneClears(steps + [last], clears) <==> NoneClears(steps, clears) && !clears(last)
  {
    var all := steps + [last];
    assert all[|steps|] == last && forall l :: 0 <= l < |steps| ==> all[l] == steps[l];
  }

  lemma SetAndKeptSnoc(steps: seq<Step>, last: Step, sets: Step -> bool, clears: Step -> bool)
    ensures SetAndKept(steps + [last], sets, clears) <==>
      sets(last) || (SetAndKept(steps, sets, clears) && !clears(last))
  {
    var all, n := steps + [last], |steps|;
    assert all[n + 1..] == [];
    assert SetLast(all, sets, clears, n) <==> sets(last);
    forall k: nat | k < n ensures SetLast(all, sets, clears, k) <==> SetLast(steps, sets, clears, k) && !clears(last) {
      assert all[k + 1..] == steps[k + 1..] + [last];
      NoneClearsSnoc(steps[k + 1..], last, clears);
    }
    if k: nat :| SetLast(steps, sets, clears, k) && !clears(last) { assert SetLast(all, sets, clears, k); }
  }

  // What is stranded.

  /** The step is a full refresh with a failed probe, which retains the device. */
  function Strands(d: Descriptor): Step -> bool {
    (s: Step) =>
      && s.served && s.mode.Full? && (exists r <- s.run.probeReports :: r.error.Some?)
      && d in s.before.current.devices && !WasReplaced(s.before.index, d.id, d.interface, s.run.probeReports)
  }

  /** The step is a full refresh whose probes have all succeeded. */
  function StartsAfresh(): Step -> bool {
    (s: Step) => s.served && s.mode.Full? && forall r <- s.run.probeReports :: r.error.None?
  }

  lemma NextStranded(m: Mirror, request: Request, d: Descriptor)
    requires Mirrors(m)
    ensures var step := StepOf(m, request);
      d in Next(m, request).stranded <==> Strands(d)(step) || (d in m.stranded && !StartsAfresh()(step))
  {
    if Outcome(m, request).Ok? { RetainedIsUnrefreshed(m, RunOf(request), d); }
  }

  lemma LastStep(requests: seq<Request>)
    requires requests != []
    ensures var n := |requests| - 1; Steps(requests) == Steps(requests[..n]) + [Steps(requests)[n]]
  {
  }

  lemma LastStranded(requests: seq<Request>, d: Descriptor)
    requires DistinctlyNamed(requests) && requests != []
    ensures var n := |requests| - 1;
      var step := Steps(requests)[n];
      d in FoldAll(EMPTY, requests).stranded <==>
        Strands(d)(step) || (d in FoldAll(EMPTY, requests[..n]).stranded && !StartsAfresh()(step))
  {
    var n := |requests| - 1;
    HistoryMirrors(requests[..n]);
    NextStranded(FoldAll(EMPTY, requests[..n]), requests[n], d);
  }

  /** Over every history: a device is stranded exactly if a full refresh with a failed probe retained it and no full
      refresh has run with all of its probes succeeding since. */
  lemma {:induction false} StrandedIff(requests: seq<Request>, d: Descriptor)
    requires DistinctlyNamed(requests)
    ensures d in FoldAll(EMPTY, requests).stranded <==> SetAndKept(Steps(requests), Strands(d), StartsAfresh())
    decreases |requests|
  {
    if requests != [] {
      StrandedIff(requests[..|requests| - 1], d);
      LastStranded(requests, d);
      LastStep(requests);
      var n := |requests| - 1;
      SetAndKeptSnoc(Steps(requests[..n]), Steps(requests)[n], Strands(d), StartsAfresh());
    }
  }

  // What is in the table.

  /** The step is a served request whose run found the device for this probe and interface. */
  function Finds(probe: string, i: InterfaceKind, d: Descriptor): Step -> bool {
    (s: Step) => s.served && RunFinds(s.run, probe, i, d)
  }

  /** The step is a served request that is full or refreshes the pair. */
  function Refreshes(probe: string, i: InterfaceKind): Step -> bool {
    (s: Step) => s.served && (s.mode.Full? || RunRefreshes(s.run, probe, i))
  }

  lemma NextTable(m: Mirror, request: Request, probe: string, i: InterfaceKind, d: Descriptor)
    ensures var step := StepOf(m, request);
      InPair(Next(m, request).table, probe, i, d) <==>
        Finds(probe, i, d)(step) || (InPair(m.table, probe, i, d) && !Refreshes(probe, i)(step))
  {
    if Outcome(m, request).Ok? { FoldTable(m, RunOf(request), request.mode, probe, i, d); }
  }

  /** Over every history: a device is in the table at (probe, interface) exactly if some served request found it
      there, and no request served since has refreshed that pair or was full. */
  lemma {:induction false} InTableIff(requests: seq<Request>, probe: string, i: InterfaceKind, d: Descriptor)
    ensures InPair(FoldAll(EMPTY, requests).table, probe, i, d) <==>
      SetAndKept(Steps(requests), Finds(probe, i, d), Refreshes(probe, i))
    decreases |requests|
  {
    if requests != [] {
      var n := |requests| - 1;
      var before := FoldAll(EMPTY, requests[..n]);
      InTableIff(requests[..n], probe, i, d);
      NextTable(before, requests[n], probe, i, d);
      SetAndKeptSnoc(Steps(requests[..n]), StepOf(before, requests[n]), Finds(probe, i, d), Refreshes(probe, i));
    }
  }

  /** The step is a served request that refreshes the pair or finds something there. */
  ghost function Touches(probe: string, i: InterfaceKind): Step -> bool {
    (s: Step) => s.served && RunTouches(s.run, probe, i)
  }

  function IsFull(): Step -> bool {
    (s: Step) => s.served && s.mode.Full?
  }

  /** Over every history: a pair has an entry exactly if some served request touched it and none served since was
      full. */
  lemma {:induction false} PairKnownIff(requests: seq<Request>, probe: string, i: InterfaceKind)
    ensures (probe, i) in FoldAll(EMPTY, requests).table <==>
      SetAndKept(Steps(requests), Touches(probe, i), IsFull())
    decreases |requests|
  {
    if requests != [] {
      var n := |requests| - 1;
      var before := FoldAll(EMPTY, requests[..n]);
      PairKnownIff(requests[..n], probe, i);
      NextPairs(before, requests[n], probe, i);
      SetAndKeptSnoc(Steps(requests[..n]), StepOf(before, requests[n]), Touches(probe, i), IsFull());
    }
  }

  lemma NextPairs(m: Mirror, request: Request, probe: string, i: InterfaceKind)
    ensures var step := StepOf(m, request);
      (probe, i) in Next(m, request).table <==>
        Touches(probe, i)(step) || ((probe, i) in m.table && !IsFull()(step))
  {
    if Outcome(m, request).Ok? { FoldPairs(m, RunOf(request), request.mode, probe, i); }
  }

  // What that means for snapshot and index.

  /** Over every history: the snapshot holds a device exactly if a probe's last find of it still counts, or it is
      stranded. */
  lemma SnapshotIff(requests: seq<Request>, d: Descriptor)
    requires DistinctlyNamed(requests)
    ensures d in FoldAll(EMPTY, requests).current.devices <==>
      || SetAndKept(Steps(requests), Strands(d), StartsAfresh())
      || exists probe :: StillFound(requests, probe, d.interface, d)
  {
    var m := FoldAll(EMPTY, requests);
    HistoryMirrors(requests);
    StrandedIff(requests, d);
    if key :| key in m.table && d in m.table[key] {
      InTableIff(requests, key.0, key.1, d);
      assert StillFound(requests, key.0, d.interface, d);
    }
    if probe :| StillFound(requests, probe, d.interface, d) {
      InTableIff(requests, probe, d.interface, d);
      assert InTable(m.table, d);
    }
  }

  ghost predicate StillFound(requests: seq<Request>, probe: string, i: InterfaceKind, d: Descriptor) {
    SetAndKept(Steps(requests), Finds(probe, i, d), Refreshes(probe, i))
  }

  /** Over every history: the index knows a pair exactly if a served request touched it since the last full one, and
      then answers with the ids of exactly the devices whose last find there still counts. */
  lemma IndexIff(requests: seq<Request>, probe: string, i: InterfaceKind)
    requires DistinctlyNamed(requests)
    ensures var ids := IdsFor(FoldAll(EMPTY, requests).index, probe, i);
      && (ids.Some? <==> SetAndKept(Steps(requests), Touches(probe, i), IsFull()))
      && (ids.Some? ==>
            forall id :: id in ids.value <==>
              exists d: Descriptor :: d.id == id && StillFound(requests, probe, i, d))
  {
    var m := FoldAll(EMPTY, requests);
    HistoryMirrors(requests);
    IndexAnswersFromTable(m, probe, i);
    PairKnownIff(requests, probe, i);
    forall d ensures InPair(m.table, probe, i, d) <==> StillFound(requests, probe, i, d) {
      InTableIff(requests, probe, i, d);
    }
  }

  // ---------- histories in which a merge fails ----------

  lemma SelectedAlone(context: Context, probe: Probe)
    requires WantsSome(context, probe.interfaces)
    ensures SelectProbes(context, [probe]) == [SelectedProbe(probe, SelectedInterfaces(context, probe.interfaces))]
  {
    assert [probe][1..] == [] && SelectProbes(context, []) == [];
    assert SelectProbes(context, [probe]) == Selection(context, probe) + [];
  }

  lemma FoundAlone(result: ProbeResult)
    ensures Found([result]) == FoundBy(result)
  {
    assert Map(FoundBy, [result]) == [FoundBy(result)];
    assert [FoundBy(result)][1..] == [] && Flatten<Descriptor>([]) == [];
  }

  /** A run of one probe with a wanted interface. */
  lemma RunOfOne(context: Context, probe: Probe) returns (run: RunReport)
    requires WantsSome(context, probe.interfaces)
    requires var found := probe.discover(context);
      found.Ok? ==> AllValid(found.value.devices) && DistinctIds(found.value.devices)
    ensures RunOutcome(context, [probe]) == Ok(run) && WellFormed(run)
    ensures run.snapshot.devices == (match probe.discover(context) case Ok(found) => found.devices case Err(_) => [])
    ensures |run.probeReports| == 1 && Tells(run.probeReports[0], context, probe)
  {
    SelectedAlone(context, probe);
    var results := SequentialResults(context, SelectProbes(context, [probe]));
    var result := RunOne(context)(IndexedProbe(0, SelectedProbe(probe, SelectedInterfaces(context, probe.interfaces))));
    assert results == [result];
    FoundAlone(result);
    RunMeaning(context, [probe]);
    ReportsTellSelection(context, [probe]);
    run := RunOutcome(context, [probe]).value;
    RunIsWellFormed(context, [probe]);
  }

  /** A probe that serves GPIO and I2C, and finds this GPIO line whatever it is asked for. */
  function LineProbe(line: Descriptor): Probe {
    Probe("probe", [Gpio, I2c], _ => Ok(ProbeDiscovery([line], [])))
  }

  function FailingProbe(error: DiscoveryError): Probe {
    Probe("probe", [Gpio, I2c], _ => Err(error))
  }

  function Asking(interfaces: set<InterfaceKind>): Context {
    Context(None, interfaces, None, None)
  }

  /** A run of one probe that finds the line, refreshing GPIO or not. */
  ghost predicate LineRun(run: RunReport, line: Descriptor, refreshesGpio: bool) {
    && WellFormed(run) && run.snapshot.devices == [line] && |run.probeReports| == 1
    && run.probeReports[0].Succeeded() && (Gpio in run.probeReports[0].refreshedInterfaces <==> refreshesGpio)
  }

  lemma LineRuns(line: Descriptor, interfaces: set<InterfaceKind>) returns (run: RunReport)
    requires line.Valid() && (interfaces == {} || I2c in interfaces)
    ensures RunOutcome(Asking(interfaces), [LineProbe(line)]) == Ok(run)
    ensures LineRun(run, line, interfaces == {} || Gpio in interfaces)
  {
    var context, probe := Asking(interfaces), LineProbe(line);
    assert context.Wants(I2c) && I2c in probe.interfaces;
    run := RunOfOne(context, probe);
  }

  /** The snapshot holds the line alone, and a GPIO pair owns it. */
  ghost predicate OwnsLine(m: Mirror, line: Descriptor) {
    Mirrors(m) && m.current.devices == [line] && m.stranded == {}
  }

  /** The snapshot holds the line alone, and no pair owns it. */
  ghost predicate LineStranded(m: Mirror, line: Descriptor) {
    Mirrors(m) && m.current.devices == [line] && line in m.stranded
  }

  lemma LineFound(run: RunReport, line: Descriptor)
    requires LineRun(run, line, true)
    ensures Fold(EMPTY, run, Full).Ok? && OwnsLine(Fold(EMPTY, run, Full).value, line)
  {
    assert forall r :: r in run.probeReports ==> r == run.probeReports[0];
    assert !HasProbeFailures(run);
    FullStartsAfresh(EMPTY, run);
  }

  /** A run that finds the line again without refreshing GPIO. */
  lemma UnaskedLineFails(m: Mirror, run: RunReport, line: Descriptor)
    requires OwnsLine(m, line) && line.interface == Gpio && LineRun(run, line, false)
    ensures Fold(m, run, Incremental).Err?
  {
    assert line in m.current.devices && line in run.snapshot.devices;
    assert InTable(m.table, line);
    var key :| key in m.table && line in m.table[key];
    assert forall r :: r in run.probeReports ==> r == run.probeReports[0];
    assert !Refreshed(run, key);
    MergeFailsIffForeignId(m, run);
  }

  lemma KeptAlone(index: Index, d: Descriptor, reports: seq<ProbeReport>)
    requires !WasReplaced(index, d.id, d.interface, reports)
    ensures Retained(index, [d], reports) == [d]
  {
    assert [d][1..] == [] && Retained(index, [], reports) == [];
  }

  /** A full refresh whose only probe fails. */
  lemma FailureStrands(m: Mirror, run: RunReport, line: Descriptor)
    requires OwnsLine(m, line) && WellFormed(run)
    requires run.snapshot.devices == [] && |run.probeReports| == 1 && !run.probeReports[0].Succeeded()
    ensures Fold(m, run, Full).Ok? && LineStranded(Fold(m, run, Full).value, line)
  {
    assert run.probeReports[0] in run.probeReports && HasProbeFailures(run);
    assert forall r :: r in run.probeReports ==> r == run.probeReports[0];
    assert forall key :: !Refreshed(run, key);
    MergeFailsIffForeignId(m, run);
    FailedFullKeepsMirrors(m, run);
    assert line in m.current.devices && InTable(m.table, line);
    KeptAlone(m.index, line, run.probeReports);
    MergeMeaning(m.index, m.current, run);
  }

  lemma StrandedLineFails(m: Mirror, run: RunReport, line: Descriptor)
    requires LineStranded(m, line) && LineRun(run, line, true)
    ensures Fold(m, run, Incremental).Err?
  {
    assert line in Unrefreshed(m, run) && line in run.snapshot.devices;
    MergeFailsIffForeignId(m, run);
  }

  lemma NextOfRun(m: Mirror, request: Request, run: RunReport)
    requires RunOutcome(request.context, request.probes) == Ok(run)
    ensures Outcome(m, request) == Fold(m, run, request.mode)
  {
  }

  lemma OneRequest(m: Mirror, first: Request)
    ensures FoldAll(m, [first]) == Next(m, first)
  {
    FoldAllOneMore(m, [first], 0);
    assert [first][..1] == [first];
  }

  lemma TwoRequests(m: Mirror, first: Request, second: Request)
    ensures FoldAll(m, [first, second]) == Next(Next(m, first), second)
  {
    FoldAllOneMore(m, [first, second], 1);
    assert [first, second][..2] == [first, second] && [first, second][..1] == [first];
    OneRequest(m, first);
  }

  lemma LineOwned(line: Descriptor)
    requires line.Valid() && line.interface == Gpio
    ensures OwnsLine(Next(EMPTY, Request(Asking({}), [LineProbe(line)], Full)), line)
  {
    var run := LineRuns(line, {});
    LineFound(run, line);
    NextOfRun(EMPTY, Request(Asking({}), [LineProbe(line)], Full), run);
  }

  lemma LineLeftBehind(m: Mirror, line: Descriptor, error: DiscoveryError)
    requires OwnsLine(m, line)
    ensures LineStranded(Next(m, Request(Asking({}), [FailingProbe(error)], Full)), line)
  {
    var context, probe := Asking({}), FailingProbe(error);
    assert context.Wants(Gpio) && Gpio in probe.interfaces;
    var run := RunOfOne(context, probe);
    FailureStrands(m, run, line);
    NextOfRun(m, Request(context, [probe], Full), run);
  }

  lemma UnaskedLineRequest(m: Mirror, line: Descriptor)
    requires OwnsLine(m, line) && line.Valid() && line.interface == Gpio
    ensures Outcome(m, Request(Asking({I2c}), [LineProbe(line)], Incremental)).Err?
  {
    var run := LineRuns(line, {I2c});
    UnaskedLineFails(m, run, line);
    NextOfRun(m, Request(Asking({I2c}), [LineProbe(line)], Incremental), run);
  }

  lemma StrandedLineRequest(m: Mirror, line: Descriptor)
    requires LineStranded(m, line) && line.Valid()
    ensures Outcome(m, Request(Asking({}), [LineProbe(line)], Incremental)).Err?
  {
    var run := LineRuns(line, {});
    StrandedLineFails(m, run, line);
    NextOfRun(m, Request(Asking({}), [LineProbe(line)], Incremental), run);
  }

  /** A merge can fail: asked for I2C alone, a probe that has found a GPIO line before finds it again. */
  lemma UnaskedDeviceFailsMerge(line: Descriptor)
    requires line.Valid() && line.interface == Gpio
    ensures Outcome(FoldAll(EMPTY, [Request(Asking({}), [LineProbe(line)], Full)]),
                    Request(Asking({I2c}), [LineProbe(line)], Incremental)).Err?
  {
    OneRequest(EMPTY, Request(Asking({}), [LineProbe(line)], Full));
    LineOwned(line);
    UnaskedLineRequest(Next(EMPTY, Request(Asking({}), [LineProbe(line)], Full)), line);
  }

  /** Once a full refresh has stranded a device, an incremental one that finds it again fails: the probe that found
      it first no longer owns it. */
  lemma StrandedDeviceFailsMerge(line: Descriptor, error: DiscoveryError)
    requires line.Valid() && line.interface == Gpio
    ensures Outcome(FoldAll(EMPTY, [Request(Asking({}), [LineProbe(line)], Full),
                                    Request(Asking({}), [FailingProbe(error)], Full)]),
                    Request(Asking({}), [LineProbe(line)], Incremental)).Err?
  {
    var first, second := Request(Asking({}), [LineProbe(line)], Full), Request(Asking({}), [FailingProbe(error)], Full);
    TwoRequests(EMPTY, first, second);
    LineOwned(line);
    LineLeftBehind(Next(EMPTY, first), line, error);
    StrandedLineRequest(Next(Next(EMPTY, first), second), line);
  }

  // ---------- serving requests ----------

  /** What the index answers about a probe and an interface is what the table holds for them. */
  lemma IndexAnswersFromTable(m: Mirror, probe: string, interface: InterfaceKind)
    requires IndexMatches(m.index, m.table)
    ensures var ids, key := IdsFor(m.index, probe, interface), (probe, interface);
      ids == if key in m.table then Some(IdsOf(m.table[key])) else None
  {
    if (probe, interface) in m.table {
      assert probe in m.index && interface in m.index[probe];
      MatchingIds(m.index[probe][interface], m.table[(probe, interface)]);
    }
  }

  function IdsOf(devices: set<Descriptor>): set<DeviceId> {
    set d | d in devices :: d.id
  }

  lemma MatchingIds(ids: set<DeviceId>, devices: set<Descriptor>)
    requires IdsMatch(ids, devices)
    ensures ids == IdsOf(devices)
  {
  }

  /** What became of each request. */
  function FaultOf(m: Mirror, request: Request): Option<DiscoveryError> {
    match Outcome(m, request)
    case Ok(_) => None
    case Err(fault) => Some(fault)
  }

  ghost predicate AnswersFrom(table: Table, index: ProbeInventoryIndex)
    reads index
  {
    forall probe, interface ::
      index.IdsForProbeInterface(probe, interface)
        == if (probe, interface) in table then Some(IdsOf(table[(probe, interface)])) else None
  }

  function FaultAt(requests: seq<Request>, k: nat): Option<DiscoveryError>
    requires k < |requests|
  {
    FaultOf(FoldAll(EMPTY, requests[..k]), requests[k])
  }

  function Faults(requests: seq<Request>): (faults: seq<Option<DiscoveryError>>)
    ensures |faults| == |requests|
    ensures forall k :: 0 <= k < |requests| ==> faults[k] == FaultAt(requests, k)
  {
    seq(|requests|, k requires 0 <= k < |requests| => FaultAt(requests, k))
  }

  lemma MirrorAnswers(m: Mirror, index: ProbeInventoryIndex)
    requires Mirrors(m) && index.devicesByProbe == m.index
    ensures AnswersFrom(m.table, index)
  {
    forall probe, interface
      ensures index.IdsForProbeInterface(probe, interface)
        == if (probe, interface) in m.table then Some(IdsOf(m.table[(probe, interface)])) else None
    {
      IndexAnswersFromTable(m, probe, interface);
    }
  }

  /** Runs the probes, makes the next snapshot with the index as it was, and then brings the index up to date. */
  method ServeRequest(
      request: Request, current: Snapshot, index: ProbeInventoryIndex, ghost m: Mirror, availableParallelism: nat)
    returns (fault: Option<DiscoveryError>, next: Snapshot, nextIndex: ProbeInventoryIndex)
    requires availableParallelism > 0 && m.current == current && m.index == index.devicesByProbe
    modifies index
    ensures nextIndex == index || fresh(nextIndex)
    ensures fault == FaultOf(m, request)
    ensures next == Next(m, request).current && nextIndex.devicesByProbe == Next(m, request).index
    ensures fault.Some? ==> next == current && nextIndex.devicesByProbe == old(index.devicesByProbe)
    ensures fault.None? && DistinctProbes(request.probes) ==>
      BringsIn(current, old(index.devicesByProbe), request.mode, RunOf(request), next, nextIndex.devicesByProbe)
  {
    if DistinctProbes(request.probes) && FaultOf(m, request).None? { RequestBringsIn(m, request); }
    nextIndex := index;
    var run := RunProbes(request.context, request.probes, availableParallelism);
    if run.Err? {
      return Some(run.error), current, nextIndex;
    }
    if request.mode.Full? && !HasProbeFailures(run.value) {
      next := run.value.snapshot;
    } else {
      var merged := index.MergeSnapshot(current, run.value);
      if merged.Err? {
        return Some(merged.error), current, nextIndex;
      }
      next := merged.value;
    }
    if request.mode.Full? {
      nextIndex := new ProbeInventoryIndex();
    }
    nextIndex.RecordRun(run.value);
    fault := None;
  }

  /** Snapshot and index after the first `k` requests. */
  ghost predicate ServedUpTo(requests: seq<Request>, k: nat, current: Snapshot, index: Index)
    requires k <= |requests|
  {
    var m := FoldAll(EMPTY, requests[..k]);
    m.current == current && m.index == index
  }

  method ServeNext(
      requests: seq<Request>, k: nat, current: Snapshot, index: ProbeInventoryIndex, availableParallelism: nat)
    returns (fault: Option<DiscoveryError>, next: Snapshot, nextIndex: ProbeInventoryIndex)
    requires availableParallelism > 0 && k < |requests|
    requires ServedUpTo(requests, k, current, index.devicesByProbe)
    modifies index
    ensures nextIndex == index || fresh(nextIndex)
    ensures fault == Faults(requests)[k]
    ensures ServedUpTo(requests, k + 1, next, nextIndex.devicesByProbe)
  {
    FoldAllOneMore(EMPTY, requests, k);
    fault, next, nextIndex := ServeRequest(
      requests[k], current, index, FoldAll(EMPTY, requests[..k]), availableParallelism);
  }

  lemma PrefixGrows<T>(s: seq<T>, k: nat)
    requires k < |s|
    ensures s[..k] + [s[k]] == s[..k + 1]
  {
  }

  /** The requests one after the other. */
  method ServeEach(requests: seq<Request>, availableParallelism: nat)
    returns (current: Snapshot, index: ProbeInventoryIndex, faults: seq<Option<DiscoveryError>>)
    requires availableParallelism > 0
    ensures faults == Faults(requests) && ServedUpTo(requests, |requests|, current, index.devicesByProbe)
  {
    index := new ProbeInventoryIndex();
    current, faults := Snapshot(None, []), [];
    ghost var all := Faults(requests);
    for k := 0 to |requests|
      invariant fresh(index) && faults == all[..k]
      invariant ServedUpTo(requests, k, current, index.devicesByProbe)
    {
      var fault;
      fault, current, index := ServeNext(requests, k, current, index, availableParallelism);
      PrefixGrows(all, k);
      faults := faults + [fault];
    }
    assert all[..|requests|] == all;
  }

  /** Serving the requests with one snapshot and one index object, whatever becomes of each. */
  method ServeRequests(requests: seq<Request>, availableParallelism: nat)
    returns (current: Snapshot, index: ProbeInventoryIndex, faults: seq<Option<DiscoveryError>>)
    requires availableParallelism > 0
    requires DistinctlyNamed(requests)
    ensures faults == Faults(requests)
    ensures var m := FoldAll(EMPTY, requests);
      Mirrors(m) && current == m.current && index.devicesByProbe == m.index && AnswersFrom(m.table, index)
  {
    current, index, faults := ServeEach(requests, availableParallelism);
    assert requests[..|requests|] == requests;
    HistoryMirrors(requests);
    MirrorAnswers(FoldAll(EMPTY, requests), index);
  }
}
