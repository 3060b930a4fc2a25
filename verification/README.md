# Verified model of the Lemnos device stack

Lemnos discovers hardware devices through probes, keeps an inventory of them, binds drivers to them and
talks to them through bus sessions. This project models six of its components in Dafny and proves what each
of them promises. In every one of them a more complicated implementation has to agree with a simple
specification.

| files | component |
|---|---|
| `probe_run.dfy`, `probe_index.dfy`, `incremental.dfy`, `refresh_history.dfy`, `inventory.dfy`, `inventory_events.dfy` | Discovery: probes run inline or on worker threads, full and incremental refreshes follow each other, runs are merged into an old snapshot, two snapshots are compared |
| `linux_pwm.dfy`, `mock_pwm.dfy`, `pwm.dfy` | PWM: ordered file writes of the Linux session against the one-step mock |
| `driver_registry.dfy`, `manifest.dfy` | Drivers: scoring, ranking, conflicts, preferences |
| `hotplug_system.dfy`, `hotplug_watches.dfy`, `hotplug_runs.dfy`, `hotplug_watcher.dfy`, `hotplug_polls.dfy` | Hotplug: the operating system's answers, two maps between paths and watch descriptors, the watcher object, and whole runs of it |
| `usb_names.dfy`, `usb_discovery.dfy`, `usb_listing.dfy` | USB: the kernel's names, the one-pass tree builder, and what it lists |
| `i2c_memory.dfy`, `faults.dfy`, `mock_hardware.dfy`, `event_notifier.dfy` | Mock I2C memory, injected faults, and the runtime's event notifier |
| `core.dfy`, `bus.dfy`, `string_order.dfy`, `sorting.dfy` | Shared types and theory: integers, errors, string order, stable results of sorting |

`dafny verify dfyconfig.toml` checks everything.

## How to read it

Code that changes things step by step is written as methods and classes; each method is proved against a
function or predicate, and what the component promises is proved about those. Outside influences are
nondeterministic methods or parameters: a file access may fail, a listing may hold anything, the scheduler may
pick any thread, `discover` may be any function of the context.

The main results:

* **Discovery.** Over every history of full and incremental refreshes, failed ones included, the index equals a table
  of what each probe last found on each interface since the last full one, and the snapshot is that table and the
  devices that full refreshes with a failed probe have stranded (`RefreshHistory.HistoryMirrors`, realised by
  `RefreshHistory.ServeRequests`). What each of them holds is told by the history: a device is in the table exactly
  if a served request found it there and none since has refreshed that pair or was full
  (`RefreshHistory.InTableIff`, and `SnapshotIff` and `IndexIff` for snapshot and index). Which devices are
  stranded, and when a request fails, is stated exactly (`StrandedIff`, `RequestFailsIff`). Worker count and interleaving never show
  (`ProbeRun.RunProbes`). Events of a diff replay to the new inventory, over chains of any length
  (`InventoryEvents.ChainReplaysToLast`).
* **PWM.** Whichever file access fails, every write keeps the duty cycle within the period, touches period,
  duty cycle and polarity only while the output is off, and lets the output be on only at the old
  configuration or the full target (`LinuxPwm.Served` in the contracts of all four setters). Every mock channel
  stays legal over every run (`MockPwm.MockRunStaysLegal`), and from legal configurations the two session
  objects, driven side by side, give equal results and stay in step as long as no file access fails
  (`PwmAgreement.RunBoth`).
* **Drivers.** Resolution is a function of the set of drivers: `Ok` for exactly the unique top driver, and a
  conflict lists exactly all top drivers (`DriverRegistryModel.ResolveOkIffUniqueTop`, `ResolveErrors`). A match
  report has exactly one summary for each registered driver, with its verdict
  (`DriverRegistryModel.DriverRegistry.MatchReport`).
* **Hotplug.** The operating system remembers every answer it gave: listings, existence, granted and removed
  watches, and batches of events. The watcher's maps stay inverse on every exit of every operation and are exactly
  what the recorded answers make of them. After each successful poll the chip watches are the chips of the
  recorded listing, except those recorded as absent or watched statically
  (`HotplugWatcher.LinuxHotplugWatcher.Poll`, `ChipsInStepAfterPoll`). A poll reports exactly the interfaces and paths
  that the events it has read are about (`HotplugWatcher.PollReportsBatch`). Over every run of a new watcher and its polls
  (`HotplugPolls.Watch`), a static watch is lost only to an IGNORED event of that very watch
  (`HotplugPolls.StaticWatchesStay`), and a chip watch that an event of another watch has taken is back when the poll
  returns without an error, unless the chip is gone (`HotplugPolls.StaleDropIsMended`). An event takes a watch that
  it is not about if and only if inotify issued its descriptor again while it was queued
  (`HotplugRuns.StaleDropIffReissued`).
* **USB.** Names round-trip, keys are injective, and the tree is linked for every list of entries
  (`UsbDiscovery.DiscoveredTree`). Every bus, device, interface and note is traced to the entries that make it
  (`UsbListing.BusesFromEntries`, `InterfacesFromEntries`, `NotesFromEntries`), and two descriptors share an id
  exactly if they are of the same kind and place (`UsbListing.SharedIdIffSamePlace`).
* **Mocks and notifier.** A growable buffer is an infinite zero-padded memory. Nested fault queues are a flat log:
  over every run, clears included, each fault comes out at most once and in order (`Faults.EveryFaultOnce`,
  `Faults.FirstInFirstOut`), and a queued script hands out the errors of its steps, in order (`Faults.RunScript`).
  No waiter sleeps through a change in any interleaving
  (`EventNotifier.NoLostWakeUp`), and a subscription of the runtime never blocks on events that are already there
  (`EventNotifier.PendingEventsNeverBlock`).

## Exact conditions

Some promises hold under a condition, which is stated exactly.

* A subscription is created in two critical sections, tail first and version second, and a poll moves its cursor to
  the tail before it reads the version. The runtime publishes through `&mut self` and subscribes and polls through
  `&self`, so nothing is published in between, and no wait, first or later, blocks on pending events
  (`EventNotifier.PendingEventsNeverBlock`, with the version counter not exhausted). This exclusion is what makes it
  work: without it, a subscription blocks exactly if the tail passes its cursor between the two sections
  (`BlocksOnPendingIffOvertaken`, with a run in `OvertakenSubscriptionBlocks`).
* The Linux and the mock PWM session agree on all calls exactly if the current period is not zero
  (`PwmAgreement.AgreeIffPeriodSet`). A mock channel starts legal and stays legal, so its period never is.
* Adding a watch keeps the watcher's maps inverse exactly if inotify's descriptor is not in use
  (`HotplugWatches.AddKeepsInverseIffFresh`).
* An IGNORED event drops a live watch that it is not about exactly if its descriptor was issued again while it was
  queued (`HotplugRuns.StaleDropIffReissued`). The poll that reads it watches the chip again before it returns
  without an error, if the chip is still there; after an error the chip stays unwatched until the next
  synchronization, as a run of `New` and one poll shows (`HotplugPolls.ReissuedDescriptorLosesWatch`).
* A USB interface is skipped exactly if no readable device entry with its bus and ports comes before it
  (`UsbDiscovery.SkippedIffNoParentBefore`). In a sorted listing the entry whose name the interface extends
  always comes before it, so that parent is never missed (`OwnParentIsNeverMissed`); an entry for the same
  device that is spelt differently can be (`DifferentlySpeltParentIsMissed`).
* Device entries sort before bus entries, so in a sorted listing a bus entry's own attributes are only used for
  a bus without any device entry (`UsbDiscovery.BusEntryMeansNoDevices`).
* A merge fails exactly if the run finds an id of a known device that it does not refresh
  (`Incremental.MergeFailsIffForeignId`). It can happen in two ways: the id belongs to a pair that the run did not
  refresh (`RefreshHistory.UnaskedDeviceFailsMerge`), or to a stranded device.
* A full refresh with a failed probe keeps the devices it has not refreshed but starts the index afresh, so that no
  probe owns them any more. The index owns the whole snapshot exactly if nothing is stranded
  (`Incremental.AllOwnedIffNoneStranded`); a device is stranded exactly if such a refresh kept it and no full refresh
  has run since with all of its probes succeeding (`RefreshHistory.StrandedIff`). An incremental refresh that finds it
  again fails (`RefreshHistory.StrandedDeviceFailsMerge`).
* With a repeated probe name the last report wins (`Incremental.RepeatedNameForgets`).

## Model

| member | source | states |
|---|---|---|
| `Inventory.FirstFault` | `crates/lemnos-discovery/src/inventory.rs:176-193` | there is no fault exactly if all descriptors are valid and their ids distinct |
| `Inventory.FaultIsFirst` | `crates/lemnos-discovery/src/inventory.rs:176-193` | a reported fault belongs to the first descriptor that spoils the list, invalidity before duplication |
| `Inventory.ValidateDevices` | `crates/lemnos-discovery/src/inventory.rs:176-193` | the loop with its set of seen ids reports that fault |
| `Inventory.ByIdFinds` | `crates/lemnos-discovery/src/inventory.rs:95-104` | with distinct ids, each descriptor is found under its id |
| `Inventory.AddedAndChanged` | `crates/lemnos-discovery/src/inventory.rs:110-119` | `added` and `changed` are exactly the new ids and the ids whose descriptors differ, in ascending order |
| `Inventory.Removed` | `crates/lemnos-discovery/src/inventory.rs:121-125` | `removed` is exactly the old ids that are gone, in ascending order |
| `Inventory.Diff` | `crates/lemnos-discovery/src/inventory.rs:94-132` | the diff of two snapshots is the one diff of their id maps |
| `Inventory.DiffUnique` | `crates/lemnos-discovery/src/inventory.rs:94-132` | the two maps determine the diff |
| `Inventory.EmptyDiffIffSame` | `crates/lemnos-discovery/src/inventory.rs:149-151` | the diff is empty exactly if the maps are equal |
| `Inventory.DiffMirrors` | `crates/lemnos-discovery/src/inventory.rs:94-132` | the diff the other way swaps added with removed and turns each change round |
| `InventoryEvents.Events` | `crates/lemnos-discovery/src/inventory.rs:153-173` | every entry of the diff has its event, additions before changes before removals |
| `InventoryEvents.EventSubjectsDistinct` | `crates/lemnos-discovery/src/inventory.rs:153-173` | no device is the subject of two events |
| `InventoryEvents.DifferenceIsMentioned` | `crates/lemnos-discovery/src/inventory.rs:94-173` | every device on which the inventories differ is the subject of an event |
| `InventoryEvents.ReplayReachesNext` | `crates/lemnos-discovery/src/inventory.rs:94-173` | strict replay of the events on the old inventory succeeds and gives exactly the new one |
| `InventoryEvents.ChainReplaysToLast` | `crates/lemnos-discovery/src/inventory.rs:94-173` | replaying the events of any chain of diffs gives the last inventory |
| `ProbeRun.SelectedInterfaces` | `crates/lemnos-discovery/src/run.rs:144-157` | exactly the wanted interfaces among those of the probe |
| `ProbeRun.NoRequestSelectsAll` | `crates/lemnos-discovery/src/run.rs:148-150` | without requested interfaces a probe is run for all of its own, in order |
| `ProbeRun.Selection` | `crates/lemnos-discovery/src/run.rs:176-188` | a probe is selected exactly if it has a wanted interface, and then for exactly its wanted interfaces |
| `ProbeRun.SelectionSplits` | `crates/lemnos-discovery/src/run.rs:170-190` | selection looks at one probe at a time and keeps their order |
| `ProbeRun.SelectedIffWanted` | `crates/lemnos-discovery/src/run.rs:170-190` | each probe keeps its own place among the selected ones, neither lost nor repeated |
| `ProbeRun.ParallelWorkerCount` | `crates/lemnos-discovery/src/run.rs:266-287` | one worker up to the inline threshold; above it the least of probes, processors and limit, a limit of zero counting as one |
| `ProbeRun.ShareStep` | `crates/lemnos-discovery/src/run.rs:244-249` | the next probe adds one to the share of exactly the batch it is dealt to |
| `ProbeRun.AllDealtStep` | `crates/lemnos-discovery/src/run.rs:244-249` | dealing one more probe keeps the round-robin shape and loses or repeats none |
| `ProbeRun.BuildProbeBatches` | `crates/lemnos-discovery/src/run.rs:235-251` | batch `w` holds the probes `w`, `w + n`, `w + 2n`, ... in order; together the batches hold each probe once |
| `ProbeRun.RunWorkers` | `crates/lemnos-discovery/src/run.rs:217-230` | in every interleaving each worker produces the results of its batch in order |
| `ProbeRun.JoinedAndSortedIsSequential` | `crates/lemnos-discovery/src/run.rs:223-232` | joining the outputs of any partition of the probes and sorting by index gives the sequential results |
| `ProbeRun.RunSelectedProbesParallel` | `crates/lemnos-discovery/src/run.rs:211-233` | for every worker count the parallel run gives the sequential results |
| `ProbeRun.RunSelectedProbes` | `crates/lemnos-discovery/src/run.rs:192-209` | inline or parallel, the results are the sequential ones |
| `ProbeRun.FirstInvalid` | `crates/lemnos-discovery/src/run.rs:106-114` | the reported fault is that of the first invalid descriptor; none exactly if all are valid |
| `ProbeRun.ProcessProbeResult` | `crates/lemnos-discovery/src/run.rs:98-142` | a valid or failed result appends its devices and one report; an invalid descriptor stops the run with its fault |
| `ProbeRun.GatherMeaning` | `crates/lemnos-discovery/src/run.rs:24-31` | gathering succeeds exactly if every found descriptor is valid, and then keeps all devices and one report per probe, in order |
| `ProbeRun.RunProbes` | `crates/lemnos-discovery/src/run.rs:18-39` | snapshot, reports or error do not depend on worker count, processors or interleaving |
| `ProbeRun.ReportsListFoundIds` | `crates/lemnos-discovery/src/run.rs:115-138` | the reports together list exactly the ids of the found devices, in order |
| `ProbeRun.RunMeaning` | `crates/lemnos-discovery/src/run.rs:18-39` | a run succeeds exactly if the found devices are valid with distinct ids; its snapshot is those devices and its reports list each id once |
| `ProbeRun.ReportsTellSelection` | `crates/lemnos-discovery/src/run.rs:115-138` | one report for each selected probe, in order: its name, exactly its wanted interfaces, whether it succeeded, and the notes and ids of exactly what it found, or else its error |
| `ProbeRun.RunHoldsDiscoveries` | `crates/lemnos-discovery/src/run.rs:18-39` | the devices of a run are exactly those that the selected probes discover |
| `ProbeRun.RunFault` | `crates/lemnos-discovery/src/run.rs:98-142` | a failed run reports the first invalid descriptor of the first selected probe with one; if there is none, the first device with the id of an earlier one |
| `ProbeIndex.ClearRefreshed` | `crates/lemnos-discovery/src/report.rs:171-173` | exactly the refreshed interfaces start with no ids |
| `ProbeIndex.AddFound` | `crates/lemnos-discovery/src/report.rs:175-182` | each found id joins the ids of its device's interface and of no other |
| `ProbeIndex.ProbeInventoryIndex.RecordRun` | `crates/lemnos-discovery/src/report.rs:154-184` | the index after a run is that of its successful reports taken in order |
| `ProbeIndex.Retained` | `crates/lemnos-discovery/src/report.rs:199-204` | exactly the devices that were not replaced stay |
| `ProbeIndex.RetainedSplits` | `crates/lemnos-discovery/src/report.rs:199-204` | each device is kept or dropped on its own, in its old place |
| `ProbeIndex.RetainedStaysSound` | `crates/lemnos-discovery/src/report.rs:199-204` | what stays of a sound snapshot is valid and has distinct ids |
| `Incremental.RecordedAt` | `crates/lemnos-discovery/src/report.rs:162-183` | with distinct probe names a probe's new entry comes from its own report and its old entry |
| `Incremental.IndexStep` | `crates/lemnos-discovery/src/report.rs:154-184` | recording a run keeps the index equal to the ids of the table |
| `Incremental.KeptUnlessRefreshed` | `crates/lemnos-discovery/src/report.rs:211-224` | a device of the table is dropped by a merge exactly if the pair that owns it was refreshed |
| `Incremental.RetainedIsUnrefreshed` | `crates/lemnos-discovery/src/report.rs:194-224` | what a merge keeps is exactly the stranded devices and those whose pair was not refreshed |
| `Incremental.UnionStep` | `crates/lemnos-discovery/src/report.rs:194-209` | retained and found devices together are exactly the devices of the new table and the stranded ones |
| `Incremental.OneOwnerStep` | `crates/lemnos-discovery/src/report.rs:194-224` | after a successful merge no id belongs to two pairs |
| `Incremental.OwnedByNoneStep` | `crates/lemnos-discovery/src/report.rs:194-224` | after a successful merge no stranded device shares its id with a device of the table |
| `Incremental.IncrementalKeepsMirrors` | `crates/lemnos-runtime/src/runtime/refresh.rs:188-206` | an incremental refresh keeps snapshot, index, table and stranded devices in agreement |
| `Incremental.FailedFullKeepsMirrors` | `crates/lemnos-runtime/src/runtime/refresh.rs:186-206` | so does a full refresh with a failed probe, which strands exactly what it has not refreshed |
| `Incremental.FullStartsAfresh` | `crates/lemnos-runtime/src/runtime/refresh.rs:314-324` | a full refresh without failed probes takes over the run alone, whatever was known before, and leaves nothing stranded |
| `Incremental.FoldBringsIn` | `crates/lemnos-runtime/src/runtime/refresh.rs:186-206` | after a served refresh the snapshot holds what the run found and, if it was merged, what was known and not replaced; and the index answers for every refreshed pair with exactly the ids its report lists there |
| `Incremental.FoldTable` | `crates/lemnos-runtime/src/runtime/refresh.rs:186-206` | the table gains exactly what the run found, and keeps what the run has neither refreshed nor, being full, forgotten |
| `Incremental.AllOwnedIffNoneStranded` | `crates/lemnos-runtime/src/runtime/refresh.rs:199-206` | the index owns every device of the snapshot exactly if none is stranded |
| `Incremental.MergeMeaning` | `crates/lemnos-discovery/src/report.rs:194-209` | a merge succeeds exactly if retained and found devices together are sound, and then joins them, dated by the run if it has a date |
| `Incremental.RepeatedNameForgets` | `crates/lemnos-discovery/src/report.rs:162-183` | the last successful report of a name decides: on every interface it refreshed the index holds exactly the ids it found |
| `Incremental.MergeFailsIffForeignId` | `crates/lemnos-discovery/src/report.rs:194-209` | the merge fails exactly if the run finds an id of a known device that it does not refresh |
| `RefreshHistory.RunIsWellFormed` | `crates/lemnos-discovery/src/run.rs:18-39` | every successful run with distinct probe names has the shape the index relies on |
| `RefreshHistory.RequestFailsIff` | `crates/lemnos-runtime/src/runtime/refresh.rs:139-206` | a request fails exactly if its run fails, or is merged and finds an id of a known device that it does not refresh |
| `RefreshHistory.RequestBringsIn` | `crates/lemnos-runtime/src/runtime/refresh.rs:139-206` | what a served request brings in, in terms of its run |
| `RefreshHistory.HistoryMirrors` | `crates/lemnos-runtime/src/runtime/refresh.rs:139-206` | over every history of full and incremental refreshes, failed ones included, the snapshot is the union of the table and the stranded devices, the index holds exactly the ids of the table, and no id has two owners |
| `RefreshHistory.StrandedIff` | `crates/lemnos-runtime/src/runtime/refresh.rs:186-206` | over every history a device is stranded exactly if a full refresh with a failed probe kept it and no full refresh has run since with all of its probes succeeding |
| `RefreshHistory.InTableIff` | `crates/lemnos-runtime/src/runtime/refresh.rs:139-206` | over every history a device is in the table at (probe, interface) exactly if some served request found it there and no request served since has refreshed that pair or was full |
| `RefreshHistory.PairKnownIff` | `crates/lemnos-runtime/src/runtime/refresh.rs:139-206` | over every history a pair has an entry exactly if some served request refreshed it or found something there and no request served since was full |
| `RefreshHistory.SnapshotIff` | `crates/lemnos-runtime/src/runtime/refresh.rs:139-206` | over every history the snapshot holds exactly the devices whose last find still counts and the stranded ones |
| `RefreshHistory.IndexIff` | `crates/lemnos-runtime/src/runtime/refresh.rs:139-206` | over every history the index answers for a pair exactly if it has an entry, and then with the ids of exactly the devices whose last find there still counts |
| `RefreshHistory.UnaskedDeviceFailsMerge` | `crates/lemnos-discovery/src/report.rs:194-209` | a history whose merge fails: asked for I2C alone, a probe finds its GPIO line again |
| `RefreshHistory.StrandedDeviceFailsMerge` | `crates/lemnos-runtime/src/runtime/refresh.rs:186-206` | a history in which a full refresh with a failed probe makes the next successful incremental one fail |
| `RefreshHistory.IndexAnswersFromTable` | `crates/lemnos-discovery/src/report.rs:186-192` | the ids given for a probe and interface are those of the table, none exactly if the table has no entry |
| `RefreshHistory.ServeRequest` | `crates/lemnos-runtime/src/runtime/refresh.rs:139-206` | one request on snapshot and index object: run, merge with the index as it was or start afresh, then record; it brings in what its run found, and a failure changes nothing |
| `RefreshHistory.ServeRequests` | `crates/lemnos-runtime/src/runtime/refresh.rs:139-206` | serving any requests realises that history, reports the fault of each request, and leaves an index that answers from its table |
| `Pwm.ValidateConfiguration` | `crates/lemnos-linux/src/transport/pwm.rs:363-374` | accepted exactly with a positive period and a duty cycle within it; a zero period is the fault reported first |
| `LinuxPwm.WalkIsSafe` | `crates/lemnos-linux/src/transport/pwm.rs:134-180` | every single write of a call is safe and needed: duty within period, changes only while off, on only at the old or the target configuration |
| `LinuxPwm.LinuxSysfsPwmSession.ApplyTiming` | `crates/lemnos-linux/src/transport/pwm.rs:214-244` | the write order keeps the duty cycle within the period at every point, whichever write fails |
| `LinuxPwm.LinuxSysfsPwmSession.ApplyConfiguration` | `crates/lemnos-linux/src/transport/pwm.rs:246-274` | on success the target is reached; a stop at any write leaves the output off or the channel untouched; nothing is written for the current configuration; an invalid target writes nothing |
| `LinuxPwm.LinuxSysfsPwmSession.SetEnabled` | `crates/lemnos-linux/src/transport/pwm.rs:312-318` | a closed or read-only session is refused untouched; otherwise one safe write |
| `LinuxPwm.LinuxSysfsPwmSession.SetPeriodNs` | `crates/lemnos-linux/src/transport/pwm.rs:320-331` | the whole effect: refusal, verdict, safe walk to the target, and the state left by any failure |
| `LinuxPwm.LinuxSysfsPwmSession.SetDutyCycleNs` | `crates/lemnos-linux/src/transport/pwm.rs:333-344` | the same for the duty cycle |
| `LinuxPwm.LinuxSysfsPwmSession.Configure` | `crates/lemnos-linux/src/transport/pwm.rs:346-355` | the same for a full configuration |
| `LinuxPwm.LinuxSysfsPwmSession.Close` | `crates/lemnos-linux/src/transport/pwm.rs:290-308` | the unexport file is looked for exactly if the session exported the channel, and written exactly if it is there; a failed write leaves the session as it was, otherwise it is closed |
| `MockPwm.MockPwmSession.SetEnabled` | `crates/lemnos-mock/src/pwm.rs:183-198` | one atomic update of this channel, or an injected fault in its place |
| `MockPwm.MockPwmSession.SetPeriodNs` | `crates/lemnos-mock/src/pwm.rs:200-227` | the same; zero is turned down before any fault is taken |
| `MockPwm.MockPwmSession.SetDutyCycleNs` | `crates/lemnos-mock/src/pwm.rs:229-250` | the same; refused exactly above the current period |
| `MockPwm.MockPwmSession.Configure` | `crates/lemnos-mock/src/pwm.rs:252-272` | the same; an invalid configuration is turned down before any fault is taken |
| `MockPwm.InitialConfiguration` | `crates/lemnos-mock/src/pwm.rs:59-80` | a new mock channel is legal: off with the default period, or the legal configuration given |
| `MockPwm.ServedStaysLegal` | `crates/lemnos-mock/src/pwm.rs:183-272` | no call makes a legal channel illegal or touches another channel |
| `MockPwm.MockRunStaysLegal` | `crates/lemnos-mock/src/pwm.rs:183-272` | over every run of calls by any sessions, with or without faults, all channels stay legal |
| `PwmAgreement.AgreeIffPeriodSet` | `crates/lemnos-mock/src/pwm.rs:200-250` | from equal configurations both sessions treat every call alike exactly if the period is not zero |
| `PwmAgreement.LegalSessionsAgree` | `crates/lemnos-linux/src/transport/pwm.rs:312-355` | from a legal configuration they always do, and the next configuration is legal |
| `PwmAgreement.AgreeOnCall` | `crates/lemnos-linux/src/transport/pwm.rs:312-355` | one call served by both without failures: equal results, equal configurations after it |
| `PwmAgreement.AgreeOverRuns` | `crates/lemnos-linux/src/transport/pwm.rs:312-355` | the same after every prefix of every sequence of calls |
| `PwmAgreement.RunBoth` | `crates/lemnos-linux/src/transport/pwm.rs:312-355` | the two session objects, driven through the same calls from the same legal configuration: equal results and equal configurations as long as no file access fails |
| `Manifest.MatchDevice` | `crates/lemnos-driver-manifest/src/manifest.rs:151-214` | which devices match, and by which rule: the first among the matching rules of highest score; the score is base, kind bonus and that rule's score in `u32` arithmetic |
| `Manifest.PriorityOutweighsKinds` | `crates/lemnos-driver-manifest/src/manifest.rs:20-27` | base scores order the priorities, and the kind bonus never makes up for a lower priority |
| `Manifest.MatchUnique` | `crates/lemnos-driver-manifest/src/manifest.rs:183-190` | manifest and device determine the match, so ties go to the earliest rule |
| `Manifest.RuleOrderIrrelevant` | `crates/lemnos-driver-manifest/src/manifest.rs:183-214` | reordering the rules changes neither whether the manifest matches nor the score |
| `Manifest.ScoreWithoutOverflow` | `crates/lemnos-driver-manifest/src/manifest.rs:160-195` | without overflow the score is the fixed part plus the maximum of the matching rules' scores |
| `DriverRegistryModel.RanksFirstIsOrder` | `crates/lemnos-registry/src/registry.rs:138-144` | the comparison is a total preorder |
| `DriverRegistryModel.RankingForgetsRegistrationOrder` | `crates/lemnos-registry/src/registry.rs:127-146` | every registration order gives the same ranked list |
| `DriverRegistryModel.RankedMembers` | `crates/lemnos-registry/src/registry.rs:127-146` | the ranked list is sorted and holds exactly the registered drivers with their verdicts |
| `DriverRegistryModel.TopGroupMeaning` | `crates/lemnos-registry/src/registry.rs:189-195` | `take_while` on the ranked list finds exactly the top drivers, in id order |
| `DriverRegistryModel.ResolveOkIffUniqueTop` | `crates/lemnos-registry/src/registry.rs:155-207` | without a preference `resolve` gives a driver exactly if it is the unique supporting driver of highest score and level |
| `DriverRegistryModel.ResolveErrors` | `crates/lemnos-registry/src/registry.rs:182-206` | nothing is found exactly if no driver supports the device; a conflict is reported exactly if there are several top drivers, and lists all of their ids in ascending order |
| `DriverRegistryModel.BestMatchIsFirstTop` | `crates/lemnos-registry/src/registry.rs:148-153` | the best match is the top driver of smallest id; there is none exactly if no driver supports the device |
| `DriverRegistryModel.ResolvePreferred` | `crates/lemnos-registry/src/registry.rs:161-180` | a preferred driver wins exactly if it supports the device, else it did not match |
| `DriverRegistryModel.ResolveForgetsRegistrationOrder` | `crates/lemnos-registry/src/registry.rs:148-207` | every registration order resolves alike |
| `DriverRegistryModel.OutclassedNewcomerChangesNothing` | `crates/lemnos-registry/src/registry.rs:155-207` | one more driver that does not support the device or is outranked changes no outcome |
| `DriverRegistryModel.DriverRegistry.RegisterBoxed` | `crates/lemnos-registry/src/registry.rs:55-74` | a duplicate id is refused first, then an invalid manifest; else the driver is added; ids stay distinct |
| `DriverRegistryModel.DriverRegistry.PreferDriverForDevice` | `crates/lemnos-registry/src/registry.rs:76-90` | only registered drivers become preferred |
| `DriverRegistryModel.DriverRegistry.ClearPreferredDriverForDevice` | `crates/lemnos-registry/src/registry.rs:92-94` | gives back and forgets this device's preference alone |
| `DriverRegistryModel.DriverRegistry.ResolveDevice` | `crates/lemnos-registry/src/registry.rs:155-207` | a preference of this device decides: its driver if that supports the device, else that it did not match; without one the unique top driver, nothing exactly if no driver supports the device, or a conflict that lists exactly the top drivers in id order |
| `DriverRegistryModel.DriverRegistry.MatchReport` | `crates/lemnos-registry/src/registry.rs:116-125` | exactly one summary for each registered driver, with its verdict, supported exactly if it supports the device, each list in ranking order, and the preference of this device; without a preference one or several top matches exactly if this registry resolves or conflicts |
| `DriverRegistryModel.FromRankedCandidates` | `crates/lemnos-registry/src/report.rs:42-65` | the loop sorts the ranked candidates into supported and rejected summaries, keeping their order |
| `DriverRegistryModel.ReportListsEveryDriver` | `crates/lemnos-registry/src/report.rs:42-65` | the report made of the ranked drivers has exactly one summary for each of them, in the right list, with its level, score and rule, higher score, level and then smaller id first |
| `DriverRegistryModel.ReportAgreesWithResolve` | `crates/lemnos-registry/src/report.rs:67-80` | no, one or several top matches exactly if `resolve` finds nothing, that driver, or a conflict among these ids; `best` is the best match |
| `HotplugWatches.AddKeepsInverseIffFresh` | `crates/lemnos-linux/src/watch.rs:117-135` | adding a watch keeps the maps inverse exactly if its descriptor was not in use |
| `HotplugWatches.DroppedIffItsOwnIgnored` | `crates/lemnos-linux/src/watch.rs:226-249` | one event takes the watch of a path exactly if it is an IGNORED event of the descriptor the path has then |
| `HotplugWatches.ObserveKeepsInverse` | `crates/lemnos-linux/src/watch.rs:226-250` | any batch of events keeps the maps inverse and only drops registrations with an IGNORED event of their descriptor |
| `HotplugWatches.PwmEventResyncs` | `crates/lemnos-linux/src/watch.rs:242-244` | any event of a registered PWM watch leads to a second synchronization |
| `HotplugWatches.LeftUnlessEnded` | `crates/lemnos-linux/src/watch.rs:246-249` | the watches left by a batch are exactly those that none of its events has ended |
| `HotplugWatches.InterfaceReported` | `crates/lemnos-linux/src/watch.rs:226-244` | an interface is reported exactly if the queue has overflowed or an event is about a watch for it that no earlier event has ended |
| `HotplugWatches.PathReported` | `crates/lemnos-linux/src/watch.rs:239-240` | a path is reported exactly if it is the path of such a watch, or the entry of it that the event names |
| `HotplugWatches.ResyncIffPwmTouched` | `crates/lemnos-linux/src/watch.rs:242-244` | there is a second synchronization exactly if an event is about such a watch for PWM |
| `HotplugRuns.ProperIsInverse` | `crates/lemnos-linux/src/watch.rs:107-250` | over every run the maps are inverse and only PWM chips are watched dynamically |
| `HotplugRuns.LiveWatchIsLastIssue` | `crates/lemnos-linux/src/watch.rs:117-135` | over every run each live watch is the one its descriptor was last issued to |
| `HotplugRuns.StaleIffReissued` | `crates/lemnos-linux/src/watch.rs:226-250` | an event and the watch its descriptor stands for are of different issues exactly if the descriptor was issued again while the event was queued |
| `HotplugRuns.StaleDropIffReissued` | `crates/lemnos-linux/src/watch.rs:226-250` | over every run of additions, removals and polls: an event drops a live watch that it is not about exactly if its descriptor was issued again while it was queued |
| `HotplugRuns.NoStaleDropWithoutReissue` | `crates/lemnos-linux/src/watch.rs:226-250` | an inotify that never reissues a descriptor loses no live watch to a stale event |
| `HotplugRuns.LossAccounted` | `crates/lemnos-linux/src/watch.rs:139-250` | over every run a live watch goes only by its own removal or by a drop that is accounted for |
| `HotplugRuns.StaticDropIsItsOwn` | `crates/lemnos-linux/src/watch.rs:86-95` | over every run in which all static watches are granted before anything is listed, removed or read, only its own event drops a static watch |
| `HotplugWatcher.LinuxHotplugWatcher.AddWatch` | `crates/lemnos-linux/src/watch.rs:107-137` | a watched path asks nothing; a path answered to be absent changes nothing; otherwise both maps gain the watch exactly if inotify grants it, and its error is returned if not |
| `HotplugWatcher.LinuxHotplugWatcher.RemoveWatch` | `crates/lemnos-linux/src/watch.rs:139-157` | both maps forget the path and its descriptor is given back; every error of inotify but an unknown descriptor is returned |
| `HotplugWatcher.LinuxHotplugWatcher.RemoveStaleChips` | `crates/lemnos-linux/src/watch.rs:172-185` | the dynamic watches become those of the chips given, stopping at the first error; static watches stay |
| `HotplugWatcher.LinuxHotplugWatcher.AddChips` | `crates/lemnos-linux/src/watch.rs:187-189` | every chip given joins the dynamic watches, unless it was answered to be absent or is watched statically; static watches stay |
| `HotplugWatcher.LinuxHotplugWatcher.SyncPwmChipWatches` | `crates/lemnos-linux/src/watch.rs:159-197` | the PWM class is listed first, then watches are removed and only then added; without an error the dynamic watches are exactly the chips of that listing, except those answered to be absent or watched statically; a missing directory lists nothing, any other failing answer ends it with that error; static watches stay on every exit |
| `HotplugWatcher.LinuxHotplugWatcher.AddStaticWatches` | `crates/lemnos-linux/src/watch.rs:86-94` | exactly those of the nine static roots are watched that were not answered to be absent, each for its own interface |
| `HotplugWatcher.LinuxHotplugWatcher.New` | `crates/lemnos-linux/src/watch.rs:74-101` | a new watcher has exactly these static watches and the chips of the listing made then; the static watches come first; an error is that of the last answer |
| `HotplugWatcher.LinuxHotplugWatcher.ObserveEvents` | `crates/lemnos-linux/src/watch.rs:222-250` | the event loop gathers exactly the interfaces and paths that the events are about, asks for a synchronization exactly if one is about PWM, and drops the watches that events have ended |
| `HotplugWatcher.LinuxHotplugWatcher.Poll` | `crates/lemnos-linux/src/watch.rs:209-271` | the maps stay inverse and equal what the answers make of them on every exit; a poll without an error reports exactly what the batch read is about, and nothing exactly if that is nothing; the chip watches are synchronized before the read, and again after a PWM event |
| `HotplugWatcher.PollReportsBatch` | `crates/lemnos-linux/src/watch.rs:222-271` | a poll without an error reports exactly the interfaces and paths that its events are about, by the watches they found; there is no report exactly if there are none |
| `HotplugWatcher.ChipsInStepAfterPoll` | `crates/lemnos-linux/src/watch.rs:209-271` | whenever a poll returns without an error, the chip watches are exactly the chips of its last listing, except those answered to be absent or watched statically |
| `HotplugWatcher.TouchedChipIsWatchedAgain` | `crates/lemnos-linux/src/watch.rs:242-254` | a chip whose watch had an event, IGNORED included, is watched when the poll returns if the listing made after the event shows it and it was not answered to be absent |
| `HotplugPolls.DropsOfPoll` | `crates/lemnos-linux/src/watch.rs:209-250` | what a poll drops is what the batch it read drops from the watches of its first synchronization |
| `HotplugPolls.StaticWatchLostToItsOwnEvent` | `crates/lemnos-linux/src/watch.rs:246-249` | over every run a poll, whatever it returns, loses a static watch only to an IGNORED event of that very watch that it has read |
| `HotplugPolls.ChipLostOnlyIfGone` | `crates/lemnos-linux/src/watch.rs:209-271` | over every run a poll without an error loses a chip watch only if its last listing does not show the chip or the chip was answered to be absent since |
| `HotplugPolls.StaleDropIsMended` | `crates/lemnos-linux/src/watch.rs:246-254` | over every run, whatever a stale event drops during a poll is a chip watch, and it is back when the poll returns without an error, unless the chip is gone |
| `HotplugPolls.Watch` | `crates/lemnos-linux/src/watch.rs:74-271` | a new watcher and any number of polls, whatever they return, make such a run |
| `HotplugPolls.StaticWatchesStay` | `crates/lemnos-linux/src/watch.rs:74-271` | over every run the static watches are those granted by `new`, unchanged, except those lost to an IGNORED event of that very watch that one of the polls has read |
| `HotplugPolls.ReissuedDescriptorLosesWatch` | `crates/lemnos-linux/src/watch.rs:209-254` | a run of `new` and one poll ending with an error in which a stale event leaves a chip unwatched |
| `UsbNames.ParseDecimal` | `crates/lemnos-linux/src/util.rs:102-130` | parsing undoes printing exactly up to the greatest value |
| `UsbNames.SplitOfJoin` | `crates/lemnos-linux/src/discovery/usb.rs:508-522` | splitting undoes joining when no part holds the separator |
| `UsbNames.DeviceKeyRoundTrip` | `crates/lemnos-linux/src/util.rs:107-117` | the device parser inverts the device key exactly for nonempty port lists |
| `UsbNames.InterfaceNameRoundTrip` | `crates/lemnos-linux/src/util.rs:120-130` | the interface parser inverts the key followed by configuration and interface number |
| `UsbNames.KeyInjective` | `crates/lemnos-linux/src/discovery/usb.rs:504-522` | different buses or ports have different keys |
| `UsbNames.NamesAreUnambiguous` | `crates/lemnos-linux/src/util.rs:101-130` | no name is accepted by two of the three parsers |
| `UsbNames.DeviceNamesSortFirst` | `crates/lemnos-linux/src/util.rs:101-130` | device and interface names sort before every bus name |
| `UsbNames.DeviceIdInjective` | `crates/lemnos-linux/src/discovery/usb.rs:259-262` | different devices have different descriptor ids |
| `UsbNames.InterfaceIdInjective` | `crates/lemnos-linux/src/discovery/usb.rs:406-409` | an interface id determines bus, ports and interface number |
| `UsbNames.BusIdIsNoOther` | `crates/lemnos-linux/src/discovery/usb.rs:155-169` | no bus id is the id of a device or interface |
| `UsbNames.DeviceIdIsNoInterfaceId` | `crates/lemnos-linux/src/discovery/usb.rs:259-262` | no device id is the id of an interface |
| `UsbDiscovery.DiscoverEntries` | `crates/lemnos-linux/src/discovery/usb.rs:69-147` | the loop with its three maps adds the effects of the entries one by one |
| `UsbDiscovery.Discover` | `crates/lemnos-linux/src/discovery/usb.rs:63-150` | the same for the listed names, each tried by the three parsers in order |
| `UsbDiscovery.EntrySound` | `crates/lemnos-linux/src/discovery/usb.rs:69-147` | every entry keeps maps and descriptors in agreement and the tree linked |
| `UsbDiscovery.DiscoveredTree` | `crates/lemnos-linux/src/discovery/usb.rs:69-147` | for every list of entries: one bus descriptor per number; each device after its bus; each interface after a device with its bus, ports, vendor and product |
| `UsbDiscovery.KnownIffBuilt` | `crates/lemnos-linux/src/discovery/usb.rs:104-110` | a device key is known exactly if a readable entry with that bus and these ports came before |
| `UsbDiscovery.SkippedIffNoParentBefore` | `crates/lemnos-linux/src/discovery/usb.rs:116-125` | an interface is skipped exactly if no readable device entry for its parent came before it |
| `UsbDiscovery.OneDescriptorPerEntry` | `crates/lemnos-linux/src/discovery/usb.rs:84-146` | each entry that builds gives exactly one device or interface descriptor, in listing order, and no other entry gives any |
| `UsbDiscovery.DevicesListed` | `crates/lemnos-linux/src/discovery/usb.rs:84-114` | the device descriptors are exactly those of the readable device entries |
| `UsbDiscovery.InterfacesListed` | `crates/lemnos-linux/src/discovery/usb.rs:116-146` | the interface descriptors are exactly those of the readable interface entries that were not skipped |
| `UsbDiscovery.DescriptorsMatchNames` | `crates/lemnos-linux/src/discovery/usb.rs:84-146` | bus, ports, configuration and interface number of a descriptor are those its entry's name parses to, the attribute's interface number going first; vendor and product of a device are those of its own entry |
| `UsbDiscovery.BusListed` | `crates/lemnos-linux/src/discovery/usb.rs:74-102` | a bus is listed exactly if it has a readable bus entry or any device entry |
| `UsbDiscovery.OwnParentIsBuilt` | `crates/lemnos-linux/src/discovery/usb.rs:60-125` | in a sorted listing the entry an interface's name extends, if listed and readable, is built before it |
| `UsbDiscovery.OwnParentIsNeverMissed` | `crates/lemnos-linux/src/discovery/usb.rs:116-125` | so such an interface is never skipped |
| `UsbDiscovery.DifferentlySpeltParentIsMissed` | `crates/lemnos-linux/src/discovery/usb.rs:116-125` | an interface can be skipped although a differently spelt entry of its parent is listed and readable |
| `UsbDiscovery.BusEntryMeansNoDevices` | `crates/lemnos-linux/src/discovery/usb.rs:74-83` | in a sorted listing a bus entry only describes a bus without device entries |
| `UsbListing.InterfacesFromEntries` | `crates/lemnos-linux/src/discovery/usb.rs:116-146` | the interface descriptors are exactly those of the readable interface entries with a readable entry of their device before them; each has the vendor and product of the last such entry, its own number and id, and that device as its parent |
| `UsbListing.BusesFromEntries` | `crates/lemnos-linux/src/discovery/usb.rs:74-102` | the bus descriptors are exactly those of the entries that are the first to make their bus known: with the attributes of a bus entry, or from the number of a device entry |
| `UsbListing.NotesFromEntries` | `crates/lemnos-linux/src/discovery/usb.rs:69-147` | the notes, in listing order: one for each interface without a readable entry of its device before it, and one for each other entry that cannot be read, unless it is of a bus that is known already |
| `UsbListing.SharedIdIffSamePlace` | `crates/lemnos-linux/src/discovery/usb.rs:155-409` | two descriptors of one discovery share an id exactly if they are of the same kind, with the same bus, ports and, for interfaces, number |
| `I2cMemory.ReadFromState` | `crates/lemnos-mock/src/i2c.rs:145-154` | reads the bytes of the infinite memory and moves its pointer |
| `I2cMemory.WriteToState` | `crates/lemnos-mock/src/i2c.rs:156-181` | growing and overwriting the buffer is one write to the infinite memory; an empty payload changes nothing |
| `I2cMemory.WriteReadOnState` | `crates/lemnos-mock/src/i2c.rs:281-290` | a write, a return to the written address and a read on the infinite memory |
| `I2cMemory.TransactionOnState` | `crates/lemnos-mock/src/i2c.rs:304-318` | the operations in order on the infinite memory, stopping at the first error without undoing any |
| `I2cMemory.TransactionSplits` | `crates/lemnos-mock/src/i2c.rs:304-318` | the transaction of `first + second` is that of `first` and then, if it succeeds, that of `second` |
| `I2cMemory.CallIgnoresErrorId` | `crates/lemnos-mock/src/i2c.rs:133-181` | the id used for errors changes neither replies nor memory |
| `I2cMemory.WriteStores` | `crates/lemnos-mock/src/i2c.rs:156-181` | after a write its bytes stand from the address selected on, every other cell is as before, and the address is just past them |
| `I2cMemory.WrittenReadsBack` | `crates/lemnos-mock/src/i2c.rs:275-290` | what a write-read stores it reads back, followed by what was there before |
| `I2cMemory.ReadsCompose` | `crates/lemnos-mock/src/i2c.rs:145-154` | reading twice is reading once as far, unless the address has run into its greatest value |
| `I2cMemory.OneOperation` | `crates/lemnos-mock/src/i2c.rs:304-318` | a transaction of one operation is the call of that operation |
| `I2cMemory.FailsIff` | `crates/lemnos-mock/src/i2c.rs:252-320` | a call fails exactly if it asks for nothing or writes nothing, alone or within a transaction, whatever the memory |
| `MockHardware.MockHardwareState.TakeInjectedError` | `crates/lemnos-mock/src/hardware/mod.rs:64-76` | the oldest fault in line, taken from the log; nothing changes without one |
| `MockHardware.AtAddress` | `crates/lemnos-mock/src/i2c.rs:359-369` | the first device in id order with this address, none exactly if no device has it |
| `MockHardware.MockI2cSession.Perform` | `crates/lemnos-mock/src/i2c.rs:252-320` | each of the four calls: malformed requests first, then injected faults, then the call on the infinite memory; every other device is untouched |
| `MockHardware.MockI2cControllerSession.Perform` | `crates/lemnos-mock/src/i2c.rs:412-489` | the same through the device found at the address |
| `MockHardware.ControllerActsAsDevice` | `crates/lemnos-mock/src/i2c.rs:350-383` | without injected faults a controller call on the only device at an address acts as that device's session |
| `MockHardware.SessionsAgreeOnCall` | `crates/lemnos-mock/src/i2c.rs:252-489` | with equal memories and equal pending faults, one call through either session gives equal replies but for the id in an error, and leaves memories and pending faults equal |
| `MockHardware.RunBoth` | `crates/lemnos-mock/src/i2c.rs:252-489` | the two session objects, driven through the same calls on two such mocks, agree on every call, injected faults included |
| `Faults.ScriptPending` | `crates/lemnos-mock/src/faults.rs:24-93` | for each operation of its device a script leaves as many errors as it has steps for it, the one of each step where the number of earlier steps puts it: a timeout, disconnect or transport failure of this device exactly as the step says, or else the error given |
| `Faults.PendingAfterDelivery` | `crates/lemnos-mock/src/faults.rs:111-122` | a delivery takes the head of one queue and leaves all others alone |
| `Faults.DeliveredOnce` | `crates/lemnos-mock/src/faults.rs:111-122` | a delivery removes exactly the delivered fault from the log |
| `Faults.PendingAfterForgetting` | `crates/lemnos-mock/src/faults.rs:124-126` | clearing a device empties exactly its queues |
| `Faults.ScriptDelivery` | `crates/lemnos-mock/src/hardware/inventory.rs:142-147` | a queued script adds these errors after what was pending before, and nothing for other devices |
| `Faults.EveryFaultOnce` | `crates/lemnos-mock/src/faults.rs:101-127` | over every run of push, take and clear: each fault pending or pushed is delivered once, cleared once or still pending, and nothing else comes out |
| `Faults.RunSplits` | `crates/lemnos-mock/src/faults.rs:101-127` | running two lists of operations one after the other is one run |
| `Faults.FirstInFirstOut` | `crates/lemnos-mock/src/faults.rs:101-127` | over every run, since the last clear of a device: delivered then pending equals pushed, in order; nothing from before a clear comes out after it |
| `Faults.Perform` | `crates/lemnos-mock/src/faults.rs:101-127` | a whole run on the registry object is that run on its log, with the same faults handed out |
| `Faults.MockFaultRegistry.Push` | `crates/lemnos-mock/src/faults.rs:102-109` | appends to the log; the nested maps still refine it |
| `Faults.MockFaultRegistry.Take` | `crates/lemnos-mock/src/faults.rs:111-122` | the oldest pending fault, none exactly if none is pending; no empty queue or map is left |
| `Faults.MockFaultRegistry.QueueScript` | `crates/lemnos-mock/src/hardware/inventory.rs:142-147` | every operation of the device gets the errors of the script's steps for it, in order, after what was pending before; no other queue changes |
| `Faults.Drain` | `crates/lemnos-mock/src/faults.rs:111-122` | taking until there is none hands out all that was pending, oldest first, and touches no other queue |
| `Faults.RunScript` | `crates/lemnos-mock/src/tests.rs:551-604` | a script queued where nothing was pending, and then taken: exactly the errors of its steps for that operation come out, in order, and then none |
| `Faults.MockFaultRegistry.ClearDevice` | `crates/lemnos-mock/src/faults.rs:124-126` | forgets the device's faults and nothing else |
| `Faults.QueuesDetermined` | `crates/lemnos-mock/src/faults.rs:96-127` | with nothing empty kept, the log determines the nested maps |
| `EventNotifier.RuntimeEventNotifier.AdvanceTo` | `crates/lemnos-runtime/src/subscription.rs:165-176` | the tail becomes the greater of the two; the version grows, by one, exactly if the tail did, unless it is exhausted |
| `EventNotifier.RuntimeEventNotifier.NotifyChanged` | `crates/lemnos-runtime/src/subscription.rs:178-185` | the tail stays; the version passes everything observed before, unless it is exhausted |
| `EventNotifier.ReleasedIffChanged` | `crates/lemnos-runtime/src/subscription.rs:165-198` | a waiter that observed the current version is let go by any updates exactly if one of them publishes a greater tail or notifies |
| `EventNotifier.RuntimeEventNotifier.WaitForChangeAfter` | `crates/lemnos-runtime/src/subscription.rs:187-227` | true exactly if the version is past the observed one; false only after a timeout; no earlier wake-up could have ended the wait |
| `EventNotifier.NextKeepsInv` | `crates/lemnos-runtime/src/subscription.rs:60-227` | every critical section and every wake-up keeps the protocol's invariant |
| `EventNotifier.NoLostWakeUp` | `crates/lemnos-runtime/src/subscription.rs:165-227` | in every interleaving no waiter is asleep while the version is past the one it observed, and a wait that ended with true had a change |
| `EventNotifier.NeverDecreases` | `crates/lemnos-runtime/src/subscription.rs:165-185` | version and tail never decrease |
| `EventNotifier.ChangeEndsWait` | `crates/lemnos-runtime/src/subscription.rs:187-227` | after a change the waiter is awake until it has the mutex, and then its wait ends with true |
| `EventNotifier.BehindTailNeverBlocks` | `crates/lemnos-runtime/src/subscription.rs:60-71` | a subscription that found its cursor behind the tail never blocks on its first wait |
| `EventNotifier.TailMovesVersion` | `crates/lemnos-runtime/src/subscription.rs:165-176` | the tail never moves without the version, unless that is exhausted |
| `EventNotifier.PendingEventsNeverBlock` | `crates/lemnos-runtime/src/subscription.rs:60-106` | in every interleaving the runtime allows, any wait of a subscription, new or polled, with events past its cursor returns true at once |
| `EventNotifier.WaitEndsAtOnceIffChanged` | `crates/lemnos-runtime/src/subscription.rs:60-106` | a subscription that was polled, or created with its cursor not behind, waits for changes alone: a wait returns true at once exactly if the version has grown since |
| `EventNotifier.BlocksOnPendingIffOvertaken` | `crates/lemnos-runtime/src/subscription.rs:60-71` | why the runtime's exclusion is needed: a new subscription blocks with events past its cursor exactly if the tail passed the cursor between its two critical sections |
| `EventNotifier.OvertakenSubscriptionBlocks` | `crates/lemnos-runtime/src/subscription.rs:60-71` | a run without that exclusion in which it does |

## Left out

- The runtime's binding, rebinding, request handling, shutdown and event retention: a different layer; of it only the inventory side of a refresh, the notifier, and that publishing excludes subscribing and polling (`EventNotifier.ByRuntime`) are modelled.
- Discovery enrichers (`apply_enrichers`): a fold over functions supplied from outside that validates each result like a run.
- RefreshHistory.HistoryMirrors: speaks of runs whose probes have distinct names; with a repeated name the reports share one index entry and the last one clears what the others recorded (`Incremental.RepeatedNameForgets`).
- Panics in worker threads, poisoned mutexes and running out of memory.
- The texts of messages, notes and match reasons, timestamps of sessions, tracing, serialization and display strings.
- Inventory.Details: everything in a descriptor beyond id, interface, kind and the address's interface is an opaque value that can only be compared.
- Manifest.MatchRule: the conditions of a rule are one predicate on devices; `DriverRegistryModel.Driver` takes a driver's verdict and its manifest's validity as given.
- Overflow checks of debug builds: `u32` scores and `usize` addresses wrap as in release builds.
- The file system, inotify and thread scheduling are nondeterministic environments; file contents change only through the modelled session.
- Decoding of sysfs attribute texts, opening and exporting of PWM channels: reading a channel gives its configuration or fails.
- LinuxPwm.LinuxSysfsPwmSession.Close: closing twice is not claimed to unexport once, since the session does not remember that it has.
- Closing of mock sessions: it does not end them, since their calls never look at it.
- `MockHardware.MockI2cSession.Perform` and `MockHardware.MockI2cControllerSession.Perform` stand for the four calls of each session, with the call as an argument.
- EventNotifier.RuntimeEventNotifier.WaitForChangeAfter is given the wake-ups it will see as a finite list; the unbounded protocol is the transition system beside it.
- HotplugSystem.OperatingSystem: a path's existence, a listing and an event batch are answers that may change at any time; setting up inotify itself is taken to succeed.
- HotplugWatcher.LinuxHotplugWatcher.AddStaticWatches goes through a table of the nine static roots in the order in which the source adds them one by one.
- Entry names that are not UTF-8, a missing USB root and a failing directory listing end or shorten the loop before it starts and are not modelled.
- UsbDiscovery.DiscoveredTree: building a bus descriptor from its number is taken never to fail, as its inputs are always valid.
- UsbListing.SharedIdIffSamePlace: ids of interfaces leave out the configuration number, so interfaces of two configurations with the same number are not claimed to have different ids.
- SPI, UART and GPIO transports, the USB sessions and the generic driver bundles: forwarding without a property of its own.
