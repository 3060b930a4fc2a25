/** Whole runs of `New` and `Poll`: what a poll may lose, and what stale events cost. */
module HotplugPolls {
  import opened Core
  import opened HotplugSystem
  import opened HotplugWatches
  import opened HotplugRuns
  import opened HotplugWatcher

  // ---------- one poll of a run ----------

  /** A poll after the run `log`. */
  ghost predicate PollAfter(
      paths: LinuxPaths, log: seq<Answer>, trace: PollTrace, r: Result<Option<WatchEvent>, WatchError>)
  {
    && WellRun(log + trace.Answers())
    && PollMeaning(paths, After(log), trace, r, After(log + trace.Answers()))
  }

  /** The run up to the poll's read: its first synchronization is done. */
  ghost function ReadLog(log: seq<Answer>, trace: PollTrace): seq<Answer> { log + trace.first }

  lemma SyncedRun(paths: LinuxPaths, log: seq<Answer>, trace: PollTrace, r: Result<Option<WatchEvent>, WatchError>)
    requires PollAfter(paths, log, trace, r)
    ensures WellRun(ReadLog(log, trace)) && After(ReadLog(log, trace)) == trace.Synced(After(log))
    ensures Inverse(trace.Synced(After(log))) && DynamicIsPwm(trace.Synced(After(log)))
    ensures Inverse(After(log + trace.Answers()))
  {
    var all, synced := log + trace.Answers(), ReadLog(log, trace);
    assert all[..|synced|] == synced;
    ProperPrefix(all, |synced|);
    FollowedConcat(NOTHING, log, trace.first);
    ProperIsInverse(synced);
    ProperIsInverse(all);
  }

  /** The static watches of a run were granted before its first poll. */
  lemma StaticIsOlder(
      paths: LinuxPaths, log: seq<Answer>, trace: PollTrace, r: Result<Option<WatchEvent>, WatchError>, issue: nat)
    requires PollAfter(paths, log, trace, r)
    requires issue < |ReadLog(log, trace)| && GrantsStatic(ReadLog(log, trace)[issue])
    ensures issue < |log|
  {
    assert (log + trace.Answers())[|log|] == ReadLog(log, trace)[|log|] == trace.first[0];
    assert (log + trace.Answers())[issue] == ReadLog(log, trace)[issue];
  }

  /** Events are read at most once. */
  ghost predicate ReadsOnce(trace: PollTrace) {
    && (forall i :: 0 <= i < |trace.first| ==> !trace.first[i].Reading?)
    && (forall i :: 0 <= i < |trace.second| ==> !trace.second[i].Reading?)
    && (trace.read.None? ==> trace.second == [])
  }

  lemma PollReadsOnce(
      paths: LinuxPaths, log: seq<Answer>, trace: PollTrace, r: Result<Option<WatchEvent>, WatchError>)
    requires PollAfter(paths, log, trace, r)
    ensures ReadsOnce(trace)
  {
    forall i | 0 <= i < |trace.first| ensures !trace.first[i].Reading? {
      if i > 0 { assert trace.first[i] == trace.first[1..][i - 1]; }
    }
    forall i | 0 <= i < |trace.second| ensures !trace.second[i].Reading? {
      if i > 0 { assert trace.second[i] == trace.second[1..][i - 1]; }
    }
  }

  /** What a poll dropped: the drops of the batch it read. */
  lemma DropsOfPoll(log: seq<Answer>, trace: PollTrace)
    requires ReadsOnce(trace)
    ensures var synced := ReadLog(log, trace);
      Drops(log + trace.Answers()) == Drops(log) + DropsIn(After(synced), IssueOf(synced), trace.Batch(), |synced|)
  {
    NoDropsWithoutReading(log, trace.first);
    if trace.read.Some? {
      DropsOfRead(ReadLog(log, trace), trace.read.value, trace.second);
      AnswersAfterRead(log, trace);
    } else {
      assert log + trace.Answers() == ReadLog(log, trace);
    }
  }

  lemma AnswersAfterRead(log: seq<Answer>, trace: PollTrace)
    requires trace.read.Some?
    ensures log + trace.Answers() == ReadLog(log, trace) + [Reading(trace.read.value)] + trace.second
  {
  }

  lemma DropsOfRead(log: seq<Answer>, read: Result<seq<Queued>, IoError>, second: seq<Answer>)
    requires forall i :: 0 <= i < |second| ==> !second[i].Reading?
    ensures Drops(log + [Reading(read)] + second)
      == Drops(log) + if read.Ok? then DropsIn(After(log), IssueOf(log), read.value, |log|) else []
  {
    DropsOneMore(log, Reading(read));
    NoDropsWithoutReading(log + [Reading(read)], second);
  }

  /** The event is about this watch: the answer that granted the watch is the one the event names. */
  ghost predicate OwnEvent(log: seq<Answer>, q: Queued, wd: WatchDescriptor, registration: Registration) {
    && !q.event.overflow && q.event.ignored && q.event.wd == wd
    && q.issue < |log| && log[q.issue] == Watching(registration, Ok(wd))
  }

  /** Over every run: a poll, whatever it returns, loses a static watch only to an IGNORED event of that very
      watch, which it has read. */
  lemma StaticWatchLostToItsOwnEvent(
      paths: LinuxPaths, log: seq<Answer>, trace: PollTrace, r: Result<Option<WatchEvent>, WatchError>,
      wd: WatchDescriptor)
    requires PollAfter(paths, log, trace, r)
    requires wd in StaticRegistrations(After(log))
    requires wd !in StaticRegistrations(After(log + trace.Answers()))
    ensures exists q :: q in trace.Batch() && OwnEvent(log, q, wd, After(log).registrations[wd])
  {
    var synced := ReadLog(log, trace);
    SyncedRun(paths, log, trace, r);
    StaticStays(paths, log, trace, r, wd);
    LiveWatchIsLastIssue(synced, wd);
    DropsInComplete(After(synced), IssueOf(synced), trace.Batch(), |synced|, wd);
    var d :| d in DropsIn(After(synced), IssueOf(synced), trace.Batch(), |synced|)
      && d.at == |synced| && d.issue == IssueOf(synced)[wd] && d.cause.event.wd == wd;
    DropOfBatch(After(synced), IssueOf(synced), trace.Batch(), |synced|, d);
    PollReadsOnce(paths, log, trace, r);
    DropsOfPoll(log, trace);
    StaticDropIsItsOwn(log + trace.Answers(), d);
    assert (log + trace.Answers())[d.issue] == synced[d.issue];
    StaticIsOlder(paths, log, trace, r, d.issue);
    assert synced[d.issue] == log[d.issue];
    assert OwnEvent(log, d.cause, wd, After(log).registrations[wd]);
  }

  /** A static watch that a poll loses was there when the poll read its events, and they dropped it. */
  lemma StaticStays(
      paths: LinuxPaths, log: seq<Answer>, trace: PollTrace, r: Result<Option<WatchEvent>, WatchError>,
      wd: WatchDescriptor)
    requires PollAfter(paths, log, trace, r)
    requires wd in StaticRegistrations(After(log))
    requires wd !in StaticRegistrations(After(log + trace.Answers()))
    ensures var synced := trace.Synced(After(log));
      && wd in synced.registrations && synced.registrations[wd] == After(log).registrations[wd]
      && !synced.registrations[wd].dynamic
      && wd !in Observe(synced, EventsOf(trace.Batch())).watches.registrations
  {
    var before, synced := After(log), trace.Synced(After(log));
    var o := Observe(synced, EventsOf(trace.Batch()));
    SyncedRun(paths, log, trace, r);
    assert StaticRegistrations(synced) == StaticRegistrations(before);
    assert wd in StaticRegistrations(synced) && StaticRegistrations(synced)[wd] == StaticRegistrations(before)[wd];
    ObserveKeepsInverse(synced, EventsOf(trace.Batch()));
    assert wd !in StaticRegistrations(o.watches);
  }

  /** The listing the poll made after its events does not show the chip, or the chip was answered to be absent. */
  ghost predicate Gone(trace: PollTrace, chip: Path) {
    && trace.second != []
    && (chip !in ListedChips(trace.second[0]) || Existence(chip, false) in trace.second)
  }

  /** Over every run: a poll without an error loses a chip watch that it had when it read its events only if the
      chip is gone. */
  lemma ChipLostOnlyIfGone(
      paths: LinuxPaths, log: seq<Answer>, trace: PollTrace, reported: Option<WatchEvent>, chip: Path)
    requires PollAfter(paths, log, trace, Ok(reported))
    requires chip in DynamicPaths(trace.Synced(After(log)))
    requires chip !in After(log + trace.Answers()).paths
    ensures Gone(trace, chip)
  {
    var synced, after := trace.Synced(After(log)), After(log + trace.Answers());
    SyncedRun(paths, log, trace, Ok(reported));
    WatchedIsDynamicOrStatic(after, chip);
    ChipsInStepAfterPoll(paths, After(log), trace, reported, after);
    if trace.second == [] {
      var events := EventsOf(trace.Batch());
      if !Observe(synced, events).needsPwmResync { ChipsStayWithoutPwmEvents(synced, events); }
    }
  }

  /** Over every run: whatever a stale event drops during a poll is the watch of a chip, and it is watched again
      when the poll returns without an error, unless the chip is gone. */
  lemma StaleDropIsMended(
      paths: LinuxPaths, log: seq<Answer>, trace: PollTrace, reported: Option<WatchEvent>, d: Drop)
    requires PollAfter(paths, log, trace, Ok(reported))
    requires d in Drops(log + trace.Answers()) && |log| <= d.at && d.issue != d.cause.issue
    ensures d.issue < |log + trace.Answers()| && (log + trace.Answers())[d.issue].Watching?
    ensures var request := (log + trace.Answers())[d.issue].request;
      && request.dynamic
      && (request.path in After(log + trace.Answers()).paths || Gone(trace, request.path))
  {
    var all, synced := log + trace.Answers(), ReadLog(log, trace);
    SyncedRun(paths, log, trace, Ok(reported));
    PollReadsOnce(paths, log, trace, Ok(reported));
    DropsOfPoll(log, trace);
    DropIsEarlier(log, d);
    DropOfBatch(After(synced), IssueOf(synced), trace.Batch(), |synced|, d);
    StaticDropIsItsOwn(all, d);
    LiveWatchIsLastIssue(synced, d.cause.event.wd);
    assert all[d.issue] == synced[d.issue];
    var chip := all[d.issue].request.path;
    assert chip in DynamicPaths(After(synced));
    if chip !in After(all).paths { ChipLostOnlyIfGone(paths, log, trace, reported, chip); }
  }

  // ---------- whole runs ----------

  datatype PollRecord = PollRecord(trace: PollTrace, result: Result<Option<WatchEvent>, WatchError>)

  /** Everything the system answered to `New` and to these polls after it. */
  ghost function Transcript(opening: seq<Answer>, polls: seq<PollRecord>): seq<Answer> {
    if polls == [] then opening
    else Transcript(opening, polls[..|polls| - 1]) + polls[|polls| - 1].trace.Answers()
  }

  ghost predicate Polled(paths: LinuxPaths, opening: seq<Answer>, polls: seq<PollRecord>) {
    forall n :: 0 <= n < |polls| ==>
      PollAfter(paths, Transcript(opening, polls[..n]), polls[n].trace, polls[n].result)
  }

  /** A new watcher, polled any number of times, whatever the polls return. */
  method Watch(paths: LinuxPaths, os: OperatingSystem, rounds: nat)
    returns (
      r: Result<LinuxHotplugWatcher, WatchError>,
      ghost asked: seq<Answer>, ghost more: seq<Answer>, ghost polls: seq<PollRecord>, ghost start: Watches)
    requires os.Valid() && os.log == []
    modifies os
    ensures os.log == Transcript(asked + more, polls) && Polled(paths, asked + more, polls)
    ensures r.Ok? ==>
      && fresh(r.value) && r.value.Valid() && |polls| == rounds
      && Started(paths, asked, more, None, start) && start == After(asked + more)
      && r.value.View() == After(os.log)
    ensures r.Err? ==> polls == []
  {
    polls, start := [], NOTHING;
    r, asked, more := LinuxHotplugWatcher.New(paths, os);
    if r.Err? { return; }
    var watcher := r.value;
    start := watcher.View();
    for round := 0 to rounds
      invariant fresh(watcher) && watcher.paths == paths && watcher.os == os && watcher.Valid()
      invariant os.log == Transcript(asked + more, polls) && Polled(paths, asked + more, polls)
      invariant |polls| == round
    {
      var result;
      ghost var log, trace := os.log, PollTrace([], None, []);
      result, trace := watcher.Poll();
      assert (polls + [PollRecord(trace, result)])[..|polls|] == polls;
      PolledOnceMore(paths, asked + more, polls, PollRecord(trace, result));
      polls := polls + [PollRecord(trace, result)];
    }
  }

  lemma PolledOnceMore(paths: LinuxPaths, opening: seq<Answer>, polls: seq<PollRecord>, next: PollRecord)
    requires Polled(paths, opening, polls)
    requires PollAfter(paths, Transcript(opening, polls), next.trace, next.result)
    ensures Polled(paths, opening, polls + [next])
    ensures Transcript(opening, polls + [next]) == Transcript(opening, polls) + next.trace.Answers()
  {
    var all := polls + [next];
    assert all[..|polls|] == polls;
    forall n | 0 <= n < |all|
      ensures PollAfter(paths, Transcript(opening, all[..n]), all[n].trace, all[n].result)
    {
      if n < |polls| { assert all[..n] == polls[..n]; }
    }
  }

  /** No poll adds or changes a static watch. */
  lemma PollAddsNoStaticWatch(
      paths: LinuxPaths, before: Watches, trace: PollTrace, r: Result<Option<WatchEvent>, WatchError>,
      after: Watches, wd: WatchDescriptor)
    requires PollMeaning(paths, before, trace, r, after)
    requires Inverse(trace.Synced(before)) && DynamicIsPwm(trace.Synced(before))
    requires wd in StaticRegistrations(after)
    ensures wd in StaticRegistrations(before) && before.registrations[wd] == after.registrations[wd]
  {
    var synced, events := trace.Synced(before), EventsOf(trace.Batch());
    var observed := Observe(synced, events).watches;
    ObserveKeepsInverse(synced, events);
    var kept := if trace.read.Some? then observed else synced;
    assert StaticRegistrations(after) == StaticRegistrations(kept);
    assert StaticRegistrations(kept)[wd] == StaticRegistrations(after)[wd];
    assert wd in StaticRegistrations(synced);
    assert StaticRegistrations(synced)[wd] == StaticRegistrations(before)[wd];
  }

  /** What a poll does to the static watches: it adds and changes none, and loses one only to its own event. */
  ghost predicate StaticStep(log: seq<Answer>, trace: PollTrace) {
    var before, after := StaticRegistrations(After(log)), StaticRegistrations(After(log + trace.Answers()));
    && (forall wd :: wd in after ==> wd in before && after[wd] == before[wd])
    && (forall wd :: wd in before && wd !in after ==>
          exists q :: q in trace.Batch() && OwnEvent(log, q, wd, before[wd]))
  }

  lemma PollIsStaticStep(
      paths: LinuxPaths, log: seq<Answer>, trace: PollTrace, r: Result<Option<WatchEvent>, WatchError>)
    requires PollAfter(paths, log, trace, r)
    ensures StaticStep(log, trace)
  {
    var before, after := After(log), After(log + trace.Answers());
    SyncedRun(paths, log, trace, r);
    forall wd | wd in StaticRegistrations(after)
      ensures wd in StaticRegistrations(before) && StaticRegistrations(after)[wd] == StaticRegistrations(before)[wd]
    {
      PollAddsNoStaticWatch(paths, before, trace, r, after, wd);
    }
    forall wd | wd in StaticRegistrations(before) && wd !in StaticRegistrations(after)
      ensures exists q :: q in trace.Batch() && OwnEvent(log, q, wd, StaticRegistrations(before)[wd])
    {
      StaticWatchLostToItsOwnEvent(paths, log, trace, r, wd);
    }
  }

  /** Over every run: the static watches are among those granted by `New`, unchanged; and each of the others was
      lost to an IGNORED event of that very watch, which one of the polls has read. */
  lemma StaticWatchesStay(paths: LinuxPaths, opening: seq<Answer>, polls: seq<PollRecord>, wd: WatchDescriptor)
    requires Polled(paths, opening, polls)
    ensures
      var first := StaticRegistrations(After(opening));
      var now := StaticRegistrations(After(Transcript(opening, polls)));
      && (wd in now ==> wd in first && now[wd] == first[wd])
      && (wd in first && wd !in now ==> LostToItsOwn(opening, polls, wd, first[wd]))
  {
    forall n | 0 <= n < |polls| ensures StaticStep(Transcript(opening, polls[..n]), polls[n].trace) {
      PollIsStaticStep(paths, Transcript(opening, polls[..n]), polls[n].trace, polls[n].result);
    }
    StepsKeepStatic(opening, polls, wd);
  }

  ghost predicate LostToItsOwn(
      opening: seq<Answer>, polls: seq<PollRecord>, wd: WatchDescriptor, registration: Registration)
  {
    exists n, q ::
      && 0 <= n < |polls| && q in polls[n].trace.Batch()
      && OwnEvent(Transcript(opening, polls[..n]), q, wd, registration)
  }

  lemma {:induction false} StepsKeepStatic(opening: seq<Answer>, polls: seq<PollRecord>, wd: WatchDescriptor)
    requires forall n :: 0 <= n < |polls| ==> StaticStep(Transcript(opening, polls[..n]), polls[n].trace)
    ensures
      var first := StaticRegistrations(After(opening));
      var now := StaticRegistrations(After(Transcript(opening, polls)));
      && (wd in now ==> wd in first && now[wd] == first[wd])
      && (wd in first && wd !in now ==> LostToItsOwn(opening, polls, wd, first[wd]))
    decreases |polls|
  {
    if polls != [] {
      var m := |polls| - 1;
      var front := polls[..m];
      assert forall n :: 0 <= n < m ==> front[..n] == polls[..n] && front[n] == polls[n];
      StepsKeepStatic(opening, front, wd);
      assert StaticStep(Transcript(opening, front), polls[m].trace);
    }
  }

  // ---------- a run in which a stale event costs a watch ----------

  function Chip(path: Path): Registration { Registration(path, [Pwm], true) }

  /** One chip is watched and nothing else. */
  function OneChip(path: Path, wd: WatchDescriptor): Watches {
    Watches(map[path := wd], map[wd := Chip(path)])
  }

  lemma OneChipSets(path: Path, wd: WatchDescriptor)
    ensures Inverse(NOTHING) && Inverse(OneChip(path, wd)) && Registered(NOTHING, wd, Chip(path)) == OneChip(path, wd)
    ensures DynamicPaths(NOTHING) == {} && DynamicPaths(OneChip(path, wd)) == {path}
    ensures StaticPaths(NOTHING) == {} && StaticPaths(OneChip(path, wd)) == {}
    ensures Unregistered(OneChip(path, wd), path) == NOTHING
  {
    assert OneChip(path, wd).registrations[wd].path == path;
  }

  function Grant(path: Path, wd: WatchDescriptor): seq<Answer> {
    [Existence(path, true), Watching(Chip(path), Ok(wd))]
  }

  /** The first chip of an empty watcher. */
  lemma ChipGranted(log: seq<Answer>, path: Path, wd: WatchDescriptor)
    requires WellRun(log) && After(log) == NOTHING
    ensures WellRun(log + Grant(path, wd)) && After(log + Grant(path, wd)) == OneChip(path, wd)
    ensures ChipSteps(NOTHING, Grant(path, wd), None, OneChip(path, wd)) && Absent(Grant(path, wd)) == {}
  {
    OneChipSets(path, wd);
    RunGrows(log, Existence(path, true));
    RunGrows(log + [Existence(path, true)], Watching(Chip(path), Ok(wd)));
    assert log + Grant(path, wd) == log + [Existence(path, true)] + [Watching(Chip(path), Ok(wd))];
    AddedChip(NOTHING, path, Grant(path, wd), None, OneChip(path, wd));
  }

  /** A synchronization that finds the first chip. */
  lemma FirstChipSynchronized(paths: LinuxPaths, entry: DirEntry, wd: WatchDescriptor)
    requires IsChipEntry(entry)
    ensures Synchronized(paths, NOTHING, [Listing(paths.ClassRoot("pwm"), Ok([entry]))] + Grant(entry.path, wd),
                         None, OneChip(entry.path, wd))
  {
    OneChipSets(entry.path, wd);
    ChipGranted([], entry.path, wd);
    ChipsOfOne(entry);
    UpdatedIsSynchronized(paths, NOTHING, Ok([entry]), {entry.path}, Grant(entry.path, wd),
                          None, OneChip(entry.path, wd));
  }

  lemma ChipsOfOne(entry: DirEntry)
    requires IsChipEntry(entry)
    ensures Chips([entry]) == {entry.path}
  {
    assert entry in [entry];
  }

  /** A synchronization that finds the second chip in place of the first; inotify reuses the descriptor. */
  lemma SecondChipSynchronized(paths: LinuxPaths, first: Path, entry: DirEntry, wd: WatchDescriptor)
    requires IsChipEntry(entry) && entry.path != first
    ensures Synchronized(paths, OneChip(first, wd),
      [Listing(paths.ClassRoot("pwm"), Ok([entry])), Unwatching(wd, None)] + Grant(entry.path, wd),
      None, OneChip(entry.path, wd))
  {
    var removal := [Unwatching(wd, None)];
    OneChipSets(first, wd);
    OneChipSets(entry.path, wd);
    RemovedChip(OneChip(first, wd), first, removal, None, NOTHING);
    ChipGranted([], entry.path, wd);
    ChipsOfOne(entry);
    UpdatedByBoth({entry.path}, OneChip(first, wd), removal, NOTHING,
                  Grant(entry.path, wd), None, OneChip(entry.path, wd));
    UpdatedIsSynchronized(paths, OneChip(first, wd), Ok([entry]), {entry.path}, removal + Grant(entry.path, wd),
                          None, OneChip(entry.path, wd));
    assert [Listing(paths.ClassRoot("pwm"), Ok([entry]))] + (removal + Grant(entry.path, wd))
      == [Listing(paths.ClassRoot("pwm"), Ok([entry])), Unwatching(wd, None)] + Grant(entry.path, wd);
  }

  /** None of the static roots exists. */
  ghost function NoRoots(wanted: seq<Registration>): seq<Answer> {
    if wanted == [] then [] else NoRoots(wanted[..|wanted| - 1]) + [Existence(wanted[|wanted| - 1].path, false)]
  }

  lemma {:induction false} NothingFound(wanted: seq<Registration>)
    ensures WellRun(NoRoots(wanted)) && After(NoRoots(wanted)) == NOTHING && Opening(NoRoots(wanted))
    ensures Reports(NoRoots(wanted), None)
    decreases |wanted|
  {
    if wanted != [] {
      var n := |wanted| - 1;
      NothingFound(wanted[..n]);
      var front, answer := NoRoots(wanted[..n]), Existence(wanted[n].path, false);
      RunGrows(front, answer);
      ReportsConcat(front, [answer], None);
    }
  }

  lemma {:induction false} RootsAreAbsent(wanted: seq<Registration>)
    ensures forall r :: r in wanted ==> r.path in Absent(NoRoots(wanted))
    decreases |wanted|
  {
    if wanted != [] {
      var n := |wanted| - 1;
      var answer := Existence(wanted[n].path, false);
      RootsAreAbsent(wanted[..n]);
      AbsentConcat(NoRoots(wanted[..n]), [answer]);
      assert answer in [answer];
      assert wanted == wanted[..n] + [wanted[n]];
    }
  }

  function Replacing(root: Path, entry: DirEntry, wd: WatchDescriptor): seq<Answer> {
    [Listing(root, Ok([entry])), Unwatching(wd, None)] + Grant(entry.path, wd)
  }

  /** An IGNORED event of the watch granted last, queued after two more answers. */
  function StaleEvent(log: seq<Answer>, wd: WatchDescriptor): Queued
    requires log != []
  {
    Queued(InotifyEvent(wd, false, true, None), |log| - 1, |log| + 2)
  }

  lemma ChipReplaced(log: seq<Answer>, first: Path, root: Path, entry: DirEntry, wd: WatchDescriptor)
    requires WellRun(log) && After(log) == OneChip(first, wd)
    ensures var all := log + Replacing(root, entry, wd); WellRun(all) && After(all) == OneChip(entry.path, wd)
  {
    var listing := Listing(root, Ok([entry]));
    OneChipSets(first, wd);
    RunGrows(log, listing);
    RunGrows(log + [listing], Unwatching(wd, None));
    ChipGranted(log + [listing] + [Unwatching(wd, None)], entry.path, wd);
    assert log + Replacing(root, entry, wd) == log + [listing] + [Unwatching(wd, None)] + Grant(entry.path, wd);
  }

  lemma StaleEventTagged(log: seq<Answer>, root: Path, entry: DirEntry, wd: WatchDescriptor)
    requires log != [] && Issues(log[|log| - 1], wd)
    ensures Tagged(log + Replacing(root, entry, wd), StaleEvent(log, wd))
  {
    var all := log + Replacing(root, entry, wd);
    assert Issues(all[|log| - 1], wd);
    assert !Issues(all[|log|], wd) && !Issues(all[|log| + 1], wd);
  }

  /** The event takes the watch of the second chip. */
  lemma StaleEventDrops(log: seq<Answer>, chip: Path, wd: WatchDescriptor, q: Queued) returns (d: Drop)
    requires WellRun(log) && After(log) == OneChip(chip, wd) && Tagged(log, q)
    requires q.event == InotifyEvent(wd, false, true, None)
    ensures WellRun(log + [Reading(Ok([q]))]) && After(log + [Reading(Ok([q]))]) == NOTHING
    ensures Observe(OneChip(chip, wd), EventsOf([q])) == Observation(NOTHING, {Pwm}, {chip}, true)
    ensures d in DropsIn(After(log), IssueOf(log), [q], |log|) && d.cause == q
    ensures d.issue < |log| && log[d.issue] == Watching(Chip(chip), Ok(wd))
  {
    LiveWatchIsLastIssue(log, wd);
    DropsInOne(After(log), IssueOf(log), q, |log|);
    RunGrows(log, Reading(Ok([q])));
    d := Drop(IssueOf(log)[wd], q, |log|);
    assert OneChip(chip, wd).registrations - {wd} == map[];
    assert (set i | i in [Pwm]) == {Pwm};
  }

  lemma ChipListed(log: seq<Answer>, listing: Answer, path: Path, wd: WatchDescriptor)
    requires WellRun(log) && After(log) == NOTHING && listing.Listing?
    ensures var all := log + ([listing] + Grant(path, wd)); WellRun(all) && After(all) == OneChip(path, wd)
  {
    RunGrows(log, listing);
    ChipGranted(log + [listing], path, wd);
    assert log + ([listing] + Grant(path, wd)) == log + [listing] + Grant(path, wd);
  }

  /** `New` finds none of the static roots and one chip. */
  lemma OpeningWithChip(paths: LinuxPaths, entry: DirEntry, wd: WatchDescriptor)
    returns (asked: seq<Answer>, more: seq<Answer>)
    requires IsChipEntry(entry)
    ensures WellRun(asked + more) && After(asked + more) == OneChip(entry.path, wd)
    ensures Started(paths, asked, more, None, OneChip(entry.path, wd))
    ensures more != [] && more[|more| - 1] == Watching(Chip(entry.path), Ok(wd))
  {
    var wanted := paths.StaticWatches();
    var listing := Listing(paths.ClassRoot("pwm"), Ok([entry]));
    asked, more := NoRoots(wanted), [listing] + Grant(entry.path, wd);
    NothingFound(wanted);
    RootsAreAbsent(wanted);
    ChipListed(asked, listing, entry.path, wd);
    StartedWithChip(paths, asked, entry, wd);
  }

  lemma StartedWithChip(paths: LinuxPaths, asked: seq<Answer>, entry: DirEntry, wd: WatchDescriptor)
    requires IsChipEntry(entry) && Opening(asked) && Reports(asked, None)
    requires forall r :: r in paths.StaticWatches() ==> r.path in Absent(asked)
    ensures Started(paths, asked, [Listing(paths.ClassRoot("pwm"), Ok([entry]))] + Grant(entry.path, wd), None,
                    OneChip(entry.path, wd))
  {
    FirstChipSynchronized(paths, entry, wd);
    NothingCovered(paths.StaticWatches(), Absent(asked));
    StartedByBoth(paths, asked, NOTHING, [Listing(paths.ClassRoot("pwm"), Ok([entry]))] + Grant(entry.path, wd), None,
                  OneChip(entry.path, wd));
  }

  lemma NothingCovered(wanted: seq<Registration>, absent: set<Path>)
    requires forall r :: r in wanted ==> r.path in absent
    ensures Covers(NOTHING, wanted, absent)
  {
  }

  /** The poll after it: another chip has taken the place of the first and inotify reuses its descriptor; the
      IGNORED event of its first watch is read; and then the directory cannot be listed. */
  lemma StalePoll(
      paths: LinuxPaths, log: seq<Answer>, first: Path, entry: DirEntry, wd: WatchDescriptor, error: IoError)
    returns (trace: PollTrace, d: Drop)
    requires WellRun(log) && log != [] && log[|log| - 1] == Watching(Chip(first), Ok(wd))
    requires After(log) == OneChip(first, wd)
    requires IsChipEntry(entry) && entry.path != first && error != NotFound
    ensures PollAfter(paths, log, trace, Err(WatchFailed(error)))
    ensures trace.Synced(After(log)) == OneChip(entry.path, wd) && After(log + trace.Answers()) == NOTHING
    ensures d in Drops(log + trace.Answers()) && d.issue != d.cause.issue
  {
    var root := paths.ClassRoot("pwm");
    var q, listing := StaleEvent(log, wd), Listing(root, Err(error));
    var synced := log + Replacing(root, entry, wd);
    trace := PollTrace(Replacing(root, entry, wd), Some(Ok([q])), [listing]);
    assert log + trace.Answers() == synced + [Reading(Ok([q]))] + [listing];
    ChipReplaced(log, first, root, entry, wd);
    StaleEventTagged(log, root, entry, wd);
    d := StaleEventDrops(synced, entry.path, wd, q);
    RunGrows(synced + [Reading(Ok([q]))], listing);
    SecondChipSynchronized(paths, first, entry, wd);
    UnlistedIsSynchronized(paths, NOTHING, Err(error));
    PollGoesOn(paths, After(log), trace.first, OneChip(entry.path, wd), Ok([q]), [listing],
               Err(WatchFailed(error)), NOTHING);
    PollReadsOnce(paths, log, trace, Err(WatchFailed(error)));
    DropsOfPoll(log, trace);
  }

  /** That the poll returns without an error is needed: in a run of `New` and one poll that ends with an error, an
      IGNORED event takes the watch of another chip than its own, and that chip stays unwatched. */
  lemma ReissuedDescriptorLosesWatch(
      paths: LinuxPaths, first: DirEntry, second: DirEntry, wd: WatchDescriptor, error: IoError)
    returns (asked: seq<Answer>, more: seq<Answer>, trace: PollTrace, d: Drop)
    requires IsChipEntry(first) && IsChipEntry(second) && first.path != second.path && error != NotFound
    ensures Started(paths, asked, more, None, After(asked + more))
    ensures PollAfter(paths, asked + more, trace, Err(WatchFailed(error)))
    ensures second.path in trace.Synced(After(asked + more)).paths
    ensures second.path !in After(asked + more + trace.Answers()).paths
    ensures d in Drops(asked + more + trace.Answers()) && d.issue != d.cause.issue
  {
    asked, more := OpeningWithChip(paths, first, wd);
    trace, d := StalePoll(paths, asked + more, first.path, second, wd, error);
  }
}
