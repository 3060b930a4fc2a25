/** The hotplug watcher object. The system's answers to each of its calls determine what the call does. */
module HotplugWatcher {
  import opened Core
  import opened StringOrder
  import opened HotplugSystem
  import opened HotplugWatches
  import opened HotplugRuns

  // ---------- what calls are answered ----------

  /** The error that an answer makes the watcher return. */
  function Failure(answer: Answer): Option<WatchError> {
    match answer
    case Listing(_, Err(error)) => if error == NotFound then None else Some(WatchFailed(error))
    case Watching(_, Err(error)) => Some(WatchFailed(error))
    case Unwatching(_, Some(error)) =>
      if error == NotFound || error == InvalidInput then None else Some(WatchFailed(error))
    case _ => None
  }

  /** The first failing answer is returned, and nothing is asked after it. */
  ghost predicate Reports(asked: seq<Answer>, r: Option<WatchError>) {
    && (forall i :: 0 <= i < |asked| - 1 ==> Failure(asked[i]).None?)
    && r == if asked == [] then None else Failure(asked[|asked| - 1])
  }

  lemma ReportsConcat(first: seq<Answer>, second: seq<Answer>, r: Option<WatchError>)
    requires Reports(first, None) && Reports(second, r)
    ensures Reports(first + second, r)
  {
    var all := first + second;
    assert forall i :: 0 <= i < |all| ==> all[i] == if i < |first| then first[i] else second[i - |first|];
  }

  /** The paths that were answered not to exist. */
  ghost function Absent(asked: seq<Answer>): set<Path> {
    set a | a in asked && a.Existence? && !a.present :: a.path
  }

  lemma AbsentConcat(first: seq<Answer>, second: seq<Answer>)
    ensures Absent(first + second) == Absent(first) + Absent(second)
  {
    assert forall a :: a in first + second <==> a in first || a in second;
  }

  /** Nothing was listed, removed or read so far. */
  ghost predicate Opening(log: seq<Answer>) {
    forall i :: 0 <= i < |log| ==> TakesNothing(log[i])
  }

  /** Questions about chip watches only. */
  ghost predicate ChipsOnly(asked: seq<Answer>) {
    forall a :: a in asked ==>
      a.Existence? || a.Unwatching? || (a.Watching? && a.request.dynamic && a.request.interfaces == [Pwm])
  }

  ghost predicate RemovalsOnly(asked: seq<Answer>) {
    forall a :: a in asked ==> a.Unwatching?
  }

  ghost predicate NoRemovals(asked: seq<Answer>) {
    forall a :: a in asked ==> !a.Unwatching?
  }

  /** Watches are removed before any is added. */
  ghost predicate RemovalsFirst(asked: seq<Answer>) {
    forall i, k :: 0 <= i < k < |asked| && asked[k].Unwatching? ==> asked[i].Unwatching?
  }

  lemma RemovalsThenAdditions(removals: seq<Answer>, additions: seq<Answer>)
    requires RemovalsOnly(removals) && NoRemovals(additions)
    ensures RemovalsFirst(removals + additions)
  {
    var all := removals + additions;
    assert forall i :: 0 <= i < |removals| ==> all[i] == removals[i] && all[i] in removals;
    assert forall i :: |removals| <= i < |all| ==> all[i] == additions[i - |removals|] && all[i] in additions;
  }

  lemma ChipsOnlyConcat(first: seq<Answer>, second: seq<Answer>)
    requires ChipsOnly(first) && ChipsOnly(second)
    ensures ChipsOnly(first + second)
  {
  }

  /** One `add_watch`: nothing for a watched path, nothing for an absent one; otherwise what inotify grants. */
  ghost predicate Added(
      before: Watches, registration: Registration, asked: seq<Answer>, r: Option<WatchError>, after: Watches)
  {
    var path := registration.path;
    if path in before.paths then asked == [] && r == None && after == before
    else if asked == [Existence(path, false)] then r == None && after == before
    else
      && |asked| == 2 && asked[0] == Existence(path, true) && asked[1].Watching? && asked[1].request == registration
      && match asked[1].granted
         case Err(error) => r == Some(WatchFailed(error)) && after == before
         case Ok(wd) => r == None && wd !in before.registrations && after == Registered(before, wd, registration)
  }

  /** One `remove_watch`: both maps forget the path; only unknown descriptors go without an error. */
  ghost predicate Removed(before: Watches, path: Path, asked: seq<Answer>, r: Option<WatchError>, after: Watches) {
    && after == Unregistered(before, path)
    && if path !in before.paths then asked == [] && r == None
       else
         && |asked| == 1 && asked[0].Unwatching? && asked[0].wd == before.paths[path]
         && match asked[0].error
            case None => r == None
            case Some(error) => r == if error in {NotFound, InvalidInput} then None else Some(WatchFailed(error))
  }

  lemma RemovedFollows(before: Watches, path: Path, asked: seq<Answer>, r: Option<WatchError>, after: Watches)
    requires Inverse(before) && Removed(before, path, asked, r, after)
    ensures after == Followed(before, asked) && Reports(asked, r) && ChipsOnly(asked) && Absent(asked) == {}
  {
    if path in before.paths { assert asked == [asked[0]] && asked[..0] == []; }
  }

  lemma AddedFollows(before: Watches, chip: Path, asked: seq<Answer>, r: Option<WatchError>, after: Watches)
    requires Added(before, Registration(chip, [Pwm], true), asked, r, after)
    ensures after == Followed(before, asked) && Reports(asked, r) && ChipsOnly(asked)
    ensures Absent(asked) == if asked == [Existence(chip, false)] then {chip} else {}
  {
    if |asked| == 1 {
      assert asked[..0] == [];
      assert asked[0] in asked;
    } else if |asked| == 2 {
      assert asked[..1][..0] == [];
      assert Followed(before, asked[..1]) == before;
      assert Followed(before, asked) == Follow(before, asked[1]);
    }
  }

  /** The chips that a listing answer shows: its directories named `pwmchip...`. */
  function ListedChips(answer: Answer): set<Path> {
    if answer.Listing? && answer.entries.Ok?
    then set e <- answer.entries.value |
           e.isDir && e.fileName.Some? && "pwmchip" <= e.fileName.value :: e.path
    else {}
  }

  /** A directory that is not there lists nothing; any other failure to list it ends the synchronization with that
      error. */
  ghost predicate ListingDecides(asked: seq<Answer>, r: Option<WatchError>)
    requires asked != [] && asked[0].Listing?
  {
    match asked[0].entries
    case Ok(_) => true
    case Err(NotFound) => |asked| == 1 ==> r == None
    case Err(error) => asked == [asked[0]] && r == Some(WatchFailed(error))
  }

  /** One synchronization of the chip watches: the class directory is listed first; the answers determine
      the watches and the error; static watches stay; and without an error the dynamic watches are exactly the
      listed chips, except those that were answered to be absent or are watched statically. */
  ghost predicate Synchronized(
      paths: LinuxPaths, before: Watches, asked: seq<Answer>, r: Option<WatchError>, after: Watches)
  {
    && asked != [] && asked[0].Listing? && asked[0].root == paths.ClassRoot("pwm")
    && ChipsOnly(asked[1..]) && RemovalsFirst(asked[1..])
    && Reports(asked, r) && ListingDecides(asked, r)
    && after == Followed(before, asked)
    && StaticRegistrations(after) == StaticRegistrations(before)
    && Absent(asked) <= ListedChips(asked[0])
    && (r.None? ==> DynamicPaths(after) == ListedChips(asked[0]) - Absent(asked) - StaticPaths(before))
  }

  // ---------- static watches ----------

  /** The registrations are the wanted ones, except those of absent paths. */
  ghost predicate Covers(w: Watches, wanted: seq<Registration>, absent: set<Path>) {
    forall r :: r in w.registrations.Values <==> r in wanted && r.path !in absent
  }

  /** The same of the static registrations alone. */
  ghost predicate StaticallyCovers(w: Watches, wanted: seq<Registration>, absent: set<Path>) {
    forall r :: r in StaticRegistrations(w).Values <==> r in wanted && r.path !in absent
  }

  lemma CoversStatically(w: Watches, wanted: seq<Registration>, absent: set<Path>)
    requires Covers(w, wanted, absent) && forall r :: r in wanted ==> !r.dynamic
    ensures StaticallyCovers(w, wanted, absent)
    ensures DynamicPaths(w) == {}
  {
    forall wd | wd in w.registrations ensures !w.registrations[wd].dynamic {
      assert w.registrations[wd] in w.registrations.Values;
    }
    assert StaticRegistrations(w) == w.registrations;
  }

  lemma StaticRootEnding(paths: LinuxPaths, i: nat)
    requires i < |paths.StaticWatches()|
    ensures
      var p := paths.StaticWatches()[i].path;
      var n := |p|;
      && n > 1 && p[n - 1] == "osmnvssys"[i]
      && (i == 1 ==> p[n - 2] == 'd')
      && (i in {5, 6, 8} ==>
            n > 8 && p[n - 2] == 'e' && p[n - 9] == (if i == 5 then 'c' else if i == 6 then 'i' else 'b'))
  {
  }

  lemma StaticRootsDiffer(paths: LinuxPaths, i: nat, k: nat)
    requires i < k < |paths.StaticWatches()|
    ensures paths.StaticWatches()[i].path != paths.StaticWatches()[k].path
  {
    StaticRootEnding(paths, i);
    StaticRootEnding(paths, k);
  }

  /** Static watches of different paths. */
  ghost predicate Distinctive(wanted: seq<Registration>) {
    && (forall i, k :: 0 <= i < k < |wanted| ==> wanted[i].path != wanted[k].path)
    && (forall k :: 0 <= k < |wanted| ==> !wanted[k].dynamic)
  }

  lemma StaticWatchesDistinctive(paths: LinuxPaths)
    ensures Distinctive(paths.StaticWatches())
  {
    forall i: nat, k: nat | i < k < |paths.StaticWatches()|
      ensures paths.StaticWatches()[i].path != paths.StaticWatches()[k].path
    {
      StaticRootsDiffer(paths, i, k);
    }
  }

  lemma NotWatchedYet(w: Watches, wanted: seq<Registration>, k: nat, absent: set<Path>)
    requires Inverse(w) && Distinctive(wanted) && k < |wanted| && Covers(w, wanted[..k], absent)
    ensures wanted[k].path !in w.paths
  {
  }

  lemma RegisteredValues(w: Watches, wd: WatchDescriptor, registration: Registration, r: Registration)
    requires wd !in w.registrations
    ensures r in Registered(w, wd, registration).registrations.Values <==>
      r in w.registrations.Values || r == registration
  {
    var after := Registered(w, wd, registration).registrations;
    assert after[wd] == registration;
    if r in w.registrations.Values {
      var d :| d in w.registrations && w.registrations[d] == r;
      assert d in after && after[d] == r;
    }
  }

  /** The next static root: its watch joins unless the root is answered to be absent. */
  lemma CoversOneMore(
      v: Watches, wanted: seq<Registration>, k: nat, asked: seq<Answer>, more: seq<Answer>, w: Watches)
    requires Distinctive(wanted) && k < |wanted| && wanted[k].path !in v.paths
    requires Covers(v, wanted[..k], Absent(asked)) && wanted[k].path !in Absent(asked)
    requires Added(v, wanted[k], more, None, w)
    ensures Covers(w, wanted[..k + 1], Absent(asked + more))
  {
    var next, absent := wanted[k], Absent(asked + more);
    AbsentConcat(asked, more);
    AbsentWhenAdded(v, next, more, None, w);
    assert wanted[..k + 1] == wanted[..k] + [next];
    forall r ensures r in w.registrations.Values <==> r in wanted[..k + 1] && r.path !in absent {
      if r in wanted[..k] { assert r.path != next.path; }
      if next.path !in absent { RegisteredValues(v, more[1].granted.value, next, r); }
    }
  }

  lemma AbsentWhenAdded(
      before: Watches, registration: Registration, asked: seq<Answer>, r: Option<WatchError>, after: Watches)
    requires Added(before, registration, asked, r, after)
    ensures Absent(asked) == if asked == [Existence(registration.path, false)] then {registration.path} else {}
  {
    if |asked| == 1 { assert asked[0] in asked; }
  }

  // ---------- chips ----------

  /** Steps of a synchronization: what the answers do to the watches, with the static watches unchanged. */
  ghost predicate ChipSteps(before: Watches, asked: seq<Answer>, r: Option<WatchError>, after: Watches) {
    && ChipsOnly(asked) && Reports(asked, r) && after == Followed(before, asked)
    && StaticRegistrations(after) == StaticRegistrations(before)
  }

  lemma ChipStepsJoin(
      before: Watches, first: seq<Answer>, middle: Watches, second: seq<Answer>, r: Option<WatchError>, after: Watches)
    requires ChipSteps(before, first, None, middle) && ChipSteps(middle, second, r, after)
    ensures ChipSteps(before, first + second, r, after)
    ensures Absent(first + second) == Absent(first) + Absent(second)
  {
    ChipsOnlyConcat(first, second);
    ReportsConcat(first, second, r);
    FollowedConcat(before, first, second);
    AbsentConcat(first, second);
  }

  lemma AddedChip(before: Watches, chip: Path, asked: seq<Answer>, r: Option<WatchError>, after: Watches)
    requires Inverse(before) && Added(before, Registration(chip, [Pwm], true), asked, r, after)
    ensures ChipSteps(before, asked, r, after)
    ensures Absent(asked) == {} || (Absent(asked) == {chip} && chip !in before.paths)
    ensures r.None? ==>
      DynamicPaths(after)
        == DynamicPaths(before) + (if chip in Absent(asked) || chip in StaticPaths(before) then {} else {chip})
  {
    AddedFollows(before, chip, asked, r, after);
    WatchedIsDynamicOrStatic(before, chip);
    if |asked| == 2 && r.None? {
      RegisteringEffect(before, asked[1].granted.value, Registration(chip, [Pwm], true));
    }
  }

  lemma RemovedChip(before: Watches, chip: Path, asked: seq<Answer>, r: Option<WatchError>, after: Watches)
    requires Inverse(before) && chip in DynamicPaths(before) && Removed(before, chip, asked, r, after)
    ensures ChipSteps(before, asked, r, after) && Absent(asked) == {}
    ensures DynamicPaths(after) == DynamicPaths(before) - {chip}
  {
    RemovedFollows(before, chip, asked, r, after);
    UnregisteringEffect(before, chip);
  }

  lemma ListingFirst(before: Watches, listing: Answer, asked: seq<Answer>, r: Option<WatchError>, after: Watches)
    requires ChipSteps(before, asked, r, after) && listing.Listing? && Failure(listing).None?
    ensures Reports([listing] + asked, r) && after == Followed(before, [listing] + asked)
    ensures ([listing] + asked)[1..] == asked && Absent([listing] + asked) == Absent(asked)
  {
    assert [listing][..0] == [];
    assert Followed(before, [listing]) == before;
    FollowedConcat(before, [listing], asked);
    ReportsConcat([listing], asked, r);
    AbsentConcat([listing], asked);
    assert Absent([listing]) == {};
  }

  // ---------- the watcher object ----------

  /** The system keeps to its side, and static watches come first. */
  ghost predicate WellRun(log: seq<Answer>) {
    Proper(log) && StaticFirst(log)
  }

  lemma RunGrows(log: seq<Answer>, answer: Answer)
    requires WellRun(log) && ProperStep(log, answer) && (GrantsStatic(answer) ==> Opening(log))
    ensures WellRun(log + [answer]) && After(log + [answer]) == Follow(After(log), answer)
    ensures Opening(log) && TakesNothing(answer) ==> Opening(log + [answer])
  {
    ProperGrows(log, answer);
  }

  class LinuxHotplugWatcher {
    const paths: LinuxPaths
    const os: OperatingSystem
    var watchedPaths: map<Path, WatchDescriptor>
    var registrations: map<WatchDescriptor, Registration>

    ghost function View(): Watches
      reads this
    {
      Watches(watchedPaths, registrations)
    }

    /** The maps are inverse, and they are what the answers of the system make of them; and static watches came
        first. */
    ghost predicate Valid()
      reads this, os
    {
      os.Valid() && WellRun(os.log) && View() == After(os.log) && Inverse(View())
    }

    constructor Empty(paths: LinuxPaths, os: OperatingSystem)
      requires os.Valid() && os.log == []
      ensures Valid() && this.paths == paths && this.os == os && View() == NOTHING
    {
      this.paths := paths;
      this.os := os;
      watchedPaths := map[];
      registrations := map[];
    }

    /** Watches a path unless it is watched already or does not exist. */
    method AddWatch(path: Path, interfaces: seq<InterfaceKind>, dynamic: bool)
      returns (r: Option<WatchError>, ghost asked: seq<Answer>)
      requires Valid() && if dynamic then interfaces == [Pwm] else Opening(os.log)
      modifies this, os
      ensures Valid() && os.log == old(os.log) + asked
      ensures Added(old(View()), Registration(path, interfaces, dynamic), asked, r, View())
    {
      asked := [];
      if path in watchedPaths {
        return None, [];
      }
      var request := Registration(path, interfaces, dynamic);
      var present := os.PathExists(path);
      asked := [Existence(path, present)];
      RunGrows(old(os.log), asked[0]);
      if !present {
        return None, asked;
      }
      ghost var log := os.log;
      var granted := os.AddInotifyWatch(request, registrations.Keys);
      asked := asked + [Watching(request, granted)];
      RunGrows(log, Watching(request, granted));
      if granted.Err? {
        return Some(WatchFailed(granted.error)), asked;
      }
      AddKeepsInverseIffFresh(View(), granted.value, request);
      watchedPaths := watchedPaths[path := granted.value];
      registrations := registrations[granted.value := request];
      return None, asked;
    }

    /** Forgets the watch of a path; both maps have forgotten it even if inotify reports an error. */
    method RemoveWatch(path: Path) returns (r: Option<WatchError>, ghost asked: seq<Answer>)
      requires Valid()
      modifies this, os
      ensures Valid() && os.log == old(os.log) + asked
      ensures Removed(old(View()), path, asked, r, View())
    {
      if path !in watchedPaths {
        return None, [];
      }
      var descriptor := watchedPaths[path];
      RemoveKeepsInverse(View(), path);
      watchedPaths := watchedPaths - {path};
      registrations := registrations - {descriptor};
      assert View() == Unregistered(old(View()), path);
      var error := os.RemoveInotifyWatch(descriptor);
      RunGrows(old(os.log), Unwatching(descriptor, error));
      asked := [Unwatching(descriptor, error)];
      if error.Some? && error.value != NotFound && error.value != InvalidInput {
        return Some(WatchFailed(error.value)), asked;
      }
      return None, asked;
    }

    /** One of the removals. */
    method RemoveChip(
        path: Path, ghost start: Watches, ghost chips: set<Path>, ghost stale: set<Path>,
        ghost log: seq<Answer>, ghost before: seq<Answer>)
      returns (r: Option<WatchError>, ghost asked: seq<Answer>)
      requires Valid() && os.log == log + before
      requires path in stale && Removals(start, chips, stale, before, View())
      modifies this, os
      ensures Valid() && os.log == log + asked
      ensures ChipSteps(start, asked, r, View()) && Absent(asked) == {} && RemovalsOnly(asked)
      ensures r.None? ==> Removals(start, chips, stale - {path}, asked, View())
    {
      ghost var more;
      r, more := RemoveWatch(path);
      RemovalsOneMore(start, chips, stale, before, old(View()), path, more, r, View());
      asked := before + more;
      assert log + before + more == log + asked;
    }

    /** Drops the watches of chips that are no longer listed. */
    method RemoveStaleChips(chips: set<Path>) returns (r: Option<WatchError>, ghost asked: seq<Answer>)
      requires Valid()
      modifies this, os
      ensures Valid() && os.log == old(os.log) + asked
      ensures ChipSteps(old(View()), asked, r, View()) && Absent(asked) == {} && RemovalsOnly(asked)
      ensures r.None? ==> DynamicPaths(View()) == DynamicPaths(old(View())) * chips
    {
      asked := [];
      ghost var start := View();
      ProperIsInverse(os.log);
      var stale := StaleChips(Watches(watchedPaths, registrations), chips);
      RemovalsStart(start, chips);
      while stale != {}
        invariant Valid() && os.log == old(os.log) + asked
        invariant Removals(start, chips, stale, asked, View())
        decreases stale
      {
        var path :| path in stale;
        r, asked := RemoveChip(path, start, chips, stale, old(os.log), asked);
        if r.Some? { return; }
        stale := stale - {path};
      }
      RemovalsDone(start, chips, asked, View());
      return None, asked;
    }

    /** One of the additions. */
    method AddChip(
        order: seq<Path>, i: nat, ghost start: Watches, ghost log: seq<Answer>, ghost before: seq<Answer>)
      returns (r: Option<WatchError>, ghost asked: seq<Answer>)
      requires Valid() && os.log == log + before
      requires i < |order| && Ascending(order) && Additions(start, order[..i], before, View())
      modifies this, os
      ensures Valid() && os.log == log + asked
      ensures ChipSteps(start, asked, r, View()) && NoRemovals(asked)
      ensures forall p :: p in Absent(asked) ==> p in order && p !in DynamicPaths(start)
      ensures r.None? ==> Additions(start, order[..i + 1], asked, View())
    {
      ghost var more;
      r, more := AddWatch(order[i], [Pwm], true);
      AdditionsOneMore(start, order, i, before, old(View()), more, r, View());
      asked := before + more;
      assert log + before + more == log + asked;
    }

    /** Watches every listed chip that is not watched yet. */
    method AddChips(chips: set<Path>) returns (r: Option<WatchError>, ghost asked: seq<Answer>)
      requires Valid()
      modifies this, os
      ensures Valid() && os.log == old(os.log) + asked
      ensures ChipSteps(old(View()), asked, r, View()) && NoRemovals(asked)
      ensures Absent(asked) <= chips && Absent(asked) !! DynamicPaths(old(View()))
      ensures r.None? ==>
        DynamicPaths(View()) == DynamicPaths(old(View())) + (chips - Absent(asked) - StaticPaths(old(View())))
    {
      asked := [];
      ghost var start := View();
      var order := SortedKeys(chips);
      for i := 0 to |order|
        invariant Valid() && os.log == old(os.log) + asked
        invariant Additions(start, order[..i], asked, View())
      {
        r, asked := AddChip(order, i, start, old(os.log), asked);
        if r.Some? { return; }
      }
      AdditionsDone(start, order, asked, View());
      return None, asked;
    }

    /** Makes the dynamic watches those of these chips. */
    method UpdateChips(chips: set<Path>) returns (r: Option<WatchError>, ghost asked: seq<Answer>)
      requires Valid()
      modifies this, os
      ensures Valid() && os.log == old(os.log) + asked
      ensures ChipsUpdated(chips, old(View()), asked, r, View())
    {
      r, asked := RemoveStaleChips(chips);
      if r.Some? { return; }
      ghost var middle, more := View(), [];
      r, more := AddChips(chips);
      UpdatedByBoth(chips, old(View()), asked, middle, more, r, View());
      asked := asked + more;
    }

    /** Lists the class directory of PWM. */
    method ListChips() returns (listing: Result<seq<DirEntry>, IoError>)
      requires Valid()
      modifies os
      ensures Valid() && os.log == old(os.log) + [Listing(paths.ClassRoot("pwm"), listing)]
    {
      listing := os.ReadDir(paths.ClassRoot("pwm"));
      RunGrows(old(os.log), Listing(paths.ClassRoot("pwm"), listing));
    }

    /** Makes the dynamic watches those of the listing just made. */
    method FollowListing(listing: Result<seq<DirEntry>, IoError>, ghost log: seq<Answer>)
      returns (r: Option<WatchError>, ghost asked: seq<Answer>)
      requires Valid() && os.log == log + [Listing(paths.ClassRoot("pwm"), listing)]
      requires listing.Err? ==> listing.error == NotFound
      modifies this, os
      ensures Valid() && os.log == log + asked
      ensures Synchronized(paths, old(View()), asked, r, View())
    {
      ghost var first, more := [Listing(paths.ClassRoot("pwm"), listing)], [];
      var chips := if listing.Ok? then Chips(listing.value) else {};
      r, more := UpdateChips(chips);
      UpdatedIsSynchronized(paths, old(View()), listing, chips, more, r, View());
      assert log + first + more == log + (first + more);
      asked := first + more;
    }

    /** Makes the dynamic watches those of the chip directories listed now. */
    method SyncPwmChipWatches() returns (r: Option<WatchError>, ghost asked: seq<Answer>)
      requires Valid()
      modifies this, os
      ensures Valid() && os.log == old(os.log) + asked
      ensures Synchronized(paths, old(View()), asked, r, View())
    {
      var listing := ListChips();
      if listing.Err? && listing.error != NotFound {
        UnlistedIsSynchronized(paths, View(), listing);
        return Some(WatchFailed(listing.error)), [Listing(paths.ClassRoot("pwm"), listing)];
      }
      r, asked := FollowListing(listing, old(os.log));
    }

    /** The next of the nine static watches. */
    method AddStaticWatch(path: Path, interface: InterfaceKind)
      returns (r: Option<WatchError>, ghost asked: seq<Answer>)
      requires Valid() && Opening(os.log)
      modifies this, os
      ensures Valid() && os.log == old(os.log) + asked && Opening(os.log)
      ensures Added(old(View()), Registration(path, [interface], false), asked, r, View())
    {
      r, asked := AddWatch(path, [interface], false);
    }

    /** One of the static watches. */
    method AddStaticRoot(
        wanted: seq<Registration>, k: nat, ghost log: seq<Answer>, ghost before: seq<Answer>)
      returns (r: Option<WatchError>, ghost asked: seq<Answer>)
      requires Valid() && os.log == log + before && Opening(os.log)
      requires Distinctive(wanted) && k < |wanted| && |wanted[k].interfaces| == 1
      requires StaticSteps(wanted, k, before, View())
      modifies this, os
      ensures Valid() && os.log == log + asked && Opening(os.log)
      ensures Opening(asked) && Reports(asked, r)
      ensures r.None? ==> StaticSteps(wanted, k + 1, asked, View())
    {
      ghost var more;
      r, more := AddStaticWatch(wanted[k].path, wanted[k].interfaces[0]);
      assert wanted[k] == Registration(wanted[k].path, [wanted[k].interfaces[0]], false);
      StaticOneMore(wanted, k, before, old(View()), more, r, View());
      asked := before + more;
      assert log + before + more == log + asked;
    }

    /** One static watch after the other. */
    method AddEach(wanted: seq<Registration>) returns (r: Option<WatchError>, ghost asked: seq<Answer>)
      requires Valid() && View() == NOTHING && Opening(os.log)
      requires Distinctive(wanted) && forall k :: 0 <= k < |wanted| ==> |wanted[k].interfaces| == 1
      modifies this, os
      ensures Valid() && os.log == old(os.log) + asked
      ensures Opening(asked) && Reports(asked, r)
      ensures r.None? ==> Covers(View(), wanted, Absent(asked))
    {
      asked := [];
      for k := 0 to |wanted|
        invariant Valid() && os.log == old(os.log) + asked && Opening(os.log)
        invariant StaticSteps(wanted, k, asked, View())
      {
        r, asked := AddStaticRoot(wanted, k, old(os.log), asked);
        if r.Some? { return; }
      }
      assert wanted[..|wanted|] == wanted;
      return None, asked;
    }

    /** Static watches on the class and bus roots that exist. */
    method AddStaticWatches() returns (r: Option<WatchError>, ghost asked: seq<Answer>)
      requires Valid() && View() == NOTHING && Opening(os.log)
      modifies this, os
      ensures Valid() && os.log == old(os.log) + asked
      ensures Opening(asked) && Reports(asked, r)
      ensures r.None? ==> Covers(View(), paths.StaticWatches(), Absent(asked))
    {
      StaticWatchesDistinctive(paths);
      r, asked := AddEach(paths.StaticWatches());
    }

    /** The static watches, then the chips. */
    method Start() returns (r: Option<WatchError>, ghost asked: seq<Answer>, ghost more: seq<Answer>)
      requires Valid() && View() == NOTHING && Opening(os.log)
      modifies this, os
      ensures Valid() && os.log == old(os.log) + asked + more
      ensures Started(paths, asked, more, r, View())
    {
      more := [];
      r, asked := AddStaticWatches();
      assert asked + more == asked;
      if r.Some? { return; }
      ghost var before := View();
      r, more := SyncPwmChipWatches();
      StartedByBoth(paths, asked, before, more, r, View());
    }

    /** A new watcher, with the answers about its static watches and those about its chips. */
    static method New(paths: LinuxPaths, os: OperatingSystem)
      returns (r: Result<LinuxHotplugWatcher, WatchError>, ghost asked: seq<Answer>, ghost more: seq<Answer>)
      requires os.Valid() && os.log == []
      modifies os
      ensures os.log == asked + more
      ensures r.Ok? ==>
        && fresh(r.value) && r.value.Valid() && r.value.paths == paths && r.value.os == os
        && Started(paths, asked, more, None, r.value.View())
      ensures r.Err? ==> exists w :: Started(paths, asked, more, Some(r.error), w)
    {
      var watcher := new LinuxHotplugWatcher.Empty(paths, os);
      var error;
      error, asked, more := watcher.Start();
      assert [] + asked + more == asked + more;
      if error.Some? { return Err(error.value), asked, more; }
      r := Ok(watcher);
    }

    /** The loop of `poll` over the events read. */
    method ObserveEvents(events: seq<InotifyEvent>)
      returns (interfaces: set<InterfaceKind>, touched: set<Path>, needsPwmResync: bool)
      modifies this`watchedPaths, this`registrations
      ensures Observe(old(View()), events) == Observation(View(), interfaces, touched, needsPwmResync)
      ensures TouchedBy(old(View()), events, interfaces, touched)
      ensures needsPwmResync <==> InterfaceTouched(old(View()), events, Pwm)
    {
      interfaces, touched, needsPwmResync := {}, {}, false;
      for k := 0 to |events|
        invariant Observe(old(View()), events[..k]) == Observation(View(), interfaces, touched, needsPwmResync)
      {
        assert events[..k + 1][..k] == events[..k];
        var event := events[k];
        if event.overflow {
          interfaces := interfaces + ALL_INTERFACES;
          continue;
        }
        if event.wd !in registrations {
          continue;
        }
        var registration := registrations[event.wd];
        interfaces := interfaces + (set i | i in registration.interfaces);
        touched := touched + {EventPath(registration.path, event.name)};
        if Pwm in registration.interfaces {
          needsPwmResync := true;
        }
        if event.ignored {
          watchedPaths := watchedPaths - {registration.path};
          registrations := registrations - {event.wd};
        }
      }
      assert events[..|events|] == events;
      ObservedIsTouched(old(View()), events);
      ResyncIffPwmTouched(old(View()), events);
    }

    /** The second half of `poll`: the events just read, and a synchronization if one of them was about PWM. */
    method HandleEvents(events: seq<InotifyEvent>, ghost batch: seq<Queued>, ghost log: seq<Answer>)
      returns (r: Result<Option<WatchEvent>, WatchError>, ghost second: seq<Answer>)
      requires os.Valid() && WellRun(log) && ProperStep(log, Reading(Ok(batch)))
      requires os.log == log + [Reading(Ok(batch))] && View() == After(log) && events == EventsOf(batch)
      modifies this, os
      ensures Valid() && os.log == old(os.log) + second
      ensures Handled(paths, old(View()), batch, second, r, View())
    {
      second := [];
      RunGrows(log, Reading(Ok(batch)));
      ProperIsInverse(os.log);
      var interfaces, touched, needsPwmResync := ObserveEvents(events);
      if needsPwmResync {
        var error;
        error, second := SyncPwmChipWatches();
        if error.Some? { return Err(error.value), second; }
      }
      if interfaces == {} && touched == {} {
        return Ok(None), second;
      }
      return Ok(Some(WatchEvent(interfaces, touched))), second;
    }

    /** Reads a batch of events and handles it. */
    method ReadAndHandle()
      returns (
        r: Result<Option<WatchEvent>, WatchError>,
        ghost read: Result<seq<Queued>, IoError>, ghost second: seq<Answer>)
      requires Valid()
      modifies this, os
      ensures Valid() && os.log == old(os.log) + [Reading(read)] + second
      ensures ReadMeaning(paths, old(View()), read, second, r, View())
    {
      second := [];
      var events;
      events, read := os.ReadEvents();
      if events.Err? {
        RunGrows(old(os.log), Reading(read));
        return if events.error == WouldBlock then Ok(None) else Err(WatchFailed(events.error)), read, second;
      }
      // Without events there is nothing to handle.
      r, second := HandleEvents(events.value, read.value, old(os.log));
    }

    /** Synchronizes, reads a batch of events, and synchronizes again if one of them was about PWM. */
    method Poll() returns (r: Result<Option<WatchEvent>, WatchError>, ghost trace: PollTrace)
      requires Valid()
      modifies this, os
      ensures Valid() && os.log == old(os.log) + trace.Answers()
      ensures PollMeaning(paths, old(View()), trace, r, View())
      ensures r.Ok? ==> ReportsBatch(trace.Synced(old(View())), EventsOf(trace.Batch()), r.value)
    {
      ghost var first, second := [], [];
      var error;
      error, first := SyncPwmChipWatches();
      if error.Some? {
        trace := PollTrace(first, None, []);
        PollStops(paths, old(View()), first, error.value, View());
        return Err(error.value), trace;
      }
      ghost var read, synced;
      synced := View();
      r, read, second := ReadAndHandle();
      trace := PollTrace(first, Some(read), second);
      PollGoesOn(paths, old(View()), first, synced, read, second, r, View());
      assert old(os.log) + first + [Reading(read)] + second == old(os.log) + trace.Answers();
      PollReportsBatch(paths, old(View()), trace, r, View());
    }
  }

  // ---------- lemmas of the loops ----------

  /** The watched PWM chips that are not among these. */
  function StaleChips(w: Watches, chips: set<Path>): set<Path> {
    set wd | wd in w.registrations && w.registrations[wd].dynamic
      && w.registrations[wd].interfaces == [Pwm] && w.registrations[wd].path !in chips :: w.registrations[wd].path
  }

  /** The removals so far: `stale` is what is left to remove. */
  ghost predicate Removals(start: Watches, chips: set<Path>, stale: set<Path>, asked: seq<Answer>, w: Watches) {
    && ChipSteps(start, asked, None, w) && Absent(asked) == {} && RemovalsOnly(asked)
    && stale == DynamicPaths(w) - chips
    && DynamicPaths(w) * chips == DynamicPaths(start) * chips
  }

  lemma RemovalsStart(w: Watches, chips: set<Path>)
    requires DynamicIsPwm(w)
    ensures Removals(w, chips, StaleChips(w, chips), [], w)
  {
    assert StaleChips(w, chips) == DynamicPaths(w) - chips;
  }

  lemma RemovalsDone(start: Watches, chips: set<Path>, asked: seq<Answer>, w: Watches)
    requires Removals(start, chips, {}, asked, w)
    ensures ChipSteps(start, asked, None, w) && Absent(asked) == {} && RemovalsOnly(asked)
    ensures DynamicPaths(w) == DynamicPaths(start) * chips
  {
    assert forall p :: p in DynamicPaths(w) ==> p in chips || p in DynamicPaths(w) - chips;
  }

  lemma RemovalsOneMore(
      start: Watches, chips: set<Path>, stale: set<Path>, asked: seq<Answer>, before: Watches,
      path: Path, more: seq<Answer>, r: Option<WatchError>, after: Watches)
    requires Inverse(before) && Removals(start, chips, stale, asked, before) && path in stale
    requires Removed(before, path, more, r, after)
    ensures ChipSteps(start, asked + more, r, after) && Absent(asked + more) == {} && RemovalsOnly(asked + more)
    ensures r.None? ==> Removals(start, chips, stale - {path}, asked + more, after)
  {
    RemovedChip(before, path, more, r, after);
    ChipStepsJoin(start, asked, before, more, r, after);
  }

  /** The additions so far: these chips are watched, unless answered to be absent or watched statically. */
  ghost predicate Additions(start: Watches, chips: seq<Path>, asked: seq<Answer>, w: Watches) {
    && ChipSteps(start, asked, None, w) && NoRemovals(asked)
    && WatchedOf(DynamicPaths(start), StaticPaths(start), chips, Absent(asked), DynamicPaths(w))
  }

  ghost predicate WatchedOf(
      dynamic: set<Path>, fixed: set<Path>, chips: seq<Path>, absent: set<Path>, watched: set<Path>)
  {
    && (forall p :: p in absent ==> p in chips && p !in dynamic)
    && (forall p :: p in watched <==> p in dynamic || (p in chips && p !in absent && p !in fixed))
  }

  lemma AdditionsOneMore(
      start: Watches, order: seq<Path>, i: nat, asked: seq<Answer>, before: Watches,
      more: seq<Answer>, r: Option<WatchError>, after: Watches)
    requires i < |order| && Ascending(order)
    requires Inverse(before) && Additions(start, order[..i], asked, before)
    requires Added(before, Registration(order[i], [Pwm], true), more, r, after)
    ensures ChipSteps(start, asked + more, r, after) && NoRemovals(asked + more)
    ensures forall p :: p in Absent(asked + more) ==> p in order && p !in DynamicPaths(start)
    ensures r.None? ==> Additions(start, order[..i + 1], asked + more, after)
  {
    AddedChip(before, order[i], more, r, after);
    ChipStepsJoin(start, asked, before, more, r, after);
    SameStaticPaths(start, before);
    WatchedIsDynamicOrStatic(before, order[i]);
    AscendingHasNoRepeats(order, i);
    assert order[..i + 1] == order[..i] + [order[i]];
    AdditionSets(DynamicPaths(start), StaticPaths(start), order[..i], Absent(asked), DynamicPaths(before),
                 order[i], Absent(more), DynamicPaths(after), r.None?);
    forall p | p in Absent(asked + more) ensures p in order { assert p in order[..i + 1]; }
  }

  /** The sets of one addition alone. */
  lemma AdditionSets(
      dynamic: set<Path>, fixed: set<Path>, chips: seq<Path>, absent: set<Path>, before: set<Path>,
      chip: Path, moreAbsent: set<Path>, after: set<Path>, added: bool)
    requires WatchedOf(dynamic, fixed, chips, absent, before) && chip !in chips
    requires moreAbsent == {} || (moreAbsent == {chip} && chip !in before)
    requires added ==> after == before + (if chip in moreAbsent || chip in fixed then {} else {chip})
    ensures forall p :: p in absent + moreAbsent ==> p in chips + [chip] && p !in dynamic
    ensures added ==> WatchedOf(dynamic, fixed, chips + [chip], absent + moreAbsent, after)
  {
  }

  lemma AdditionsDone(start: Watches, order: seq<Path>, asked: seq<Answer>, w: Watches)
    requires Additions(start, order[..|order|], asked, w)
    ensures var chips := set p | p in order;
      DynamicPaths(w) == DynamicPaths(start) + (chips - Absent(asked) - StaticPaths(start))
  {
    assert order[..|order|] == order;
  }

  /** What removing and adding do together. */
  ghost predicate ChipsUpdated(
      chips: set<Path>, before: Watches, asked: seq<Answer>, r: Option<WatchError>, after: Watches)
  {
    && ChipSteps(before, asked, r, after) && RemovalsFirst(asked) && Absent(asked) <= chips
    && (r.None? ==> DynamicPaths(after) == chips - Absent(asked) - StaticPaths(before))
  }

  lemma UpdatedByBoth(
      chips: set<Path>, before: Watches, removals: seq<Answer>, middle: Watches,
      additions: seq<Answer>, r: Option<WatchError>, after: Watches)
    requires Inverse(before)
    requires ChipSteps(before, removals, None, middle) && Absent(removals) == {} && RemovalsOnly(removals)
    requires DynamicPaths(middle) == DynamicPaths(before) * chips
    requires ChipSteps(middle, additions, r, after) && NoRemovals(additions)
    requires Absent(additions) <= chips && Absent(additions) !! DynamicPaths(middle)
    requires r.None? ==>
      DynamicPaths(after) == DynamicPaths(middle) + (chips - Absent(additions) - StaticPaths(middle))
    ensures ChipsUpdated(chips, before, removals + additions, r, after)
  {
    ChipStepsJoin(before, removals, middle, additions, r, after);
    RemovalsThenAdditions(removals, additions);
    SameStaticPaths(before, middle);
    ChipsAreNotStatic(before);
  }

  lemma UpdatedIsSynchronized(
      paths: LinuxPaths, before: Watches, listing: Result<seq<DirEntry>, IoError>, chips: set<Path>,
      asked: seq<Answer>, r: Option<WatchError>, after: Watches)
    requires listing.Err? ==> listing.error == NotFound
    requires chips == if listing.Ok? then Chips(listing.value) else {}
    requires ChipsUpdated(chips, before, asked, r, after)
    ensures Synchronized(paths, before, [Listing(paths.ClassRoot("pwm"), listing)] + asked, r, after)
  {
    ListingFirst(before, Listing(paths.ClassRoot("pwm"), listing), asked, r, after);
  }

  lemma UnlistedIsSynchronized(paths: LinuxPaths, w: Watches, listing: Result<seq<DirEntry>, IoError>)
    requires listing.Err? && listing.error != NotFound
    ensures Synchronized(
      paths, w, [Listing(paths.ClassRoot("pwm"), listing)], Some(WatchFailed(listing.error)), w)
  {
    var asked := [Listing(paths.ClassRoot("pwm"), listing)];
    assert asked[..0] == [] && asked[1..] == [];
    assert Followed(w, asked) == Follow(w, asked[0]);
  }

  lemma ChipsAreNotStatic(w: Watches)
    requires Inverse(w)
    ensures DynamicPaths(w) !! StaticPaths(w)
  {
    forall p | p in DynamicPaths(w) ensures p !in StaticPaths(w) { WatchedIsDynamicOrStatic(w, p); }
  }

  /** The first `k` static watches have been added, unless their roots were answered to be absent. */
  ghost predicate StaticSteps(wanted: seq<Registration>, k: nat, asked: seq<Answer>, w: Watches)
    requires k <= |wanted|
  {
    && Opening(asked) && Reports(asked, None)
    && (forall p :: p in Absent(asked) ==> exists i :: 0 <= i < k && wanted[i].path == p)
    && Covers(w, wanted[..k], Absent(asked))
  }

  lemma StaticOneMore(
      wanted: seq<Registration>, k: nat, asked: seq<Answer>, before: Watches,
      more: seq<Answer>, r: Option<WatchError>, after: Watches)
    requires Distinctive(wanted) && k < |wanted| && Inverse(before) && StaticSteps(wanted, k, asked, before)
    requires Added(before, wanted[k], more, r, after)
    ensures Opening(asked + more) && Reports(asked + more, r)
    ensures r.None? ==> StaticSteps(wanted, k + 1, asked + more, after)
  {
    NotWatchedYet(before, wanted, k, Absent(asked));
    AddedReports(before, wanted[k], more, r, after);
    ReportsConcat(asked, more, r);
    AbsentConcat(asked, more);
    AbsentWhenAdded(before, wanted[k], more, r, after);
    if r.None? {
      CoversOneMore(before, wanted, k, asked, more, after);
      assert forall p :: p in Absent(asked + more) ==> p in Absent(asked) || p == wanted[k].path;
    }
  }

  /** What the start of a watcher leaves: without an error exactly those of the nine static roots are watched
      that were not answered to be absent, each for its own interface; and the chips listed then. */
  ghost predicate Started(
      paths: LinuxPaths, asked: seq<Answer>, more: seq<Answer>, r: Option<WatchError>, w: Watches)
  {
    && Opening(asked) && Reports(asked + more, r)
    && (r.None? ==>
          && StaticallyCovers(w, paths.StaticWatches(), Absent(asked))
          && more != [] && more[0].Listing? && more[0].root == paths.ClassRoot("pwm")
          && DynamicPaths(w) == ListedChips(more[0]) - Absent(more) - StaticPaths(w))
  }

  lemma StartedByBoth(
      paths: LinuxPaths, asked: seq<Answer>, before: Watches, more: seq<Answer>, r: Option<WatchError>, after: Watches)
    requires Opening(asked) && Reports(asked, None)
    requires Covers(before, paths.StaticWatches(), Absent(asked))
    requires Synchronized(paths, before, more, r, after)
    ensures Started(paths, asked, more, r, after)
  {
    ReportsConcat(asked, more, r);
    StaticWatchesDistinctive(paths);
    CoversStatically(before, paths.StaticWatches(), Absent(asked));
    SameStaticPaths(before, after);
  }

  lemma AddedReports(
      before: Watches, registration: Registration, asked: seq<Answer>, r: Option<WatchError>, after: Watches)
    requires Added(before, registration, asked, r, after)
    ensures Reports(asked, r) && Opening(asked)
  {
  }

  // ---------- one poll ----------

  /** What one poll was answered: by its first synchronization; by the read, if it came to that; and by its
      second synchronization. */
  datatype PollTrace = PollTrace(
    first: seq<Answer>, read: Option<Result<seq<Queued>, IoError>>, second: seq<Answer>)
  {
    function Answers(): seq<Answer> {
      first + (if read.Some? then [Reading(read.value)] else []) + second
    }

    function Batch(): seq<Queued> {
      if read.Some? && read.value.Ok? then read.value.value else []
    }

    function Synced(before: Watches): Watches { Followed(before, first) }
  }

  /** The error that the last answer makes the watcher return. */
  function LastFailure(asked: seq<Answer>): Option<WatchError> {
    if asked == [] then None else Failure(asked[|asked| - 1])
  }

  function Reported(o: Observation): Option<WatchEvent> {
    if o.interfaces == {} && o.paths == {} then None else Some(WatchEvent(o.interfaces, o.paths))
  }

  /** What the events read and the synchronization after them do: the poll reports exactly what the events
      touch; if one of them was about PWM, the chip watches are put in step with a new listing. */
  ghost predicate Handled(
      paths: LinuxPaths, synced: Watches, batch: seq<Queued>, second: seq<Answer>,
      r: Result<Option<WatchEvent>, WatchError>, after: Watches)
  {
    var o := Observe(synced, EventsOf(batch));
    && (if o.needsPwmResync then Synchronized(paths, o.watches, second, LastFailure(second), after)
        else second == [] && after == o.watches)
    && r == if LastFailure(second).Some? then Err(LastFailure(second).value) else Ok(Reported(o))
  }

  /** A failed read changes nothing, and is an error unless there was nothing to read. */
  ghost predicate ReadMeaning(
      paths: LinuxPaths, synced: Watches, read: Result<seq<Queued>, IoError>, second: seq<Answer>,
      r: Result<Option<WatchEvent>, WatchError>, after: Watches)
  {
    match read
    case Ok(batch) => Handled(paths, synced, batch, second, r, after)
    case Err(error) =>
      second == [] && after == synced && r == if error == WouldBlock then Ok(None) else Err(WatchFailed(error))
  }

  /** What a poll returns and leaves behind is determined by what it was answered. */
  ghost predicate PollMeaning(
      paths: LinuxPaths, before: Watches, trace: PollTrace,
      r: Result<Option<WatchEvent>, WatchError>, after: Watches)
  {
    && Synchronized(paths, before, trace.first, LastFailure(trace.first), trace.Synced(before))
    && (trace.read.Some? <==> LastFailure(trace.first).None?)
    && if trace.read.Some? then ReadMeaning(paths, trace.Synced(before), trace.read.value, trace.second, r, after)
       else trace.second == [] && after == trace.Synced(before) && r == Err(LastFailure(trace.first).value)
  }

  lemma PollStops(paths: LinuxPaths, before: Watches, first: seq<Answer>, error: WatchError, after: Watches)
    requires Synchronized(paths, before, first, Some(error), after)
    ensures PollMeaning(paths, before, PollTrace(first, None, []), Err(error), after)
    ensures PollTrace(first, None, []).Answers() == first
  {
  }

  lemma PollGoesOn(
      paths: LinuxPaths, before: Watches, first: seq<Answer>, synced: Watches,
      read: Result<seq<Queued>, IoError>, second: seq<Answer>,
      r: Result<Option<WatchEvent>, WatchError>, after: Watches)
    requires Synchronized(paths, before, first, None, synced)
    requires ReadMeaning(paths, synced, read, second, r, after)
    ensures PollMeaning(paths, before, PollTrace(first, Some(read), second), r, after)
    ensures PollTrace(first, Some(read), second).Answers() == first + [Reading(read)] + second
  {
  }

  /** The report names exactly the interfaces and paths that the events are about; there is none exactly if there
      are no such interfaces and paths. */
  ghost predicate ReportsBatch(w: Watches, events: seq<InotifyEvent>, reported: Option<WatchEvent>) {
    match reported
    case None => TouchedBy(w, events, {}, {})
    case Some(e) => TouchedBy(w, events, e.interfaces, e.paths) && (e.interfaces != {} || e.paths != {})
  }

  lemma NothingTouched(w: Watches)
    ensures TouchedBy(w, [], {}, {})
  {
    ObservedIsTouched(w, []);
  }

  /** A poll without an error reports what the events it has read are about, by the watches they found. */
  lemma PollReportsBatch(
      paths: LinuxPaths, before: Watches, trace: PollTrace,
      r: Result<Option<WatchEvent>, WatchError>, after: Watches)
    requires PollMeaning(paths, before, trace, r, after)
    ensures r.Ok? ==> ReportsBatch(trace.Synced(before), EventsOf(trace.Batch()), r.value)
  {
    var synced := trace.Synced(before);
    ObservedIsTouched(synced, EventsOf(trace.Batch()));
    NothingTouched(synced);
    assert EventsOf([]) == [];
  }

  /** A chip whose watch received an event, say IGNORED because the directory was replaced, is watched when the
      poll returns, if the listing after the event shows it and it was not answered to be absent since. */
  lemma TouchedChipIsWatchedAgain(
      paths: LinuxPaths, before: Watches, trace: PollTrace, reported: Option<WatchEvent>, after: Watches,
      k: nat, chip: Path)
    requires Inverse(after) && PollMeaning(paths, before, trace, Ok(reported), after)
    requires k < |trace.Batch()| && !trace.Batch()[k].event.overflow
    requires trace.Batch()[k].event.wd in trace.Synced(before).registrations
    requires trace.Synced(before).registrations[trace.Batch()[k].event.wd] == Registration(chip, [Pwm], true)
    ensures trace.second != [] && trace.second[0].Listing? && trace.second[0].root == paths.ClassRoot("pwm")
    ensures chip in ListedChips(trace.second[0]) && Existence(chip, false) !in trace.second ==> chip in after.paths
  {
    var o := Observe(trace.Synced(before), EventsOf(trace.Batch()));
    PwmEventResyncs(trace.Synced(before), EventsOf(trace.Batch()), k);
    SameStaticPaths(o.watches, after);
    WatchedIsDynamicOrStatic(after, chip);
  }

  /** Whenever a poll returns without an error, the chip watches are exactly the chips of its last listing, except
      those answered to be absent since or watched statically. */
  lemma ChipsInStepAfterPoll(
      paths: LinuxPaths, before: Watches, trace: PollTrace, reported: Option<WatchEvent>, after: Watches)
    requires Inverse(trace.Synced(before)) && DynamicIsPwm(trace.Synced(before))
    requires PollMeaning(paths, before, trace, Ok(reported), after)
    ensures trace.first != []
    ensures var last := if trace.second == [] then trace.first else trace.second;
      var fixed := StaticPaths(if trace.second == [] then before else after);
      && last[0].Listing? && last[0].root == paths.ClassRoot("pwm")
      && DynamicPaths(after) == ListedChips(last[0]) - Absent(last) - fixed
  {
    var synced, events := trace.Synced(before), EventsOf(trace.Batch());
    var o := Observe(synced, events);
    if trace.second == [] {
      if !o.needsPwmResync { ChipsStayWithoutPwmEvents(synced, events); }
    } else {
      SameStaticPaths(o.watches, after);
    }
  }

  lemma AscendingHasNoRepeats(keys: seq<string>, i: nat)
    requires Ascending(keys) && i < |keys|
    ensures keys[i] !in keys[..i]
  {
    Asymmetric(keys[i], keys[i]);
  }
}
