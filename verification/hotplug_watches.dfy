/** What the hotplug watcher keeps: two maps, from paths to watch descriptors and from descriptors to
    registrations, that must stay inverse to each other; and what additions, removals and events do to them. */
module HotplugWatches {
  import opened Core
  import opened HotplugSystem

  datatype Watches = Watches(paths: map<Path, WatchDescriptor>, registrations: map<WatchDescriptor, Registration>)

  /** The two maps name each other: a path's descriptor is registered for that path, and the other way round. */
  ghost predicate Inverse(w: Watches) {
    && (forall p :: p in w.paths ==> w.paths[p] in w.registrations && w.registrations[w.paths[p]].path == p)
    && (forall wd :: wd in w.registrations ==>
          w.registrations[wd].path in w.paths && w.paths[w.registrations[wd].path] == wd)
  }

  /** Only PWM chip directories are watched dynamically. */
  ghost predicate DynamicIsPwm(w: Watches) {
    forall wd :: wd in w.registrations && w.registrations[wd].dynamic ==> w.registrations[wd].interfaces == [Pwm]
  }

  function Registered(w: Watches, wd: WatchDescriptor, registration: Registration): Watches {
    Watches(w.paths[registration.path := wd], w.registrations[wd := registration])
  }

  function Unregistered(w: Watches, path: Path): Watches {
    if path in w.paths then Watches(w.paths - {path}, w.registrations - {w.paths[path]}) else w
  }

  /** Adding a watch for a new path keeps the maps inverse exactly when its descriptor was not in use. */
  lemma AddKeepsInverseIffFresh(w: Watches, wd: WatchDescriptor, registration: Registration)
    requires Inverse(w) && registration.path !in w.paths
    ensures Inverse(Registered(w, wd, registration)) <==> wd !in w.registrations
  {
    var after := Registered(w, wd, registration);
    if wd in w.registrations {
      var previous := w.registrations[wd].path;
      assert previous in after.paths && after.paths[previous] == wd;
      assert after.registrations[wd].path != previous;
    }
  }

  lemma RemoveKeepsInverse(w: Watches, path: Path)
    requires Inverse(w)
    ensures Inverse(Unregistered(w, path))
  {
  }

  // ---------- events ----------

  function EventPath(root: Path, name: Option<string>): Path {
    if name.Some? then root + "/" + name.value else root
  }

  const ALL_INTERFACES: set<InterfaceKind> := {Gpio, Pwm, I2c, Spi, Uart, Usb}

  /** What the event loop of `poll` has accumulated. */
  datatype Observation = Observation(
    watches: Watches, interfaces: set<InterfaceKind>, paths: set<Path>, needsPwmResync: bool)

  function ObserveOne(o: Observation, event: InotifyEvent): Observation {
    if event.overflow then o.(interfaces := o.interfaces + ALL_INTERFACES)
    else if event.wd !in o.watches.registrations then o
    else
      var registration := o.watches.registrations[event.wd];
      Observation(
        if event.ignored
        then Watches(o.watches.paths - {registration.path}, o.watches.registrations - {event.wd})
        else o.watches,
        o.interfaces + (set i | i in registration.interfaces),
        o.paths + {EventPath(registration.path, event.name)},
        o.needsPwmResync || Pwm in registration.interfaces)
  }

  function Observe(w: Watches, events: seq<InotifyEvent>): Observation {
    if events == [] then Observation(w, {}, {}, false)
    else ObserveOne(Observe(w, events[..|events| - 1]), events[|events| - 1])
  }

  /** An event drops a path exactly when it is an IGNORED event for the descriptor the path has now; so a
      stale event, whose descriptor is no longer registered, drops nothing. */
  lemma DroppedIffItsOwnIgnored(o: Observation, event: InotifyEvent, path: Path)
    requires Inverse(o.watches) && path in o.watches.paths
    ensures path !in ObserveOne(o, event).watches.paths <==>
      !event.overflow && event.ignored && event.wd == o.watches.paths[path]
    ensures path in ObserveOne(o, event).watches.paths ==>
      ObserveOne(o, event).watches.paths[path] == o.watches.paths[path]
  {
  }

  lemma {:induction false} ObserveKeepsInverse(w: Watches, events: seq<InotifyEvent>)
    requires Inverse(w) && DynamicIsPwm(w)
    ensures Inverse(Observe(w, events).watches) && DynamicIsPwm(Observe(w, events).watches)
    ensures forall wd :: wd in Observe(w, events).watches.registrations ==>
      wd in w.registrations && Observe(w, events).watches.registrations[wd] == w.registrations[wd]
    ensures forall wd :: wd in w.registrations && wd !in Observe(w, events).watches.registrations ==>
      exists e :: e in events && !e.overflow && e.ignored && e.wd == wd
    decreases |events|
  {
    if events != [] {
      var n := |events| - 1;
      ObserveKeepsInverse(w, events[..n]);
      assert events[n] in events;
      assert forall e :: e in events[..n] ==> e in events;
    }
  }

  /** Any event of a registered PWM watch makes `poll` synchronize the chip watches again. */
  lemma {:induction false} PwmEventResyncs(w: Watches, events: seq<InotifyEvent>, k: nat)
    requires k < |events| && !events[k].overflow
    requires events[k].wd in w.registrations && Pwm in w.registrations[events[k].wd].interfaces
    ensures Observe(w, events).needsPwmResync
    decreases |events|
  {
    var n := |events| - 1;
    if k < n {
      PwmEventResyncs(w, events[..n], k);
    } else if events[k].wd !in Observe(w, events[..n]).watches.registrations {
      DroppedByEarlierEvent(w, events[..n], events[k].wd);
    } else {
      RegistrationsOnlyDrop(w, events[..n], events[k].wd);
    }
  }

  lemma {:induction false} RegistrationsOnlyDrop(w: Watches, events: seq<InotifyEvent>, wd: WatchDescriptor)
    requires wd in Observe(w, events).watches.registrations
    ensures wd in w.registrations && Observe(w, events).watches.registrations[wd] == w.registrations[wd]
    decreases |events|
  {
    if events != [] { RegistrationsOnlyDrop(w, events[..|events| - 1], wd); }
  }

  lemma {:induction false} DroppedByEarlierEvent(w: Watches, events: seq<InotifyEvent>, wd: WatchDescriptor)
    requires wd in w.registrations && Pwm in w.registrations[wd].interfaces
    requires wd !in Observe(w, events).watches.registrations
    ensures Observe(w, events).needsPwmResync
    decreases |events|
  {
    var n := |events| - 1;
    if wd !in Observe(w, events[..n]).watches.registrations {
      DroppedByEarlierEvent(w, events[..n], wd);
    } else {
      RegistrationsOnlyDrop(w, events[..n], wd);
    }
  }

  // ---------- what a batch of events reports ----------

  /** Event `k` is an IGNORED event of the descriptor. */
  predicate EndsWatch(events: seq<InotifyEvent>, k: nat, wd: WatchDescriptor)
    requires k < |events|
  {
    !events[k].overflow && events[k].ignored && events[k].wd == wd
  }

  /** None of the first `n` events ended the watch of the descriptor. */
  ghost predicate NotEnded(events: seq<InotifyEvent>, n: nat, wd: WatchDescriptor)
    requires n <= |events|
  {
    forall j :: 0 <= j < n ==> !EndsWatch(events, j, wd)
  }

  /** Event `k` is about a watch that was registered before the batch and that no earlier event of it has ended. */
  ghost predicate Touches(w: Watches, events: seq<InotifyEvent>, k: nat) {
    && k < |events| && !events[k].overflow && events[k].wd in w.registrations
    && NotEnded(events, k, events[k].wd)
  }

  ghost predicate Overflowed(events: seq<InotifyEvent>) {
    exists k :: 0 <= k < |events| && events[k].overflow
  }

  /** Event `k` is about a watch for the interface. */
  ghost predicate TouchesInterface(w: Watches, events: seq<InotifyEvent>, k: nat, interface: InterfaceKind) {
    Touches(w, events, k) && interface in w.registrations[events[k].wd].interfaces
  }

  /** Event `k` is about this path: that of its watch, or the entry of it that the event names. */
  ghost predicate TouchesPath(w: Watches, events: seq<InotifyEvent>, k: nat, path: Path) {
    && Touches(w, events, k)
    && var root, name := w.registrations[events[k].wd].path, events[k].name;
       path == if name.Some? then root + "/" + name.value else root
  }

  ghost predicate InterfaceTouched(w: Watches, events: seq<InotifyEvent>, interface: InterfaceKind) {
    exists k :: TouchesInterface(w, events, k, interface)
  }

  ghost predicate PathTouched(w: Watches, events: seq<InotifyEvent>, path: Path) {
    exists k :: TouchesPath(w, events, k, path)
  }

  /** These are the interfaces and paths that the events are about: an overflow is about every interface. */
  ghost predicate TouchedBy(w: Watches, events: seq<InotifyEvent>, interfaces: set<InterfaceKind>, paths: set<Path>) {
    && (forall i :: i in interfaces <==> Overflowed(events) || InterfaceTouched(w, events, i))
    && (forall p :: p in paths <==> PathTouched(w, events, p))
  }

  /** The watches that a batch leaves are those that none of its events has ended. */
  lemma {:induction false} LeftUnlessEnded(w: Watches, events: seq<InotifyEvent>, wd: WatchDescriptor)
    ensures wd in Observe(w, events).watches.registrations <==>
      wd in w.registrations && NotEnded(events, |events|, wd)
    ensures wd in Observe(w, events).watches.registrations ==>
      Observe(w, events).watches.registrations[wd] == w.registrations[wd]
    decreases |events|
  {
    if events != [] {
      var n := |events| - 1;
      LeftUnlessEnded(w, events[..n], wd);
      EndedSnoc(events, wd);
    }
  }

  lemma EndedSnoc(events: seq<InotifyEvent>, wd: WatchDescriptor)
    requires events != []
    ensures var n := |events| - 1;
      NotEnded(events, |events|, wd) <==> NotEnded(events[..n], n, wd) && !EndsWatch(events, n, wd)
  {
    var n := |events| - 1;
    assert forall j :: 0 <= j < n ==> EndsWatch(events[..n], j, wd) == EndsWatch(events, j, wd);
  }

  lemma TouchesFront(w: Watches, events: seq<InotifyEvent>, k: nat)
    requires k < |events| - 1
    ensures Touches(w, events[..|events| - 1], k) <==> Touches(w, events, k)
  {
    var front := events[..|events| - 1];
    assert forall j :: 0 <= j <= k ==> EndsWatch(front, j, events[k].wd) == EndsWatch(events, j, events[k].wd);
  }

  /** The last event touches its watch exactly if the watch is still registered then. */
  lemma LastTouches(w: Watches, events: seq<InotifyEvent>)
    requires events != []
    ensures var n := |events| - 1;
      var wd, before := events[n].wd, Observe(w, events[..n]).watches.registrations;
      && (Touches(w, events, n) <==> !events[n].overflow && wd in before)
      && (wd in before ==> wd in w.registrations && before[wd] == w.registrations[wd])
  {
    var n := |events| - 1;
    var wd := events[n].wd;
    LeftUnlessEnded(w, events[..n], wd);
    assert forall j :: 0 <= j < n ==> EndsWatch(events[..n], j, wd) == EndsWatch(events, j, wd);
  }

  lemma OverflowedSnoc(events: seq<InotifyEvent>)
    requires events != []
    ensures Overflowed(events) <==> Overflowed(events[..|events| - 1]) || events[|events| - 1].overflow
  {
    var n := |events| - 1;
    if k :| 0 <= k < n && events[k].overflow { assert events[..n][k].overflow; }
  }

  lemma InterfaceTouchedSnoc(w: Watches, events: seq<InotifyEvent>, i: InterfaceKind)
    requires events != []
    ensures var n := |events| - 1;
      InterfaceTouched(w, events, i) <==> InterfaceTouched(w, events[..n], i) || TouchesInterface(w, events, n, i)
  {
    var n := |events| - 1;
    if k: nat :| TouchesInterface(w, events, k, i) && k < n {
      TouchesFront(w, events, k);
      assert TouchesInterface(w, events[..n], k, i);
    }
    if k: nat :| TouchesInterface(w, events[..n], k, i) {
      TouchesFront(w, events, k);
      assert TouchesInterface(w, events, k, i);
    }
  }

  lemma PathTouchedSnoc(w: Watches, events: seq<InotifyEvent>, p: Path)
    requires events != []
    ensures var n := |events| - 1;
      PathTouched(w, events, p) <==> PathTouched(w, events[..n], p) || TouchesPath(w, events, n, p)
  {
    var n := |events| - 1;
    if k: nat :| TouchesPath(w, events, k, p) && k < n {
      TouchesFront(w, events, k);
      assert TouchesPath(w, events[..n], k, p);
    }
    if k: nat :| TouchesPath(w, events[..n], k, p) {
      TouchesFront(w, events, k);
      assert TouchesPath(w, events, k, p);
    }
  }

  lemma EveryInterface(i: InterfaceKind)
    ensures i in ALL_INTERFACES
  {
    match i {
      case Gpio =>
      case Pwm =>
      case I2c =>
      case Spi =>
      case Uart =>
      case Usb =>
    }
  }

  /** An interface is reported exactly if an event is about a watch for it, or the queue has overflowed. */
  lemma {:induction false} InterfaceReported(w: Watches, events: seq<InotifyEvent>, i: InterfaceKind)
    ensures i in Observe(w, events).interfaces <==> Overflowed(events) || InterfaceTouched(w, events, i)
    decreases |events|
  {
    if events != [] {
      InterfaceReported(w, events[..|events| - 1], i);
      OverflowedSnoc(events);
      LastTouches(w, events);
      InterfaceTouchedSnoc(w, events, i);
      EveryInterface(i);
    }
  }

  /** A path is reported exactly if an event is about it. */
  lemma {:induction false} PathReported(w: Watches, events: seq<InotifyEvent>, p: Path)
    ensures p in Observe(w, events).paths <==> PathTouched(w, events, p)
    decreases |events|
  {
    if events != [] {
      PathReported(w, events[..|events| - 1], p);
      LastTouches(w, events);
      PathTouchedSnoc(w, events, p);
    }
  }

  /** A batch reports exactly what its events are about. */
  lemma ObservedIsTouched(w: Watches, events: seq<InotifyEvent>)
    ensures TouchedBy(w, events, Observe(w, events).interfaces, Observe(w, events).paths)
  {
    forall i ensures i in Observe(w, events).interfaces <==> Overflowed(events) || InterfaceTouched(w, events, i) {
      InterfaceReported(w, events, i);
    }
    forall p ensures p in Observe(w, events).paths <==> PathTouched(w, events, p) {
      PathReported(w, events, p);
    }
  }

  /** A batch leads to a second synchronization exactly if one of its events is about a watch for PWM. */
  lemma {:induction false} ResyncIffPwmTouched(w: Watches, events: seq<InotifyEvent>)
    ensures Observe(w, events).needsPwmResync <==> InterfaceTouched(w, events, Pwm)
    decreases |events|
  {
    if events != [] {
      ResyncIffPwmTouched(w, events[..|events| - 1]);
      LastTouches(w, events);
      InterfaceTouchedSnoc(w, events, Pwm);
    }
  }

  // ---------- paths, static and dynamic watches ----------

  datatype WatchError = WatchFailed(error: IoError)

  datatype WatchEvent = WatchEvent(interfaces: set<InterfaceKind>, paths: set<Path>)

  datatype LinuxPaths = LinuxPaths(sysClassRoot: Path, sysBusRoot: Path) {
    function ClassRoot(name: string): Path { sysClassRoot + "/" + name }
    function BusDevicesRoot(name: string): Path { sysBusRoot + "/" + name + "/devices" }

    /** The directories watched from the start, each for its interface. */
    function StaticWatches(): seq<Registration> {
      [Registration(ClassRoot("gpio"), [Gpio], false), Registration(ClassRoot("leds"), [Gpio], false),
       Registration(ClassRoot("pwm"), [Pwm], false), Registration(ClassRoot("hwmon"), [Pwm], false),
       Registration(ClassRoot("i2c-dev"), [I2c], false), Registration(BusDevicesRoot("i2c"), [I2c], false),
       Registration(BusDevicesRoot("spi"), [Spi], false), Registration(ClassRoot("tty"), [Uart], false),
       Registration(BusDevicesRoot("usb"), [Usb], false)]
    }
  }

  predicate IsChipEntry(entry: DirEntry) {
    entry.isDir && entry.fileName.Some? && "pwmchip" <= entry.fileName.value
  }

  /** The chip directories in a listing. */
  function Chips(entries: seq<DirEntry>): set<Path> {
    set e <- entries | IsChipEntry(e) :: e.path
  }

  ghost function DynamicPaths(w: Watches): set<Path> {
    set wd | wd in w.registrations && w.registrations[wd].dynamic :: w.registrations[wd].path
  }

  ghost function StaticRegistrations(w: Watches): map<WatchDescriptor, Registration> {
    w.registrations - set wd | wd in w.registrations && w.registrations[wd].dynamic
  }

  ghost function StaticPaths(w: Watches): set<Path> {
    set wd | wd in w.registrations && !w.registrations[wd].dynamic :: w.registrations[wd].path
  }

  lemma RegisteringEffect(w: Watches, wd: WatchDescriptor, registration: Registration)
    requires Inverse(w) && wd !in w.registrations && registration.path !in w.paths
    ensures var after := Registered(w, wd, registration);
      if registration.dynamic
      then
        && DynamicPaths(after) == DynamicPaths(w) + {registration.path}
        && StaticRegistrations(after) == StaticRegistrations(w)
      else
        && DynamicPaths(after) == DynamicPaths(w)
        && StaticRegistrations(after) == StaticRegistrations(w)[wd := registration]
  {
    var after := Registered(w, wd, registration);
    assert forall d :: d in after.registrations <==> d in w.registrations || d == wd;
    if registration.dynamic {
      assert after.registrations[wd].path in DynamicPaths(after);
    }
    forall p ensures p in DynamicPaths(after) <==>
      p in DynamicPaths(w) || (registration.dynamic && p == registration.path)
    {
      if p in DynamicPaths(w) {
        var d :| d in w.registrations && w.registrations[d].dynamic && w.registrations[d].path == p;
        assert d in after.registrations && after.registrations[d] == w.registrations[d];
      }
    }
  }

  lemma UnregisteringEffect(w: Watches, path: Path)
    requires Inverse(w) && path in DynamicPaths(w)
    ensures DynamicPaths(Unregistered(w, path)) == DynamicPaths(w) - {path}
    ensures StaticRegistrations(Unregistered(w, path)) == StaticRegistrations(w)
  {
    var after := Unregistered(w, path);
    forall p ensures p in DynamicPaths(after) <==> p in DynamicPaths(w) && p != path {
      if p in DynamicPaths(w) && p != path {
        var d :| d in w.registrations && w.registrations[d].dynamic && w.registrations[d].path == p;
        assert d in after.registrations;
      }
    }
  }

  /** Every watched path is watched either dynamically or statically. */
  lemma WatchedIsDynamicOrStatic(w: Watches, path: Path)
    requires Inverse(w)
    ensures path in w.paths <==> path in DynamicPaths(w) || path in StaticPaths(w)
    ensures !(path in DynamicPaths(w) && path in StaticPaths(w))
  {
  }

  lemma SameStaticPaths(w: Watches, v: Watches)
    requires StaticRegistrations(w) == StaticRegistrations(v)
    ensures StaticPaths(w) == StaticPaths(v)
  {
    forall p ensures p in StaticPaths(w) <==> p in StaticPaths(v) {
      if p in StaticPaths(w) {
        var d :| d in w.registrations && !w.registrations[d].dynamic && w.registrations[d].path == p;
        assert d in StaticRegistrations(w);
        assert d in StaticRegistrations(v);
      }
      if p in StaticPaths(v) {
        var d :| d in v.registrations && !v.registrations[d].dynamic && v.registrations[d].path == p;
        assert d in StaticRegistrations(v);
        assert d in StaticRegistrations(w);
      }
    }
  }

  /** Events that are not about PWM leave the chip watches alone. */
  lemma {:induction false} ChipsStayWithoutPwmEvents(w: Watches, events: seq<InotifyEvent>)
    requires Inverse(w) && DynamicIsPwm(w) && !Observe(w, events).needsPwmResync
    ensures DynamicPaths(Observe(w, events).watches) == DynamicPaths(w)
    decreases |events|
  {
    if events != [] {
      var n := |events| - 1;
      ChipsStayWithoutPwmEvents(w, events[..n]);
      ObserveKeepsInverse(w, events[..n]);
      var v, u := Observe(w, events[..n]).watches, Observe(w, events).watches;
      forall p ensures p in DynamicPaths(u) <==> p in DynamicPaths(v) {
        if p in DynamicPaths(v) {
          var wd :| wd in v.registrations && v.registrations[wd].dynamic && v.registrations[wd].path == p;
          assert wd in u.registrations && u.registrations[wd] == v.registrations[wd];
        }
      }
    }
  }
}
