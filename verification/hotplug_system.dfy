/** The operating system as the hotplug watcher sees it. Any answer may come at any time, failures included;
    the system remembers what it answered and which events are still queued. */
module HotplugSystem {
  import opened Core

  type Path = string
  type WatchDescriptor = nat

  datatype IoError = NotFound | InvalidInput | WouldBlock | OtherError(message: string)

  datatype DirEntry = DirEntry(path: Path, isDir: bool, fileName: Option<string>)

  datatype InotifyEvent = InotifyEvent(wd: WatchDescriptor, overflow: bool, ignored: bool, name: Option<string>)

  /** What the watcher wants to watch a path for. */
  datatype Registration = Registration(path: Path, interfaces: seq<InterfaceKind>, dynamic: bool)

  /** A queued event, with the answer that issued its descriptor to the watch it is about, and the number of
      answers given when it was queued. */
  datatype Queued = Queued(event: InotifyEvent, issue: nat, since: nat)

  datatype Answer =
    | Listing(root: Path, entries: Result<seq<DirEntry>, IoError>)
    | Existence(path: Path, present: bool)
    | Watching(request: Registration, granted: Result<WatchDescriptor, IoError>)
    | Unwatching(wd: WatchDescriptor, error: Option<IoError>)
    | Reading(batch: Result<seq<Queued>, IoError>)

  predicate Issues(answer: Answer, wd: WatchDescriptor) {
    answer.Watching? && answer.granted == Ok(wd)
  }

  /** One of the answers from `start` up to `end` issued the descriptor. */
  predicate IssuedBetween(log: seq<Answer>, start: nat, end: nat, wd: WatchDescriptor)
    requires end <= |log|
  {
    exists k :: start <= k < end && Issues(log[k], wd)
  }

  /** An event is about the watch that its descriptor stood for when it was queued. */
  predicate Tagged(log: seq<Answer>, q: Queued) {
    && q.since <= |log|
    && (q.event.overflow ||
        (q.issue < q.since && Issues(log[q.issue], q.event.wd)
         && !IssuedBetween(log, q.issue + 1, q.since, q.event.wd)))
  }

  lemma IssuedStays(log: seq<Answer>, more: seq<Answer>, start: nat, end: nat, wd: WatchDescriptor)
    requires end <= |log|
    ensures IssuedBetween(log + more, start, end, wd) <==> IssuedBetween(log, start, end, wd)
  {
    if k :| start <= k < end && Issues((log + more)[k], wd) { assert Issues(log[k], wd); }
    if k :| start <= k < end && Issues(log[k], wd) { assert Issues((log + more)[k], wd); }
  }

  lemma TaggedStays(log: seq<Answer>, more: seq<Answer>, q: Queued)
    requires Tagged(log, q)
    ensures Tagged(log + more, q)
  {
    if !q.event.overflow { IssuedStays(log, more, q.issue + 1, q.since, q.event.wd); }
  }

  function EventsOf(batch: seq<Queued>): (events: seq<InotifyEvent>)
    ensures |events| == |batch|
    ensures forall i :: 0 <= i < |batch| ==> events[i] == batch[i].event
  {
    seq(|batch|, i requires 0 <= i < |batch| => batch[i].event)
  }

  class OperatingSystem {
    var log: seq<Answer>
    var queue: seq<Queued>

    ghost predicate Valid()
      reads this
    {
      forall q :: q in queue ==> Tagged(log, q)
    }

    constructor ()
      ensures Valid() && log == [] && queue == []
    {
      log := [];
      queue := [];
    }

    /** Any number of events may be queued before any answer. */
    method QueueEvents()
      requires Valid()
      modifies this`queue
      ensures Valid() && old(queue) <= queue
    {
      var more: seq<Queued> := *;
      if forall q <- more :: q.since == |log| && Tagged(log, q) {
        queue := queue + more;
      }
    }

    method Remember(answer: Answer)
      requires Valid()
      modifies this`log
      ensures Valid() && log == old(log) + [answer]
    {
      forall q | q in queue ensures Tagged(log + [answer], q) {
        TaggedStays(log, [answer], q);
      }
      log := log + [answer];
    }

    method PathExists(path: Path) returns (present: bool)
      requires Valid()
      modifies this
      ensures Valid() && log == old(log) + [Existence(path, present)]
    {
      QueueEvents();
      present := *;
      Remember(Existence(path, present));
    }

    /** `inotify_add_watch`: fails, or answers with a descriptor that is not in use. */
    method AddInotifyWatch(request: Registration, inUse: set<WatchDescriptor>)
      returns (r: Result<WatchDescriptor, IoError>)
      requires Valid()
      modifies this
      ensures Valid() && log == old(log) + [Watching(request, r)]
      ensures r.Ok? ==> r.value !in inUse
    {
      QueueEvents();
      r := *;
      if r.Ok? && r.value in inUse {
        r := Err(OtherError(request.path));
      }
      Remember(Watching(request, r));
    }

    method RemoveInotifyWatch(wd: WatchDescriptor) returns (error: Option<IoError>)
      requires Valid()
      modifies this
      ensures Valid() && log == old(log) + [Unwatching(wd, error)]
    {
      QueueEvents();
      error := *;
      Remember(Unwatching(wd, error));
    }

    method ReadDir(root: Path) returns (r: Result<seq<DirEntry>, IoError>)
      requires Valid()
      modifies this
      ensures Valid() && log == old(log) + [Listing(root, r)]
    {
      QueueEvents();
      r := *;
      Remember(Listing(root, r));
    }

    /** Reads any number of events from the front of the queue, or fails and leaves them there. */
    method ReadEvents() returns (r: Result<seq<InotifyEvent>, IoError>, ghost batch: Result<seq<Queued>, IoError>)
      requires Valid()
      modifies this
      ensures Valid() && log == old(log) + [Reading(batch)]
      ensures batch.Ok? ==>
        && r == Ok(EventsOf(batch.value))
        && old(queue) <= batch.value + queue
        && forall q :: q in batch.value ==> Tagged(old(log), q)
      ensures batch.Err? ==> r == Err(batch.error) && old(queue) <= queue
    {
      QueueEvents();
      var error: Option<IoError> := *;
      match error {
        case Some(e) =>
          r, batch := Err(e), Err(e);
          Remember(Reading(Err(e)));
        case None =>
          var n: int := *;
          if n < 0 || n > |queue| {
            n := |queue|;
          }
          var front := queue[..n];
          assert forall q :: q in front ==> q in queue;
          queue := queue[n..];
          r, batch := Ok(EventsOf(front)), Ok(front);
          Remember(Reading(Ok(front)));
      }
    }
  }
}
