/** Whole runs of the watcher: the watches are what the system's answers make of them, and every watch that an
    event drops is accounted for. */
module HotplugRuns {
  import opened Core
  import opened HotplugSystem
  import opened HotplugWatches

  /** What one answer does to the watches: a granted watch is registered, a watch that inotify was told to remove
      is forgotten, and events are observed. */
  function Follow(w: Watches, answer: Answer): Watches {
    match answer
    case Watching(request, Ok(wd)) => Registered(w, wd, request)
    case Unwatching(wd, _) => if wd in w.registrations then Unregistered(w, w.registrations[wd].path) else w
    case Reading(Ok(batch)) => Observe(w, EventsOf(batch)).watches
    case _ => w
  }

  function Followed(w: Watches, asked: seq<Answer>): Watches {
    if asked == [] then w else Follow(Followed(w, asked[..|asked| - 1]), asked[|asked| - 1])
  }

  lemma {:induction false} FollowedConcat(w: Watches, first: seq<Answer>, second: seq<Answer>)
    ensures Followed(w, first + second) == Followed(Followed(w, first), second)
    decreases |second|
  {
    if second == [] {
      assert first + second == first;
    } else {
      var n := |second| - 1;
      assert (first + second)[..|first| + n] == first + second[..n];
      FollowedConcat(w, first, second[..n]);
    }
  }

  // ---------- runs: everything the system ever answered ----------

  const NOTHING: Watches := Watches(map[], map[])

  /** The watches after a run. */
  function After(log: seq<Answer>): Watches { Followed(NOTHING, log) }

  /** What the watcher and inotify see to: only unwatched paths are added, under descriptors that are not in use,
      chips for PWM alone; and events are about the watch that their descriptor stood for when they were queued. */
  ghost predicate ProperStep(log: seq<Answer>, answer: Answer) {
    match answer
    case Watching(request, Ok(wd)) =>
      && request.path !in After(log).paths && wd !in After(log).registrations
      && (request.dynamic ==> request.interfaces == [Pwm])
    case Reading(Ok(batch)) => forall q :: q in batch ==> Tagged(log, q)
    case _ => true
  }

  ghost predicate Proper(log: seq<Answer>) {
    log == [] || (Proper(log[..|log| - 1]) && ProperStep(log[..|log| - 1], log[|log| - 1]))
  }

  lemma ProperGrows(log: seq<Answer>, answer: Answer)
    requires Proper(log) && ProperStep(log, answer)
    ensures Proper(log + [answer]) && After(log + [answer]) == Follow(After(log), answer)
  {
    assert (log + [answer])[..|log|] == log;
  }

  /** After every proper run the two maps are inverse. */
  lemma {:induction false} ProperIsInverse(log: seq<Answer>)
    requires Proper(log)
    ensures Inverse(After(log)) && DynamicIsPwm(After(log))
    decreases |log|
  {
    if log != [] {
      var n := |log| - 1;
      ProperIsInverse(log[..n]);
      match log[n] {
        case Watching(request, Ok(wd)) =>
          AddKeepsInverseIffFresh(After(log[..n]), wd, request);
          RegisteredKeepsPwm(After(log[..n]), wd, request);
        case Unwatching(wd, _) =>
          if wd in After(log[..n]).registrations {
            RemoveKeepsInverse(After(log[..n]), After(log[..n]).registrations[wd].path);
          }
        case Reading(Ok(batch)) =>
          ObserveKeepsInverse(After(log[..n]), EventsOf(batch));
        case _ =>
      }
    }
  }

  lemma RegisteredKeepsPwm(w: Watches, wd: WatchDescriptor, request: Registration)
    requires DynamicIsPwm(w) && (request.dynamic ==> request.interfaces == [Pwm])
    ensures DynamicIsPwm(Registered(w, wd, request))
  {
  }

  // ---------- which watch an event is about ----------

  type IssueMap = map<WatchDescriptor, nat>

  /** The answer that last issued each descriptor. */
  ghost function IssueOf(log: seq<Answer>): IssueMap {
    if log == [] then map[] else
      var n := |log| - 1;
      match log[n]
      case Watching(_, Ok(wd)) => IssueOf(log[..n])[wd := n]
      case _ => IssueOf(log[..n])
  }

  /** Answer `issue` granted the descriptor, and no later one granted it again. */
  ghost predicate LastIssue(log: seq<Answer>, issue: nat, wd: WatchDescriptor) {
    issue < |log| && Issues(log[issue], wd) && !IssuedBetween(log, issue + 1, |log|, wd)
  }

  lemma LastIssueStays(log: seq<Answer>, answer: Answer, issue: nat, wd: WatchDescriptor)
    requires LastIssue(log, issue, wd) && !Issues(answer, wd)
    ensures LastIssue(log + [answer], issue, wd)
  {
    IssuedStays(log, [answer], issue + 1, |log|, wd);
  }

  /** Every live watch is the one its descriptor was last issued to. */
  lemma {:induction false} LiveWatchIsLastIssue(log: seq<Answer>, wd: WatchDescriptor)
    requires Proper(log) && wd in After(log).registrations
    ensures wd in IssueOf(log) && LastIssue(log, IssueOf(log)[wd], wd)
    ensures log[IssueOf(log)[wd]].request == After(log).registrations[wd]
    decreases |log|
  {
    var n := |log| - 1;
    var front, last := log[..n], log[n];
    assert log == front + [last];
    if !Issues(last, wd) {
      ProperIsInverse(front);
      if last.Reading? && last.batch.Ok? { ObserveKeepsInverse(After(front), EventsOf(last.batch.value)); }
      LiveWatchIsLastIssue(front, wd);
      LastIssueStays(front, last, IssueOf(front)[wd], wd);
    }
  }

  /** The watch of answer `issue` was live and was dropped because of the event `cause`, which was read after
      `at` answers. */
  datatype Drop = Drop(issue: nat, cause: Queued, at: nat)

  /** The drops that a batch of events causes, read after `at` answers. */
  ghost function DropsIn(w: Watches, issueOf: IssueMap, batch: seq<Queued>, at: nat): seq<Drop> {
    if batch == [] then [] else
      var n := |batch| - 1;
      var event := batch[n].event;
      DropsIn(w, issueOf, batch[..n], at)
      + if !event.overflow && event.ignored && event.wd in Observe(w, EventsOf(batch[..n])).watches.registrations
           && event.wd in issueOf
        then [Drop(issueOf[event.wd], batch[n], at)] else []
  }

  /** Everything that events dropped during a run. */
  ghost function Drops(log: seq<Answer>): seq<Drop> {
    if log == [] then [] else
      var n := |log| - 1;
      Drops(log[..n])
      + match log[n]
        case Reading(Ok(batch)) => DropsIn(After(log[..n]), IssueOf(log[..n]), batch, n)
        case _ => []
  }

  /** The dropped watch was live, and it had the descriptor of the event that dropped it. They were different
      watches exactly if that descriptor was issued again while the event was queued. */
  ghost predicate Explained(log: seq<Answer>, d: Drop) {
    var wd := d.cause.event.wd;
    && d.cause.event.ignored && d.cause.since <= d.at <= |log|
    && d.issue < d.at && Issues(log[d.issue], wd)
    && d.cause.issue < d.cause.since && Issues(log[d.cause.issue], wd)
    && !IssuedBetween(log, d.issue + 1, d.at, wd)
    && (d.issue != d.cause.issue <==> IssuedBetween(log, d.cause.since, d.at, wd))
  }

  /** The heart of the matter: an event and the watch that its descriptor stands for now are about different
      issues exactly if the descriptor was issued again while the event was queued. */
  lemma StaleIffReissued(log: seq<Answer>, q: Queued, issue: nat)
    requires Tagged(log, q) && !q.event.overflow && LastIssue(log, issue, q.event.wd)
    ensures issue != q.issue <==> IssuedBetween(log, q.since, |log|, q.event.wd)
  {
  }

  lemma {:induction false} DropsInExplained(log: seq<Answer>, batch: seq<Queued>, d: Drop)
    requires Proper(log) && forall q :: q in batch ==> Tagged(log, q)
    requires d in DropsIn(After(log), IssueOf(log), batch, |log|)
    ensures Explained(log, d)
    decreases |batch|
  {
    var n := |batch| - 1;
    var q, front := batch[n], DropsIn(After(log), IssueOf(log), batch[..n], |log|);
    assert q in batch && forall p :: p in batch[..n] ==> p in batch;
    if d in front {
      DropsInExplained(log, batch[..n], d);
    } else {
      ProperIsInverse(log);
      ObserveKeepsInverse(After(log), EventsOf(batch[..n]));
      LiveWatchIsLastIssue(log, q.event.wd);
      StaleIffReissued(log, q, IssueOf(log)[q.event.wd]);
    }
  }

  /** Over every run: an event drops a live watch that it is not about if and only if its descriptor was issued
      again while it was queued. */
  lemma {:induction false} StaleDropIffReissued(log: seq<Answer>, d: Drop)
    requires Proper(log) && d in Drops(log)
    ensures Explained(log, d)
    decreases |log|
  {
    var n := |log| - 1;
    var front, last := log[..n], log[n];
    assert log == front + [last];
    if d in Drops(front) {
      StaleDropIffReissued(front, d);
    } else {
      DropsInExplained(front, last.batch.value, d);
    }
    IssuedStays(front, [last], d.cause.since, d.at, d.cause.event.wd);
    IssuedStays(front, [last], d.issue + 1, d.at, d.cause.event.wd);
  }

  /** An inotify that never issues a descriptor twice. */
  ghost predicate NeverReissues(log: seq<Answer>) {
    forall i, k, wd :: 0 <= i < k < |log| && Issues(log[i], wd) ==> !Issues(log[k], wd)
  }

  /** Then no live watch is ever dropped by a stale event. */
  lemma NoStaleDropWithoutReissue(log: seq<Answer>, d: Drop)
    requires Proper(log) && NeverReissues(log) && d in Drops(log)
    ensures d.issue == d.cause.issue
  {
    StaleDropIffReissued(log, d);
    assert Issues(log[d.issue], d.cause.event.wd) && Issues(log[d.cause.issue], d.cause.event.wd);
  }

  /** The drops of a batch are complete: a live watch that the batch takes away is among them. */
  lemma {:induction false} DropsInComplete(
      w: Watches, issueOf: IssueMap, batch: seq<Queued>, at: nat, wd: WatchDescriptor)
    requires Inverse(w) && DynamicIsPwm(w)
    requires wd in w.registrations && wd in issueOf && wd !in Observe(w, EventsOf(batch)).watches.registrations
    ensures exists d ::
      d in DropsIn(w, issueOf, batch, at) && d.at == at && d.issue == issueOf[wd] && d.cause.event.wd == wd
    decreases |batch|
  {
    var n := |batch| - 1;
    assert EventsOf(batch)[..n] == EventsOf(batch[..n]);
    if wd !in Observe(w, EventsOf(batch[..n])).watches.registrations {
      DropsInComplete(w, issueOf, batch[..n], at, wd);
      var d :| d in DropsIn(w, issueOf, batch[..n], at)
        && d.at == at && d.issue == issueOf[wd] && d.cause.event.wd == wd;
      assert d in DropsIn(w, issueOf, batch, at);
    } else {
      assert Drop(issueOf[wd], batch[n], at) in DropsIn(w, issueOf, batch, at);
    }
  }

  /** Each drop of a batch was caused by one of its events, which had the descriptor of a live watch. */
  lemma {:induction false} DropOfBatch(w: Watches, issueOf: IssueMap, batch: seq<Queued>, at: nat, d: Drop)
    requires d in DropsIn(w, issueOf, batch, at)
    ensures d.at == at && d.cause in batch
    ensures !d.cause.event.overflow && d.cause.event.ignored
    ensures var wd := d.cause.event.wd; wd in w.registrations && wd in issueOf && d.issue == issueOf[wd]
    decreases |batch|
  {
    var n := |batch| - 1;
    assert batch == batch[..n] + [batch[n]];
    if d in DropsIn(w, issueOf, batch[..n], at) {
      DropOfBatch(w, issueOf, batch[..n], at, d);
    } else {
      RegistrationsOnlyDrop(w, EventsOf(batch[..n]), d.cause.event.wd);
    }
  }

  /** Without reading events nothing is dropped. */
  lemma {:induction false} NoDropsWithoutReading(log: seq<Answer>, asked: seq<Answer>)
    requires forall i :: 0 <= i < |asked| ==> !asked[i].Reading?
    ensures Drops(log + asked) == Drops(log)
    decreases |asked|
  {
    if asked == [] {
      assert log + asked == log;
    } else {
      var n := |asked| - 1;
      NoDropsWithoutReading(log, asked[..n]);
      DropsOneMore(log + asked[..n], asked[n]);
      assert log + asked == log + asked[..n] + [asked[n]];
    }
  }

  lemma DropsOneMore(log: seq<Answer>, answer: Answer)
    ensures Drops(log + [answer]) == Drops(log)
      + match answer
        case Reading(Ok(batch)) => DropsIn(After(log), IssueOf(log), batch, |log|)
        case _ => []
  {
    assert (log + [answer])[..|log|] == log;
  }

  lemma {:induction false} DropIsEarlier(log: seq<Answer>, d: Drop)
    requires d.at >= |log|
    ensures d !in Drops(log)
    decreases |log|
  {
    if log != [] {
      var n := |log| - 1;
      DropIsEarlier(log[..n], d);
      if d in Drops(log) { DropOfBatch(After(log[..n]), IssueOf(log[..n]), log[n].batch.value, n, d); }
    }
  }

  /** Over every run: a live watch goes only by being removed or by a drop that is accounted for. */
  lemma LossAccounted(log: seq<Answer>, answer: Answer, wd: WatchDescriptor)
    requires Proper(log) && ProperStep(log, answer)
    requires wd in After(log).registrations && wd !in After(log + [answer]).registrations
    ensures wd in IssueOf(log)
    ensures (answer.Unwatching? && answer.wd == wd)
      || exists d ::
           d in Drops(log + [answer]) && d.at == |log| && d.issue == IssueOf(log)[wd] && d.cause.event.wd == wd
  {
    ProperGrows(log, answer);
    ProperIsInverse(log);
    LiveWatchIsLastIssue(log, wd);
    assert (log + [answer])[..|log|] == log;
    if answer.Reading? && answer.batch.Ok? {
      DropsInComplete(After(log), IssueOf(log), answer.batch.value, |log|, wd);
    }
  }

  // ---------- static watches ----------

  /** A static watch was granted. */
  predicate GrantsStatic(answer: Answer) {
    answer.Watching? && answer.granted.Ok? && !answer.request.dynamic
  }

  /** An answer that takes no watch away. */
  predicate TakesNothing(answer: Answer) {
    answer.Existence? || answer.Watching?
  }

  /** Static watches come first: all of them are granted before anything is listed, removed or read. */
  ghost predicate StaticFirst(log: seq<Answer>) {
    forall i, k :: 0 <= i < k < |log| && GrantsStatic(log[k]) ==> TakesNothing(log[i])
  }

  /** Whatever was granted is still watched while no answer takes anything away. */
  lemma {:induction false} GrantedIsWatched(log: seq<Answer>, k: nat, wd: WatchDescriptor)
    requires Proper(log) && k < |log| && Issues(log[k], wd)
    requires forall i :: 0 <= i < |log| ==> TakesNothing(log[i])
    ensures wd in After(log).registrations
    decreases |log|
  {
    var n := |log| - 1;
    if k < n { GrantedIsWatched(log[..n], k, wd); }
  }

  lemma {:induction false} ProperPrefix(log: seq<Answer>, n: nat)
    requires Proper(log) && n <= |log|
    ensures Proper(log[..n])
    decreases |log|
  {
    if n == |log| {
      assert log[..n] == log;
    } else {
      ProperPrefix(log[..|log| - 1], n);
      assert log[..|log| - 1][..n] == log[..n];
    }
  }

  /** The descriptor of a static watch is granted for the first time. */
  lemma StaticGrantIsFirst(log: seq<Answer>, earlier: nat, k: nat, wd: WatchDescriptor)
    requires Proper(log) && StaticFirst(log)
    requires earlier < k < |log| && GrantsStatic(log[k]) && Issues(log[k], wd)
    ensures !Issues(log[earlier], wd)
  {
    ProperPrefix(log, k + 1);
    assert log[..k + 1][..k] == log[..k];
    if Issues(log[earlier], wd) {
      ProperPrefix(log, k);
      GrantedIsWatched(log[..k], earlier, wd);
    }
  }

  /** Over every run in which static watches come first: no event but its own takes a static watch. */
  lemma StaticDropIsItsOwn(log: seq<Answer>, d: Drop)
    requires Proper(log) && StaticFirst(log) && d in Drops(log)
    ensures d.issue < |log| && log[d.issue].Watching?
    ensures !log[d.issue].request.dynamic ==> d.issue == d.cause.issue
  {
    StaleDropIffReissued(log, d);
    if d.issue != d.cause.issue && !log[d.issue].request.dynamic {
      StaticGrantIsFirst(log, d.cause.issue, d.issue, d.cause.event.wd);
    }
  }

  // ---------- one event ----------

  lemma DropsInOne(w: Watches, issueOf: IssueMap, q: Queued, at: nat)
    requires !q.event.overflow && q.event.ignored && q.event.wd in w.registrations && q.event.wd in issueOf
    ensures DropsIn(w, issueOf, [q], at) == [Drop(issueOf[q.event.wd], q, at)]
    ensures Observe(w, EventsOf([q])) == ObserveOne(Observation(w, {}, {}, false), q.event)
  {
    assert [q][..0] == [] && EventsOf([q])[..0] == [];
    assert Observe(w, EventsOf([q])) == ObserveOne(Observe(w, []), q.event);
  }
}
