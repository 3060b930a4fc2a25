/** The runtime's event notifier: a tail index and a version under a mutex, and a condition variable. */
module EventNotifier {
  import opened Core

  /** What the mutex protects. */
  datatype NotifierState = NotifierState(tailIndex: Usize, version: Usize)

  /** `advance_to`: a greater tail is a change. */
  function Advanced(s: NotifierState, tailIndex: Usize): NotifierState {
    if tailIndex <= s.tailIndex then s
    else NotifierState(tailIndex, SaturatingAdd(s.version, 1))
  }

  /** `notify_changed`: a change without a new tail. */
  function Bumped(s: NotifierState): NotifierState {
    s.(version := SaturatingAdd(s.version, 1))
  }

  /** A change moves the version past everything that was observed before, unless the counter is exhausted;
      otherwise the version stays. */
  ghost predicate Counted(before: NotifierState, after: NotifierState, change: bool) {
    after.version == if change && before.version < USIZE_MAX then before.version + 1 else before.version
  }

  function SaturatingPredecessor(n: Usize): Usize {
    if n == 0 then 0 else n - 1
  }

  // ---------- the object, one critical section at a time ----------

  /** What other threads do while a waiter has released the mutex, and how its wait ends. */
  datatype Update = AdvanceTo(tailIndex: Usize) | NotifyChanged

  datatype Wake = Wake(meanwhile: seq<Update>, timedOut: bool)

  function Updated(s: NotifierState, updates: seq<Update>): NotifierState
    decreases |updates|
  {
    if updates == [] then s else
      var before := Updated(s, updates[..|updates| - 1]);
      match updates[|updates| - 1]
      case AdvanceTo(tailIndex) => Advanced(before, tailIndex)
      case NotifyChanged => Bumped(before)
  }

  function AfterWakes(s: NotifierState, wakes: seq<Wake>): NotifierState
    decreases |wakes|
  {
    if wakes == [] then s
    else Updated(AfterWakes(s, wakes[..|wakes| - 1]), wakes[|wakes| - 1].meanwhile)
  }

  /** None of these wake-ups ends the wait: the version never passes the observed one and no timeout fires. */
  ghost predicate SleepsThrough(s: NotifierState, observedVersion: Usize, hasTimeout: bool, wakes: seq<Wake>)
    decreases |wakes|
  {
    && AfterWakes(s, wakes).version <= observedVersion
    && (wakes != [] ==>
          !(hasTimeout && wakes[|wakes| - 1].timedOut)
          && SleepsThrough(s, observedVersion, hasTimeout, wakes[..|wakes| - 1]))
  }

  /** Update `k` publishes a greater tail or notifies of another change. */
  ghost predicate ChangesAt(s: NotifierState, updates: seq<Update>, k: nat) {
    k < |updates| &&
    match updates[k]
    case AdvanceTo(tailIndex) => tailIndex > Updated(s, updates[..k]).tailIndex
    case NotifyChanged => true
  }

  /** A waiter that has observed the current version is let go by any number of updates exactly if one of them is
      a change; publishing an old tail again is none. */
  lemma {:induction false} ReleasedIffChanged(s: NotifierState, updates: seq<Update>)
    requires s.version < USIZE_MAX
    ensures s.version <= Updated(s, updates).version
    ensures Updated(s, updates).version > s.version <==> exists k :: ChangesAt(s, updates, k)
    decreases |updates|
  {
    if updates != [] {
      var n := |updates| - 1;
      ReleasedIffChanged(s, updates[..n]);
      assert forall k :: 0 <= k < n ==> updates[..n][..k] == updates[..k];
      if k: nat :| ChangesAt(s, updates[..n], k) { assert ChangesAt(s, updates, k); }
      if k: nat :| ChangesAt(s, updates, k) && k < n { assert ChangesAt(s, updates[..n], k); }
      assert ChangesAt(s, updates, n) ==> Updated(s, updates).version > s.version;
    }
  }

  class RuntimeEventNotifier {
    var state: NotifierState

    constructor ()
      ensures state == NotifierState(0, 0)
    {
      state := NotifierState(0, 0);
    }

    method AdvanceTo(tailIndex: Usize)
      modifies this
      ensures state == Advanced(old(state), tailIndex)
      ensures state.tailIndex >= old(state).tailIndex && state.tailIndex >= tailIndex
      ensures state.tailIndex in {old(state).tailIndex, tailIndex}
      ensures Counted(old(state), state, state.tailIndex != old(state).tailIndex)
    {
      if tailIndex <= state.tailIndex {
        return;
      }
      state := state.(tailIndex := tailIndex);
      state := state.(version := SaturatingAdd(state.version, 1));
    }

    method NotifyChanged()
      modifies this
      ensures state == Bumped(old(state)) && state.tailIndex == old(state).tailIndex
      ensures Counted(old(state), state, true)
    {
      state := state.(version := SaturatingAdd(state.version, 1));
    }

    /** The wait loops, given the wake-ups the waiter will see: each one comes after some updates by other
        threads, or none when it is spurious. `used` wake-ups pass before the wait ends; `None` means that
        the waiter is still asleep after all of them. */
    method WaitForChangeAfter(observedVersion: Usize, hasTimeout: bool, wakes: seq<Wake>)
      returns (r: Option<bool>, ghost used: nat)
      modifies this
      ensures used <= |wakes| && state == AfterWakes(old(state), wakes[..used])
      ensures r != None && used > 0 ==> SleepsThrough(old(state), observedVersion, hasTimeout, wakes[..used - 1])
      ensures r == Some(true) <==> state.version > observedVersion
      ensures r == Some(false) ==> hasTimeout && used > 0 && wakes[used - 1].timedOut
      ensures r == None ==> used == |wakes| && SleepsThrough(old(state), observedVersion, hasTimeout, wakes)
    {
      used := 0;
      if state.version > observedVersion {
        return Some(true), 0;
      }
      var k := 0;
      while state.version <= observedVersion
        invariant 0 <= k <= |wakes| && used == k
        invariant state == AfterWakes(old(state), wakes[..k])
        invariant SleepsThrough(old(state), observedVersion, hasTimeout, wakes[..k])
        decreases |wakes| - k
      {
        if k == |wakes| {
          assert wakes[..k] == wakes;
          return None, used;
        }
        assert wakes[..k + 1][..k] == wakes[..k];
        state := Updated(state, wakes[k].meanwhile);
        used := k + 1;
        if state.version > observedVersion {
          return Some(true), used;
        }
        if hasTimeout && wakes[k].timedOut {
          return Some(false), used;
        }
        k := k + 1;
      }
      return Some(true), used;
    }
  }

  // ---------- all interleavings ----------

  type ThreadId = nat

  /** Where a thread is. A subscription is created in two critical sections; a poll moves its cursor to the tail
      first and reads the version later; a wait sleeps until a notification, a spurious wake-up or its timeout makes
      it take the mutex again. */
  datatype Thread =
    | Creating(cursor: Usize, behindTail: bool)
    | Polling(cursor: Usize)
    | Subscribed(cursor: Usize, behindTail: bool, observedVersion: Usize)
    | Asleep(observed: Usize, hasTimeout: bool)
    | Awake(observed: Usize, hasTimeout: bool, timedOut: bool)
    | Finished(observed: Usize, changed: bool)
  {
    predicate Waiting() { Asleep? || Awake? }
  }

  datatype System = System(shared: NotifierState, threads: map<ThreadId, Thread>)

  const INITIAL: System := System(NotifierState(0, 0), map[])

  datatype Action =
    | Advance(tailIndex: Usize)
    | Notify
    | StartSubscription(thread: ThreadId, cursor: Usize)
    | FinishSubscription(thread: ThreadId)
    | StartPoll(thread: ThreadId)
    | FinishPoll(thread: ThreadId)
    | StartWait(thread: ThreadId, observed: Usize, hasTimeout: bool)
    | SpuriousWake(thread: ThreadId)
    | TimeOut(thread: ThreadId)
    | Reacquire(thread: ThreadId)

  /** `notify_all`: every sleeping thread wakes up. */
  function NotifyAll(threads: map<ThreadId, Thread>): map<ThreadId, Thread> {
    map t | t in threads ::
      if threads[t].Asleep? then Awake(threads[t].observed, threads[t].hasTimeout, false) else threads[t]
  }

  ghost predicate Enabled(s: System, action: Action) {
    match action
    case Advance(_) => true
    case Notify => true
    case StartSubscription(t, _) => t !in s.threads
    case FinishSubscription(t) => t in s.threads && s.threads[t].Creating?
    case StartPoll(t) => t in s.threads && (s.threads[t].Subscribed? || s.threads[t].Finished?)
    case FinishPoll(t) => t in s.threads && s.threads[t].Polling?
    case StartWait(t, _, _) => t in s.threads ==> s.threads[t].Subscribed? || s.threads[t].Finished?
    case SpuriousWake(t) => t in s.threads && s.threads[t].Asleep?
    case TimeOut(t) => t in s.threads && s.threads[t].Asleep? && s.threads[t].hasTimeout
    case Reacquire(t) => t in s.threads && s.threads[t].Awake?
  }

  /** One critical section, or one wake-up, of one thread. */
  ghost function Next(s: System, action: Action): System
    requires Enabled(s, action)
  {
    match action
    case Advance(tailIndex) =>
      if tailIndex <= s.shared.tailIndex then s
      else System(Advanced(s.shared, tailIndex), NotifyAll(s.threads))
    case Notify =>
      System(Bumped(s.shared), NotifyAll(s.threads))
    case StartSubscription(t, cursor) =>
      s.(threads := s.threads[t := Creating(cursor, cursor < s.shared.tailIndex)])
    case FinishSubscription(t) =>
      var creating := s.threads[t];
      var observed := if creating.behindTail then SaturatingPredecessor(s.shared.version) else s.shared.version;
      s.(threads := s.threads[t := Subscribed(creating.cursor, creating.behindTail, observed)])
    case StartPoll(t) =>
      s.(threads := s.threads[t := Polling(s.shared.tailIndex)])
    case FinishPoll(t) =>
      s.(threads := s.threads[t := Subscribed(s.threads[t].cursor, false, s.shared.version)])
    case StartWait(t, observed, hasTimeout) =>
      s.(threads := s.threads[t := if s.shared.version > observed then Finished(observed, true)
                                   else Asleep(observed, hasTimeout)])
    case SpuriousWake(t) =>
      s.(threads := s.threads[t := Awake(s.threads[t].observed, s.threads[t].hasTimeout, false)])
    case TimeOut(t) =>
      s.(threads := s.threads[t := Awake(s.threads[t].observed, s.threads[t].hasTimeout, true)])
    case Reacquire(t) =>
      var w := s.threads[t];
      s.(threads := s.threads[t :=
        if s.shared.version > w.observed then Finished(w.observed, true)
        else if w.hasTimeout && w.timedOut then Finished(w.observed, false)
        else Asleep(w.observed, w.hasTimeout)])
  }

  ghost predicate IsRun(run: seq<System>, actions: seq<Action>) {
    && |run| == |actions| + 1
    && run[0] == INITIAL
    && forall k :: 0 <= k < |actions| ==> Enabled(run[k], actions[k]) && run[k + 1] == Next(run[k], actions[k])
  }

  /** No thread sleeps through a change it waits for, events come with a version, a wait that reported a
      change had one, and a subscription that saw itself behind the tail has a change to wait for. */
  ghost predicate Inv(s: System) {
    && (s.shared.tailIndex > 0 ==> s.shared.version > 0)
    && forall t :: t in s.threads ==>
         match s.threads[t]
         case Creating(cursor, behindTail) => behindTail ==> cursor < s.shared.tailIndex
         case Polling(cursor) => cursor <= s.shared.tailIndex
         case Subscribed(cursor, behindTail, observed) =>
           observed <= s.shared.version && (behindTail ==> observed < s.shared.version && cursor < s.shared.tailIndex)
         case Asleep(observed, _) => s.shared.version <= observed
         case Awake(_, hasTimeout, timedOut) => timedOut ==> hasTimeout
         case Finished(observed, changed) => changed ==> s.shared.version > observed
  }

  lemma NextKeepsInv(s: System, action: Action)
    requires Inv(s) && Enabled(s, action)
    ensures Inv(Next(s, action))
    ensures s.shared.version <= Next(s, action).shared.version
    ensures s.shared.tailIndex <= Next(s, action).shared.tailIndex
  {
  }

  /** At every point of every interleaving: no waiter is asleep while the version is past the one it observed. */
  lemma {:induction false} NoLostWakeUp(run: seq<System>, actions: seq<Action>, k: nat)
    requires IsRun(run, actions) && k < |run|
    ensures Inv(run[k])
    ensures forall t :: t in run[k].threads && run[k].threads[t].Asleep? ==>
      run[k].shared.version <= run[k].threads[t].observed
    ensures forall t :: t in run[k].threads && run[k].threads[t].Finished? && run[k].threads[t].changed ==>
      run[k].shared.version > run[k].threads[t].observed
  {
    if k > 0 {
      NoLostWakeUp(run, actions, k - 1);
      NextKeepsInv(run[k - 1], actions[k - 1]);
    }
  }

  /** Version and tail never decrease. */
  lemma {:induction false} NeverDecreases(run: seq<System>, actions: seq<Action>, i: nat, k: nat)
    requires IsRun(run, actions) && i <= k < |run|
    ensures run[i].shared.version <= run[k].shared.version
    ensures run[i].shared.tailIndex <= run[k].shared.tailIndex
    decreases k
  {
    if i < k {
      NeverDecreases(run, actions, i, k - 1);
      NoLostWakeUp(run, actions, k - 1);
      NextKeepsInv(run[k - 1], actions[k - 1]);
    }
  }

  /** Once the version has passed what a waiting thread observed, that thread is awake for as long as it
      waits, and taking the mutex ends its wait with `true`, even if its timeout fired as well. */
  lemma {:induction false} ChangeEndsWait(run: seq<System>, actions: seq<Action>, t: ThreadId, i: nat, k: nat)
    requires IsRun(run, actions) && i <= k < |run|
    requires forall j :: i <= j <= k ==> t in run[j].threads && run[j].threads[t].Waiting()
    requires run[i].threads[t].Waiting() && run[i].shared.version > run[i].threads[t].observed
    ensures run[k].threads[t].Awake? && run[k].threads[t].observed == run[i].threads[t].observed
    ensures Next(run[k], Reacquire(t)).threads[t] == Finished(run[i].threads[t].observed, true)
    decreases k
  {
    NoLostWakeUp(run, actions, k);
    if i < k {
      ChangeEndsWait(run, actions, t, i, k - 1);
      NeverDecreases(run, actions, i, k);
      NoLostWakeUp(run, actions, k - 1);
    }
  }

  /** A wait on a subscription that found its cursor behind the tail returns `true` at once, although
      the subscription was created in two critical sections. */
  lemma BehindTailNeverBlocks(run: seq<System>, actions: seq<Action>, k: nat, t: ThreadId, hasTimeout: bool)
    requires IsRun(run, actions) && k < |run|
    requires t in run[k].threads && run[k].threads[t].Subscribed? && run[k].threads[t].behindTail
    ensures var observed := run[k].threads[t].observedVersion;
      Next(run[k], StartWait(t, observed, hasTimeout)).threads[t] == Finished(observed, true)
  {
    NoLostWakeUp(run, actions, k);
  }

  /** The tail never moves without the version, unless the version counter is exhausted. */
  lemma {:induction false} TailMovesVersion(run: seq<System>, actions: seq<Action>, i: nat, k: nat)
    requires IsRun(run, actions) && i <= k < |run| && run[i].shared.tailIndex < run[k].shared.tailIndex
    ensures run[i].shared.version < run[k].shared.version || run[k].shared.version == USIZE_MAX
    decreases k
  {
    NeverDecreases(run, actions, i, k - 1);
    if run[i].shared.tailIndex < run[k - 1].shared.tailIndex {
      TailMovesVersion(run, actions, i, k - 1);
      NeverDecreases(run, actions, k - 1, k);
    }
  }

  /** The runtime publishes events through `&mut self`, and creates and polls subscriptions through `&self`, so no
      event is published while a subscription is being created or polled. */
  ghost predicate ByRuntime(run: seq<System>, actions: seq<Action>) {
    && IsRun(run, actions)
    && forall k, t :: 0 <= k < |actions| && actions[k].Advance? && t in run[k].threads ==>
         !run[k].threads[t].Creating? && !run[k].threads[t].Polling?
  }

  /** What a thread learnt about the tail is still true when it reads the version. */
  ghost predicate UpToDate(s: System) {
    forall t :: t in s.threads ==>
      match s.threads[t]
      case Creating(cursor, behindTail) => behindTail <==> cursor < s.shared.tailIndex
      case Polling(cursor) => cursor == s.shared.tailIndex
      case _ => true
  }

  lemma {:induction false} RuntimeStaysUpToDate(run: seq<System>, actions: seq<Action>, k: nat)
    requires ByRuntime(run, actions) && k < |run|
    ensures UpToDate(run[k])
  {
    if k > 0 {
      RuntimeStaysUpToDate(run, actions, k - 1);
      assert run[k] == Next(run[k - 1], actions[k - 1]);
    }
  }

  /** Step `k` of the run creates a subscription or polls it, and the subscription has these fields from then on. */
  ghost predicate Renewed(
      run: seq<System>, actions: seq<Action>, k: nat, t: ThreadId, cursor: Usize, observed: Usize)
  {
    && IsRun(run, actions) && k < |actions|
    && (actions[k] == FinishSubscription(t) || actions[k] == FinishPoll(t))
    && run[k + 1].threads[t].cursor == cursor && run[k + 1].threads[t].observedVersion == observed
  }

  /** The two critical sections of one subscription: `first` takes the tail, `second` the version. */
  ghost predicate CreatedBetween(
      run: seq<System>, actions: seq<Action>, first: nat, second: nat, t: ThreadId, cursor: Usize)
  {
    && IsRun(run, actions) && first < second < |actions|
    && actions[first] == StartSubscription(t, cursor)
    && actions[second] == FinishSubscription(t)
    && forall j :: first < j <= second ==> t in run[j].threads && run[j].threads[t] == run[first + 1].threads[t]
  }

  /** Subscribing and polling as the runtime does: at any later point, however often the subscription has waited
      since, a wait with events past its cursor returns `true` at once, unless the version counter is exhausted. */
  lemma PendingEventsNeverBlock(
      run: seq<System>, actions: seq<Action>, i: nat, t: ThreadId, cursor: Usize, observed: Usize, k: nat,
      hasTimeout: bool)
    requires ByRuntime(run, actions) && i < k < |run| && Renewed(run, actions, i, t, cursor, observed)
    requires cursor < run[k].shared.tailIndex && run[k].shared.version < USIZE_MAX
    requires Enabled(run[k], StartWait(t, observed, hasTimeout))
    ensures Next(run[k], StartWait(t, observed, hasTimeout)).threads[t] == Finished(observed, true)
  {
    RuntimeStaysUpToDate(run, actions, i);
    NoLostWakeUp(run, actions, i);
    assert run[i + 1] == Next(run[i], actions[i]);
    NeverDecreases(run, actions, i + 1, k);
    if run[i + 1].shared.tailIndex <= cursor { TailMovesVersion(run, actions, i + 1, k); }
  }

  /** A subscription that was polled, or whose cursor was not behind when it was created, waits for changes alone: a
      wait started at any later point returns `true` at once exactly if the version has grown since. */
  lemma WaitEndsAtOnceIffChanged(
      run: seq<System>, actions: seq<Action>, i: nat, t: ThreadId, cursor: Usize, observed: Usize, k: nat,
      hasTimeout: bool)
    requires IsRun(run, actions) && i < k < |run| && Renewed(run, actions, i, t, cursor, observed)
    requires actions[i] == FinishPoll(t) || !run[i].threads[t].behindTail
    requires Enabled(run[k], StartWait(t, observed, hasTimeout))
    ensures Next(run[k], StartWait(t, observed, hasTimeout)).threads[t]
      == if run[i].shared.version < run[k].shared.version then Finished(observed, true)
         else Asleep(observed, hasTimeout)
  {
    assert run[i + 1] == Next(run[i], actions[i]);
    NeverDecreases(run, actions, i, k);
  }

  /** Why publishing must not overlap with subscribing: a fresh subscription would block with events past its
      cursor exactly when the tail passed the cursor between the two critical sections: it was not behind when
      it looked, and is when it is done. */
  lemma BlocksOnPendingIffOvertaken(
      run: seq<System>, actions: seq<Action>, first: nat, second: nat, t: ThreadId, cursor: Usize, hasTimeout: bool)
    requires CreatedBetween(run, actions, first, second, t, cursor)
    ensures var done := run[second + 1];
      t in done.threads && done.threads[t].Subscribed?
      && (Next(done, StartWait(t, done.threads[t].observedVersion, hasTimeout)).threads[t].Asleep?
            && cursor < done.shared.tailIndex
          <==> run[first].shared.tailIndex <= cursor < run[second].shared.tailIndex)
  {
    assert run[first + 1] == Next(run[first], actions[first]);
    assert run[second + 1] == Next(run[second], actions[second]);
    NoLostWakeUp(run, actions, second + 1);
  }

  /** A run without that exclusion: one event published between the two critical sections is slept through. */
  lemma OvertakenSubscriptionBlocks() returns (run: seq<System>, actions: seq<Action>)
    ensures IsRun(run, actions) && |actions| == 4
    ensures 0 in run[3].threads && run[3].threads[0].Subscribed? && run[3].threads[0].cursor < run[3].shared.tailIndex
    ensures actions[3] == StartWait(0, run[3].threads[0].observedVersion, false)
    ensures 0 in run[4].threads && run[4].threads[0].Asleep?
  {
    actions := [StartSubscription(0, 0), Advance(1), FinishSubscription(0), StartWait(0, 1, false)];
    var s1 := Next(INITIAL, actions[0]);
    var s2 := Next(s1, actions[1]);
    var s3 := Next(s2, actions[2]);
    run := [INITIAL, s1, s2, s3, Next(s3, actions[3])];
  }
}
