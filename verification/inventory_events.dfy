/** The events of a diff, and what a listener that replays them ends up with. */
module InventoryEvents {
  import opened Core
  import opened StringOrder
  import opened Inventory
  import opened Sorting

  datatype InventoryEvent =
    | Added(device: Descriptor)
    | Changed(previous: Descriptor, current: Descriptor)
    | Removed(deviceId: DeviceId)
  {
    function Subject(): DeviceId {
      match this
      case Added(device) => device.id
      case Changed(_, current) => current.id
      case Removed(id) => id
    }

    /** What the listener knows about the subject afterwards. */
    function After(): Option<Descriptor> {
      match this
      case Added(device) => Some(device)
      case Changed(_, current) => Some(current)
      case Removed(_) => None
    }

    /** The event is consistent with what the listener knows: it adds a new id, changes exactly the
        descriptor known so far, or removes a known id. */
    predicate Fits(known: Devices) {
      match this
      case Added(device) => device.id !in known
      case Changed(previous, current) => current.id in known && known[current.id] == previous
      case Removed(id) => id in known
    }
  }

  /** Additions first, then changes, then removals. */
  function Events(d: InventoryDiff): (es: seq<InventoryEvent>)
    ensures |es| == |d.added| + |d.changed| + |d.removed|
    ensures forall i :: 0 <= i < |d.added| ==> es[i] == Added(d.added[i])
    ensures forall i :: 0 <= i < |d.changed| ==>
      es[|d.added| + i] == Changed(d.changed[i].previous, d.changed[i].current)
    ensures forall i :: 0 <= i < |d.removed| ==> es[|d.added| + |d.changed| + i] == Removed(d.removed[i])
  {
    seq(|d.added|, i requires 0 <= i < |d.added| => Added(d.added[i]))
    + seq(|d.changed|, i requires 0 <= i < |d.changed| => Changed(d.changed[i].previous, d.changed[i].current))
    + seq(|d.removed|, i requires 0 <= i < |d.removed| => Removed(d.removed[i]))
  }

  function Lookup(m: Devices, id: DeviceId): Option<Descriptor> {
    if id in m then Some(m[id]) else None
  }

  function Apply(known: Devices, event: InventoryEvent): Devices {
    match event.After()
    case Some(device) => known[event.Subject() := device]
    case None => known - {event.Subject()}
  }

  /** Replays events strictly: `None` as soon as one does not fit. */
  function Replay(known: Devices, events: seq<InventoryEvent>): Option<Devices>
    decreases |events|
  {
    if events == [] then Some(known)
    else if !events[0].Fits(known) then None
    else Replay(Apply(known, events[0]), events[1..])
  }

  lemma {:induction false} ReplayConcat(known: Devices, first: seq<InventoryEvent>, second: seq<InventoryEvent>)
    requires Replay(known, first).Some?
    ensures Replay(known, first + second) == Replay(Replay(known, first).value, second)
    decreases |first|
  {
    if first == [] {
      assert first + second == second;
    } else {
      assert (first + second)[1..] == first[1..] + second;
      ReplayConcat(Apply(known, first[0]), first[1..], second);
    }
  }

  ghost predicate DistinctSubjects(events: seq<InventoryEvent>) {
    forall i, j :: 0 <= i < j < |events| ==> events[i].Subject() != events[j].Subject()
  }

  /** Events about different devices that each fit the start can be replayed, each having its own effect. */
  lemma {:induction false} ReplayDistinct(known: Devices, events: seq<InventoryEvent>)
    requires DistinctSubjects(events)
    requires forall i :: 0 <= i < |events| ==> events[i].Fits(known)
    ensures Replay(known, events).Some?
    ensures forall i :: 0 <= i < |events| ==>
      Lookup(Replay(known, events).value, events[i].Subject()) == events[i].After()
    ensures forall id :: (forall i :: 0 <= i < |events| ==> events[i].Subject() != id) ==>
      Lookup(Replay(known, events).value, id) == Lookup(known, id)
    decreases |events|
  {
    if events != [] {
      var next, rest := Apply(known, events[0]), events[1..];
      assert forall i :: 0 <= i < |rest| ==> rest[i] == events[i + 1] && rest[i].Subject() != events[0].Subject();
      ReplayDistinct(next, rest);
      var final := Replay(next, rest).value;
      assert Lookup(final, events[0].Subject()) == Lookup(next, events[0].Subject());
      forall i | 0 <= i < |events| ensures Lookup(final, events[i].Subject()) == events[i].After() {
        if i > 0 { assert events[i] == rest[i - 1]; }
      }
      forall id | forall i :: 0 <= i < |events| ==> events[i].Subject() != id
        ensures Lookup(final, id) == Lookup(known, id)
      {
        assert events[0].Subject() != id;
        assert Lookup(final, id) == Lookup(next, id);
      }
    }
  }

  lemma AddedAt(added: seq<Descriptor>, a: Devices, b: Devices, k: nat)
    requires Keyed(b) && IsAdded(added, SortedKeys(b.Keys), a, b) && k < |added|
    ensures added[k].id !in a && added[k].id in b && b[added[k].id] == added[k]
  {
  }

  lemma ChangedAt(changed: seq<ChangedDevice>, a: Devices, b: Devices, k: nat)
    requires IsChanged(changed, SortedKeys(b.Keys), a, b) && k < |changed|
    ensures var id := changed[k].current.id; id in a && id in b && changed[k] == ChangedDevice(a[id], b[id])
  {
  }

  lemma RemovedAt(removed: seq<DeviceId>, a: Devices, b: Devices, k: nat)
    requires IsRemoved(removed, SortedKeys(a.Keys), b) && k < |removed|
    ensures removed[k] in a && removed[k] !in b
  {
  }

  lemma AddedEventAt(d: InventoryDiff, a: Devices, b: Devices, k: nat)
    requires Keyed(b) && IsAdded(d.added, SortedKeys(b.Keys), a, b) && k < |d.added|
    ensures var e := Events(d)[k];
      e.Added? && e.Fits(a) && e.Subject() in b && e.After() == Lookup(b, e.Subject())
  {
    AddedAt(d.added, a, b, k);
    assert Events(d)[k] == Added(d.added[k]);
  }

  lemma ChangedEventAt(d: InventoryDiff, a: Devices, b: Devices, k: nat)
    requires IsChanged(d.changed, SortedKeys(b.Keys), a, b) && k < |d.changed|
    ensures var e := Events(d)[|d.added| + k];
      e.Changed? && e.Fits(a) && e.Subject() in b && e.After() == Lookup(b, e.Subject())
  {
    ChangedAt(d.changed, a, b, k);
    assert Events(d)[|d.added| + k] == Changed(d.changed[k].previous, d.changed[k].current);
  }

  lemma RemovedEventAt(d: InventoryDiff, a: Devices, b: Devices, k: nat)
    requires IsRemoved(d.removed, SortedKeys(a.Keys), b) && k < |d.removed|
    ensures var e := Events(d)[|d.added| + |d.changed| + k];
      e.Removed? && e.Fits(a) && e.Subject() !in b && e.After() == Lookup(b, e.Subject())
  {
    RemovedAt(d.removed, a, b, k);
    assert Events(d)[|d.added| + |d.changed| + k] == Removed(d.removed[k]);
  }

  /** Each event fits the old inventory and leads to what the new one holds. */
  lemma EventAt(d: InventoryDiff, a: Devices, b: Devices, i: nat)
    requires Keyed(a) && Keyed(b) && IsDiff(d, a, b) && i < |Events(d)|
    ensures var e := Events(d)[i];
      e.Fits(a) && e.After() == Lookup(b, e.Subject()) && (e.Removed? <==> e.Subject() !in b)
  {
    var m, n := |d.added|, |d.changed|;
    if i < m {
      AddedEventAt(d, a, b, i);
    } else if i < m + n {
      ChangedEventAt(d, a, b, i - m);
    } else {
      RemovedEventAt(d, a, b, i - m - n);
    }
  }

  lemma AscendingDistinct(ids: seq<DeviceId>)
    requires Ascending(ids)
    ensures NoRepeats(ids)
  {
    forall i, j | 0 <= i < j < |ids| ensures ids[i] != ids[j] {
      Asymmetric(ids[i], ids[i]);
    }
  }

  lemma DistinctConcat(first: seq<DeviceId>, second: seq<DeviceId>)
    requires NoRepeats(first) && NoRepeats(second)
    requires forall id :: id in first ==> id !in second
    ensures NoRepeats(first + second)
  {
    var all, m := first + second, |first|;
    forall i, j | 0 <= i < j < |all| ensures all[i] != all[j] {
      if i < m <= j {
        assert all[i] in first && all[j] == second[j - m];
        assert second[j - m] in second;
      } else if m <= i {
        assert all[i] == second[i - m] && all[j] == second[j - m];
      }
    }
  }

  lemma SubjectsInOrder(d: InventoryDiff)
    ensures |Events(d)| == |Ids(d.added) + ChangedIds(d.changed) + d.removed|
    ensures forall i :: 0 <= i < |Events(d)| ==>
      Events(d)[i].Subject() == (Ids(d.added) + ChangedIds(d.changed) + d.removed)[i]
  {
  }

  /** No device is the subject of two events of one diff. */
  lemma EventSubjectsDistinct(d: InventoryDiff, a: Devices, b: Devices)
    requires IsDiff(d, a, b)
    ensures DistinctSubjects(Events(d))
  {
    AscendingDistinct(Ids(d.added));
    AscendingDistinct(ChangedIds(d.changed));
    AscendingDistinct(d.removed);
    DistinctConcat(Ids(d.added), ChangedIds(d.changed));
    DistinctConcat(Ids(d.added) + ChangedIds(d.changed), d.removed);
    SubjectsInOrder(d);
  }

  lemma DifferenceIsListed(d: InventoryDiff, a: Devices, b: Devices, id: DeviceId)
    requires IsDiff(d, a, b) && Lookup(a, id) != Lookup(b, id)
    ensures id in Ids(d.added) + ChangedIds(d.changed) + d.removed
  {
  }

  /** A device that differs between the inventories is the subject of an event. */
  lemma DifferenceIsMentioned(d: InventoryDiff, a: Devices, b: Devices, id: DeviceId)
    requires Keyed(a) && Keyed(b) && IsDiff(d, a, b)
    requires Lookup(a, id) != Lookup(b, id)
    ensures exists i :: 0 <= i < |Events(d)| && Events(d)[i].Subject() == id
  {
    var subjects := Ids(d.added) + ChangedIds(d.changed) + d.removed;
    DifferenceIsListed(d, a, b, id);
    var i :| 0 <= i < |subjects| && subjects[i] == id;
    SubjectsInOrder(d);
    assert Events(d)[i].Subject() == id;
  }

  /** Replaying the events of a diff on the old inventory gives exactly the new one. */
  lemma ReplayReachesNext(d: InventoryDiff, a: Devices, b: Devices)
    requires Keyed(a) && Keyed(b) && IsDiff(d, a, b)
    ensures Replay(a, Events(d)) == Some(b)
  {
    var es := Events(d);
    forall i | 0 <= i < |es| ensures es[i].Fits(a) && es[i].After() == Lookup(b, es[i].Subject()) {
      EventAt(d, a, b, i);
    }
    EventSubjectsDistinct(d, a, b);
    ReplayDistinct(a, es);
    var r := Replay(a, es).value;
    forall id ensures Lookup(r, id) == Lookup(b, id) {
      if i :| 0 <= i < |es| && es[i].Subject() == id {
        assert Lookup(r, es[i].Subject()) == es[i].After();
      } else if Lookup(a, id) != Lookup(b, id) {
        DifferenceIsMentioned(d, a, b, id);
        assert false;
      }
    }
    SameLookups(r, b);
  }

  lemma SameLookups(m: Devices, n: Devices)
    requires forall id :: Lookup(m, id) == Lookup(n, id)
    ensures m == n
  {
    forall id ensures (id in m <==> id in n) && (id in m ==> m[id] == n[id]) {
      assert Lookup(m, id) == Lookup(n, id);
    }
  }

  /** The events of a chain of diffs, oldest first. */
  function ChainEvents(diffs: seq<InventoryDiff>): seq<InventoryEvent> {
    if diffs == [] then [] else Events(diffs[0]) + ChainEvents(diffs[1..])
  }

  /** A listener that follows any number of refreshes from the first inventory holds the last one. */
  lemma {:induction false} ChainReplaysToLast(inventories: seq<Devices>, diffs: seq<InventoryDiff>)
    requires |inventories| == |diffs| + 1
    requires forall i :: 0 <= i < |inventories| ==> Keyed(inventories[i])
    requires forall i :: 0 <= i < |diffs| ==> IsDiff(diffs[i], inventories[i], inventories[i + 1])
    ensures Replay(inventories[0], ChainEvents(diffs)) == Some(inventories[|diffs|])
    decreases |diffs|
  {
    if diffs != [] {
      ReplayReachesNext(diffs[0], inventories[0], inventories[1]);
      var laterInventories, laterDiffs := inventories[1..], diffs[1..];
      forall i | 0 <= i < |laterDiffs|
        ensures IsDiff(laterDiffs[i], laterInventories[i], laterInventories[i + 1])
      {
        assert IsDiff(diffs[i + 1], inventories[i + 1], inventories[i + 2]);
      }
      ChainReplaysToLast(laterInventories, laterDiffs);
      ReplayConcat(inventories[0], Events(diffs[0]), ChainEvents(laterDiffs));
    }
  }
}
