/** Injected faults: a nested map of queues that behaves as one flat, first-in first-out log. */
module Faults {
  import opened Core
  import opened Bus

  datatype FaultStep =
    | TimeoutStep(operation: string)
    | DisconnectStep(operation: string)
    | TransportFailureStep(operation: string, reason: string)
    | ErrorStep(operation: string, error: BusError)

  /** One pushed fault. */
  datatype Fault = Fault(deviceId: DeviceId, operation: string, error: BusError)

  /** The error that a step stands for: a timeout, a disconnect or a transport failure of this device, exactly as the
      step says, or else the error given. */
  predicate Fails(step: FaultStep, deviceId: DeviceId, error: BusError) {
    && (step.TimeoutStep? ==> error.Timeout? && error.deviceId == deviceId && error.operation == step.operation)
    && (step.DisconnectStep? ==> error.Disconnected? && error.deviceId == deviceId)
    && (step.TransportFailureStep? ==>
          && error.TransportFailure? && error.deviceId == deviceId
          && error.operation == step.operation && error.reason == step.reason)
    && (step.ErrorStep? ==> error == step.error)
  }

  /** The entry of a step fails the step's operation: with the error given, or with an error of the device. */
  function IntoEntry(step: FaultStep, deviceId: DeviceId): (entry: (string, BusError))
    ensures entry.0 == step.operation && Fails(step, deviceId, entry.1)
  {
    match step
    case TimeoutStep(operation) => (operation, Timeout(deviceId, operation))
    case DisconnectStep(operation) => (operation, Disconnected(deviceId))
    case TransportFailureStep(operation, reason) => (operation, TransportFailure(deviceId, operation, reason))
    case ErrorStep(operation, error) => (operation, error)
  }

  function IntoEntries(steps: seq<FaultStep>, deviceId: DeviceId): (entries: seq<(string, BusError)>)
    ensures |entries| == |steps|
    ensures forall i :: 0 <= i < |steps| ==> entries[i] == IntoEntry(steps[i], deviceId)
  {
    seq(|steps|, i requires 0 <= i < |steps| => IntoEntry(steps[i], deviceId))
  }

  // ---------- the flat log ----------

  /** The errors waiting for one device and operation, oldest first. */
  function Pending(log: seq<Fault>, deviceId: DeviceId, operation: string): seq<BusError> {
    if log == [] then [] else
      (if log[0].deviceId == deviceId && log[0].operation == operation then [log[0].error] else [])
      + Pending(log[1..], deviceId, operation)
  }

  /** The log without its oldest entry for this device and operation. */
  function Delivered(log: seq<Fault>, deviceId: DeviceId, operation: string): seq<Fault> {
    if log == [] then []
    else if log[0].deviceId == deviceId && log[0].operation == operation then log[1..]
    else [log[0]] + Delivered(log[1..], deviceId, operation)
  }

  function Forgotten(log: seq<Fault>, deviceId: DeviceId): seq<Fault> {
    if log == [] then []
    else (if log[0].deviceId == deviceId then [] else [log[0]]) + Forgotten(log[1..], deviceId)
  }

  lemma {:induction false} PendingConcat(first: seq<Fault>, second: seq<Fault>, deviceId: DeviceId, operation: string)
    ensures Pending(first + second, deviceId, operation)
      == Pending(first, deviceId, operation) + Pending(second, deviceId, operation)
  {
    if first == [] {
      assert first + second == second;
    } else {
      assert (first + second)[1..] == first[1..] + second;
      PendingConcat(first[1..], second, deviceId, operation);
    }
  }

  /** Delivering takes the head of one queue and leaves every other queue alone. */
  lemma {:induction false} PendingAfterDelivery(
      log: seq<Fault>, deviceId: DeviceId, operation: string, otherDevice: DeviceId, otherOperation: string)
    requires Pending(log, deviceId, operation) != []
    ensures Pending(Delivered(log, deviceId, operation), otherDevice, otherOperation)
      == if otherDevice == deviceId && otherOperation == operation
         then Pending(log, deviceId, operation)[1..]
         else Pending(log, otherDevice, otherOperation)
  {
    if !(log[0].deviceId == deviceId && log[0].operation == operation) {
      PendingAfterDelivery(log[1..], deviceId, operation, otherDevice, otherOperation);
      assert Delivered(log, deviceId, operation)[1..] == Delivered(log[1..], deviceId, operation);
    }
  }

  /** Each delivery removes exactly the delivered fault from the log. */
  lemma {:induction false} DeliveredOnce(log: seq<Fault>, deviceId: DeviceId, operation: string)
    requires Pending(log, deviceId, operation) != []
    ensures multiset(log) == multiset(Delivered(log, deviceId, operation))
      + multiset{Fault(deviceId, operation, Pending(log, deviceId, operation)[0])}
  {
    assert log == [log[0]] + log[1..];
    if !(log[0].deviceId == deviceId && log[0].operation == operation) {
      DeliveredOnce(log[1..], deviceId, operation);
    }
  }

  lemma {:induction false} PendingAfterForgetting(
      log: seq<Fault>, deviceId: DeviceId, otherDevice: DeviceId, operation: string)
    ensures Pending(Forgotten(log, deviceId), otherDevice, operation)
      == if otherDevice == deviceId then [] else Pending(log, otherDevice, operation)
  {
    if log != [] {
      PendingAfterForgetting(log[1..], deviceId, otherDevice, operation);
      if log[0].deviceId == deviceId {
        assert Forgotten(log, deviceId) == Forgotten(log[1..], deviceId);
      } else {
        assert Forgotten(log, deviceId)[1..] == Forgotten(log[1..], deviceId);
      }
    }
  }

  function ScriptLog(steps: seq<FaultStep>, deviceId: DeviceId): seq<Fault> {
    seq(|steps|, i requires 0 <= i < |steps| =>
      Fault(deviceId, IntoEntry(steps[i], deviceId).0, IntoEntry(steps[i], deviceId).1))
  }

  /** How many steps are for the operation. */
  function StepsFor(steps: seq<FaultStep>, operation: string): nat {
    if steps == [] then 0
    else (if steps[|steps| - 1].operation == operation then 1 else 0) + StepsFor(steps[..|steps| - 1], operation)
  }

  /** These are the errors of the steps for one operation: as many, and the error of each step stands where the
      number of earlier steps for the operation puts it. */
  ghost predicate AreErrorsOf(steps: seq<FaultStep>, deviceId: DeviceId, operation: string, errors: seq<BusError>) {
    && |errors| == StepsFor(steps, operation)
    && forall i :: 0 <= i < |steps| && steps[i].operation == operation ==>
         && StepsFor(steps[..i], operation) < |errors|
         && Fails(steps[i], deviceId, errors[StepsFor(steps[..i], operation)])
  }

  lemma ScriptLogSnoc(steps: seq<FaultStep>, deviceId: DeviceId, operation: string)
    requires steps != []
    ensures var n := |steps| - 1;
      var (stepOperation, error) := IntoEntry(steps[n], deviceId);
      Pending(ScriptLog(steps, deviceId), deviceId, operation)
        == Pending(ScriptLog(steps[..n], deviceId), deviceId, operation)
           + if stepOperation == operation then [error] else []
  {
    var n := |steps| - 1;
    var fault := Fault(deviceId, IntoEntry(steps[n], deviceId).0, IntoEntry(steps[n], deviceId).1);
    assert ScriptLog(steps, deviceId) == ScriptLog(steps[..n], deviceId) + [fault];
    PendingConcat(ScriptLog(steps[..n], deviceId), [fault], deviceId, operation);
    PendingHead(fault, [], deviceId, operation);
    assert [fault] + [] == [fault];
  }

  lemma AreErrorsSnoc(
      steps: seq<FaultStep>, deviceId: DeviceId, operation: string, errors: seq<BusError>, last: BusError)
    requires steps != [] && AreErrorsOf(steps[..|steps| - 1], deviceId, operation, errors)
    requires Fails(steps[|steps| - 1], deviceId, last)
    ensures AreErrorsOf(steps, deviceId, operation,
      errors + if steps[|steps| - 1].operation == operation then [last] else [])
  {
    var n := |steps| - 1;
    var all := errors + if steps[n].operation == operation then [last] else [];
    forall i | 0 <= i < |steps| && steps[i].operation == operation
      ensures StepsFor(steps[..i], operation) < |all|
      ensures Fails(steps[i], deviceId, all[StepsFor(steps[..i], operation)])
    {
      if i < n { assert steps[..n][..i] == steps[..i] && steps[..n][i] == steps[i]; }
    }
  }

  /** What a script makes pending for an operation of its device are exactly the errors of its steps for it. */
  lemma {:induction false} ScriptPending(steps: seq<FaultStep>, deviceId: DeviceId, operation: string)
    ensures AreErrorsOf(steps, deviceId, operation, Pending(ScriptLog(steps, deviceId), deviceId, operation))
    decreases |steps|
  {
    if steps != [] {
      var n := |steps| - 1;
      var front := steps[..n];
      ScriptPending(front, deviceId, operation);
      ScriptLogSnoc(steps, deviceId, operation);
      AreErrorsSnoc(steps, deviceId, operation, Pending(ScriptLog(front, deviceId), deviceId, operation),
                    IntoEntry(steps[n], deviceId).1);
    }
  }

  lemma {:induction false} ScriptIsOfDevice(
      steps: seq<FaultStep>, deviceId: DeviceId, otherDevice: DeviceId, operation: string)
    requires otherDevice != deviceId
    ensures Pending(ScriptLog(steps, deviceId), otherDevice, operation) == []
  {
    if steps != [] {
      assert ScriptLog(steps, deviceId)[1..] == ScriptLog(steps[1..], deviceId);
      ScriptIsOfDevice(steps[1..], deviceId, otherDevice, operation);
    }
  }

  /** What queueing a script for `deviceId` does to one queue. */
  ghost predicate ScriptQueued(
      steps: seq<FaultStep>, deviceId: DeviceId, otherDevice: DeviceId, operation: string,
      before: seq<BusError>, after: seq<BusError>)
  {
    && before <= after
    && if otherDevice == deviceId then AreErrorsOf(steps, deviceId, operation, after[|before|..]) else after == before
  }

  /** A queued script makes each operation of its device fail with the errors of the script's steps for it, in order,
      after whatever was pending before; other devices see nothing of it. */
  lemma ScriptDelivery(
      log: seq<Fault>, steps: seq<FaultStep>, deviceId: DeviceId, otherDevice: DeviceId, operation: string)
    ensures ScriptQueued(steps, deviceId, otherDevice, operation,
      Pending(log, otherDevice, operation), Pending(log + ScriptLog(steps, deviceId), otherDevice, operation))
  {
    PendingConcat(log, ScriptLog(steps, deviceId), otherDevice, operation);
    if otherDevice == deviceId {
      ScriptPending(steps, deviceId, operation);
      var before, queued := Pending(log, deviceId, operation), Pending(ScriptLog(steps, deviceId), deviceId, operation);
      assert (before + queued)[|before|..] == queued;
    } else {
      ScriptIsOfDevice(steps, deviceId, otherDevice, operation);
    }
  }

  // ---------- whole runs on the flat log ----------

  datatype Op = PushOp(fault: Fault) | TakeOp(deviceId: DeviceId, operation: string) | ClearOp(deviceId: DeviceId)

  datatype Ran = Ran(log: seq<Fault>, delivered: seq<Fault>, cleared: seq<Fault>)

  /** The log after a run, and the faults handed out and cleared on the way. */
  function RunLog(log: seq<Fault>, ops: seq<Op>): Ran
    decreases |ops|
  {
    if ops == [] then Ran(log, [], []) else
      match ops[0]
      case PushOp(fault) => RunLog(log + [fault], ops[1..])
      case ClearOp(deviceId) =>
        var rest := RunLog(Forgotten(log, deviceId), ops[1..]);
        rest.(cleared := OfDevice(log, deviceId) + rest.cleared)
      case TakeOp(deviceId, operation) =>
        var queue := Pending(log, deviceId, operation);
        if queue == [] then RunLog(log, ops[1..]) else
          var rest := RunLog(Delivered(log, deviceId, operation), ops[1..]);
          rest.(delivered := [Fault(deviceId, operation, queue[0])] + rest.delivered)
  }

  function OfDevice(log: seq<Fault>, deviceId: DeviceId): seq<Fault> {
    if log == [] then []
    else (if log[0].deviceId == deviceId then [log[0]] else []) + OfDevice(log[1..], deviceId)
  }

  function PushedIn(ops: seq<Op>): seq<Fault> {
    if ops == [] then []
    else (if ops[0].PushOp? then [ops[0].fault] else []) + PushedIn(ops[1..])
  }

  lemma PendingHead(fault: Fault, rest: seq<Fault>, deviceId: DeviceId, operation: string)
    ensures Pending([fault] + rest, deviceId, operation)
      == (if fault.deviceId == deviceId && fault.operation == operation then [fault.error] else [])
         + Pending(rest, deviceId, operation)
  {
  }

  lemma MoveHead(queue: seq<BusError>, later: seq<BusError>, waiting: seq<BusError>, pushed: seq<BusError>)
    requires queue != [] && later + waiting == queue[1..] + pushed
    ensures ([queue[0]] + later) + waiting == queue + pushed
  {
    assert ([queue[0]] + later) + waiting == [queue[0]] + (later + waiting);
    assert [queue[0]] + (queue[1..] + pushed) == queue + pushed;
  }

  /** One delivery moves the head of a queue from the pending to the delivered faults. */
  lemma DeliveryBalance(log: seq<Fault>, d: DeviceId, o: string, ran: Ran, pushed: seq<BusError>,
                        deviceId: DeviceId, operation: string)
    requires Pending(log, d, o) != []
    requires Pending(ran.delivered, deviceId, operation) + Pending(ran.log, deviceId, operation)
      == Pending(Delivered(log, d, o), deviceId, operation) + pushed
    ensures Pending([Fault(d, o, Pending(log, d, o)[0])] + ran.delivered, deviceId, operation)
        + Pending(ran.log, deviceId, operation)
      == Pending(log, deviceId, operation) + pushed
  {
    PendingAfterDelivery(log, d, o, deviceId, operation);
    PendingHead(Fault(d, o, Pending(log, d, o)[0]), ran.delivered, deviceId, operation);
    if d == deviceId && o == operation {
      MoveHead(Pending(log, d, o), Pending(ran.delivered, d, o), Pending(ran.log, d, o), pushed);
    } else {
      assert [] + Pending(ran.delivered, deviceId, operation) == Pending(ran.delivered, deviceId, operation);
    }
  }

  /** While a device is not cleared, the faults of each of its operations come out in the order they
      went in, each once: delivered followed by still pending is pending before followed by pushed. */
  lemma {:induction false} OrderedWhileNotCleared(log: seq<Fault>, ops: seq<Op>, deviceId: DeviceId, operation: string)
    requires ClearOp(deviceId) !in ops
    ensures var ran := RunLog(log, ops);
      Pending(ran.delivered, deviceId, operation) + Pending(ran.log, deviceId, operation)
        == Pending(log, deviceId, operation) + Pending(PushedIn(ops), deviceId, operation)
    decreases |ops|
  {
    if ops != [] {
      var rest := ops[1..];
      assert ops[0] in ops;
      match ops[0] {
        case PushOp(fault) =>
          OrderedWhileNotCleared(log + [fault], rest, deviceId, operation);
          PendingConcat(log, [fault], deviceId, operation);
          PendingConcat([fault], PushedIn(rest), deviceId, operation);
        case ClearOp(cleared) =>
          OrderedWhileNotCleared(Forgotten(log, cleared), rest, deviceId, operation);
          PendingAfterForgetting(log, cleared, deviceId, operation);
          assert PushedIn(ops) == PushedIn(rest);
        case TakeOp(d, o) =>
          assert PushedIn(ops) == PushedIn(rest);
          if Pending(log, d, o) == [] {
            OrderedWhileNotCleared(log, rest, deviceId, operation);
          } else {
            OrderedWhileNotCleared(Delivered(log, d, o), rest, deviceId, operation);
            DeliveryBalance(log, d, o, RunLog(Delivered(log, d, o), rest), Pending(PushedIn(rest), deviceId, operation),
                            deviceId, operation);
          }
      }
    }
  }

  lemma {:induction false} ClearingSplits(log: seq<Fault>, deviceId: DeviceId)
    ensures multiset(log) == multiset(Forgotten(log, deviceId)) + multiset(OfDevice(log, deviceId))
  {
    if log != [] {
      ClearingSplits(log[1..], deviceId);
      assert log == [log[0]] + log[1..];
    }
  }

  /** How often one fault occurs in the results of a run. */
  lemma {:induction false} FaultCount(log: seq<Fault>, ops: seq<Op>, x: Fault)
    ensures var ran := RunLog(log, ops);
      multiset(ran.delivered)[x] + multiset(ran.cleared)[x] + multiset(ran.log)[x]
        == multiset(log)[x] + multiset(PushedIn(ops))[x]
    decreases |ops|
  {
    if ops != [] {
      var rest := ops[1..];
      match ops[0] {
        case PushOp(fault) =>
          FaultCount(log + [fault], rest, x);
          assert PushedIn(ops) == [fault] + PushedIn(rest);
        case ClearOp(deviceId) =>
          FaultCount(Forgotten(log, deviceId), rest, x);
          ClearingSplits(log, deviceId);
          assert PushedIn(ops) == PushedIn(rest);
        case TakeOp(deviceId, operation) =>
          assert PushedIn(ops) == PushedIn(rest);
          if Pending(log, deviceId, operation) == [] {
            FaultCount(log, rest, x);
          } else {
            FaultCount(Delivered(log, deviceId, operation), rest, x);
            DeliveredOnce(log, deviceId, operation);
          }
      }
    }
  }

  /** Over every run, clears included: each fault that was pending or was pushed is delivered once, cleared once
      or still pending, and nothing else ever comes out. */
  lemma EveryFaultOnce(log: seq<Fault>, ops: seq<Op>)
    ensures var ran := RunLog(log, ops);
      multiset(ran.delivered) + multiset(ran.cleared) + multiset(ran.log) == multiset(log) + multiset(PushedIn(ops))
  {
    var ran := RunLog(log, ops);
    forall x
      ensures (multiset(ran.delivered) + multiset(ran.cleared) + multiset(ran.log))[x]
        == (multiset(log) + multiset(PushedIn(ops)))[x]
    {
      FaultCount(log, ops, x);
    }
  }

  /** Running `first` and then `second` is one run. */
  lemma {:induction false} RunSplits(log: seq<Fault>, first: seq<Op>, second: seq<Op>)
    ensures var before := RunLog(log, first);
      var after := RunLog(before.log, second);
      RunLog(log, first + second) == Ran(after.log, before.delivered + after.delivered, before.cleared + after.cleared)
    decreases |first|
  {
    if first == [] {
      assert first + second == second;
    } else {
      assert (first + second)[0] == first[0] && (first + second)[1..] == first[1..] + second;
      match first[0] {
        case PushOp(fault) =>
          RunSplits(log + [fault], first[1..], second);
        case ClearOp(deviceId) =>
          RunSplits(Forgotten(log, deviceId), first[1..], second);
          var head, rest := OfDevice(log, deviceId), RunLog(Forgotten(log, deviceId), first[1..]);
          assert head + (rest.cleared + RunLog(rest.log, second).cleared)
            == (head + rest.cleared) + RunLog(rest.log, second).cleared;
        case TakeOp(deviceId, operation) =>
          if Pending(log, deviceId, operation) == [] {
            RunSplits(log, first[1..], second);
          } else {
            RunSplits(Delivered(log, deviceId, operation), first[1..], second);
            var head := [Fault(deviceId, operation, Pending(log, deviceId, operation)[0])];
            var rest := RunLog(Delivered(log, deviceId, operation), first[1..]);
            assert head + (rest.delivered + RunLog(rest.log, second).delivered)
              == (head + rest.delivered) + RunLog(rest.log, second).delivered;
          }
      }
    }
  }

  lemma RunOneMore(log: seq<Fault>, ops: seq<Op>, i: nat)
    requires i < |ops|
    ensures var before := RunLog(log, ops[..i]);
      RunLog(log, ops[..i + 1]) ==
        match ops[i]
        case PushOp(fault) => before.(log := before.log + [fault])
        case ClearOp(deviceId) =>
          before.(log := Forgotten(before.log, deviceId), cleared := before.cleared + OfDevice(before.log, deviceId))
        case TakeOp(deviceId, operation) =>
          var queue := Pending(before.log, deviceId, operation);
          if queue == [] then before
          else before.(log := Delivered(before.log, deviceId, operation),
                       delivered := before.delivered + [Fault(deviceId, operation, queue[0])])
  {
    assert ops[..i + 1] == ops[..i] + [ops[i]];
    RunSplits(log, ops[..i], [ops[i]]);
    assert [ops[i]][1..] == [];
  }

  /** The operations up to and including the last clear of the device; none if it is never cleared. */
  function UpToLastClear(ops: seq<Op>, deviceId: DeviceId): (n: nat)
    ensures n <= |ops| && ClearOp(deviceId) !in ops[n..]
    ensures n > 0 ==> ops[n - 1] == ClearOp(deviceId)
  {
    if ops == [] then 0
    else if ops[|ops| - 1] == ClearOp(deviceId) then |ops|
    else UpToLastClear(ops[..|ops| - 1], deviceId)
  }

  /** After an operation list that ends in a clear of the device nothing is pending for it. */
  lemma NothingAfterClear(log: seq<Fault>, ops: seq<Op>, deviceId: DeviceId, operation: string)
    requires ops != [] && ops[|ops| - 1] == ClearOp(deviceId)
    ensures Pending(RunLog(log, ops).log, deviceId, operation) == []
  {
    var n := |ops| - 1;
    assert ops == ops[..n] + [ClearOp(deviceId)];
    RunSplits(log, ops[..n], [ClearOp(deviceId)]);
    PendingAfterForgetting(RunLog(log, ops[..n]).log, deviceId, deviceId, operation);
  }

  /** Over every run, clears included: since its last clear, or since the start, the faults of each operation of a
      device come out in the order they went in, each once; what was pending before a clear never comes out after it. */
  lemma FirstInFirstOut(log: seq<Fault>, ops: seq<Op>, deviceId: DeviceId, operation: string)
    ensures
      var n := UpToLastClear(ops, deviceId);
      var before := RunLog(log, ops[..n]);
      var after := RunLog(before.log, ops[n..]);
      && RunLog(log, ops).delivered == before.delivered + after.delivered && RunLog(log, ops).log == after.log
      && Pending(after.delivered, deviceId, operation) + Pending(after.log, deviceId, operation)
         == (if n == 0 then Pending(log, deviceId, operation) else [])
            + Pending(PushedIn(ops[n..]), deviceId, operation)
  {
    var n := UpToLastClear(ops, deviceId);
    assert ops == ops[..n] + ops[n..];
    RunSplits(log, ops[..n], ops[n..]);
    if n > 0 { NothingAfterClear(log, ops[..n], deviceId, operation); }
    OrderedWhileNotCleared(RunLog(log, ops[..n]).log, ops[n..], deviceId, operation);
  }

  // ---------- the nested maps ----------

  type Queues = map<DeviceId, map<string, seq<BusError>>>

  function QueueOf(faults: Queues, deviceId: DeviceId, operation: string): seq<BusError> {
    if deviceId in faults && operation in faults[deviceId] then faults[deviceId][operation] else []
  }

  /** No empty queue and no device without a queue is kept. */
  ghost predicate NothingEmpty(faults: Queues) {
    forall d :: d in faults ==>
      faults[d] != map[] && forall o :: o in faults[d] ==> faults[d][o] != []
  }

  ghost predicate Refines(faults: Queues, log: seq<Fault>) {
    forall d, o :: QueueOf(faults, d, o) == Pending(log, d, o)
  }

  /** The map in which this one queue is replaced, with empty queues and empty devices dropped. */
  ghost function SetQueue(faults: Queues, deviceId: DeviceId, operation: string, queue: seq<BusError>): Queues {
    var operations := if deviceId in faults then faults[deviceId] else map[];
    var updated := if queue == [] then operations - {operation} else operations[operation := queue];
    if updated == map[] then faults - {deviceId} else faults[deviceId := updated]
  }

  lemma SetQueueMeaning(faults: Queues, deviceId: DeviceId, operation: string, queue: seq<BusError>)
    requires NothingEmpty(faults)
    ensures NothingEmpty(SetQueue(faults, deviceId, operation, queue))
    ensures forall d, o ::
      QueueOf(SetQueue(faults, deviceId, operation, queue), d, o)
        == if d == deviceId && o == operation then queue else QueueOf(faults, d, o)
  {
    var after := SetQueue(faults, deviceId, operation, queue);
    var operations := if deviceId in faults then faults[deviceId] else map[];
    var updated := if queue == [] then operations - {operation} else operations[operation := queue];
    forall d, o
      ensures QueueOf(after, d, o) == if d == deviceId && o == operation then queue else QueueOf(faults, d, o)
    {
      assert o in updated <==> if o == operation then queue != [] else o in operations;
    }
  }

  class MockFaultRegistry {
    var faults: Queues
    ghost var log: seq<Fault>

    ghost predicate Valid()
      reads this
    {
      Refines(faults, log) && NothingEmpty(faults)
    }

    constructor ()
      ensures Valid() && log == []
    {
      faults := map[];
      log := [];
    }

    method Push(deviceId: DeviceId, operation: string, error: BusError)
      requires Valid()
      modifies this
      ensures Valid() && log == old(log) + [Fault(deviceId, operation, error)]
    {
      var operations := if deviceId in faults then faults[deviceId] else map[];
      var queue := if operation in operations then operations[operation] else [];
      faults := faults[deviceId := operations[operation := queue + [error]]];
      log := log + [Fault(deviceId, operation, error)];
      assert faults == SetQueue(old(faults), deviceId, operation, queue + [error]);
      SetQueueMeaning(old(faults), deviceId, operation, queue + [error]);
      forall d, o ensures QueueOf(faults, d, o) == Pending(log, d, o) {
        assert QueueOf(old(faults), d, o) == Pending(old(log), d, o);
        PendingConcat(old(log), [Fault(deviceId, operation, error)], d, o);
      }
    }

    /** Hands out the oldest pending fault for the device and operation. */
    method Take(deviceId: DeviceId, operation: string) returns (r: Option<BusError>)
      requires Valid()
      modifies this
      ensures Valid()
      ensures r.None? <==> Pending(old(log), deviceId, operation) == []
      ensures r.None? ==> log == old(log)
      ensures r.Some? ==>
        r.value == Pending(old(log), deviceId, operation)[0]
        && log == Delivered(old(log), deviceId, operation)
        && multiset(old(log)) == multiset(log) + multiset{Fault(deviceId, operation, r.value)}
    {
      assert QueueOf(faults, deviceId, operation) == Pending(log, deviceId, operation);
      if deviceId !in faults {
        return None;
      }
      var operations := faults[deviceId];
      if operation !in operations {
        return None;
      }
      var queue := operations[operation];
      r := Some(queue[0]);
      queue := queue[1..];
      operations := operations[operation := queue];
      if queue == [] {
        operations := operations - {operation};
      }
      faults := faults[deviceId := operations];
      if operations == map[] {
        faults := faults - {deviceId};
      }
      assert queue == [] ==> operations == old(faults)[deviceId] - {operation};
      assert faults == SetQueue(old(faults), deviceId, operation, queue);
      SetQueueMeaning(old(faults), deviceId, operation, queue);
      DeliveredOnce(log, deviceId, operation);
      log := Delivered(log, deviceId, operation);
      forall d, o ensures QueueOf(faults, d, o) == Pending(log, d, o) {
        assert QueueOf(old(faults), d, o) == Pending(old(log), d, o);
        PendingAfterDelivery(old(log), deviceId, operation, d, o);
      }
    }

    /** Queues every step of a script for the device, in script order. */
    method QueueScript(deviceId: DeviceId, steps: seq<FaultStep>)
      requires Valid()
      modifies this
      ensures Valid() && log == old(log) + ScriptLog(steps, deviceId)
      ensures forall d, o :: ScriptQueued(steps, deviceId, d, o, Pending(old(log), d, o), Pending(log, d, o))
    {
      var entries := IntoEntries(steps, deviceId);
      for i := 0 to |entries|
        invariant Valid() && log == old(log) + ScriptLog(steps[..i], deviceId)
      {
        assert steps[..i + 1] == steps[..i] + [steps[i]];
        Push(deviceId, entries[i].0, entries[i].1);
      }
      assert steps[..|steps|] == steps;
      forall d, o ensures ScriptQueued(steps, deviceId, d, o, Pending(old(log), d, o), Pending(log, d, o)) {
        ScriptDelivery(old(log), steps, deviceId, d, o);
      }
    }

    method ClearDevice(deviceId: DeviceId)
      requires Valid()
      modifies this
      ensures Valid() && log == Forgotten(old(log), deviceId)
    {
      faults := faults - {deviceId};
      log := Forgotten(log, deviceId);
      forall d, o ensures QueueOf(faults, d, o) == Pending(log, d, o) {
        assert QueueOf(old(faults), d, o) == Pending(old(log), d, o);
        PendingAfterForgetting(old(log), deviceId, d, o);
      }
    }
  }

  /** Every queue but this one is as before. */
  ghost predicate OthersStay(before: seq<Fault>, after: seq<Fault>, deviceId: DeviceId, operation: string) {
    forall d, o :: d != deviceId || o != operation ==> Pending(after, d, o) == Pending(before, d, o)
  }

  lemma DeliveryStep(log: seq<Fault>, deviceId: DeviceId, operation: string)
    requires Pending(log, deviceId, operation) != []
    ensures var after := Delivered(log, deviceId, operation);
      && Pending(after, deviceId, operation) == Pending(log, deviceId, operation)[1..]
      && OthersStay(log, after, deviceId, operation)
  {
    var after := Delivered(log, deviceId, operation);
    PendingAfterDelivery(log, deviceId, operation, deviceId, operation);
    forall d, o | d != deviceId || o != operation ensures Pending(after, d, o) == Pending(log, d, o) {
      PendingAfterDelivery(log, deviceId, operation, d, o);
    }
  }

  /** Takes the faults of one operation until none is left: all that were pending come out, oldest first. */
  method Drain(registry: MockFaultRegistry, deviceId: DeviceId, operation: string) returns (errors: seq<BusError>)
    requires registry.Valid()
    modifies registry
    ensures registry.Valid() && errors == Pending(old(registry.log), deviceId, operation)
    ensures Pending(registry.log, deviceId, operation) == []
    ensures OthersStay(old(registry.log), registry.log, deviceId, operation)
  {
    errors := [];
    var more := true;
    while more
      invariant registry.Valid() && OthersStay(old(registry.log), registry.log, deviceId, operation)
      invariant errors + Pending(registry.log, deviceId, operation) == Pending(old(registry.log), deviceId, operation)
      invariant !more ==> Pending(registry.log, deviceId, operation) == []
      decreases |Pending(registry.log, deviceId, operation)|, more
    {
      ghost var queue := Pending(registry.log, deviceId, operation);
      if queue != [] {
        DeliveryStep(registry.log, deviceId, operation);
        assert errors + queue == (errors + [queue[0]]) + queue[1..];
      }
      var taken := registry.Take(deviceId, operation);
      if taken.Some? {
        errors := errors + [taken.value];
      } else {
        more := false;
      }
    }
  }

  /** A script queued where nothing was pending: taking faults of an operation of its device hands out exactly the
      errors of the script's steps for it, in order, and then none. */
  method RunScript(registry: MockFaultRegistry, deviceId: DeviceId, steps: seq<FaultStep>, operation: string)
    returns (errors: seq<BusError>)
    requires registry.Valid() && Pending(registry.log, deviceId, operation) == []
    modifies registry
    ensures registry.Valid() && AreErrorsOf(steps, deviceId, operation, errors)
    ensures Pending(registry.log, deviceId, operation) == []
  {
    ghost var before := registry.log;
    registry.QueueScript(deviceId, steps);
    assert ScriptQueued(steps, deviceId, deviceId, operation,
                        Pending(before, deviceId, operation), Pending(registry.log, deviceId, operation));
    assert Pending(registry.log, deviceId, operation)[0..] == Pending(registry.log, deviceId, operation);
    errors := Drain(registry, deviceId, operation);
  }

  /** A whole run on the registry is the run on its log, with the same faults handed out. */
  method Perform(registry: MockFaultRegistry, ops: seq<Op>) returns (delivered: seq<Fault>)
    requires registry.Valid()
    modifies registry
    ensures registry.Valid()
    ensures registry.log == RunLog(old(registry.log), ops).log
    ensures delivered == RunLog(old(registry.log), ops).delivered
  {
    delivered := [];
    for i := 0 to |ops|
      invariant registry.Valid()
      invariant registry.log == RunLog(old(registry.log), ops[..i]).log
      invariant delivered == RunLog(old(registry.log), ops[..i]).delivered
    {
      RunOneMore(old(registry.log), ops, i);
      match ops[i] {
        case PushOp(fault) =>
          registry.Push(fault.deviceId, fault.operation, fault.error);
        case ClearOp(deviceId) =>
          registry.ClearDevice(deviceId);
        case TakeOp(deviceId, operation) =>
          var taken := registry.Take(deviceId, operation);
          if taken.Some? {
            delivered := delivered + [Fault(deviceId, operation, taken.value)];
          }
      }
    }
    assert ops[..|ops|] == ops;
  }

  /** Only one nested map refines a given log. */
  lemma QueuesDetermined(first: Queues, second: Queues, log: seq<Fault>)
    requires Refines(first, log) && NothingEmpty(first)
    requires Refines(second, log) && NothingEmpty(second)
    ensures first == second
  {
    forall d, o
      ensures d in first && o in first[d] <==> d in second && o in second[d]
      ensures d in first && o in first[d] ==> first[d][o] == second[d][o]
    {
      assert QueueOf(first, d, o) == QueueOf(second, d, o);
    }
    forall d ensures (d in first <==> d in second) && (d in first ==> first[d] == second[d]) {
      if d in first { var o :| o in first[d]; assert d in second && o in second[d]; }
      if d in second { var o :| o in second[d]; assert d in first && o in first[d]; }
    }
  }
}
