/** The state behind the mock sessions: PWM channels, I2C devices and injected faults. */
module MockHardware {
  import opened Core
  import opened Bus
  import opened StringOrder
  import opened Faults
  import Pwm
  import opened I2cMemory

  /** The first fault in line for a device and operation. */
  ghost function Injected(log: seq<Fault>, deviceId: DeviceId, operation: string): Option<BusError> {
    var queue := Pending(log, deviceId, operation);
    if queue == [] then None else Some(queue[0])
  }

  class MockHardwareState {
    var pwmChannels: map<DeviceId, Pwm.Configuration>
    var i2cDevices: map<DeviceId, I2cDevice>
    const faults: MockFaultRegistry

    ghost predicate Valid()
      reads this, faults
    {
      faults.Valid()
    }

    constructor (pwmChannels: map<DeviceId, Pwm.Configuration>, i2cDevices: map<DeviceId, I2cDevice>)
      ensures Valid() && fresh(faults) && faults.log == []
      ensures this.pwmChannels == pwmChannels && this.i2cDevices == i2cDevices
    {
      var registry := new MockFaultRegistry();
      this.pwmChannels := pwmChannels;
      this.i2cDevices := i2cDevices;
      faults := registry;
    }

    method TakeInjectedError(deviceId: DeviceId, operation: string) returns (r: Option<BusError>)
      requires Valid()
      modifies faults
      ensures Valid()
      ensures r == Injected(old(faults.log), deviceId, operation)
      ensures faults.log == if r.None? then old(faults.log) else Delivered(old(faults.log), deviceId, operation)
    {
      r := faults.Take(deviceId, operation);
    }

    /** Runs a well-formed call on one device in place. */
    method CallDevice(id: DeviceId, call: I2cCall, errorId: DeviceId) returns (r: BusResult<Reply>)
      requires id in i2cDevices && !call.Malformed()
      modifies this`i2cDevices
      ensures
        var (reply, memory) := InfiniteCall(Meaning(old(i2cDevices)[id]), call, errorId);
        r == reply && Memories(i2cDevices) == Memories(old(i2cDevices))[id := memory]
      ensures i2cDevices.Keys == old(i2cDevices).Keys
      ensures forall other :: other in i2cDevices ==> i2cDevices[other].address == old(i2cDevices)[other].address
    {
      var after;
      r, after := CallOnState(i2cDevices[id], call, errorId);
      i2cDevices := i2cDevices[id := after];
      assert Memories(i2cDevices) == Memories(old(i2cDevices))[id := Meaning(after)];
    }
  }

  /** The devices as infinite memories. */
  ghost function Memories(devices: map<DeviceId, I2cDevice>): map<DeviceId, Infinite> {
    map id | id in devices :: Meaning(devices[id])
  }

  /** The first device, in id order, at an address. */
  function AtAddress(keys: seq<DeviceId>, devices: map<DeviceId, I2cDevice>, address: BusAddress): (r: Option<DeviceId>)
    requires forall id :: id in keys ==> id in devices
    ensures r.None? ==> forall id :: id in keys ==> devices[id].address != Some(address)
    ensures r.Some? ==> r.value in keys && devices[r.value].address == Some(address)
    ensures r.Some? && Ascending(keys) ==>
      forall id :: id in keys && devices[id].address == Some(address) ==> id == r.value || Less(r.value, id)
  {
    if keys == [] then None
    else if devices[keys[0]].address == Some(address) then
      assert Ascending(keys) ==> forall k :: 1 <= k < |keys| ==> Less(keys[0], keys[k]);
      Some(keys[0])
    else
      assert forall id :: id in keys ==> id == keys[0] || id in keys[1..];
      AtAddress(keys[1..], devices, address)
  }

  function TargetDevice(devices: map<DeviceId, I2cDevice>, address: BusAddress): Option<DeviceId> {
    AtAddress(SortedKeys(devices.Keys), devices, address)
  }

  /** What an I2C call does to the whole mock, seen as infinite memories and a fault log. */
  datatype Seen = Seen(memories: map<DeviceId, Infinite>, log: seq<Fault>)

  /** A call by a session of device `owner` that reaches device `target`, or fails with `absent` without one.
      A malformed request is turned down untouched; then an injected fault takes the place of the call. */
  ghost predicate I2cServed(
      call: I2cCall, owner: DeviceId, target: Option<DeviceId>, absent: BusError,
      before: Seen, r: BusResult<Reply>, after: Seen)
    requires target.Some? ==> target.value in before.memories && Total(before.memories[target.value])
  {
    if call.Malformed() then
      r == Err(InvalidRequest(owner, call.Operation())) && after == before
    else
      var injected := Injected(before.log, owner, call.Operation());
      if injected.Some? then
        r == Err(injected.value)
        && after == before.(log := Delivered(before.log, owner, call.Operation()))
      else if target.None? then
        r == Err(absent) && after == before
      else
        var (reply, memory) := InfiniteCall(before.memories[target.value], call, owner);
        r == reply && after == before.(memories := before.memories[target.value := memory])
  }

  /** The body of a call once the device is found and no fault was injected. */
  method CallOnState(device: I2cDevice, call: I2cCall, errorId: DeviceId)
    returns (r: BusResult<Reply>, after: I2cDevice)
    requires !call.Malformed()
    ensures after.address == device.address
    ensures (r, Meaning(after)) == InfiniteCall(Meaning(device), call, errorId)
  {
    match call {
      case Read(length) =>
        var bytes;
        bytes, after := ReadFromState(device, length);
        r := Ok(Bytes(bytes));
      case Write(bytes) =>
        var written;
        written, after := WriteToState(device, bytes, errorId);
        r := if written.Ok? then Ok(Written) else Err(written.error);
      case WriteRead(write, readLength) =>
        r, after := WriteReadOnState(device, write, readLength, errorId);
      case Transaction(operations) =>
        var results;
        results, after := TransactionOnState(device, operations, errorId);
        r := if results.Ok? then Ok(Results(results.value)) else Err(results.error);
    }
  }

  class MockI2cSession {
    const hardware: MockHardwareState
    const deviceId: DeviceId
    var state: SessionState

    constructor (hardware: MockHardwareState, deviceId: DeviceId)
      ensures this.hardware == hardware && this.deviceId == deviceId && state == Idle
    {
      this.hardware := hardware;
      this.deviceId := deviceId;
      state := Idle;
    }

    ghost function Observe(): Seen
      reads hardware, hardware.faults
    {
      Seen(Memories(hardware.i2cDevices), hardware.faults.log)
    }

    /** `read`, `write`, `write_read` and `transaction` of the device session. */
    method Perform(call: I2cCall) returns (r: BusResult<Reply>)
      requires hardware.Valid()
      modifies this, hardware`i2cDevices, hardware.faults
      ensures hardware.Valid()
      ensures I2cServed(call, deviceId, if deviceId in old(hardware.i2cDevices) then Some(deviceId) else None,
                     Disconnected(deviceId), old(Observe()), r, Observe())
      ensures state == if call.Malformed() then old(state) else if r.Ok? then Idle else Faulted
    {
      if call.Malformed() {
        return Err(InvalidRequest(deviceId, call.Operation()));
      }
      state := Busy;
      var injected := hardware.TakeInjectedError(deviceId, call.Operation());
      if injected.Some? {
        r := Err(injected.value);
      } else if deviceId !in hardware.i2cDevices {
        r := Err(Disconnected(deviceId));
      } else {
        r := hardware.CallDevice(deviceId, call, deviceId);
      }
      state := FinishCall(r);
    }
  }

  class MockI2cControllerSession {
    const hardware: MockHardwareState
    const owner: DeviceId
    const bus: U32
    var state: SessionState

    constructor (hardware: MockHardwareState, owner: DeviceId, bus: U32)
      ensures this.hardware == hardware && this.owner == owner && this.bus == bus && state == Idle
    {
      this.hardware := hardware;
      this.owner := owner;
      this.bus := bus;
      state := Idle;
    }

    ghost function Observe(): Seen
      reads hardware, hardware.faults
    {
      Seen(Memories(hardware.i2cDevices), hardware.faults.log)
    }

    /** The same four calls through the controller of a bus, which looks the device up by address. */
    method Perform(address: U16, call: I2cCall) returns (r: BusResult<Reply>)
      requires hardware.Valid()
      modifies this, hardware`i2cDevices, hardware.faults
      ensures hardware.Valid()
      ensures I2cServed(call, owner, TargetDevice(old(hardware.i2cDevices), BusAddress(bus, address)),
                     SessionUnavailable(owner), old(Observe()), r, Observe())
      ensures TargetDevice(hardware.i2cDevices, BusAddress(bus, address))
        == TargetDevice(old(hardware.i2cDevices), BusAddress(bus, address))
      ensures state == if call.Malformed() then old(state) else if r.Ok? then Idle else Faulted
    {
      if call.Malformed() {
        return Err(InvalidRequest(owner, call.Operation()));
      }
      state := Busy;
      var injected := hardware.TakeInjectedError(owner, call.Operation());
      if injected.Some? {
        r := Err(injected.value);
      } else {
        var target := TargetDevice(hardware.i2cDevices, BusAddress(bus, address));
        if target.None? {
          r := Err(SessionUnavailable(owner));
        } else {
          r := hardware.CallDevice(target.value, call, owner);
          SameTarget(old(hardware.i2cDevices), hardware.i2cDevices, BusAddress(bus, address));
        }
      }
      state := FinishCall(r);
    }
  }

  lemma {:induction false} SameTargetAlong(
      keys: seq<DeviceId>, before: map<DeviceId, I2cDevice>, after: map<DeviceId, I2cDevice>, address: BusAddress)
    requires forall id :: id in keys ==> id in before && id in after && before[id].address == after[id].address
    ensures AtAddress(keys, before, address) == AtAddress(keys, after, address)
  {
    if keys != [] { SameTargetAlong(keys[1..], before, after, address); }
  }

  lemma SameTarget(before: map<DeviceId, I2cDevice>, after: map<DeviceId, I2cDevice>, address: BusAddress)
    requires before.Keys == after.Keys
    requires forall id :: id in before ==> before[id].address == after[id].address
    ensures TargetDevice(before, address) == TargetDevice(after, address)
  {
    SameTargetAlong(SortedKeys(before.Keys), before, after, address);
  }

  /** Without injected faults, a call through the controller on the only device at an address gives the
      reply of that device's own session and leaves the same mock behind; only the id in an error differs. */
  lemma ControllerActsAsDevice(
      devices: map<DeviceId, I2cDevice>, address: BusAddress, id: DeviceId, owner: DeviceId,
      log: seq<Fault>, call: I2cCall,
      r: BusResult<Reply>, after: Seen, q: BusResult<Reply>, controllerAfter: Seen)
    requires id in devices && devices[id].address == Some(address)
    requires forall other :: other in devices && devices[other].address == Some(address) ==> other == id
    requires Injected(log, id, call.Operation()).None? && Injected(log, owner, call.Operation()).None?
    requires I2cServed(call, id, Some(id), Disconnected(id), Seen(Memories(devices), log), r, after)
    requires TargetDevice(devices, address).Some? ==>
      I2cServed(call, owner, TargetDevice(devices, address), SessionUnavailable(owner),
                Seen(Memories(devices), log), q, controllerAfter)
    ensures TargetDevice(devices, address) == Some(id)
    ensures controllerAfter == after
    ensures if r.Ok? then q == r
            else r.error.InvalidRequest? && r.error.deviceId == id && q == Err(InvalidRequest(owner, r.error.operation))
  {
    assert id in SortedKeys(devices.Keys);
    CallIgnoresErrorId(Meaning(devices[id]), call, id, owner);
  }

  // ---------- whole runs of the two sessions ----------

  /** Two mocks with the same memories and, for the two sessions, the same pending faults. */
  ghost predicate InStep(device: Seen, controller: Seen, id: DeviceId, owner: DeviceId) {
    && device.memories == controller.memories
    && forall operation: string :: Pending(device.log, id, operation) == Pending(controller.log, owner, operation)
  }

  /** Equal replies, except for the id in an error. */
  predicate SameButId(r: BusResult<Reply>, q: BusResult<Reply>, id: DeviceId, owner: DeviceId) {
    || q == r
    || (&& r.Err? && r.error.InvalidRequest? && r.error.deviceId == id
        && q == Err(InvalidRequest(owner, r.error.operation)))
  }

  /** One call, injected faults included: the sessions answer alike and stay in step. */
  lemma SessionsAgreeOnCall(
      call: I2cCall, id: DeviceId, owner: DeviceId,
      device: Seen, r: BusResult<Reply>, deviceAfter: Seen,
      controller: Seen, q: BusResult<Reply>, controllerAfter: Seen)
    requires id in device.memories && Total(device.memories[id]) && InStep(device, controller, id, owner)
    requires I2cServed(call, id, Some(id), Disconnected(id), device, r, deviceAfter)
    requires I2cServed(call, owner, Some(id), SessionUnavailable(owner), controller, q, controllerAfter)
    ensures InStep(deviceAfter, controllerAfter, id, owner) && SameButId(r, q, id, owner)
  {
    var operation := call.Operation();
    assert Pending(device.log, id, operation) == Pending(controller.log, owner, operation);
    if !call.Malformed() {
      if Injected(device.log, id, operation).Some? {
        forall other: string
          ensures Pending(deviceAfter.log, id, other) == Pending(controllerAfter.log, owner, other)
        {
          PendingAfterDelivery(device.log, id, operation, id, other);
          PendingAfterDelivery(controller.log, owner, operation, owner, other);
        }
      } else {
        CallIgnoresErrorId(device.memories[id], call, id, owner);
      }
    }
  }

  /** Both sessions reach the same device, each on its own mock, and the mocks are in step. */
  ghost predicate Paired(device: MockI2cSession, controller: MockI2cControllerSession, address: U16)
    reads device.hardware, device.hardware.faults, controller.hardware, controller.hardware.faults
  {
    && device.hardware.Valid() && controller.hardware.Valid()
    && device.hardware != controller.hardware && device.hardware.faults != controller.hardware.faults
    && device.deviceId in device.hardware.i2cDevices
    && TargetDevice(controller.hardware.i2cDevices, BusAddress(controller.bus, address)) == Some(device.deviceId)
    && InStep(device.Observe(), controller.Observe(), device.deviceId, controller.owner)
  }

  method CallBoth(device: MockI2cSession, controller: MockI2cControllerSession, address: U16, call: I2cCall)
    returns (r: BusResult<Reply>, q: BusResult<Reply>)
    requires Paired(device, controller, address)
    modifies device, device.hardware`i2cDevices, device.hardware.faults
    modifies controller, controller.hardware`i2cDevices, controller.hardware.faults
    ensures Paired(device, controller, address) && SameButId(r, q, device.deviceId, controller.owner)
  {
    ghost var before, controllerBefore := device.Observe(), controller.Observe();
    assert device.deviceId in before.memories && Total(before.memories[device.deviceId]);
    r := device.Perform(call);
    ghost var after := device.Observe();
    assert controller.Observe() == controllerBefore;
    q := controller.Perform(address, call);
    assert device.Observe() == after;
    SessionsAgreeOnCall(call, device.deviceId, controller.owner, before, r, after,
                        controllerBefore, q, controller.Observe());
    assert device.deviceId in after.memories;
  }

  /** Drives a device's own session and a controller's session, each on its own mock, through the same calls to
      that device: equal replies, except for the id in an error, and equal memories after them. */
  method RunBoth(device: MockI2cSession, controller: MockI2cControllerSession, address: U16, calls: seq<I2cCall>)
    returns (rs: seq<BusResult<Reply>>, qs: seq<BusResult<Reply>>)
    requires Paired(device, controller, address)
    modifies device, device.hardware`i2cDevices, device.hardware.faults
    modifies controller, controller.hardware`i2cDevices, controller.hardware.faults
    ensures Paired(device, controller, address) && |rs| == |qs| == |calls|
    ensures forall i :: 0 <= i < |calls| ==> SameButId(rs[i], qs[i], device.deviceId, controller.owner)
  {
    rs, qs := [], [];
    for i := 0 to |calls|
      invariant Paired(device, controller, address) && |rs| == |qs| == i
      invariant forall k :: 0 <= k < i ==> SameButId(rs[k], qs[k], device.deviceId, controller.owner)
    {
      var r, q := CallBoth(device, controller, address, calls[i]);
      rs, qs := rs + [r], qs + [q];
    }
  }
}
