/** The mock PWM session: every call is one atomic update of the channel's configuration. */
module MockPwm {
  import opened Core
  import opened Bus
  import opened Faults
  import opened Pwm
  import opened MockHardware

  /** What the mock does when its channel exists and no fault was injected. */
  function MockOutcome(c: Configuration, call: Call, deviceId: DeviceId): CallOutcome {
    match call
    case SetEnabled(enabled) => CallOutcome(Ok(Unit), c.(enabled := enabled))
    case SetPeriod(periodNs) =>
      if periodNs == 0 then CallOutcome(Err(InvalidConfiguration(deviceId, PeriodIsZero)), c)
      else if c.dutyCycleNs > periodNs then CallOutcome(Err(InvalidConfiguration(deviceId, DutyExceedsPeriod)), c)
      else CallOutcome(Ok(Unit), c.(periodNs := periodNs))
    case SetDutyCycle(dutyCycleNs) =>
      if dutyCycleNs > c.periodNs then CallOutcome(Err(InvalidConfiguration(deviceId, DutyExceedsPeriod)), c)
      else CallOutcome(Ok(Unit), c.(dutyCycleNs := dutyCycleNs))
    case Configure(configuration) =>
      var verdict := ValidateConfiguration(configuration, deviceId);
      CallOutcome(verdict, if verdict.Ok? then configuration else c)
  }

  const DEFAULT_PERIOD_NS: U64 := 20_000_000

  /** The configuration of a new mock channel; `with_configuration` takes no other than a legal one. */
  function InitialConfiguration(given: Option<Configuration>): (c: Configuration)
    requires given.Some? ==> Legal(given.value)
    ensures Legal(c) && (given.Some? ==> c == given.value) && (given.None? ==> !c.enabled)
  {
    match given
    case Some(c) => c
    case None => Configuration(DEFAULT_PERIOD_NS, 0, false, Normal)
  }

  ghost predicate AllLegal(channels: map<DeviceId, Configuration>) {
    forall id :: id in channels ==> Legal(channels[id])
  }

  /** Requests turned down before the call starts. */
  predicate RejectedUpFront(call: Call, deviceId: DeviceId) {
    match call
    case SetPeriod(periodNs) => periodNs == 0
    case Configure(configuration) => ValidateConfiguration(configuration, deviceId).Err?
    case _ => false
  }

  datatype View = View(state: SessionState, channels: map<DeviceId, Configuration>, log: seq<Fault>)

  ghost predicate Served(
      call: Call, deviceId: DeviceId, access: SessionAccess, before: View, r: BusResult<Unit>, after: View)
  {
    if !access.CanWrite() then r == Err(PermissionDenied(deviceId, call.Operation())) && after == before
    else if RejectedUpFront(call, deviceId) then
      && after == before
      && forall c: Configuration :: r == MockOutcome(c, call, deviceId).result
    else
      && after.state == (if r.Ok? then Idle else Faulted)
      && var injected := Injected(before.log, deviceId, call.Operation());
         if injected.Some? then
           r == Err(injected.value)
           && after.channels == before.channels && after.log == Delivered(before.log, deviceId, call.Operation())
         else
           && after.log == before.log
           && if deviceId !in before.channels then r == Err(Disconnected(deviceId)) && after.channels == before.channels
              else
                var outcome := MockOutcome(before.channels[deviceId], call, deviceId);
                r == outcome.result && after.channels == before.channels[deviceId := outcome.configuration]
  }

  /** No call, faulty or not, makes a legal channel illegal, or touches another channel. */
  lemma ServedStaysLegal(
      call: Call, deviceId: DeviceId, access: SessionAccess, before: View, r: BusResult<Unit>, after: View)
    requires Served(call, deviceId, access, before, r, after) && AllLegal(before.channels)
    ensures AllLegal(after.channels) && after.channels.Keys == before.channels.Keys
    ensures forall id :: id in before.channels && id != deviceId ==> after.channels[id] == before.channels[id]
  {
  }

  /** One call by one session, with what was there before and after it. */
  datatype Performed = Performed(
    call: Call, deviceId: DeviceId, access: SessionAccess, before: View, r: BusResult<Unit>, after: View)
  {
    ghost predicate Happened() { Served(call, deviceId, access, before, r, after) }
  }

  /** So over every run of calls, by any sessions, all channels stay legal: a mock period is never zero. */
  lemma {:induction false} MockRunStaysLegal(run: seq<Performed>, k: nat)
    requires k < |run| && AllLegal(run[0].before.channels)
    requires forall i :: 0 <= i < |run| ==> run[i].Happened()
    requires forall i :: 0 < i < |run| ==> run[i].before.channels == run[i - 1].after.channels
    ensures AllLegal(run[k].before.channels) && AllLegal(run[k].after.channels)
  {
    if k > 0 { MockRunStaysLegal(run, k - 1); }
    var last := run[k];
    assert last.Happened();
    ServedStaysLegal(last.call, last.deviceId, last.access, last.before, last.r, last.after);
  }

  class MockPwmSession {
    const hardware: MockHardwareState
    const deviceId: DeviceId
    const access: SessionAccess
    var state: SessionState

    constructor (hardware: MockHardwareState, deviceId: DeviceId, access: SessionAccess)
      ensures this.hardware == hardware && this.deviceId == deviceId && this.access == access && state == Idle
    {
      this.hardware := hardware;
      this.deviceId := deviceId;
      this.access := access;
      state := Idle;
    }

    ghost function Observe(): View
      reads this, hardware, hardware.faults
    {
      View(state, hardware.pwmChannels, hardware.faults.log)
    }

    method SetEnabled(enabled: bool) returns (r: BusResult<Unit>)
      requires hardware.Valid()
      modifies this`state, hardware`pwmChannels, hardware.faults
      ensures hardware.Valid()
      ensures Served(Call.SetEnabled(enabled), deviceId, access, old(Observe()), r, Observe())
      ensures r.Ok? ==>
        && deviceId in old(hardware.pwmChannels)
        && hardware.pwmChannels
           == old(hardware.pwmChannels)[deviceId := old(hardware.pwmChannels)[deviceId].(enabled := enabled)]
    {
      if !access.CanWrite() { return Err(PermissionDenied(deviceId, "pwm.enable")); }
      state := Busy;
      var injected := hardware.TakeInjectedError(deviceId, "pwm.enable");
      if injected.Some? {
        r := Err(injected.value);
      } else if deviceId !in hardware.pwmChannels {
        r := Err(Disconnected(deviceId));
      } else {
        var channel := hardware.pwmChannels[deviceId];
        hardware.pwmChannels := hardware.pwmChannels[deviceId := channel.(enabled := enabled)];
        r := Ok(Unit);
      }
      state := FinishCall(r);
    }

    method SetPeriodNs(periodNs: U64) returns (r: BusResult<Unit>)
      requires hardware.Valid()
      modifies this`state, hardware`pwmChannels, hardware.faults
      ensures hardware.Valid()
      ensures Served(SetPeriod(periodNs), deviceId, access, old(Observe()), r, Observe())
      ensures access.CanWrite() && periodNs == 0 ==>
        r == Err(InvalidConfiguration(deviceId, PeriodIsZero)) && Observe() == old(Observe())
      ensures r.Ok? ==>
        && deviceId in old(hardware.pwmChannels)
        && hardware.pwmChannels
           == old(hardware.pwmChannels)[deviceId := old(hardware.pwmChannels)[deviceId].(periodNs := periodNs)]
    {
      if !access.CanWrite() { return Err(PermissionDenied(deviceId, "pwm.set_period")); }
      if periodNs == 0 { return Err(InvalidConfiguration(deviceId, PeriodIsZero)); }
      state := Busy;
      var injected := hardware.TakeInjectedError(deviceId, "pwm.set_period");
      if injected.Some? {
        r := Err(injected.value);
      } else if deviceId !in hardware.pwmChannels {
        r := Err(Disconnected(deviceId));
      } else {
        var channel := hardware.pwmChannels[deviceId];
        if channel.dutyCycleNs > periodNs {
          r := Err(InvalidConfiguration(deviceId, DutyExceedsPeriod));
        } else {
          hardware.pwmChannels := hardware.pwmChannels[deviceId := channel.(periodNs := periodNs)];
          r := Ok(Unit);
        }
      }
      state := FinishCall(r);
    }

    method SetDutyCycleNs(dutyCycleNs: U64) returns (r: BusResult<Unit>)
      requires hardware.Valid()
      modifies this`state, hardware`pwmChannels, hardware.faults
      ensures hardware.Valid()
      ensures Served(SetDutyCycle(dutyCycleNs), deviceId, access, old(Observe()), r, Observe())
      ensures r.Ok? ==>
        && deviceId in old(hardware.pwmChannels)
        && hardware.pwmChannels
           == old(hardware.pwmChannels)[deviceId := old(hardware.pwmChannels)[deviceId].(dutyCycleNs := dutyCycleNs)]
    {
      if !access.CanWrite() { return Err(PermissionDenied(deviceId, "pwm.set_duty_cycle")); }
      state := Busy;
      var injected := hardware.TakeInjectedError(deviceId, "pwm.set_duty_cycle");
      if injected.Some? {
        r := Err(injected.value);
      } else if deviceId !in hardware.pwmChannels {
        r := Err(Disconnected(deviceId));
      } else {
        var channel := hardware.pwmChannels[deviceId];
        if dutyCycleNs > channel.periodNs {
          r := Err(InvalidConfiguration(deviceId, DutyExceedsPeriod));
        } else {
          hardware.pwmChannels := hardware.pwmChannels[deviceId := channel.(dutyCycleNs := dutyCycleNs)];
          r := Ok(Unit);
        }
      }
      state := FinishCall(r);
    }

    method Configure(configuration: Configuration) returns (r: BusResult<Unit>)
      requires hardware.Valid()
      modifies this`state, hardware`pwmChannels, hardware.faults
      ensures hardware.Valid()
      ensures Served(Call.Configure(configuration), deviceId, access, old(Observe()), r, Observe())
      ensures access.CanWrite() && !Legal(configuration) ==>
        r == ValidateConfiguration(configuration, deviceId) && Observe() == old(Observe())
      ensures r.Ok? ==>
        && deviceId in old(hardware.pwmChannels)
        && hardware.pwmChannels
           == old(hardware.pwmChannels)[deviceId := configuration]
    {
      if !access.CanWrite() { return Err(PermissionDenied(deviceId, "pwm.configure")); }
      r := ValidateConfiguration(configuration, deviceId);
      if r.Err? { return; }
      state := Busy;
      var injected := hardware.TakeInjectedError(deviceId, "pwm.configure");
      if injected.Some? {
        r := Err(injected.value);
      } else if deviceId !in hardware.pwmChannels {
        r := Err(Disconnected(deviceId));
      } else {
        hardware.pwmChannels := hardware.pwmChannels[deviceId := configuration];
        r := Ok(Unit);
      }
      state := FinishCall(r);
    }
  }
}

/** The Linux session as an implementation of the mock's atomic calls. */
module PwmAgreement {
  import opened Core
  import opened Bus
  import opened Pwm
  import LinuxPwm
  import MockPwm
  import opened MockHardware

  /** Without failures both sessions treat every call alike exactly when the current period is not zero. */
  lemma AgreeIffPeriodSet(c: Configuration, deviceId: DeviceId)
    ensures c.periodNs > 0 <==>
      forall call :: LinuxPwm.Faultless(c, call, deviceId) == MockPwm.MockOutcome(c, call, deviceId)
  {
    if c.periodNs == 0 {
      var call := SetDutyCycle(0);
      assert LinuxPwm.Faultless(c, call, deviceId).result.Err? && MockPwm.MockOutcome(c, call, deviceId).result.Ok?;
    }
  }

  /** From a legal configuration the sessions treat every call alike and leave a legal configuration. */
  lemma LegalSessionsAgree(c: Configuration, call: Call, deviceId: DeviceId)
    requires Legal(c)
    ensures LinuxPwm.Faultless(c, call, deviceId) == MockPwm.MockOutcome(c, call, deviceId)
    ensures Legal(MockPwm.MockOutcome(c, call, deviceId).configuration)
  {
  }

  /** No fault is pending and the channel is there. */
  ghost predicate Undisturbed(view: MockPwm.View, deviceId: DeviceId) {
    && deviceId in view.channels
    && forall operation :: Injected(view.log, deviceId, operation).None?
  }

  /** One call served by both sessions without failures, from equal configurations. */
  lemma AgreeOnCall(
      call: Call, deviceId: DeviceId, access: SessionAccess,
      linux: LinuxPwm.View, r: BusResult<Unit>, linuxAfter: LinuxPwm.View,
      mock: MockPwm.View, q: BusResult<Unit>, mockAfter: MockPwm.View)
    requires linux.state != Closed && Undisturbed(mock, deviceId)
    requires mock.channels[deviceId] == linux.files && linux.files.periodNs > 0
    requires LinuxPwm.Served(call, deviceId, access, linux, r, linuxAfter) && linuxAfter.failures == linux.failures
    requires MockPwm.Served(call, deviceId, access, mock, q, mockAfter)
    ensures r == q
    ensures linuxAfter.state != Closed && Undisturbed(mockAfter, deviceId)
    ensures mockAfter.channels[deviceId] == linuxAfter.files && linuxAfter.files.periodNs > 0
    ensures Legal(linux.files) ==> Legal(linuxAfter.files)
  {
    AgreeIffPeriodSet(linux.files, deviceId);
    if access.CanWrite() {
      assert LinuxPwm.Faultless(linux.files, call, deviceId) == MockPwm.MockOutcome(linux.files, call, deviceId);
    }
  }

  /** Any sequence of calls, served by both sessions without failures: they accept and reject the same
      calls for the same reasons and hold equal configurations after each one. */
  lemma {:induction false} AgreeOverRuns(
      calls: seq<Call>, deviceId: DeviceId, access: SessionAccess,
      linux: seq<LinuxPwm.View>, rs: seq<BusResult<Unit>>,
      mock: seq<MockPwm.View>, qs: seq<BusResult<Unit>>, k: nat)
    requires |linux| == |mock| == |calls| + 1 && |rs| == |qs| == |calls| && k <= |calls|
    requires linux[0].state != Closed && Undisturbed(mock[0], deviceId)
    requires mock[0].channels[deviceId] == linux[0].files && linux[0].files.periodNs > 0
    requires forall i :: 0 <= i < |calls| ==>
      && LinuxPwm.Served(calls[i], deviceId, access, linux[i], rs[i], linux[i + 1])
      && linux[i + 1].failures == linux[i].failures
      && MockPwm.Served(calls[i], deviceId, access, mock[i], qs[i], mock[i + 1])
    ensures rs[..k] == qs[..k]
    ensures linux[k].state != Closed && Undisturbed(mock[k], deviceId)
    ensures mock[k].channels[deviceId] == linux[k].files && linux[k].files.periodNs > 0
    ensures Legal(linux[0].files) ==> Legal(linux[k].files)
  {
    if k > 0 {
      AgreeOverRuns(calls, deviceId, access, linux, rs, mock, qs, k - 1);
      AgreeOnCall(calls[k - 1], deviceId, access, linux[k - 1], rs[k - 1], linux[k], mock[k - 1], qs[k - 1], mock[k]);
      assert rs[..k] == rs[..k - 1] + [rs[k - 1]] && qs[..k] == qs[..k - 1] + [qs[k - 1]];
    }
  }

  method PerformOnLinux(session: LinuxPwm.LinuxSysfsPwmSession, call: Call) returns (r: BusResult<Unit>)
    modifies session`state, session.channel
    ensures LinuxPwm.Served(call, session.deviceId, session.access, old(session.Observe()), r, session.Observe())
  {
    match call {
      case SetEnabled(enabled) => r := session.SetEnabled(enabled);
      case SetPeriod(periodNs) => r := session.SetPeriodNs(periodNs);
      case SetDutyCycle(dutyCycleNs) => r := session.SetDutyCycleNs(dutyCycleNs);
      case Configure(configuration) => r := session.Configure(configuration);
    }
  }

  method PerformOnMock(session: MockPwm.MockPwmSession, call: Call) returns (r: BusResult<Unit>)
    requires session.hardware.Valid()
    modifies session`state, session.hardware`pwmChannels, session.hardware.faults
    ensures session.hardware.Valid()
    ensures MockPwm.Served(call, session.deviceId, session.access, old(session.Observe()), r, session.Observe())
  {
    match call {
      case SetEnabled(enabled) => r := session.SetEnabled(enabled);
      case SetPeriod(periodNs) => r := session.SetPeriodNs(periodNs);
      case SetDutyCycle(dutyCycleNs) => r := session.SetDutyCycleNs(dutyCycleNs);
      case Configure(configuration) => r := session.Configure(configuration);
    }
  }

  /** An open Linux session and an undisturbed mock session of one device hold the same legal configuration. */
  ghost predicate InStep(linux: LinuxPwm.View, mock: MockPwm.View, deviceId: DeviceId) {
    && linux.state != Closed && Undisturbed(mock, deviceId)
    && mock.channels[deviceId] == linux.files && Legal(linux.files)
  }

  /** Drives both sessions through the same calls. As long as no file access fails, they give equal results and
      stay in step. */
  method RunBoth(linux: LinuxPwm.LinuxSysfsPwmSession, mock: MockPwm.MockPwmSession, calls: seq<Call>)
    returns (rs: seq<BusResult<Unit>>, qs: seq<BusResult<Unit>>)
    requires linux.deviceId == mock.deviceId && linux.access == mock.access && mock.hardware.Valid()
    requires InStep(linux.Observe(), mock.Observe(), mock.deviceId)
    modifies linux`state, linux.channel, mock`state, mock.hardware`pwmChannels, mock.hardware.faults
    ensures mock.hardware.Valid() && |rs| == |qs| == |calls|
    ensures linux.channel.failures == old(linux.channel.failures) ==>
      rs == qs && InStep(linux.Observe(), mock.Observe(), mock.deviceId)
  {
    rs, qs := [], [];
    for i := 0 to |calls|
      invariant mock.hardware.Valid() && |rs| == |qs| == i
      invariant linux.channel.failures >= old(linux.channel.failures)
      invariant linux.channel.failures == old(linux.channel.failures) ==>
        rs == qs && InStep(linux.Observe(), mock.Observe(), mock.deviceId)
    {
      ghost var linuxBefore, mockBefore := linux.Observe(), mock.Observe();
      var r := PerformOnLinux(linux, calls[i]);
      var q := PerformOnMock(mock, calls[i]);
      if linux.channel.failures == old(linux.channel.failures) {
        AgreeOnCall(calls[i], mock.deviceId, mock.access,
                    linuxBefore, r, linux.Observe(), mockBefore, q, mock.Observe());
      }
      rs, qs := rs + [r], qs + [q];
    }
  }
}
