/** The Linux PWM session: one logical change is a series of sysfs file writes, any of which may fail. */
module LinuxPwm {
  import opened Core
  import opened Bus
  import opened Pwm

  datatype Write =
    | WriteEnable(enabled: bool)
    | WritePeriod(periodNs: U64)
    | WriteDutyCycle(dutyCycleNs: U64)
    | WritePolarity(polarity: Polarity)
  {
    function Apply(c: Configuration): Configuration {
      match this
      case WriteEnable(v) => c.(enabled := v)
      case WritePeriod(v) => c.(periodNs := v)
      case WriteDutyCycle(v) => c.(dutyCycleNs := v)
      case WritePolarity(v) => c.(polarity := v)
    }
  }

  /** One performed write and the configuration of the hardware just before it. */
  datatype Step = Step(before: Configuration, write: Write) {
    function After(): Configuration { write.Apply(before) }
  }

  /** The attribute files of an exported channel, the writes performed so far and the number of accesses
      that failed. Any access may fail; a failed write changes no file. */
  class SysfsChannel {
    var files: Configuration
    ghost var log: seq<Step>
    ghost var failures: nat

    /** One `fs::write` to an attribute file; a failure carries the text of the I/O error. */
    method Write(write: Write) returns (error: Option<string>)
      modifies this
      ensures error.None? ==>
        files == write.Apply(old(files)) && log == old(log) + [Step(old(files), write)] && failures == old(failures)
      ensures error.Some? ==>
        files == old(files) && log == old(log) && failures == old(failures) + 1
    {
      error := *;
      if error.None? {
        log := log + [Step(files, write)];
        files := write.Apply(files);
      } else {
        failures := failures + 1;
      }
    }

    /** Reading and parsing the four attribute files. */
    method Read() returns (contents: Result<Configuration, string>)
      modifies this`failures
      ensures contents.Ok? ==> contents.value == files && failures == old(failures)
      ensures contents.Err? ==> failures == old(failures) + 1
    {
      var error: Option<string> := *;
      match error {
        case None =>
          contents := Ok(files);
        case Some(text) =>
          failures := failures + 1;
          contents := Err(text);
      }
    }
  }

  datatype ChipAccess = Looked(present: bool) | Unexported(error: Option<string>)

  /** The directory of the chip, with what happened to its unexport file. */
  class ChipDirectory {
    ghost var log: seq<ChipAccess>

    method HasUnexportFile() returns (present: bool)
      modifies this
      ensures log == old(log) + [Looked(present)]
    {
      present := *;
      log := log + [Looked(present)];
    }

    method Unexport() returns (error: Option<string>)
      modifies this
      ensures log == old(log) + [Unexported(error)]
    {
      error := *;
      log := log + [Unexported(error)];
    }
  }

  /** What must hold of every write on the way from `initial` to `target`: the duty cycle does not come to
      exceed the period; period, duty cycle and polarity are written only while the output is off; and the
      output is on only at the initial configuration or at the full target. */
  ghost predicate Safe(initial: Configuration, target: Configuration, step: Step) {
    && (initial.dutyCycleNs <= initial.periodNs ==> step.After().dutyCycleNs <= step.After().periodNs)
    && (!step.write.WriteEnable? ==> !step.before.enabled)
    && (step.before.enabled ==> step.before == initial)
    && (step.After().enabled ==> step.After() == target)
  }

  /** An attribute other than `enable` is written only if it must change, and only to its target value. */
  ghost predicate Needed(initial: Configuration, target: Configuration, write: Write) {
    match write
    case WriteEnable(_) => true
    case WritePeriod(v) => v == target.periodNs != initial.periodNs
    case WriteDutyCycle(v) => v == target.dutyCycleNs != initial.dutyCycleNs
    case WritePolarity(v) => v == target.polarity != initial.polarity
  }

  /** The writes in `log` after `earlier` lead step by step from `initial` to `now`, and each of them is safe
      and needed on the way from `initial` to `target`. */
  ghost predicate SafeWalk(
      initial: Configuration, target: Configuration, now: Configuration, earlier: seq<Step>, log: seq<Step>)
    decreases |log|
  {
    earlier <= log &&
    if |log| == |earlier| then now == initial else
      var last := log[|log| - 1];
      && Safe(initial, target, last) && Needed(initial, target, last.write)
      && now == last.After()
      && SafeWalk(initial, target, last.before, earlier, log[..|log| - 1])
  }

  /** One more safe and needed write. */
  lemma WalkExtends(
      initial: Configuration, target: Configuration, now: Configuration,
      earlier: seq<Step>, log: seq<Step>, write: Write)
    requires SafeWalk(initial, target, now, earlier, log)
    requires Safe(initial, target, Step(now, write)) && Needed(initial, target, write)
    ensures SafeWalk(initial, target, write.Apply(now), earlier, log + [Step(now, write)])
  {
  }

  /** Every write of a safe walk is safe and needed. */
  lemma {:induction false} WalkIsSafe(
      initial: Configuration, target: Configuration, now: Configuration,
      earlier: seq<Step>, log: seq<Step>, k: nat)
    requires SafeWalk(initial, target, now, earlier, log) && |earlier| <= k < |log|
    ensures Safe(initial, target, log[k]) && Needed(initial, target, log[k].write)
    decreases |log|
  {
    if k < |log| - 1 {
      WalkIsSafe(initial, target, log[|log| - 1].before, earlier, log[..|log| - 1], k);
    }
  }

  /** What a call does when no file access fails. */
  function Faultless(c: Configuration, call: Call, deviceId: DeviceId): CallOutcome {
    var target := call.Target(c);
    if call.SetEnabled? then CallOutcome(Ok(Unit), target)
    else
      var verdict := ValidateConfiguration(target, deviceId);
      CallOutcome(verdict, if verdict.Ok? then target else c)
  }

  /** The observable state of a session and its channel. */
  datatype View = View(state: SessionState, files: Configuration, log: seq<Step>, failures: nat)

  ghost predicate TransportFailed(r: BusResult<Unit>, deviceId: DeviceId) {
    r.Err? && r.error.TransportFailure? && r.error.deviceId == deviceId
  }

  /** What every configuration call promises, whichever file accesses fail. */
  ghost predicate Served(
      call: Call, deviceId: DeviceId, access: SessionAccess, before: View, r: BusResult<Unit>, after: View)
  {
    if before.state == Closed then r == Err(SessionUnavailable(deviceId)) && after == before
    else if !access.CanWrite() then r == Err(PermissionDenied(deviceId, call.Operation())) && after == before
    else
      && after.state == (if r.Ok? then Idle else Faulted)
      && SafeWalk(before.files, call.Target(before.files), after.files, before.log, after.log)
      && (after.failures == before.failures ==> CallOutcome(r, after.files) == Faultless(before.files, call, deviceId))
      && (after.failures != before.failures ==>
            && after.failures == before.failures + 1
            && TransportFailed(r, deviceId)
            && (after.files.enabled ==> after.files == before.files))
  }

  class LinuxSysfsPwmSession {
    const deviceId: DeviceId
    const channel: SysfsChannel
    const chip: ChipDirectory
    const access: SessionAccess
    const exportedBySession: bool
    var state: SessionState

    constructor (
        deviceId: DeviceId, channel: SysfsChannel, chip: ChipDirectory, access: SessionAccess, exportedBySession: bool)
      ensures this.deviceId == deviceId && this.channel == channel && this.chip == chip
      ensures this.access == access && state == Idle
      ensures this.exportedBySession == exportedBySession
    {
      this.deviceId := deviceId;
      this.channel := channel;
      this.chip := chip;
      this.access := access;
      this.exportedBySession := exportedBySession;
      state := Idle;
    }

    ghost function Observe(): View
      reads this, channel
    {
      View(state, channel.files, channel.log, channel.failures)
    }

    /** `write_required_file`, as one more step of the safe walk that began after `earlier`. */
    method WriteFile(
        write: Write, operation: string,
        ghost initial: Configuration, ghost target: Configuration, ghost earlier: seq<Step>)
      returns (r: BusResult<Unit>)
      requires SafeWalk(initial, target, channel.files, earlier, channel.log)
      requires Safe(initial, target, Step(channel.files, write)) && Needed(initial, target, write)
      modifies channel
      ensures SafeWalk(initial, target, channel.files, earlier, channel.log)
      ensures r.Ok? ==>
        && r == Ok(Unit)
        && channel.files == write.Apply(old(channel.files))
        && |channel.log| == |old(channel.log)| + 1
        && channel.failures == old(channel.failures)
      ensures r.Err? ==>
        && TransportFailed(r, deviceId)
        && channel.files == old(channel.files) && channel.log == old(channel.log)
        && channel.failures == old(channel.failures) + 1
    {
      WalkExtends(initial, target, channel.files, earlier, channel.log, write);
      var error := channel.Write(write);
      r := if error.None? then Ok(Unit) else Err(TransportFailure(deviceId, operation, error.value));
    }

    method CurrentConfiguration() returns (r: BusResult<Configuration>)
      modifies channel`failures
      ensures r.Ok? ==> r.value == channel.files && channel.failures == old(channel.failures)
      ensures r.Err? ==>
        r.error.TransportFailure? && r.error.deviceId == deviceId && channel.failures == old(channel.failures) + 1
    {
      var contents := channel.Read();
      match contents {
        case Ok(c) => r := Ok(c);
        case Err(text) => r := Err(TransportFailure(deviceId, "pwm.get_configuration", text));
      }
    }

    /** Moves period and duty cycle, in the order that keeps the duty cycle within the period. */
    method ApplyTiming(
        current: Configuration, target: Configuration, operation: string, ghost earlier: seq<Step>)
      returns (r: BusResult<Unit>)
      requires SafeWalk(current, target, channel.files, earlier, channel.log)
      requires channel.files == current.(enabled := channel.files.enabled)
      requires channel.files.enabled ==>
        current.periodNs == target.periodNs && current.dutyCycleNs == target.dutyCycleNs
      requires ValidateConfiguration(target, deviceId).Ok?
      modifies channel
      ensures SafeWalk(current, target, channel.files, earlier, channel.log)
      ensures |channel.log| <= |old(channel.log)| + 2
      ensures current.periodNs == target.periodNs && current.dutyCycleNs == target.dutyCycleNs ==>
        r.Ok? && channel.log == old(channel.log)
      ensures r.Ok? ==>
        && r == Ok(Unit)
        && channel.failures == old(channel.failures)
        && channel.files == old(channel.files).(periodNs := target.periodNs, dutyCycleNs := target.dutyCycleNs)
      ensures r.Err? ==>
        && TransportFailed(r, deviceId) && channel.failures == old(channel.failures) + 1
        && !channel.files.enabled
    {
      if current.periodNs == target.periodNs && current.dutyCycleNs == target.dutyCycleNs {
        return Ok(Unit);
      }
      var expandPeriodFirst := target.periodNs > current.periodNs || target.dutyCycleNs > current.periodNs;
      if expandPeriodFirst {
        if current.periodNs != target.periodNs {
          r := WriteFile(WritePeriod(target.periodNs), operation, current, target, earlier);
          if r.Err? { return; }
        }
        if current.dutyCycleNs != target.dutyCycleNs {
          r := WriteFile(WriteDutyCycle(target.dutyCycleNs), operation, current, target, earlier);
          if r.Err? { return; }
        }
      } else {
        if current.dutyCycleNs != target.dutyCycleNs {
          r := WriteFile(WriteDutyCycle(target.dutyCycleNs), operation, current, target, earlier);
          if r.Err? { return; }
        }
        if current.periodNs != target.periodNs {
          r := WriteFile(WritePeriod(target.periodNs), operation, current, target, earlier);
          if r.Err? { return; }
        }
      }
      return Ok(Unit);
    }

    /** Whether the output must be off while the channel is changed. */
    static predicate NeedsDisable(current: Configuration, target: Configuration) {
      current.enabled
      && (current.periodNs != target.periodNs
          || current.dutyCycleNs != target.dutyCycleNs
          || current.polarity != target.polarity
          || !target.enabled)
    }

    /** The last writes, once the timing is that of the target: the polarity, and the output back on. */
    method ApplyPolarityAndEnable(
        current: Configuration, target: Configuration, operation: string, ghost earlier: seq<Step>)
      returns (r: BusResult<Unit>)
      requires SafeWalk(current, target, channel.files, earlier, channel.log)
      requires channel.files == target.(
        polarity := current.polarity, enabled := current.enabled && !NeedsDisable(current, target))
      modifies channel
      ensures SafeWalk(current, target, channel.files, earlier, channel.log)
      ensures |channel.log| <= |old(channel.log)| + 2
      ensures target == current ==> channel.log == old(channel.log)
      ensures r.Ok? ==> r == Ok(Unit) && channel.files == target && channel.failures == old(channel.failures)
      ensures r.Err? ==>
        && TransportFailed(r, deviceId) && channel.failures == old(channel.failures) + 1 && !channel.files.enabled
    {
      if current.polarity != target.polarity {
        r := WriteFile(WritePolarity(target.polarity), operation, current, target, earlier);
        if r.Err? { return; }
      }
      if NeedsDisable(current, target) || current.enabled != target.enabled {
        r := WriteFile(WriteEnable(target.enabled), operation, current, target, earlier);
        if r.Err? { return; }
      }
      return Ok(Unit);
    }

    /** All the writes: off first if anything must change, then timing, polarity, and back on. */
    method WriteChanges(current: Configuration, target: Configuration, operation: string) returns (r: BusResult<Unit>)
      requires channel.files == current && ValidateConfiguration(target, deviceId).Ok?
      modifies channel
      ensures SafeWalk(current, target, channel.files, old(channel.log), channel.log)
      ensures |channel.log| <= |old(channel.log)| + 5
      ensures target == current ==> channel.log == old(channel.log)
      ensures r.Ok? ==> r == Ok(Unit) && channel.files == target && channel.failures == old(channel.failures)
      ensures r.Err? ==>
        && TransportFailed(r, deviceId) && channel.failures == old(channel.failures) + 1
        && (channel.files.enabled ==> channel.files == current)
    {
      ghost var earlier := channel.log;
      if NeedsDisable(current, target) {
        r := WriteFile(WriteEnable(false), operation, current, target, earlier);
        if r.Err? { return; }
      }
      r := ApplyTiming(current, target, operation, earlier);
      if r.Err? { return; }
      r := ApplyPolarityAndEnable(current, target, operation, earlier);
    }

    /** Brings the channel to the target, unless the target is not legal or the channel cannot be read. */
    method ApplyConfiguration(target: Configuration, operation: string) returns (r: BusResult<Unit>)
      modifies channel
      ensures SafeWalk(old(channel.files), target, channel.files, old(channel.log), channel.log)
      ensures |channel.log| <= |old(channel.log)| + 5
      ensures target == old(channel.files) ==> channel.log == old(channel.log)
      ensures ValidateConfiguration(target, deviceId).Err? ==>
        r == ValidateConfiguration(target, deviceId)
        && channel.log == old(channel.log) && channel.failures == old(channel.failures)
      ensures r.Ok? ==> r == Ok(Unit) && channel.files == target && channel.failures == old(channel.failures)
      ensures r.Err? && ValidateConfiguration(target, deviceId).Ok? ==>
        && TransportFailed(r, deviceId) && channel.failures == old(channel.failures) + 1
        && (channel.files.enabled ==> channel.files == old(channel.files))
    {
      r := ValidateConfiguration(target, deviceId);
      if r.Err? { return; }
      var contents := CurrentConfiguration();
      if contents.Err? { return Err(contents.error); }
      r := WriteChanges(contents.value, target, operation);
    }

    method SetEnabled(enabled: bool) returns (r: BusResult<Unit>)
      modifies this`state, channel
      ensures Served(Call.SetEnabled(enabled), deviceId, access, old(Observe()), r, Observe())
      ensures r.Ok? ==> channel.files == old(channel.files).(enabled := enabled)
    {
      if state == Closed { return Err(SessionUnavailable(deviceId)); }
      if !access.CanWrite() { return Err(PermissionDenied(deviceId, "pwm.enable")); }
      state := Busy;
      r := WriteFile(WriteEnable(enabled), "pwm.enable",
                     channel.files, channel.files.(enabled := enabled), channel.log);
      state := FinishCall(r);
    }

    method SetPeriodNs(periodNs: U64) returns (r: BusResult<Unit>)
      modifies this`state, channel
      ensures Served(SetPeriod(periodNs), deviceId, access, old(Observe()), r, Observe())
      ensures r.Ok? ==> channel.files == old(channel.files).(periodNs := periodNs)
    {
      if state == Closed { return Err(SessionUnavailable(deviceId)); }
      if !access.CanWrite() { return Err(PermissionDenied(deviceId, "pwm.set_period")); }
      state := Busy;
      var contents := CurrentConfiguration();
      if contents.Err? {
        r := Err(contents.error);
      } else {
        var target := contents.value.(periodNs := periodNs);
        r := ApplyConfiguration(target, "pwm.set_period");
      }
      state := FinishCall(r);
    }

    method SetDutyCycleNs(dutyCycleNs: U64) returns (r: BusResult<Unit>)
      modifies this`state, channel
      ensures Served(SetDutyCycle(dutyCycleNs), deviceId, access, old(Observe()), r, Observe())
      ensures r.Ok? ==> channel.files == old(channel.files).(dutyCycleNs := dutyCycleNs)
    {
      if state == Closed { return Err(SessionUnavailable(deviceId)); }
      if !access.CanWrite() { return Err(PermissionDenied(deviceId, "pwm.set_duty_cycle")); }
      state := Busy;
      var contents := CurrentConfiguration();
      if contents.Err? {
        r := Err(contents.error);
      } else {
        var target := contents.value.(dutyCycleNs := dutyCycleNs);
        r := ApplyConfiguration(target, "pwm.set_duty_cycle");
      }
      state := FinishCall(r);
    }

    method Configure(configuration: Configuration) returns (r: BusResult<Unit>)
      modifies this`state, channel
      ensures Served(Call.Configure(configuration), deviceId, access, old(Observe()), r, Observe())
      ensures r.Ok? ==> channel.files == configuration
    {
      if state == Closed { return Err(SessionUnavailable(deviceId)); }
      if !access.CanWrite() { return Err(PermissionDenied(deviceId, "pwm.configure")); }
      state := Busy;
      r := ApplyConfiguration(configuration, "pwm.configure");
      state := FinishCall(r);
    }

    /** Unexports the channel if this session exported it and the chip has an unexport file; a failed unexport
        leaves the session as it was. */
    method Close() returns (r: BusResult<Unit>)
      modifies this`state, chip
      ensures !exportedBySession ==> chip.log == old(chip.log)
      ensures exportedBySession ==>
        chip.log == old(chip.log) + [Looked(false)]
        || exists error :: chip.log == old(chip.log) + [Looked(true), Unexported(error)]
             && r == if error.Some? then Err(TransportFailure(deviceId, "pwm.close", error.value)) else Ok(Unit)
      ensures r.Err? ==> |chip.log| == |old(chip.log)| + 2
      ensures state == if r.Ok? then Closed else old(state)
    {
      if exportedBySession {
        var present := chip.HasUnexportFile();
        if present {
          var error := chip.Unexport();
          assert chip.log == old(chip.log) + [Looked(true), Unexported(error)];
          if error.Some? { return Err(TransportFailure(deviceId, "pwm.close", error.value)); }
        }
      }
      state := Closed;
      return Ok(Unit);
    }
  }
}
