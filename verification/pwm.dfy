/** PWM configurations, and what every backend shares. */
module Pwm {
  import opened Core
  import opened Bus

  datatype Polarity = Normal | Inversed

  datatype Configuration = Configuration(periodNs: U64, dutyCycleNs: U64, enabled: bool, polarity: Polarity)

  predicate Legal(c: Configuration) { 0 < c.periodNs && c.dutyCycleNs <= c.periodNs }

  /** `validate_configuration`, the same in both backends. */
  function ValidateConfiguration(c: Configuration, deviceId: DeviceId): (r: BusResult<Unit>)
    ensures r.Ok? <==> Legal(c)
    ensures r.Err? ==>
      r == Err(InvalidConfiguration(deviceId, if 0 < c.periodNs then DutyExceedsPeriod else PeriodIsZero))
  {
    if c.periodNs == 0 then Err(InvalidConfiguration(deviceId, PeriodIsZero))
    else if c.dutyCycleNs > c.periodNs then Err(InvalidConfiguration(deviceId, DutyExceedsPeriod))
    else Ok(Unit)
  }

  datatype Call =
    | SetEnabled(enabled: bool)
    | SetPeriod(periodNs: U64)
    | SetDutyCycle(dutyCycleNs: U64)
    | Configure(configuration: Configuration)
  {
    function Operation(): string {
      match this
      case SetEnabled(_) => "pwm.enable"
      case SetPeriod(_) => "pwm.set_period"
      case SetDutyCycle(_) => "pwm.set_duty_cycle"
      case Configure(_) => "pwm.configure"
    }

    /** The configuration the caller asks for. */
    function Target(c: Configuration): Configuration {
      match this
      case SetEnabled(v) => c.(enabled := v)
      case SetPeriod(v) => c.(periodNs := v)
      case SetDutyCycle(v) => c.(dutyCycleNs := v)
      case Configure(v) => v
    }
  }

  /** A call's result and the configuration it leaves behind. */
  datatype CallOutcome = CallOutcome(result: BusResult<Unit>, configuration: Configuration)
}
