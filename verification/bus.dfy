/** Errors and session metadata shared by all bus backends. */
module Bus {
  import opened Core

  datatype Unit = Unit

  datatype ConfigurationFault = PeriodIsZero | DutyExceedsPeriod

  datatype BusError =
    | Timeout(deviceId: DeviceId, operation: string)
    | Disconnected(deviceId: DeviceId)
    | TransportFailure(deviceId: DeviceId, operation: string, reason: string)
    | PermissionDenied(deviceId: DeviceId, operation: string)
    | SessionUnavailable(deviceId: DeviceId)
    | InvalidConfiguration(deviceId: DeviceId, fault: ConfigurationFault)
    | InvalidRequest(deviceId: DeviceId, operation: string)

  type BusResult<+T> = Result<T, BusError>

  datatype SessionAccess = SharedReadOnly | Shared | Exclusive | ExclusiveController {
    predicate CanWrite() { !SharedReadOnly? }
  }

  datatype SessionState = Open | Idle | Busy | Stale | Faulted | Closed

  /** The state that `finish_call` leaves behind. */
  function FinishCall<T>(r: BusResult<T>): SessionState {
    if r.Ok? then Idle else Faulted
  }
}
