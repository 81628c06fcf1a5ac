/** Action classes, their risk grades and the local rate limits (spec A2.1). */
module Actions {
  import opened Wrappers

  datatype ActionType =
    | IdentifyLed | CollectDiagnostics | FanReset
    | SelClear | BmcReset | PowerCycle | PowerCapAdjust
    | ConfigRestore
    | FirmwareUpdate | FirmwareRollback
    | ClearCounters | InterfaceReset | InterfaceDisable | InterfaceEnable

  /** The risk grades, by the rank the lease compares. */
  function RiskRank(t: ActionType): nat {
    match t
    case IdentifyLed | CollectDiagnostics => 0
    case FanReset | SelClear | BmcReset | ClearCounters | InterfaceEnable => 1
    case PowerCycle | PowerCapAdjust | ConfigRestore => 2
    case FirmwareUpdate | FirmwareRollback | InterfaceReset | InterfaceDisable => 3
  }

  datatype RateLimit = RateLimit(maxPerWindow: nat, window: real, cooldown: real)

  /** The default limits; a class without one is never rate limited. */
  function DefaultLimit(t: ActionType): Option<RateLimit> {
    match t
    case IdentifyLed => Some(RateLimit(999, 60.0, 0.0))
    case CollectDiagnostics => Some(RateLimit(999, 60.0, 0.0))
    case FanReset => Some(RateLimit(2, 86400.0, 300.0))
    case SelClear => Some(RateLimit(999, 3600.0, 0.0))
    case BmcReset => Some(RateLimit(1, 14400.0, 900.0))
    case PowerCycle => Some(RateLimit(1, 1800.0, 1800.0))
    case PowerCapAdjust => Some(RateLimit(3, 3600.0, 300.0))
    case ClearCounters => Some(RateLimit(999, 3600.0, 0.0))
    case InterfaceReset => Some(RateLimit(1, 1800.0, 1800.0))
    case InterfaceDisable => Some(RateLimit(1, 1800.0, 1800.0))
    case InterfaceEnable => Some(RateLimit(3, 1800.0, 60.0))
    case ConfigRestore | FirmwareUpdate | FirmwareRollback => None
  }

  /** Where an action stands in the approval pipeline; Running is EXECUTING. */
  datatype Status = Pending | Approved | Denied | Running | Completed | Failed
}
