/**
 Diagnostic codes, events and sensor data, as far as the retained history uses them.
 */
module Diagnostics {
  import opened Words

  datatype DiagCode =
    | MapRange | TpsRange | CamMissing | LowVoltage | Overvoltage | MapFailureHighLoad
    | TpsMapPlausibility | KnockDetected | PersistCrcFault | OilPressureLow | FuelPressureLow
    | LambdaInvalid

  datatype DiagSource = Sensor | Trigger | Scheduler | Safety | User

  datatype FaultCode = NoFault | SyncLoss | SensorOutOfRange | CalibrationInvalid | SafetyCut | ActuatorFault

  datatype FaultSeverity = Info | Warning | Critical

  datatype CancelReason = Manual | CancelSyncLoss | SafetyShutdown | Commit | Timeout

  datatype FaultState = FaultState(fault: FaultCode, severity: FaultSeverity, cancelReason: CancelReason)

  datatype DiagEvent = DiagEvent(
    code: DiagCode, timestamp: U32, source: DiagSource, context: Option<U32>, startUs: U32, endUs: U32)

  /** Transport messages: only sensor data matters here, every other message is one of `Other`. */
  datatype Message =
    | SensorData(mapKpaX10: U16, tpsPercent: Byte, iatOffset: Byte, cltOffset: Byte, voltageX10: Byte,
                 lambdaX100: Byte, flags: Byte, timestampUs: U32)
    | Other(id: nat)

  const CODE_CAP: nat := 3

  type Codes = s: seq<DiagCode> | |s| == CODE_CAP witness seq(CODE_CAP, _ => MapRange)

  datatype Snapshot = Snapshot(
    currentData: Message,
    freezeData: Option<Message>,
    codes: Codes,
    codeCount: Byte,
    freezeCode: Option<DiagCode>,
    currentEvent: Option<DiagEvent>,
    freezeEvent: Option<DiagEvent>,
    lastFault: FaultCode,
    lastCode: Option<DiagCode>,
    lastTimestamp: U32)
}
