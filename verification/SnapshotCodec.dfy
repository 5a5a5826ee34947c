/**
 The byte format of the retained diagnostic history: a fixed 92-byte snapshot and the
 100-byte sidecar that frames it in flash. The encoder advances a cursor over a buffer
 and gives up on messages that are not sensor data.
 */
module SnapshotCodec {
  import opened Words
  import opened NorCells
  import opened Diagnostics
  import Records

  const SNAPSHOT_BYTES: nat := 92
  const SIDECAR_HEADER_BYTES: nat := 8
  const SIDECAR_BYTES: nat := 100
  const SENSOR_BYTES: nat := 12
  const EVENT_BYTES: nat := 20
  const SIDECAR_MAGIC: U32 := 0x3244_424F

  // ---------------------------------------------------------------- tables

  function CodeByte(code: DiagCode): (b: Byte)
    ensures b != 0 && DecodeCode(b) == Some(code)
  {
    match code
    case MapRange => 1
    case TpsRange => 2
    case CamMissing => 3
    case LowVoltage => 4
    case Overvoltage => 5
    case MapFailureHighLoad => 6
    case TpsMapPlausibility => 7
    case KnockDetected => 8
    case PersistCrcFault => 9
    case OilPressureLow => 10
    case FuelPressureLow => 11
    case LambdaInvalid => 12
  }

  function DecodeCode(raw: Byte): Option<DiagCode>
  {
    if raw == 1 then Some(MapRange)
    else if raw == 2 then Some(TpsRange)
    else if raw == 3 then Some(CamMissing)
    else if raw == 4 then Some(LowVoltage)
    else if raw == 5 then Some(Overvoltage)
    else if raw == 6 then Some(MapFailureHighLoad)
    else if raw == 7 then Some(TpsMapPlausibility)
    else if raw == 8 then Some(KnockDetected)
    else if raw == 9 then Some(PersistCrcFault)
    else if raw == 10 then Some(OilPressureLow)
    else if raw == 11 then Some(FuelPressureLow)
    else if raw == 12 then Some(LambdaInvalid)
    else None
  }

  function SourceByte(source: DiagSource): (b: Byte)
    ensures DecodeSource(b) == Some(source)
  {
    match source
    case Sensor => 1
    case Trigger => 2
    case Scheduler => 3
    case Safety => 4
    case User => 5
  }

  function DecodeSource(raw: Byte): Option<DiagSource>
  {
    if raw == 1 then Some(Sensor)
    else if raw == 2 then Some(Trigger)
    else if raw == 3 then Some(Scheduler)
    else if raw == 4 then Some(Safety)
    else if raw == 5 then Some(User)
    else None
  }

  function FaultByte(fault: FaultCode): (b: Byte)
    ensures DecodeFault(b) == Some(fault)
  {
    match fault
    case NoFault => 0
    case SyncLoss => 1
    case SensorOutOfRange => 2
    case CalibrationInvalid => 3
    case SafetyCut => 4
    case ActuatorFault => 5
  }

  function DecodeFault(raw: Byte): Option<FaultCode>
  {
    if raw == 0 then Some(NoFault)
    else if raw == 1 then Some(SyncLoss)
    else if raw == 2 then Some(SensorOutOfRange)
    else if raw == 3 then Some(CalibrationInvalid)
    else if raw == 4 then Some(SafetyCut)
    else if raw == 5 then Some(ActuatorFault)
    else None
  }

  function OptionalCodeByte(code: Option<DiagCode>): (b: Byte)
    ensures DecodeOptionalCode(b) == Some(code)
  {
    match code
    case None => 0
    case Some(c) => CodeByte(c)
  }

  function DecodeOptionalCode(raw: Byte): Option<Option<DiagCode>>
  {
    if raw == 0 then Some(None)
    else match DecodeCode(raw)
      case None => None
      case Some(c) => Some(Some(c))
  }

  // ---------------------------------------------------------------- sensor data

  function SensorBytes(m: Message): (s: seq<Byte>)
    requires m.SensorData?
    ensures |s| == SENSOR_BYTES
  {
    Le16(m.mapKpaX10) + [m.tpsPercent, m.iatOffset, m.cltOffset]
    + [m.voltageX10, m.lambdaX100, m.flags] + Le32(m.timestampUs)
  }

  function DecodeSensor(s: seq<Byte>): (m: Message)
    requires |s| == SENSOR_BYTES
    ensures m.SensorData?
  {
    SensorData(U16From(s[0], s[1]), s[2], s[3], s[4], s[5], s[6], s[7], ReadU32(s, 8))
  }

  lemma SensorRoundTrip(m: Message)
    requires m.SensorData?
    ensures DecodeSensor(SensorBytes(m)) == m
  {
    U16RoundTrip(m.mapKpaX10);
    U32RoundTrip(m.timestampUs);
  }

  // ---------------------------------------------------------------- events

  function ContextBytes(context: Option<U32>): (s: seq<Byte>)
    ensures |s| == 5
  {
    match context
    case Some(c) => [1] + Le32(c)
    case None => [0] + Le32(0)
  }

  function EventHead(e: DiagEvent): (s: seq<Byte>)
    ensures |s| == 6
  {
    [1, CodeByte(e.code)] + Le32(e.timestamp)
  }

  function EventOrigin(e: DiagEvent): (s: seq<Byte>)
    ensures |s| == 6
  {
    [SourceByte(e.source)] + ContextBytes(e.context)
  }

  function EventSpan(e: DiagEvent): (s: seq<Byte>)
    ensures |s| == 8
  {
    Le32(e.startUs) + Le32(e.endUs)
  }

  function EventBytes(event: Option<DiagEvent>): (s: seq<Byte>)
    ensures |s| == EVENT_BYTES
  {
    match event
    case None => Zeros(EVENT_BYTES)
    case Some(e) => EventHead(e) + EventOrigin(e) + EventSpan(e)
  }

  function DecodeEvent(s: seq<Byte>): Option<Option<DiagEvent>>
    requires |s| == EVENT_BYTES
  {
    if s[0] == 0 then Some(None)
    else match (DecodeCode(s[1]), DecodeSource(s[6]))
      case (Some(code), Some(source)) =>
        var context := if s[7] == 0 then None else Some(ReadU32(s, 8));
        Some(Some(DiagEvent(code, ReadU32(s, 2), source, context, ReadU32(s, 12), ReadU32(s, 16))))
      case _ => None
  }

  lemma EventPartsRead(e: DiagEvent)
    ensures EventHead(e)[0] == 1 && EventHead(e)[1] == CodeByte(e.code) && ReadU32(EventHead(e), 2) == e.timestamp
    ensures EventOrigin(e)[0] == SourceByte(e.source)
    ensures e.context == if EventOrigin(e)[1] == 0 then None else Some(ReadU32(EventOrigin(e), 2))
    ensures ReadU32(EventSpan(e), 0) == e.startUs && ReadU32(EventSpan(e), 4) == e.endUs
  {
    U32RoundTrip(e.timestamp);
    U32RoundTrip(e.startUs);
    U32RoundTrip(e.endUs);
    if e.context.Some? { U32RoundTrip(e.context.value); }
  }

  lemma EventRoundTrip(event: Option<DiagEvent>)
    ensures DecodeEvent(EventBytes(event)) == Some(event)
  {
    if event.Some? {
      var e, s := event.value, EventBytes(event);
      EventPartsRead(e);
      var head, origin, span := EventHead(e), EventOrigin(e), EventSpan(e);
      assert s[0] == head[0] && s[1] == head[1] && ReadU32(s, 2) == ReadU32(head, 2);
      assert s[6] == origin[0] && s[7] == origin[1] && ReadU32(s, 8) == ReadU32(origin, 2);
      assert ReadU32(s, 12) == ReadU32(span, 0) && ReadU32(s, 16) == ReadU32(span, 4);
    }
  }

  // ---------------------------------------------------------------- snapshot

  predicate Encodable(s: Snapshot)
  {
    s.currentData.SensorData? && (s.freezeData.Some? ==> s.freezeData.value.SensorData?)
  }

  function FreezeBytes(freeze: Option<Message>): (s: seq<Byte>)
    requires freeze.Some? ==> freeze.value.SensorData?
    ensures |s| == 1 + SENSOR_BYTES
  {
    match freeze
    case None => [0] + Zeros(SENSOR_BYTES)
    case Some(m) => [1] + SensorBytes(m)
  }

  function CodeBytes(codes: seq<DiagCode>): (s: seq<Byte>)
    ensures |s| == |codes| && forall i :: 0 <= i < |codes| ==> s[i] == CodeByte(codes[i])
  {
    seq(|codes|, i requires 0 <= i < |codes| => CodeByte(codes[i]))
  }

  function DataPart(s: Snapshot): (b: seq<Byte>)
    requires Encodable(s)
    ensures |b| == 25
  {
    SensorBytes(s.currentData) + FreezeBytes(s.freezeData)
  }

  function CodePart(s: Snapshot): (b: seq<Byte>)
    ensures |b| == 5
  {
    CodeBytes(s.codes) + [s.codeCount] + [OptionalCodeByte(s.freezeCode)]
  }

  function EventPart(s: Snapshot): (b: seq<Byte>)
    ensures |b| == 40
  {
    EventBytes(s.currentEvent) + EventBytes(s.freezeEvent)
  }

  function LastPart(s: Snapshot): (b: seq<Byte>)
    ensures |b| == 22
  {
    [FaultByte(s.lastFault)] + [OptionalCodeByte(s.lastCode)] + Le32(s.lastTimestamp) + Zeros(16)
  }

  function SnapshotBytes(s: Snapshot): (b: seq<Byte>)
    requires Encodable(s)
    ensures |b| == SNAPSHOT_BYTES
  {
    DataPart(s) + CodePart(s) + EventPart(s) + LastPart(s)
  }

  function DecodeCodes(s: seq<Byte>): (r: Option<seq<DiagCode>>)
    ensures r.Some? ==> |r.value| == |s|
  {
    if s == [] then Some([])
    else match (DecodeCode(s[0]), DecodeCodes(s[1..]))
      case (Some(c), Some(cs)) => Some([c] + cs)
      case _ => None
  }

  lemma {:induction false} CodesRoundTrip(codes: seq<DiagCode>)
    ensures DecodeCodes(CodeBytes(codes)) == Some(codes)
  {
    if codes != [] {
      CodesRoundTrip(codes[1..]);
      assert CodeBytes(codes)[1..] == CodeBytes(codes[1..]);
      assert codes == [codes[0]] + codes[1..];
    }
  }

  function DecodeSnapshot(s: seq<Byte>): (r: Option<Snapshot>)
    requires |s| == SNAPSHOT_BYTES
    ensures r.Some? ==> Encodable(r.value) && r.value.codeCount <= 3
  {
    var current := DecodeSensor(s[0..12]);
    var freeze := if s[12] == 0 then None else Some(DecodeSensor(s[13..25]));
    match DecodeCodes(s[25..28])
    case None => None
    case Some(codes) =>
      match (DecodeOptionalCode(s[29]), DecodeEvent(s[30..50]), DecodeEvent(s[50..70]))
      case (Some(freezeCode), Some(currentEvent), Some(freezeEvent)) =>
        (match (DecodeFault(s[70]), DecodeOptionalCode(s[71]))
         case (Some(lastFault), Some(lastCode)) =>
           Some(Snapshot(current, freeze, codes, MinByte(s[28], 3), freezeCode, currentEvent, freezeEvent,
                         lastFault, lastCode, ReadU32(s, 72)))
         case _ => None)
      case _ => None
  }

  function ClampCount(s: Snapshot): (r: Snapshot)
    ensures r == s <==> s.codeCount <= 3
    ensures Encodable(r) == Encodable(s) && r.codeCount <= 3
  {
    s.(codeCount := MinByte(s.codeCount, 3))
  }

  lemma SnapshotParts(s: Snapshot)
    requires Encodable(s)
    ensures var b := SnapshotBytes(s);
            b[0..25] == DataPart(s) && b[25..30] == CodePart(s) && b[30..70] == EventPart(s) && b[70..92] == LastPart(s)
  {}

  lemma DataPartRoundTrip(s: Snapshot)
    requires Encodable(s)
    ensures var b := DataPart(s);
            && DecodeSensor(b[0..12]) == s.currentData
            && (b[12] == 0 <==> s.freezeData.None?)
            && (s.freezeData.Some? ==> DecodeSensor(b[13..25]) == s.freezeData.value)
  {
    var b := DataPart(s);
    assert b[0..12] == SensorBytes(s.currentData);
    SensorRoundTrip(s.currentData);
    assert b[12..25] == FreezeBytes(s.freezeData);
    assert b[12] == FreezeBytes(s.freezeData)[0];
    if s.freezeData.Some? {
      assert b[13..25] == FreezeBytes(s.freezeData)[1..13] == SensorBytes(s.freezeData.value);
      SensorRoundTrip(s.freezeData.value);
    }
  }

  lemma LastPartRoundTrip(s: Snapshot)
    ensures var b := LastPart(s);
            && DecodeFault(b[0]) == Some(s.lastFault)
            && DecodeOptionalCode(b[1]) == Some(s.lastCode)
            && ReadU32(b, 2) == s.lastTimestamp
  {
    U32RoundTrip(s.lastTimestamp);
  }

  lemma CodePartRoundTrip(s: Snapshot)
    requires Encodable(s)
    ensures var b := SnapshotBytes(s);
            && DecodeCodes(b[25..28]) == Some(s.codes)
            && b[28] == s.codeCount
            && DecodeOptionalCode(b[29]) == Some(s.freezeCode)
  {
    var b := SnapshotBytes(s);
    SnapshotParts(s);
    CodesRoundTrip(s.codes);
    assert b[25..28] == b[25..30][0..3] == CodeBytes(s.codes);
    assert b[28] == b[25..30][3] && b[29] == b[25..30][4];
  }

  lemma EventPartRoundTrip(s: Snapshot)
    requires Encodable(s)
    ensures var b := SnapshotBytes(s);
            && DecodeEvent(b[30..50]) == Some(s.currentEvent)
            && DecodeEvent(b[50..70]) == Some(s.freezeEvent)
  {
    var b := SnapshotBytes(s);
    SnapshotParts(s);
    EventRoundTrip(s.currentEvent);
    EventRoundTrip(s.freezeEvent);
    assert b[30..50] == b[30..70][0..20] == EventBytes(s.currentEvent);
    assert b[50..70] == b[30..70][20..40] == EventBytes(s.freezeEvent);
  }

  lemma OuterPartsRoundTrip(s: Snapshot)
    requires Encodable(s)
    ensures var b := SnapshotBytes(s);
            && DecodeSensor(b[0..12]) == s.currentData
            && (b[12] == 0 <==> s.freezeData.None?)
            && (s.freezeData.Some? ==> DecodeSensor(b[13..25]) == s.freezeData.value)
            && DecodeFault(b[70]) == Some(s.lastFault)
            && DecodeOptionalCode(b[71]) == Some(s.lastCode)
            && ReadU32(b, 72) == s.lastTimestamp
  {
    var b := SnapshotBytes(s);
    SnapshotParts(s);
    DataPartRoundTrip(s);
    assert b[0..12] == b[0..25][0..12] && b[13..25] == b[0..25][13..25] && b[12] == b[0..25][12];
    LastPartRoundTrip(s);
    assert b[70] == b[70..92][0] && b[71] == b[70..92][1] && ReadU32(b, 72) == ReadU32(b[70..92], 2);
  }

  /** The image holds the snapshot's fields where the decoder looks for them. */
  predicate Holds(b: seq<Byte>, s: Snapshot)
    requires |b| == SNAPSHOT_BYTES
  {
    && DecodeSensor(b[0..12]) == s.currentData
    && (if b[12] == 0 then s.freezeData == None else s.freezeData == Some(DecodeSensor(b[13..25])))
    && DecodeCodes(b[25..28]) == Some(s.codes)
    && b[28] == s.codeCount
    && DecodeOptionalCode(b[29]) == Some(s.freezeCode)
    && DecodeEvent(b[30..50]) == Some(s.currentEvent)
    && DecodeEvent(b[50..70]) == Some(s.freezeEvent)
    && DecodeFault(b[70]) == Some(s.lastFault)
    && DecodeOptionalCode(b[71]) == Some(s.lastCode)
    && ReadU32(b, 72) == s.lastTimestamp
  }

  lemma HeldIsDecoded(b: seq<Byte>, s: Snapshot)
    requires |b| == SNAPSHOT_BYTES && Holds(b, s)
    ensures DecodeSnapshot(b) == Some(ClampCount(s))
  {}

  /** A snapshot survives the byte format if and only if its code count is at most 3. */
  lemma SnapshotRoundTrip(s: Snapshot)
    requires Encodable(s)
    ensures DecodeSnapshot(SnapshotBytes(s)) == Some(ClampCount(s))
    ensures DecodeSnapshot(SnapshotBytes(s)) == Some(s) <==> s.codeCount <= 3
  {
    OuterPartsRoundTrip(s);
    CodePartRoundTrip(s);
    EventPartRoundTrip(s);
    HeldIsDecoded(SnapshotBytes(s), s);
  }

  // ---------------------------------------------------------------- sidecar

  function SidecarHeader(): (b: seq<Byte>)
    ensures |b| == SIDECAR_HEADER_BYTES
  {
    Le32(SIDECAR_MAGIC) + Le16(1) + Le16(92)
  }

  function SidecarBytes(s: Snapshot): (b: seq<Byte>)
    requires Encodable(s)
    ensures |b| == SIDECAR_BYTES
  {
    SidecarHeader() + SnapshotBytes(s)
  }

  function DecodeSidecar(b: seq<Byte>): (r: Option<Snapshot>)
    requires |b| == SIDECAR_BYTES
    ensures r.Some? ==> Encodable(r.value) && r.value.codeCount <= 3
  {
    if ReadU32(b, 0) != SIDECAR_MAGIC then None
    else if U16From(b[4], b[5]) != 1 then None
    else if U16From(b[6], b[7]) != 92 then None
    else DecodeSnapshot(b[SIDECAR_HEADER_BYTES..])
  }

  lemma SidecarRoundTrip(s: Snapshot)
    requires Encodable(s)
    ensures DecodeSidecar(SidecarBytes(s)) == Some(ClampCount(s))
    ensures DecodeSidecar(SidecarBytes(s)) == Some(s) <==> s.codeCount <= 3
    ensures !Records.AllErased(SidecarBytes(s))
  {
    var b := SidecarBytes(s);
    U32RoundTrip(SIDECAR_MAGIC);
    U16RoundTrip(1);
    U16RoundTrip(92);
    assert b[0] == ByteAt(SIDECAR_MAGIC, 0) != ERASED;
    assert b[SIDECAR_HEADER_BYTES..] == SnapshotBytes(s);
    SnapshotRoundTrip(s);
  }

  lemma ErasedSidecar(b: seq<Byte>)
    requires |b| == SIDECAR_BYTES && Records.AllErased(b)
    ensures DecodeSidecar(b) == None
  {
    assert b[0] == ERASED && b[1] == ERASED && b[2] == ERASED && b[3] == ERASED;
  }

  /** Whatever a sidecar image decodes to, however it was written, is kept by re-encoding it. */
  lemma DecodedIsStable(b: seq<Byte>)
    requires |b| == SIDECAR_BYTES && DecodeSidecar(b).Some?
    ensures Encodable(DecodeSidecar(b).value)
    ensures DecodeSidecar(SidecarBytes(DecodeSidecar(b).value)) == DecodeSidecar(b)
  {
    SidecarRoundTrip(DecodeSidecar(b).value);
  }

  // ---------------------------------------------------------------- the cursor-driven encoder

  /**
   Writes bytes at the cursor and moves it on. The ghost parameters carry what was
   written since the enclosing encoder started.
   */
  method Put(out: array<Byte>, at: nat, bytes: seq<Byte>,
             ghost before: seq<Byte>, ghost start: nat, ghost written: seq<Byte>)
    returns (next: nat)
    requires |before| == out.Length && at == start + |written| && at + |bytes| <= out.Length
    requires out[..] == Splice(before, start, written)
    modifies out
    ensures next == at + |bytes|
    ensures out[..] == Splice(before, start, written + bytes)
  {
    forall i | 0 <= i < |bytes| {
      out[at + i] := bytes[i];
    }
    assert out[..] == Splice(old(out[..]), at, bytes);
    SpliceAppend(before, start, written, bytes);
    next := at + |bytes|;
  }

  method PutSensor(m: Message, out: array<Byte>, at: nat) returns (next: Option<nat>)
    requires at <= out.Length
    modifies out
    ensures next == if m.SensorData? && at + SENSOR_BYTES <= out.Length then Some(at + SENSOR_BYTES) else None
    ensures out[..] == if next.Some? then Splice(old(out[..]), at, SensorBytes(m)) else old(out[..])
  {
    if !m.SensorData? || out.Length - at < SENSOR_BYTES { return None; }
    ghost var before := out[..];
    var load, low, high, time := Le16(m.mapKpaX10), [m.tpsPercent, m.iatOffset, m.cltOffset],
                                [m.voltageX10, m.lambdaX100, m.flags], Le32(m.timestampUs);
    assert out[..] == Splice(before, at, []);
    var c := Put(out, at, load, before, at, []);
    c := Put(out, c, low, before, at, [] + load);
    c := Put(out, c, high, before, at, [] + load + low);
    c := Put(out, c, time, before, at, [] + load + low + high);
    assert [] + load + low + high + time == SensorBytes(m);
    next := Some(c);
  }

  method PutPresentEvent(e: DiagEvent, out: array<Byte>, at: nat) returns (next: nat)
    requires at + EVENT_BYTES <= out.Length
    modifies out
    ensures next == at + EVENT_BYTES
    ensures out[..] == Splice(old(out[..]), at, EventBytes(Some(e)))
  {
    ghost var before := out[..];
    assert out[..] == Splice(before, at, []);
    next := Put(out, at, EventHead(e), before, at, []);
    assert [] + EventHead(e) == EventHead(e);
    next := Put(out, next, EventOrigin(e), before, at, EventHead(e));
    next := Put(out, next, EventSpan(e), before, at, EventHead(e) + EventOrigin(e));
  }

  method PutEvent(event: Option<DiagEvent>, out: array<Byte>, at: nat) returns (next: Option<nat>)
    requires at <= out.Length
    modifies out
    ensures next == if at + EVENT_BYTES <= out.Length then Some(at + EVENT_BYTES) else None
    ensures out[..] == if next.Some? then Splice(old(out[..]), at, EventBytes(event)) else old(out[..])
  {
    if out.Length - at < EVENT_BYTES { return None; }
    var c;
    match event {
      case None =>
        ghost var before := out[..];
        assert out[..] == Splice(before, at, []);
        c := Put(out, at, Zeros(EVENT_BYTES), before, at, []);
        assert [] + Zeros(EVENT_BYTES) == EventBytes(event);
      case Some(e) =>
        c := PutPresentEvent(e, out, at);
    }
    next := Some(c);
  }

  /** The optional freeze-frame message: a presence byte and the message, or thirteen zeros. */
  method PutFreeze(freeze: Option<Message>, out: array<Byte>, at: nat) returns (next: Option<nat>)
    requires at + 1 + SENSOR_BYTES <= out.Length
    modifies out
    ensures next == if freeze.Some? && !freeze.value.SensorData? then None else Some(at + 1 + SENSOR_BYTES)
    ensures next.Some? ==> out[..] == Splice(old(out[..]), at, FreezeBytes(freeze))
    ensures out[..at] == old(out[..at]) && out[at + 1 + SENSOR_BYTES..] == old(out[at + 1 + SENSOR_BYTES..])
  {
    ghost var before := out[..];
    match freeze {
      case Some(message) =>
        out[at] := 1;
        next := PutSensor(message, out, at + 1);
        if next.Some? {
          SpliceAppend(before, at, [1], SensorBytes(message));
          assert before[at := 1] == Splice(before, at, [1]);
        }
      case None =>
        assert out[..] == Splice(before, at, []);
        var c := Put(out, at, [0], before, at, []);
        c := Put(out, c, Zeros(SENSOR_BYTES), before, at, [] + [0]);
        assert [] + [0] + Zeros(SENSOR_BYTES) == FreezeBytes(freeze);
        next := Some(c);
    }
  }

  method PutCodeTable(codes: Codes, out: array<Byte>, at: nat)
    requires at + CODE_CAP <= out.Length
    modifies out
    ensures out[..] == Splice(old(out[..]), at, CodeBytes(codes))
  {
    var index := 0;
    while index < CODE_CAP
      invariant 0 <= index <= CODE_CAP
      invariant forall i :: 0 <= i < out.Length ==>
                  out[i] == if at <= i < at + index then CodeByte(codes[i - at]) else old(out[i])
    {
      out[at + index] := CodeByte(codes[index]);
      index := index + 1;
    }
  }

  method PutCodes(s: Snapshot, out: array<Byte>, at: nat) returns (next: nat)
    requires at + 5 <= out.Length
    modifies out
    ensures next == at + 5
    ensures out[..] == Splice(old(out[..]), at, CodePart(s))
  {
    ghost var before := out[..];
    PutCodeTable(s.codes, out, at);
    var c := Put(out, at + CODE_CAP, [s.codeCount], before, at, CodeBytes(s.codes));
    next := Put(out, c, [OptionalCodeByte(s.freezeCode)], before, at, CodeBytes(s.codes) + [s.codeCount]);
  }

  method PutLast(s: Snapshot, out: array<Byte>, at: nat) returns (next: nat)
    requires at + 22 <= out.Length
    modifies out
    ensures next == at + 22
    ensures out[..] == Splice(old(out[..]), at, LastPart(s))
  {
    ghost var before := out[..];
    var fault, code, time := [FaultByte(s.lastFault)], [OptionalCodeByte(s.lastCode)], Le32(s.lastTimestamp);
    assert out[..] == Splice(before, at, []);
    var c := Put(out, at, fault, before, at, []);
    c := Put(out, c, code, before, at, [] + fault);
    c := Put(out, c, time, before, at, [] + fault + code);
    next := Put(out, c, Zeros(16), before, at, [] + fault + code + time);
    assert [] + fault + code + time + Zeros(16) == LastPart(s);
  }

  method PutData(s: Snapshot, out: array<Byte>) returns (next: Option<nat>)
    requires out.Length >= SNAPSHOT_BYTES
    modifies out
    ensures next == if Encodable(s) then Some(25) else None
    ensures next.Some? ==> out[..] == Splice(old(out[..]), 0, DataPart(s))
    ensures out[SNAPSHOT_BYTES..] == old(out[SNAPSHOT_BYTES..])
  {
    ghost var before := out[..];
    next := PutSensor(s.currentData, out, 0);
    if next.None? { return; }
    next := PutFreeze(s.freezeData, out, next.value);
    if next.Some? {
      SpliceAppend(before, 0, SensorBytes(s.currentData), FreezeBytes(s.freezeData));
    }
  }

  method PutEvents(s: Snapshot, out: array<Byte>, at: nat) returns (next: nat)
    requires at + 40 <= out.Length
    modifies out
    ensures next == at + 40
    ensures out[..] == Splice(old(out[..]), at, EventPart(s))
  {
    ghost var before := out[..];
    var c := PutEvent(s.currentEvent, out, at);
    c := PutEvent(s.freezeEvent, out, c.value);
    SpliceAppend(before, at, EventBytes(s.currentEvent), EventBytes(s.freezeEvent));
    next := c.value;
  }

  /**
   The snapshot encoder: it succeeds exactly when the buffer is long enough and both
   messages are sensor data, writes the 92 bytes of the snapshot and nothing behind them.
   */
  method EncodeSnapshotInto(s: Snapshot, out: array<Byte>) returns (used: Option<nat>)
    modifies out
    ensures used == if out.Length >= SNAPSHOT_BYTES && Encodable(s) then Some(SNAPSHOT_BYTES) else None
    ensures used.Some? ==> out[..] == Splice(old(out[..]), 0, SnapshotBytes(s))
    ensures out.Length >= SNAPSHOT_BYTES ==> out[SNAPSHOT_BYTES..] == old(out[SNAPSHOT_BYTES..])
  {
    if out.Length < SNAPSHOT_BYTES { return None; }
    ghost var before := out[..];
    used := PutData(s, out);
    if used.None? { return; }
    var c := PutCodes(s, out, used.value);
    SpliceAppend(before, 0, DataPart(s), CodePart(s));
    c := PutEvents(s, out, c);
    SpliceAppend(before, 0, DataPart(s) + CodePart(s), EventPart(s));
    c := PutLast(s, out, c);
    SpliceAppend(before, 0, DataPart(s) + CodePart(s) + EventPart(s), LastPart(s));
    used := Some(c);
  }
}
