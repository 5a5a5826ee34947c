/**
 The byte format of the retained history as a relation between an image and a snapshot.
 The decoder accepts exactly the images of the format, the encoder produces one.
 */
module SnapshotFormat {
  import opened Words
  import opened Diagnostics
  import opened SnapshotCodec
  import RecordFormats

  // ---------------------------------------------------------------- tables

  predicate CodeImage(b: Byte, code: DiagCode)
  {
    match code
    case MapRange => b == 1
    case TpsRange => b == 2
    case CamMissing => b == 3
    case LowVoltage => b == 4
    case Overvoltage => b == 5
    case MapFailureHighLoad => b == 6
    case TpsMapPlausibility => b == 7
    case KnockDetected => b == 8
    case PersistCrcFault => b == 9
    case OilPressureLow => b == 10
    case FuelPressureLow => b == 11
    case LambdaInvalid => b == 12
  }

  predicate SourceImage(b: Byte, source: DiagSource)
  {
    match source
    case Sensor => b == 1
    case Trigger => b == 2
    case Scheduler => b == 3
    case Safety => b == 4
    case User => b == 5
  }

  predicate FaultImage(b: Byte, fault: FaultCode)
  {
    match fault
    case NoFault => b == 0
    case SyncLoss => b == 1
    case SensorOutOfRange => b == 2
    case CalibrationInvalid => b == 3
    case SafetyCut => b == 4
    case ActuatorFault => b == 5
  }

  predicate OptionalCodeImage(b: Byte, code: Option<DiagCode>)
  {
    match code
    case None => b == 0
    case Some(c) => CodeImage(b, c)
  }

  lemma CodeExactly(b: Byte, code: DiagCode)
    ensures DecodeCode(b) == Some(code) <==> CodeImage(b, code)
  {}

  lemma SourceExactly(b: Byte, source: DiagSource)
    ensures DecodeSource(b) == Some(source) <==> SourceImage(b, source)
  {}

  lemma FaultExactly(b: Byte, fault: FaultCode)
    ensures DecodeFault(b) == Some(fault) <==> FaultImage(b, fault)
  {}

  lemma OptionalCodeExactly(b: Byte, code: Option<DiagCode>)
    ensures DecodeOptionalCode(b) == Some(code) <==> OptionalCodeImage(b, code)
  {
    if code.Some? { CodeExactly(b, code.value); }
  }

  predicate CodesImage(b: seq<Byte>, codes: seq<DiagCode>)
  {
    |b| == |codes| && forall i :: 0 <= i < |b| ==> CodeImage(b[i], codes[i])
  }

  lemma {:induction false} CodesExactly(b: seq<Byte>, codes: seq<DiagCode>)
    ensures DecodeCodes(b) == Some(codes) <==> CodesImage(b, codes)
  {
    if b != [] && codes != [] {
      CodesExactly(b[1..], codes[1..]);
      CodeExactly(b[0], codes[0]);
      assert codes == [codes[0]] + codes[1..];
      FirstAndRest(b, codes);
    }
  }

  lemma FirstAndRest(b: seq<Byte>, codes: seq<DiagCode>)
    requires b != [] && codes != []
    ensures CodesImage(b, codes) <==> CodeImage(b[0], codes[0]) && CodesImage(b[1..], codes[1..])
  {
    if CodeImage(b[0], codes[0]) && CodesImage(b[1..], codes[1..]) {
      forall i | 0 <= i < |b| ensures CodeImage(b[i], codes[i]) {
        if i > 0 { assert b[i] == b[1..][i - 1] && codes[i] == codes[1..][i - 1]; }
      }
    }
  }

  // ---------------------------------------------------------------- sensor data and events

  predicate SensorImage(b: seq<Byte>, m: Message)
  {
    && |b| == 12 && m.SensorData?
    && b[0..2] == Le16(m.mapKpaX10)
    && b[2] == m.tpsPercent && b[3] == m.iatOffset && b[4] == m.cltOffset
    && b[5] == m.voltageX10 && b[6] == m.lambdaX100 && b[7] == m.flags
    && b[8..12] == Le32(m.timestampUs)
  }

  lemma ReadsAs16(b: seq<Byte>, off: nat, x: U16)
    requires off + 2 <= |b|
    ensures U16From(b[off], b[off + 1]) == x <==> b[off..off + 2] == Le16(x)
  {
    U16Parts(b[off], b[off + 1]);
    U16RoundTrip(x);
    var s := b[off..off + 2];
    assert s[0] == b[off] && s[1] == b[off + 1];
    assert s == [b[off], b[off + 1]];
  }

  lemma SensorExactly(b: seq<Byte>, m: Message)
    requires |b| == 12
    ensures DecodeSensor(b) == m <==> SensorImage(b, m)
  {
    if m.SensorData? {
      ReadsAs16(b, 0, m.mapKpaX10);
      RecordFormats.ReadsAs(b, 8, m.timestampUs);
    }
  }

  predicate FilledImage(b: seq<Byte>, e: DiagEvent)
    requires |b| == 20
  {
    && b[0] != 0
    && CodeImage(b[1], e.code) && b[2..6] == Le32(e.timestamp)
    && SourceImage(b[6], e.source)
    && (b[7] == 0 <==> e.context == None)
    && (e.context.Some? ==> b[8..12] == Le32(e.context.value))
    && b[12..16] == Le32(e.startUs) && b[16..20] == Le32(e.endUs)
  }

  predicate EventImage(b: seq<Byte>, event: Option<DiagEvent>)
  {
    |b| == 20 && if event.Some? then FilledImage(b, event.value) else b[0] == 0
  }

  lemma EventExactly(b: seq<Byte>, event: Option<DiagEvent>)
    requires |b| == 20
    ensures DecodeEvent(b) == Some(event) <==> EventImage(b, event)
  {
    if event.Some? {
      var e := event.value;
      CodeExactly(b[1], e.code);
      SourceExactly(b[6], e.source);
      RecordFormats.ReadsAs(b, 2, e.timestamp);
      RecordFormats.ReadsAs(b, 12, e.startUs);
      RecordFormats.ReadsAs(b, 16, e.endUs);
      if e.context.Some? { RecordFormats.ReadsAs(b, 8, e.context.value); }
    }
  }

  // ---------------------------------------------------------------- snapshot and sidecar

  predicate DataImage(b: seq<Byte>, s: Snapshot)
    requires |b| == 92
  {
    && SensorImage(b[0..12], s.currentData)
    && (if b[12] == 0 then s.freezeData == None else s.freezeData.Some? && SensorImage(b[13..25], s.freezeData.value))
  }

  predicate CodePartImage(b: seq<Byte>, s: Snapshot)
    requires |b| == 92
  {
    && CodesImage(b[25..28], s.codes)
    && s.codeCount == (if b[28] < 3 then b[28] else 3)
    && OptionalCodeImage(b[29], s.freezeCode)
  }

  predicate SnapshotImage(b: seq<Byte>, s: Snapshot)
  {
    && |b| == 92 && DataImage(b, s) && CodePartImage(b, s)
    && EventImage(b[30..50], s.currentEvent)
    && EventImage(b[50..70], s.freezeEvent)
    && FaultImage(b[70], s.lastFault)
    && OptionalCodeImage(b[71], s.lastCode)
    && b[72..76] == Le32(s.lastTimestamp)
  }

  lemma DataExactly(b: seq<Byte>, s: Snapshot)
    requires |b| == 92
    ensures DataImage(b, s) <==>
            && DecodeSensor(b[0..12]) == s.currentData
            && s.freezeData == if b[12] == 0 then None else Some(DecodeSensor(b[13..25]))
  {
    SensorExactly(b[0..12], s.currentData);
    if s.freezeData.Some? { SensorExactly(b[13..25], s.freezeData.value); }
  }

  lemma CodePartExactly(b: seq<Byte>, s: Snapshot)
    requires |b| == 92
    ensures CodePartImage(b, s) <==>
            && DecodeCodes(b[25..28]) == Some(s.codes)
            && s.codeCount == MinByte(b[28], 3)
            && DecodeOptionalCode(b[29]) == Some(s.freezeCode)
  {
    CodesExactly(b[25..28], s.codes);
    OptionalCodeExactly(b[29], s.freezeCode);
  }

  lemma SnapshotExactly(b: seq<Byte>, s: Snapshot)
    requires |b| == 92
    ensures DecodeSnapshot(b) == Some(s) <==> SnapshotImage(b, s)
  {
    DataExactly(b, s);
    CodePartExactly(b, s);
    EventExactly(b[30..50], s.currentEvent);
    EventExactly(b[50..70], s.freezeEvent);
    FaultExactly(b[70], s.lastFault);
    OptionalCodeExactly(b[71], s.lastCode);
    RecordFormats.ReadsAs(b, 72, s.lastTimestamp);
  }

  /** The magic number's bytes, version 1, the length 92 and the snapshot. */
  predicate SidecarImage(b: seq<Byte>, s: Snapshot)
  {
    && |b| == 100
    && b[0..4] == [0x4F, 0x42, 0x44, 0x32] && b[4..6] == [1, 0] && b[6..8] == [92, 0]
    && SnapshotImage(b[8..], s)
  }

  lemma SidecarFrame()
    ensures Le32(SIDECAR_MAGIC) == [0x4F, 0x42, 0x44, 0x32] && Le16(1) == [1, 0] && Le16(92) == [92, 0]
  {}

  lemma SidecarImageRead(b: seq<Byte>, s: Snapshot)
    requires |b| == 100
    ensures DecodeSidecar(b) == Some(s) <==> SidecarImage(b, s)
  {
    SidecarFrame();
    RecordFormats.ReadsAs(b, 0, SIDECAR_MAGIC);
    ReadsAs16(b, 4, 1);
    ReadsAs16(b, 6, 92);
    SnapshotExactly(b[8..], s);
  }

  lemma SidecarExactly(b: seq<Byte>, s: Snapshot)
    requires |b| == 100
    ensures DecodeSidecar(b) == Some(s) <==> SidecarImage(b, s)
    ensures Encodable(s) ==> SidecarImage(SidecarBytes(s), ClampCount(s))
  {
    SidecarImageRead(b, s);
    if Encodable(s) {
      SidecarRoundTrip(s);
      SidecarImageRead(SidecarBytes(s), ClampCount(s));
    }
  }
}
