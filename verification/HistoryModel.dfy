/**
 The retained diagnostic history as a value: what observing, clearing, taking a snapshot
 and restoring do to it, and what it stands for, namely the first three distinct codes
 and the first event since it was last cleared.
 */
module HistoryModel {
  import opened Words
  import opened Diagnostics

  datatype History = History(
    currentData: Message,
    freezeData: Option<Message>,
    codes: Codes,
    count: nat,
    freezeCode: Option<DiagCode>,
    currentEvent: Option<DiagEvent>,
    freezeEvent: Option<DiagEvent>,
    lastFault: FaultCode,
    lastCode: Option<DiagCode>,
    lastTimestamp: U32)
  {
    predicate InBounds() { count <= CODE_CAP }

    function Stored(): seq<DiagCode>
      requires InBounds()
    {
      codes[..count]
    }
  }

  const NO_CODES: Codes := [MapRange, MapRange, MapRange]

  function Fresh(data: Message): History
  {
    History(data, None, NO_CODES, 0, None, None, None, NoFault, None, 0)
  }

  function Cleared(h: History): History
  {
    History(h.currentData, None, h.codes, 0, None, None, None, NoFault, None, 0)
  }

  // ---------------------------------------------------------------- observing one event

  function Pushed(h: History, code: DiagCode): (r: History)
    requires h.InBounds()
    ensures r.InBounds()
  {
    if code in h.Stored() || h.count >= CODE_CAP then h
    else h.(codes := h.codes[h.count := code], count := h.count + 1)
  }

  function Frozen(h: History, e: DiagEvent): History
  {
    if h.freezeCode.Some? then h
    else h.(freezeCode := Some(e.code), freezeEvent := Some(e), freezeData := Some(h.currentData))
  }

  predicate Repeats(h: History, e: DiagEvent) { h.lastCode == Some(e.code) && h.lastTimestamp == e.timestamp }

  function Observed(h: History, e: DiagEvent): (r: History)
    requires h.InBounds()
    ensures r.InBounds()
  {
    if Repeats(h, e) then h
    else Frozen(Pushed(h, e.code), e).(lastCode := Some(e.code), lastTimestamp := e.timestamp)
  }

  function ObservedAll(h: History, events: seq<DiagEvent>): (r: History)
    requires h.InBounds()
    ensures r.InBounds()
  {
    if events == [] then h
    else Observed(ObservedAll(h, events[..|events| - 1]), events[|events| - 1])
  }

  // ---------------------------------------------------------------- observing live state

  type LogSlots = s: seq<Option<DiagEvent>> | |s| == 16 witness seq(16, _ => None)
  type RecentSlots = s: seq<Option<DiagEvent>> | |s| == 2 witness seq(2, _ => None)

  datatype Live = Live(
    faultState: FaultState, event: Option<DiagEvent>, log: LogSlots, recent: RecentSlots, data: Message)

  datatype FaultAction = NoAction | ObserveOnly | LimpHome | Shutdown

  function ActionFor(f: FaultState): FaultAction
  {
    if f.fault.NoFault? then NoAction
    else if f.cancelReason.SafetyShutdown? || f.severity.Critical? || f.fault.SafetyCut? then Shutdown
    else if f.severity.Warning? || f.fault.SensorOutOfRange? then LimpHome
    else ObserveOnly
  }

  function CodeForFault(fault: FaultCode): Option<DiagCode>
  {
    match fault
    case NoFault => None
    case SyncLoss => Some(CamMissing)
    case SensorOutOfRange => Some(MapRange)
    case CalibrationInvalid => Some(PersistCrcFault)
    case SafetyCut => Some(MapFailureHighLoad)
    case ActuatorFault => Some(TpsMapPlausibility)
  }

  function SourceForFault(fault: FaultCode): DiagSource
  {
    match fault
    case NoFault => Safety
    case SyncLoss => Trigger
    case SensorOutOfRange => Sensor
    case CalibrationInvalid => User
    case SafetyCut => Safety
    case ActuatorFault => Sensor
  }

  function ContextForFault(fault: FaultCode, data: Message): Option<U32>
  {
    if data.Other? then None
    else match fault
      case SensorOutOfRange => Some(Widened(data.mapKpaX10))
      case SafetyCut => Some(Widened(data.mapKpaX10))
      case ActuatorFault => Some(WidenedByte(data.tpsPercent))
      case _ => None
  }

  /** The event a live fault stands for. */
  function FaultEvent(f: FaultState, data: Message): Option<DiagEvent>
  {
    if ActionFor(f).NoAction? then None
    else match CodeForFault(f.fault)
      case None => None
      case Some(code) =>
        var timestamp := if data.SensorData? then data.timestampUs else 0;
        Some(DiagEvent(code, timestamp, SourceForFault(f.fault), ContextForFault(f.fault, data), timestamp, timestamp))
  }

  /** Every fault but none stands for an event, with a code of its own and the time of the sensor data. */
  lemma FaultEventExact(f: FaultState, g: FaultState, data: Message)
    ensures FaultEvent(f, data).None? <==> f.fault == NoFault
    ensures FaultEvent(f, data).Some? && FaultEvent(g, data).Some? ==>
              (FaultEvent(f, data).value.code == FaultEvent(g, data).value.code <==> f.fault == g.fault)
    ensures FaultEvent(f, data).Some? && data.SensorData? ==>
              var e := FaultEvent(f, data).value; e.timestamp == e.startUs == e.endUs == data.timestampUs
  {}

  function Present(slots: seq<Option<DiagEvent>>): seq<DiagEvent>
  {
    if slots == [] then []
    else Present(slots[..|slots| - 1]) +
         match slots[|slots| - 1] case None => [] case Some(e) => [e]
  }

  function CurrentEvent(live: Live): Option<DiagEvent>
  {
    if live.event.Some? then live.event else FaultEvent(live.faultState, live.data)
  }

  /** The events one observation ingests: the logs, or else a live fault that was not there before. */
  function Ingested(h: History, live: Live): seq<DiagEvent>
  {
    var logged := Present(live.log) + Present(live.recent);
    var fault := FaultEvent(live.faultState, live.data);
    if logged != [] then logged
    else if fault.Some? && live.faultState.fault != h.lastFault then [fault.value]
    else []
  }

  function Begun(h: History, live: Live): (r: History)
    ensures r.InBounds() == h.InBounds()
  {
    h.(currentData := live.data, currentEvent := CurrentEvent(live))
  }

  function ObservedLive(h: History, live: Live): (r: History)
    requires h.InBounds()
    ensures r.InBounds()
  {
    ObservedAll(Begun(h, live), Ingested(h, live)).(lastFault := live.faultState.fault)
  }

  // ---------------------------------------------------------------- what it stands for

  /** An ingested event and the sensor data current at the time. */
  datatype Ingest = Ingest(event: DiagEvent, data: Message)

  function Distinct(past: seq<Ingest>): seq<DiagCode>
  {
    if past == [] then []
    else
      var before := Distinct(past[..|past| - 1]);
      var code := past[|past| - 1].event.code;
      if code in before then before else before + [code]
  }

  function FirstThree(codes: seq<DiagCode>): seq<DiagCode>
  {
    if |codes| <= CODE_CAP then codes else codes[..CODE_CAP]
  }

  predicate FreezeIsFirst(h: History, past: seq<Ingest>)
  {
    if past == [] then h.freezeCode.None? && h.freezeEvent.None? && h.freezeData.None?
    else h.freezeCode == Some(past[0].event.code) && h.freezeEvent == Some(past[0].event)
         && h.freezeData == Some(past[0].data)
  }

  predicate LastIsLast(h: History, past: seq<Ingest>)
  {
    if past == [] then h.lastCode.None?
    else
      var last := past[|past| - 1].event;
      h.lastCode == Some(last.code) && h.lastTimestamp == last.timestamp
  }

  /** The history remembers exactly this much of everything ingested since the last clear. */
  predicate StandsFor(h: History, past: seq<Ingest>)
  {
    h.InBounds() && h.Stored() == FirstThree(Distinct(past)) && FreezeIsFirst(h, past) && LastIsLast(h, past)
  }

  lemma LastCodeIsDistinct(past: seq<Ingest>)
    requires past != []
    ensures past[|past| - 1].event.code in Distinct(past)
  {}

  lemma DistinctStep(past: seq<Ingest>, i: Ingest)
    ensures Distinct(past + [i]) ==
            if i.event.code in Distinct(past) then Distinct(past) else Distinct(past) + [i.event.code]
  {
    assert (past + [i])[..|past|] == past;
  }

  /** Storing a code keeps the first three distinct ones, in order. */
  lemma PushedStandsFor(h: History, before: seq<DiagCode>, code: DiagCode)
    requires h.InBounds() && h.Stored() == FirstThree(before)
    ensures Pushed(h, code).Stored() == FirstThree(if code in before then before else before + [code])
  {
    if code !in h.Stored() && h.count < CODE_CAP {
      assert code !in before;
      assert Pushed(h, code).Stored() == h.Stored() + [code];
    }
  }

  lemma ObservedStandsFor(h: History, past: seq<Ingest>, e: DiagEvent)
    requires StandsFor(h, past)
    ensures StandsFor(Observed(h, e), past + [Ingest(e, h.currentData)])
  {
    var i := Ingest(e, h.currentData);
    DistinctStep(past, i);
    if Repeats(h, e) {
      LastCodeIsDistinct(past);
    } else {
      PushedStandsFor(h, Distinct(past), e.code);
    }
  }

  function WithData(events: seq<DiagEvent>, data: Message): (r: seq<Ingest>)
    ensures |r| == |events|
  {
    if events == [] then [] else WithData(events[..|events| - 1], data) + [Ingest(events[|events| - 1], data)]
  }

  lemma {:induction false} ObservedAllStandsFor(h: History, past: seq<Ingest>, events: seq<DiagEvent>)
    requires StandsFor(h, past)
    ensures StandsFor(ObservedAll(h, events), past + WithData(events, h.currentData))
    ensures ObservedAll(h, events).currentData == h.currentData
  {
    if events == [] {
      assert past + WithData(events, h.currentData) == past;
    } else {
      var before, e := events[..|events| - 1], events[|events| - 1];
      ObservedAllStandsFor(h, past, before);
      ObservedStandsFor(ObservedAll(h, before), past + WithData(before, h.currentData), e);
      assert past + WithData(before, h.currentData) + [Ingest(e, h.currentData)] == past + WithData(events, h.currentData);
    }
  }

  /** One observation extends what the history stands for by exactly the events it ingests. */
  lemma LiveStandsFor(h: History, past: seq<Ingest>, live: Live)
    requires StandsFor(h, past)
    ensures StandsFor(ObservedLive(h, live), past + WithData(Ingested(h, live), live.data))
  {
    assert StandsFor(Begun(h, live), past);
    ObservedAllStandsFor(Begun(h, live), past, Ingested(h, live));
  }
}
