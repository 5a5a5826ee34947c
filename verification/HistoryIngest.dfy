/**
 Which events an observation takes in, and in what order, said by the slots they stand
 in; and which codes are the first distinct ones, said by where they first occur.
 */
module HistoryIngest {
  import opened Words
  import opened Diagnostics
  import opened HistoryModel
  import opened HistoryLaws

  // ---------------------------------------------------------------- filled slots in order

  /** These positions are exactly the filled slots, in order, and hold exactly these events. */
  predicate InSlotOrder(slots: seq<Option<DiagEvent>>, events: seq<DiagEvent>, at: seq<nat>)
  {
    && |at| == |events|
    && (forall k :: 0 <= k < |at| ==> at[k] < |slots| && slots[at[k]] == Some(events[k]))
    && (forall j, k :: 0 <= j < k < |at| ==> at[j] < at[k])
    && (forall i :: 0 <= i < |slots| && slots[i].Some? ==> i in at)
  }

  /** Every filled slot occurs exactly once, an earlier slot before a later one. */
  ghost predicate FilledSlots(slots: seq<Option<DiagEvent>>, events: seq<DiagEvent>)
  {
    exists at: seq<nat> :: InSlotOrder(slots, events, at)
  }

  function FilledAt(slots: seq<Option<DiagEvent>>): seq<nat>
  {
    if slots == [] then []
    else FilledAt(slots[..|slots| - 1]) + if slots[|slots| - 1].Some? then [|slots| - 1] else []
  }

  lemma OneMoreSlot(slots: seq<Option<DiagEvent>>, events: seq<DiagEvent>, at: seq<nat>, e: DiagEvent)
    requires slots != [] && slots[|slots| - 1] == Some(e) && InSlotOrder(slots[..|slots| - 1], events, at)
    ensures InSlotOrder(slots, events + [e], at + [|slots| - 1])
  {
    var more := at + [|slots| - 1];
    forall i | 0 <= i < |slots| && slots[i].Some? ensures i in more {
      if i < |slots| - 1 {
        assert slots[..|slots| - 1][i].Some?;
        assert i in at;
      } else {
        assert more[|at|] == i;
      }
    }
  }

  lemma OneEmptySlot(slots: seq<Option<DiagEvent>>, events: seq<DiagEvent>, at: seq<nat>)
    requires slots != [] && slots[|slots| - 1] == None && InSlotOrder(slots[..|slots| - 1], events, at)
    ensures InSlotOrder(slots, events, at)
  {
    forall i | 0 <= i < |slots| && slots[i].Some? ensures i in at {
      assert slots[..|slots| - 1][i].Some?;
    }
  }

  lemma {:induction false} PresentInOrder(slots: seq<Option<DiagEvent>>)
    ensures InSlotOrder(slots, Present(slots), FilledAt(slots))
  {
    if slots != [] {
      var before := slots[..|slots| - 1];
      PresentInOrder(before);
      match slots[|slots| - 1]
      case None =>
        assert Present(slots) == Present(before) && FilledAt(slots) == FilledAt(before);
        OneEmptySlot(slots, Present(before), FilledAt(before));
      case Some(e) => OneMoreSlot(slots, Present(before), FilledAt(before), e);
    }
  }

  lemma {:induction false} PresentOfConcat(xs: seq<Option<DiagEvent>>, ys: seq<Option<DiagEvent>>)
    ensures Present(xs + ys) == Present(xs) + Present(ys)
    decreases |ys|
  {
    if ys == [] {
      assert xs + ys == xs;
    } else {
      PresentOfConcat(xs, ys[..|ys| - 1]);
      assert (xs + ys)[..|xs + ys| - 1] == xs + ys[..|ys| - 1];
    }
  }

  // ---------------------------------------------------------------- one observation

  /** The event that a live fault stands for. */
  predicate Describes(e: DiagEvent, fault: FaultCode, data: Message)
  {
    var mapKpa := if data.SensorData? then Some(Widened(data.mapKpaX10)) else None;
    var tps := if data.SensorData? then Some(WidenedByte(data.tpsPercent)) else None;
    && e.timestamp == (if data.SensorData? then data.timestampUs else 0) && e.startUs == e.timestamp == e.endUs
    && match fault
       case NoFault => false
       case SyncLoss => e.code == CamMissing && e.source == Trigger && e.context == None
       case SensorOutOfRange => e.code == MapRange && e.source == Sensor && e.context == mapKpa
       case CalibrationInvalid => e.code == PersistCrcFault && e.source == User && e.context == None
       case SafetyCut => e.code == MapFailureHighLoad && e.source == Safety && e.context == mapKpa
       case ActuatorFault => e.code == TpsMapPlausibility && e.source == Sensor && e.context == tps
  }

  lemma FaultDescribed(f: FaultState, data: Message)
    ensures if f.fault == NoFault then FaultEvent(f, data) == None
            else FaultEvent(f, data).Some? && Describes(FaultEvent(f, data).value, f.fault, data)
  {}

  predicate AnyFilled(slots: seq<Option<DiagEvent>>) { exists i :: 0 <= i < |slots| && slots[i].Some? }

  function EventsOf(ext: seq<Ingest>): (events: seq<DiagEvent>)
    ensures |events| == |ext| && forall k :: 0 <= k < |ext| ==> events[k] == ext[k].event
  {
    seq(|ext|, k requires 0 <= k < |ext| => ext[k].event)
  }

  /**
   What one observation adds to the past: the filled slots of the log and then of the
   recent events, in slot order; if none is filled, the one event of a fault that was not
   there before; otherwise nothing. All of it with the sensor data of the moment.
   */
  ghost predicate Grows(live: Live, lastFault: FaultCode, ext: seq<Ingest>)
  {
    && (forall k :: 0 <= k < |ext| ==> ext[k].data == live.data)
    && if AnyFilled(live.log + live.recent) then FilledSlots(live.log + live.recent, EventsOf(ext))
       else if live.faultState.fault != NoFault && live.faultState.fault != lastFault then
         |ext| == 1 && Describes(ext[0].event, live.faultState.fault, live.data)
       else ext == []
  }

  lemma {:induction false} WithDataExactly(events: seq<DiagEvent>, data: Message)
    ensures EventsOf(WithData(events, data)) == events
    ensures forall k :: 0 <= k < |events| ==> WithData(events, data)[k] == Ingest(events[k], data)
  {
    if events != [] { WithDataExactly(events[..|events| - 1], data); }
  }

  lemma FilledIffPresent(slots: seq<Option<DiagEvent>>)
    ensures AnyFilled(slots) <==> Present(slots) != []
  {
    PresentInOrder(slots);
    if Present(slots) != [] { assert slots[FilledAt(slots)[0]].Some?; }
  }

  lemma IngestedGrows(h: History, live: Live)
    ensures Grows(live, h.lastFault, WithData(Ingested(h, live), live.data))
  {
    var slots, events := live.log + live.recent, Ingested(h, live);
    PresentOfConcat(live.log, live.recent);
    FilledIffPresent(slots);
    FaultDescribed(live.faultState, live.data);
    WithDataExactly(events, live.data);
    if AnyFilled(slots) {
      PresentInOrder(slots);
      assert InSlotOrder(slots, events, FilledAt(slots));
    }
  }

  /** The current event is the live one, or else that of the live fault. */
  predicate ShowsCurrent(live: Live, current: Option<DiagEvent>)
  {
    if live.event.Some? then current == live.event
    else if live.faultState.fault == NoFault then current == None
    else current.Some? && Describes(current.value, live.faultState.fault, live.data)
  }

  lemma CurrentShown(live: Live)
    ensures ShowsCurrent(live, CurrentEvent(live))
  {
    FaultDescribed(live.faultState, live.data);
  }

  /** One observation: what is shown now, and what the history stands for afterwards. */
  lemma ObservedLiveExactly(h: History, past: seq<Ingest>, live: Live) returns (ext: seq<Ingest>)
    requires StandsFor(h, past)
    ensures Grows(live, h.lastFault, ext) && StandsFor(ObservedLive(h, live), past + ext)
    ensures var after := ObservedLive(h, live);
            after.currentData == live.data && after.lastFault == live.faultState.fault && ShowsCurrent(live, after.currentEvent)
  {
    ext := WithData(Ingested(h, live), live.data);
    IngestedGrows(h, live);
    LiveStandsFor(h, past, live);
    CurrentShown(live);
    PassSetsLast(Begun(h, live), Ingested(h, live));
  }

  // ---------------------------------------------------------------- first occurrences

  /** These are the codes of the past without repetitions, at the positions where they first occur. */
  predicate FirstOccurrences(past: seq<Ingest>, codes: seq<DiagCode>, at: seq<nat>)
  {
    Placed(past, codes, at) && Ordered(codes, at) && Complete(past, codes, at)
  }

  predicate Placed(past: seq<Ingest>, codes: seq<DiagCode>, at: seq<nat>)
  {
    |at| == |codes| && forall k :: 0 <= k < |at| ==> at[k] < |past| && past[at[k]].event.code == codes[k]
  }

  predicate Ordered(codes: seq<DiagCode>, at: seq<nat>)
    requires |at| == |codes|
  {
    forall j, k :: 0 <= j < k < |at| ==> at[j] < at[k] && codes[j] != codes[k]
  }

  /** No code occurs before the position given for it. */
  predicate Complete(past: seq<Ingest>, codes: seq<DiagCode>, at: seq<nat>)
    requires |at| == |codes|
  {
    forall i {:trigger OccursBy(codes, at, past[i].event.code, i)} ::
      0 <= i < |past| ==> OccursBy(codes, at, past[i].event.code, i)
  }

  predicate OccursBy(codes: seq<DiagCode>, at: seq<nat>, code: DiagCode, i: nat)
    requires |at| == |codes|
  {
    exists k :: 0 <= k < |codes| && codes[k] == code && at[k] <= i
  }

  function FirstAt(past: seq<Ingest>): seq<nat>
  {
    if past == [] then []
    else
      var before := past[..|past| - 1];
      FirstAt(before) + if past[|past| - 1].event.code in Distinct(before) then [] else [|past| - 1]
  }

  lemma PlacedLater(past: seq<Ingest>, n: nat, codes: seq<DiagCode>, at: seq<nat>)
    requires n <= |past| && Placed(past[..n], codes, at)
    ensures Placed(past, codes, at)
  {
    forall k | 0 <= k < |at| ensures at[k] < |past| && past[at[k]].event.code == codes[k] {
      assert at[k] < |past[..n]| && past[..n][at[k]] == past[at[k]];
    }
  }

  lemma OccursInMore(codes: seq<DiagCode>, at: seq<nat>, code: DiagCode, n: nat, other: DiagCode, i: nat)
    requires |at| == |codes|
    ensures OccursBy(codes, at, other, i) ==> OccursBy(codes + [code], at + [n], other, i)
    ensures OccursBy(codes + [code], at + [n], code, n)
  {
    if OccursBy(codes, at, other, i) {
      var k :| 0 <= k < |codes| && codes[k] == other && at[k] <= i;
      assert (codes + [code])[k] == other && (at + [n])[k] <= i;
    }
    assert (codes + [code])[|codes|] == code;
  }

  lemma OccursEarlier(past: seq<Ingest>, n: nat, codes: seq<DiagCode>, at: seq<nat>, i: nat)
    requires |at| == |codes| && n <= |past| && Complete(past[..n], codes, at) && i < n
    ensures OccursBy(codes, at, past[i].event.code, i)
  {
    assert past[..n][i] == past[i];
    assert OccursBy(codes, at, past[..n][i].event.code, i);
  }

  lemma OneMoreCode(past: seq<Ingest>, codes: seq<DiagCode>, at: seq<nat>)
    requires past != [] && FirstOccurrences(past[..|past| - 1], codes, at) && past[|past| - 1].event.code !in codes
    ensures FirstOccurrences(past, codes + [past[|past| - 1].event.code], at + [|past| - 1])
  {
    var n, code := |past| - 1, past[|past| - 1].event.code;
    PlacedLater(past, n, codes, at);
    assert Placed(past, codes + [code], at + [n]);
    assert forall k :: 0 <= k < |at| ==> at[k] < |past[..n]|;
    assert Ordered(codes + [code], at + [n]);
    forall i | 0 <= i < |past| ensures OccursBy(codes + [code], at + [n], past[i].event.code, i) {
      if i < n { OccursEarlier(past, n, codes, at, i); }
      OccursInMore(codes, at, code, n, past[i].event.code, i);
    }
  }

  lemma OccursAtLast(before: seq<Ingest>, codes: seq<DiagCode>, at: seq<nat>, code: DiagCode)
    requires Placed(before, codes, at) && code in codes
    ensures OccursBy(codes, at, code, |before|)
  {
    var k :| 0 <= k < |codes| && codes[k] == code;
    assert at[k] < |before|;
  }

  lemma RepeatedCode(past: seq<Ingest>, codes: seq<DiagCode>, at: seq<nat>)
    requires past != [] && FirstOccurrences(past[..|past| - 1], codes, at) && past[|past| - 1].event.code in codes
    ensures FirstOccurrences(past, codes, at)
  {
    var n := |past| - 1;
    PlacedLater(past, n, codes, at);
    OccursAtLast(past[..n], codes, at, past[n].event.code);
    forall i | 0 <= i < |past| ensures OccursBy(codes, at, past[i].event.code, i) {
      if i < n { OccursEarlier(past, n, codes, at, i); }
    }
  }

  /** The codes a history keeps the first three of are exactly those that occurred, in the order of their first occurrence. */
  lemma {:induction false} DistinctExactly(past: seq<Ingest>)
    ensures FirstOccurrences(past, Distinct(past), FirstAt(past))
  {
    if past != [] {
      var before := past[..|past| - 1];
      DistinctExactly(before);
      if past[|past| - 1].event.code in Distinct(before) {
        assert FirstAt(past) == FirstAt(before);
        RepeatedCode(past, Distinct(before), FirstAt(before));
      } else {
        OneMoreCode(past, Distinct(before), FirstAt(before));
      }
    }
  }
}
