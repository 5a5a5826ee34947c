/**
 The retained history as the adapter owns it, updated in place.
 */
module RetainedHistory {
  import opened Words
  import opened Diagnostics
  import opened HistoryModel
  import opened HistoryLaws
  import opened HistoryIngest

  class DiagnosticHistory {
    var currentData: Message
    var freezeData: Option<Message>
    const codes: array<DiagCode>
    var count: nat
    var freezeCode: Option<DiagCode>
    var currentEvent: Option<DiagEvent>
    var freezeEvent: Option<DiagEvent>
    var lastFault: FaultCode
    var lastCode: Option<DiagCode>
    var lastTimestamp: U32

    /** Everything ingested since the history was created or last cleared. */
    ghost var past: seq<Ingest>

    ghost predicate Shape()
      reads this
    {
      codes.Length == CODE_CAP && count <= CODE_CAP
    }

    ghost function Now(): History
      requires Shape()
      reads this, codes
    {
      History(currentData, freezeData, codes[..], count, freezeCode, currentEvent, freezeEvent, lastFault, lastCode,
              lastTimestamp)
    }

    /** The fields remember of the past exactly what they should. */
    ghost predicate Valid()
      reads this, codes
    {
      Shape() && StandsFor(Now(), past)
    }

    constructor (data: Message)
      ensures Valid() && fresh(codes) && Now() == Fresh(data) && past == []
      ensures currentData == data && count == 0 && currentEvent == None && lastFault == NoFault
    {
      codes := new DiagCode[CODE_CAP](_ => MapRange);
      currentData, freezeData, count, freezeCode := data, None, 0, None;
      currentEvent, freezeEvent, lastFault, lastCode, lastTimestamp := None, None, NoFault, None, 0;
      past := [];
      new;
      assert codes[..] == NO_CODES;
    }

    /** Looks the code up among those stored, and appends it if it is new and there is room. */
    method PushStored(code: DiagCode)
      requires Shape()
      modifies this`count, codes
      ensures Shape() && Now() == Pushed(old(Now()), code)
    {
      var i := 0;
      while i < count
        invariant 0 <= i <= count
        invariant code !in codes[..i]
      {
        if codes[i] == code {
          assert codes[..count][i] == code;
          return;
        }
        i := i + 1;
      }
      if count >= CODE_CAP { return; }
      codes[count] := code;
      count := count + 1;
    }

    method ObserveEvent(e: DiagEvent)
      requires Shape()
      modifies this`count, this`freezeCode, this`freezeEvent, this`freezeData, this`lastCode, this`lastTimestamp, codes
      ensures Shape() && Now() == Observed(old(Now()), e)
    {
      if lastCode == Some(e.code) && lastTimestamp == e.timestamp { return; }
      PushStored(e.code);
      if freezeCode.None? {
        freezeCode, freezeEvent, freezeData := Some(e.code), Some(e), Some(currentData);
      }
      lastCode, lastTimestamp := Some(e.code), e.timestamp;
    }

    /** One pass over optional events; says whether there was any. */
    method ObserveSlots(slots: seq<Option<DiagEvent>>) returns (any: bool)
      requires Shape()
      modifies this`count, this`freezeCode, this`freezeEvent, this`freezeData, this`lastCode, this`lastTimestamp, codes
      ensures Shape() && Now() == ObservedAll(old(Now()), Present(slots))
      ensures any <==> Present(slots) != []
    {
      any := false;
      var i := 0;
      while i < |slots|
        invariant 0 <= i <= |slots| && Shape()
        invariant Now() == ObservedAll(old(Now()), Present(slots[..i]))
        invariant any <==> Present(slots[..i]) != []
      {
        PresentAt(slots, i);
        if slots[i].Some? {
          any := true;
          ObservedStep(old(Now()), Present(slots[..i]), slots[i].value);
          ObserveEvent(slots[i].value);
        }
        i := i + 1;
      }
      assert slots[..i] == slots;
    }

    method Ingest(live: Live, ghost start: History)
      requires Shape() && start.InBounds() && Now() == Begun(start, live)
      modifies this`count, this`freezeCode, this`freezeEvent, this`freezeData, this`lastCode, this`lastTimestamp, codes
      ensures Shape() && Now() == ObservedAll(Begun(start, live), Ingested(start, live))
    {
      ghost var begun := Now();
      var logged := ObserveSlots(live.log);
      var recent := ObserveSlots(live.recent);
      ObservedConcat(begun, Present(live.log), Present(live.recent));
      if !logged && !recent {
        assert Now() == begun;
        var fault := FaultEvent(live.faultState, live.data);
        if fault.Some? && live.faultState.fault != lastFault {
          ObservedStep(begun, [], fault.value);
          assert [] + [fault.value] == [fault.value];
          ObserveEvent(fault.value);
        }
      }
    }

    /** Takes in live state, as specified. */
    method TakeIn(live: Live)
      requires Shape()
      modifies this, codes
      ensures Shape() && Now() == ObservedLive(old(Now()), live)
      ensures past == old(past) + WithData(Ingested(old(Now()), live), live.data)
      ensures old(Valid()) ==> Valid()
    {
      ghost var start, before := Now(), past;
      past := past + WithData(Ingested(start, live), live.data);
      currentData := live.data;
      currentEvent := if live.event.Some? then live.event else FaultEvent(live.faultState, live.data);
      Ingest(live, start);
      lastFault := live.faultState.fault;
      if StandsFor(start, before) { LiveStandsFor(start, before, live); }
    }

    /**
     Takes in live state. What the history stands for grows by the filled slots of the log
     and then of the recent events, in order, or else by the event of a new fault, with
     the sensor data they came with; and the live event, data and fault are the current ones.
     */
    method ObserveLive(live: Live)
      requires Shape()
      modifies this, codes
      ensures Shape() && Now() == ObservedLive(old(Now()), live)
      ensures past == old(past) + WithData(Ingested(old(Now()), live), live.data)
      ensures old(past) <= past && Grows(live, old(lastFault), past[|old(past)|..])
      ensures currentData == live.data && lastFault == live.faultState.fault && ShowsCurrent(live, currentEvent)
      ensures old(Valid()) ==> Valid()
    {
      ghost var start, before := Now(), past;
      TakeIn(live);
      IngestedGrows(start, live);
      CurrentShown(live);
      PassSetsLast(Begun(start, live), Ingested(start, live));
      assert past[|before|..] == WithData(Ingested(start, live), live.data);
    }

    /** Forgets everything but the sensor data last seen. */
    method Clear()
      requires Shape()
      modifies this
      ensures Valid() && Now() == Cleared(old(Now())) && past == []
      ensures currentData == old(currentData) && currentEvent == None && lastFault == NoFault && lastTimestamp == 0
    {
      ghost var start := Now();
      freezeData, count, freezeCode, currentEvent, freezeEvent := None, 0, None, None, None;
      lastFault, lastCode, lastTimestamp := NoFault, None, 0;
      past := [];
      assert Now() == Cleared(start);
      FreshAndClearedStandForNothing(start, currentData);
    }

    method TakeSnapshot() returns (s: Snapshot)
      requires Shape()
      ensures s == Captured(Now())
      ensures s.currentData == currentData && s.freezeData == freezeData && s.codes == codes[..]
      ensures s.freezeCode == freezeCode && s.currentEvent == currentEvent && s.freezeEvent == freezeEvent
      ensures s.lastFault == lastFault && s.lastCode == lastCode && s.lastTimestamp == lastTimestamp
    {
      s := Snapshot(currentData, freezeData, codes[..], CountByte(count), freezeCode, currentEvent, freezeEvent,
                    lastFault, lastCode, lastTimestamp);
    }

    /** Takes over any snapshot. If it was taken of a history with this past, that is the past from now on. */
    method Restore(s: Snapshot, ghost of: seq<Ingest>)
      requires Shape()
      modifies this, codes
      ensures Shape() && Now() == Restored(s) && past == of
      ensures currentData == s.currentData && freezeData == s.freezeData && codes[..] == s.codes
      ensures freezeCode == s.freezeCode && currentEvent == s.currentEvent && freezeEvent == s.freezeEvent
      ensures lastFault == s.lastFault && lastCode == s.lastCode && lastTimestamp == s.lastTimestamp
      ensures StandsFor(Restored(s), of) ==> Valid()
    {
      forall i | 0 <= i < codes.Length { codes[i] := s.codes[i]; }
      assert codes[..] == s.codes;
      currentData, freezeData, count := s.currentData, s.freezeData, ByteCount(s.codeCount);
      freezeCode, currentEvent, freezeEvent := s.freezeCode, s.currentEvent, s.freezeEvent;
      lastFault, lastCode, lastTimestamp := s.lastFault, s.lastCode, s.lastTimestamp;
      past := of;
      assert Now() == Restored(s);
    }
  }
}
