/**
 Laws of the retained history: when observing the same live state twice is the same as
 observing it once, and that a history survives its snapshot, the snapshot's bytes, and
 restoring.
 */
module HistoryLaws {
  import opened Words
  import opened Diagnostics
  import opened HistoryModel
  import SnapshotCodec

  // ---------------------------------------------------------------- observing twice

  /** Storing this code again would change nothing. */
  predicate Settled(h: History, code: DiagCode)
    requires h.InBounds()
  {
    code in h.Stored() || h.count == CODE_CAP
  }

  predicate LastSettled(h: History)
    requires h.InBounds()
  {
    h.lastCode.Some? ==> Settled(h, h.lastCode.value)
  }

  lemma PushedSettles(h: History, code: DiagCode, other: DiagCode)
    requires h.InBounds()
    ensures Settled(Pushed(h, code), code)
    ensures Settled(h, other) ==> Settled(Pushed(h, code), other)
    ensures Settled(h, code) ==> Pushed(h, code) == h
  {
    var after := Pushed(h, code);
    if after != h {
      assert after.codes[h.count] == code;
      assert after.Stored()[h.count] == code;
      assert after.Stored()[..h.count] == h.Stored();
    }
  }

  lemma ObservedSettles(h: History, e: DiagEvent, other: DiagCode)
    requires h.InBounds() && LastSettled(h)
    ensures LastSettled(Observed(h, e)) && Settled(Observed(h, e), e.code) && Repeats(Observed(h, e), e)
    ensures Settled(h, other) ==> Settled(Observed(h, e), other)
  {
    PushedSettles(h, e.code, other);
  }

  lemma {:induction false} AllSettle(h: History, events: seq<DiagEvent>)
    requires h.InBounds() && LastSettled(h)
    ensures LastSettled(ObservedAll(h, events))
    ensures forall i :: 0 <= i < |events| ==> Settled(ObservedAll(h, events), events[i].code)
  {
    if events != [] {
      var before, e := events[..|events| - 1], events[|events| - 1];
      AllSettle(h, before);
      var mid := ObservedAll(h, before);
      forall i | 0 <= i < |events| ensures Settled(Observed(mid, e), events[i].code) {
        ObservedSettles(mid, e, events[i].code);
        assert i < |before| ==> events[i] == before[i];
      }
      ObservedSettles(mid, e, e.code);
    }
  }

  /** A pass over events either changes nothing, because each repeats the last one, or leaves a freeze frame. */
  lemma {:induction false} PassFreezes(h: History, events: seq<DiagEvent>)
    requires h.InBounds()
    ensures ObservedAll(h, events).freezeCode.Some? ||
            (ObservedAll(h, events) == h && forall i :: 0 <= i < |events| ==> Repeats(h, events[i]))
  {
    if events != [] { PassFreezes(h, events[..|events| - 1]); }
  }

  lemma {:induction false} RepeatsOnly(h: History, events: seq<DiagEvent>)
    requires h.InBounds() && forall i :: 0 <= i < |events| ==> Repeats(h, events[i])
    ensures ObservedAll(h, events) == h
  {
    if events != [] {
      var before := events[..|events| - 1];
      assert forall i :: 0 <= i < |before| ==> before[i] == events[i];
      RepeatsOnly(h, before);
    }
  }

  function WithLast(h: History, events: seq<DiagEvent>): History
  {
    if events == [] then h
    else h.(lastCode := Some(events[|events| - 1].code), lastTimestamp := events[|events| - 1].timestamp)
  }

  /** Over settled codes and a taken freeze frame, a pass changes only what was seen last. */
  lemma {:induction false} SettledPass(h: History, events: seq<DiagEvent>)
    requires h.InBounds() && h.freezeCode.Some?
    requires forall i :: 0 <= i < |events| ==> Settled(h, events[i].code)
    ensures ObservedAll(h, events) == WithLast(h, events)
  {
    if events != [] {
      var before, e := events[..|events| - 1], events[|events| - 1];
      assert forall i :: 0 <= i < |before| ==> before[i] == events[i];
      SettledPass(h, before);
      var mid := WithLast(h, before);
      assert Settled(h, events[|events| - 1].code);
      assert Pushed(mid, e.code) == mid;
    }
  }

  lemma {:induction false} PassSetsLast(h: History, events: seq<DiagEvent>)
    requires h.InBounds()
    ensures var after := ObservedAll(h, events);
            && WithLast(after, events) == after
            && after.currentData == h.currentData && after.currentEvent == h.currentEvent
  {
    if events != [] { PassSetsLast(h, events[..|events| - 1]); }
  }

  /** A second pass over the same events changes nothing. */
  lemma SecondPass(h: History, events: seq<DiagEvent>, fault: FaultCode)
    requires h.InBounds() && LastSettled(h)
    ensures var once := ObservedAll(h, events).(lastFault := fault);
            once.InBounds() && ObservedAll(once, events) == once
  {
    var after := ObservedAll(h, events);
    var once := after.(lastFault := fault);
    AllSettle(h, events);
    PassFreezes(h, events);
    PassSetsLast(h, events);
    if after.freezeCode.Some? {
      assert forall i :: 0 <= i < |events| ==> Settled(once, events[i].code);
      SettledPass(once, events);
    } else {
      assert forall i :: 0 <= i < |events| ==> Repeats(once, events[i]);
      RepeatsOnly(once, events);
    }
  }

  /** Observing the same live state twice is observing it once, if the last code seen is settled. */
  lemma ObservingTwice(h: History, live: Live)
    requires h.InBounds() && LastSettled(h)
    ensures ObservedLive(ObservedLive(h, live), live) == ObservedLive(h, live)
  {
    var events, fault := Ingested(h, live), live.faultState.fault;
    var begun := Begun(h, live);
    SecondPass(begun, events, fault);
    PassSetsLast(begun, events);
    var once := ObservedLive(h, live);
    assert Begun(once, live) == once;
    if Present(live.log) + Present(live.recent) == [] {
      assert Ingested(once, live) == [];
    }
  }

  function OtherCode(c: DiagCode): DiagCode { if c == MapRange then TpsRange else MapRange }

  function EventOf(code: DiagCode, timestamp: U32): DiagEvent { DiagEvent(code, timestamp, Sensor, None, 0, 0) }

  lemma {:induction false} NothingPresent(slots: seq<Option<DiagEvent>>)
    requires forall i :: 0 <= i < |slots| ==> slots[i].None?
    ensures Present(slots) == []
  {
    if slots != [] { NothingPresent(slots[..|slots| - 1]); }
  }

  lemma PresentStep(slots: seq<Option<DiagEvent>>, e: DiagEvent)
    ensures Present(slots + [Some(e)]) == Present(slots) + [e]
  {
    assert (slots + [Some(e)])[..|slots|] == slots;
  }

  lemma PresentAt(slots: seq<Option<DiagEvent>>, i: nat)
    requires i < |slots|
    ensures Present(slots[..i + 1]) ==
            Present(slots[..i]) + match slots[i] case None => [] case Some(e) => [e]
    ensures slots[i].None? ==> Present(slots[..i + 1]) == Present(slots[..i])
  {
    assert slots[..i + 1][..i] == slots[..i];
  }

  lemma ObservedStep(h: History, events: seq<DiagEvent>, e: DiagEvent)
    requires h.InBounds()
    ensures ObservedAll(h, events + [e]) == Observed(ObservedAll(h, events), e)
  {
    assert (events + [e])[..|events|] == events;
  }

  lemma {:induction false} ObservedConcat(h: History, first: seq<DiagEvent>, next: seq<DiagEvent>)
    requires h.InBounds()
    ensures ObservedAll(h, first + next) == ObservedAll(ObservedAll(h, first), next)
  {
    if next == [] {
      assert first + next == first;
    } else {
      var before := next[..|next| - 1];
      ObservedConcat(h, first, before);
      ObservedStep(h, first + before, next[|next| - 1]);
      assert first + before + [next[|next| - 1]] == first + next;
    }
  }

  /** A live state with no fault and just these two recent events. */
  function PairLive(x: DiagEvent, y: DiagEvent, data: Message): Live
  {
    Live(FaultState(NoFault, Info, Manual), None, seq(16, _ => None), [Some(x), Some(y)], data)
  }

  lemma PairIngested(h: History, x: DiagEvent, y: DiagEvent, data: Message)
    ensures Ingested(h, PairLive(x, y, data)) == [x, y]
  {
    var live := PairLive(x, y, data);
    NothingPresent(live.log);
    PresentStep([], x);
    PresentStep([Some(x)], y);
    assert live.recent == [Some(x)] + [Some(y)] && [] + [Some(x)] == [Some(x)];
    assert Present(live.recent) == [x, y];
  }

  lemma PairObserved(h: History, x: DiagEvent, y: DiagEvent, data: Message)
    requires h.InBounds()
    ensures var live := PairLive(x, y, data);
            ObservedLive(h, live) == Observed(Observed(Begun(h, live), x), y).(lastFault := NoFault)
  {
    var begun := Begun(h, PairLive(x, y, data));
    PairIngested(h, x, y, data);
    ObservedStep(begun, [], x);
    ObservedStep(begun, [x], y);
    assert [x] + [y] == [x, y] && [] + [x] == [x];
  }

  lemma ObservedKeepsCode(h: History, e: DiagEvent, code: DiagCode)
    requires h.InBounds() && code in h.Stored()
    ensures code in Observed(h, e).Stored()
  {
    var i :| 0 <= i < |h.Stored()| && h.Stored()[i] == code;
    assert Observed(h, e).Stored()[i] == code;
  }

  /** The first pass drops the repeated event, stores the other one and forgets that the first was seen. */
  lemma FirstPassDrops(h: History, x: DiagEvent, y: DiagEvent)
    requires h.InBounds() && Repeats(h, x) && !Settled(h, x.code)
    requires y.code != x.code && (h.count > 0 ==> y.code in h.Stored())
    ensures var once := Observed(Observed(h, x), y);
            x.code !in once.Stored() && once.count < CODE_CAP && once.lastCode == Some(y.code)
  {
    var once := Observed(h, y);
    assert Observed(h, x) == h;
    if h.count == 0 {
      assert once.Stored() == [y.code];
    } else {
      assert once.Stored() == h.Stored();
    }
  }

  /** The second pass stores it. */
  lemma SecondPassStores(h: History, x: DiagEvent, y: DiagEvent)
    requires h.InBounds() && h.lastCode == Some(y.code) && y.code != x.code && h.count < CODE_CAP
    ensures x.code in Observed(Observed(h, x), y).Stored()
  {
    PushedSettles(h, x.code, x.code);
    assert x.code in Observed(h, x).Stored() by {
      if x.code !in h.Stored() { assert Observed(h, x).Stored()[h.count] == x.code; }
    }
    ObservedKeepsCode(Observed(h, x), y, x.code);
  }

  lemma PairTellsApart(h: History, x: DiagEvent, y: DiagEvent)
    requires h.InBounds() && Repeats(h, x) && !Settled(h, x.code)
    requires y.code != x.code && (h.count > 0 ==> y.code in h.Stored())
    ensures var live := PairLive(x, y, h.currentData);
            ObservedLive(ObservedLive(h, live), live) != ObservedLive(h, live)
  {
    var live := PairLive(x, y, h.currentData);
    var once := ObservedLive(h, live);
    PairObserved(h, x, y, h.currentData);
    FirstPassDrops(Begun(h, live), x, y);
    assert x.code !in once.Stored();
    PairObserved(once, x, y, h.currentData);
    SecondPassStores(Begun(once, live), x, y);
    assert x.code in ObservedLive(once, live).Stored();
  }

  /** If it is not settled, there is a live state that tells once and twice apart. */
  lemma ObservingTwiceDiffers(h: History) returns (live: Live)
    requires h.InBounds() && !LastSettled(h)
    ensures ObservedLive(ObservedLive(h, live), live) != ObservedLive(h, live)
  {
    var c := h.lastCode.value;
    var d := if h.count == 0 then OtherCode(c) else h.codes[0];
    assert h.count > 0 ==> h.Stored()[0] == h.codes[0];
    var x, y := EventOf(c, h.lastTimestamp), EventOf(d, 0);
    live := PairLive(x, y, h.currentData);
    PairTellsApart(h, x, y);
  }

  /** Observing is idempotent for every live state exactly when the last code seen is settled. */
  lemma ObservingTwiceExactly(h: History)
    requires h.InBounds()
    ensures (forall live :: ObservedLive(ObservedLive(h, live), live) == ObservedLive(h, live)) <==> LastSettled(h)
  {
    if LastSettled(h) {
      forall live ensures ObservedLive(ObservedLive(h, live), live) == ObservedLive(h, live) {
        ObservingTwice(h, live);
      }
    } else {
      var live := ObservingTwiceDiffers(h);
    }
  }

  // ---------------------------------------------------------------- every reachable history

  /** A history that stands for anything at all has settled the last code it saw. */
  lemma ReachableIsSettled(h: History, past: seq<Ingest>)
    requires StandsFor(h, past)
    ensures LastSettled(h)
  {
    if past != [] { LastCodeIsDistinct(past); }
  }

  lemma FreshAndClearedStandForNothing(h: History, data: Message)
    ensures StandsFor(Fresh(data), []) && StandsFor(Cleared(h), [])
  {}

  // ---------------------------------------------------------------- snapshots

  function CountByte(n: nat): (b: Byte)
    requires n <= CODE_CAP
    ensures b <= 3 && ByteCount(b) == n
  {
    if n == 0 then 0 else if n == 1 then 1 else if n == 2 then 2 else 3
  }

  function ByteCount(b: Byte): (n: nat)
    ensures n <= CODE_CAP
  {
    if b == 0 then 0 else if b == 1 then 1 else if b == 2 then 2 else 3
  }

  /** Counts and count bytes are the same numbers up to three, where both end. */
  lemma CountsExactly(b: Byte)
    ensures ByteCount(b) == if b < 3 then b as nat else 3
  {}

  function Captured(h: History): Snapshot
    requires h.InBounds()
  {
    Snapshot(h.currentData, h.freezeData, h.codes, CountByte(h.count), h.freezeCode, h.currentEvent,
             h.freezeEvent, h.lastFault, h.lastCode, h.lastTimestamp)
  }

  function Restored(s: Snapshot): (h: History)
    ensures h.InBounds()
  {
    History(s.currentData, s.freezeData, s.codes, ByteCount(s.codeCount), s.freezeCode, s.currentEvent,
            s.freezeEvent, s.lastFault, s.lastCode, s.lastTimestamp)
  }

  /** Fed with sensor data only, a history can always be encoded. */
  predicate SensorsOnly(h: History)
  {
    h.currentData.SensorData? && (h.freezeData.Some? ==> h.freezeData.value.SensorData?)
  }

  lemma {:induction false} PassKeepsSensors(h: History, events: seq<DiagEvent>)
    requires h.InBounds() && SensorsOnly(h)
    ensures SensorsOnly(ObservedAll(h, events))
  {
    if events != [] { PassKeepsSensors(h, events[..|events| - 1]); }
  }

  lemma LiveKeepsSensors(h: History, live: Live)
    requires h.InBounds() && SensorsOnly(h) && live.data.SensorData?
    ensures SensorsOnly(ObservedLive(h, live))
  {
    PassKeepsSensors(Begun(h, live), Ingested(h, live));
  }

  /** Such a history, encoded, read back and restored, is the same history. */
  lemma HistorySurvivesEncoding(h: History)
    requires h.InBounds() && SensorsOnly(h)
    ensures SnapshotCodec.Encodable(Captured(h))
    ensures var read := SnapshotCodec.DecodeSidecar(SnapshotCodec.SidecarBytes(Captured(h)));
            read == Some(Captured(h)) && Restored(Captured(h)) == h
  {
    SnapshotCodec.SidecarRoundTrip(Captured(h));
  }
}
