/**
 What holds of the retained history and its copy in the store over every run: any
 observations, clears, saves, other store operations and restarts, with any faults.
 */
module HistoryRuns {
  import opened Words
  import opened Diagnostics
  import opened StoreViews
  import opened KvOps
  import opened HistoryModel
  import opened HistoryLaws
  import opened HistoryPersistence
  import opened HistoryIngest
  import FlashStore
  import SnapshotCodec

  /** What matters for whether the memory of the store is right. */
  datatype Landing = Boot | SaveReported | SaveUnreported

  /** The history an adapter has before it restores the stored one, and the past it stands for. */
  datatype Start = Start(h: History, past: seq<Ingest>) {
    predicate Possible() { StandsFor(h, past) && SensorsOnly(h) }
  }

  /**
   A unit at work: its history and everything ingested since the last clear, the snapshot
   it remembers as saved, the store, the past of the last history that reached the store,
   and what this boot started with.
   */
  datatype Unit = Unit(
    h: History, past: seq<Ingest>, last: Snapshot, held: Held, saved: Option<seq<Ingest>>,
    start: Start, landings: seq<Landing>)
  {
    predicate InBounds() { h.InBounds() && start.h.InBounds() }

    /** The past that a restart would come back to. */
    function RestartPast(): seq<Ingest> { if saved.Some? then saved.value else start.past }
  }

  datatype Move =
    | Observe(live: Live)
    | Clear
    | Persist(ending: Ending, next: Start)
    | Other(op: KvOp, ending: Ending, next: Start)
    | Restart(next: Start)
  {
    /** Only sensor data is observed; `next` is what an adapter starts with if this move ends in a restart. */
    predicate Possible()
    {
      match this
      case Observe(live) => live.data.SensorData?
      case Clear => true
      case Persist(ending, next) => ending.Possible() && next.Possible()
      case Other(op, ending, next) => !op.SaveSnapshot? && ending.Possible() && next.Possible()
      case Restart(next) => next.Possible()
    }
  }

  function Booted(held: Held, saved: Option<seq<Ingest>>, start: Start, landings: seq<Landing>): (u: Unit)
    requires start.h.InBounds()
    ensures u.InBounds()
  {
    var h := AfterRestart(held, start.h);
    Unit(h, if saved.Some? then saved.value else start.past, Captured(h), held, saved, start, landings + [Boot])
  }

  /** A power loss ends in a restart. */
  function After(u: Unit, lost: bool, next: Start): (v: Unit)
    requires u.InBounds() && next.h.InBounds()
    ensures v.InBounds()
  {
    if lost then Booted(u.held, u.saved, next, u.landings) else u
  }

  function Persists(u: Unit, ending: Ending): (v: Unit)
    requires u.InBounds()
    ensures v.InBounds()
  {
    var end := PersistStep(u.last, u.held, Captured(u.h), ending);
    if Captured(u.h) != u.last && ending.landed then
      u.(last := end.last, held := end.held, saved := Some(u.past),
         landings := u.landings + [if ending.outcome.Done? then SaveReported else SaveUnreported])
    else u.(last := end.last, held := end.held)
  }

  function Moved(u: Unit, move: Move): (v: Unit)
    requires u.InBounds() && move.Possible()
    ensures v.InBounds()
  {
    match move
    case Observe(live) =>
      u.(h := ObservedLive(u.h, live), past := u.past + WithData(Ingested(u.h, live), live.data))
    case Clear => u.(h := Cleared(u.h), past := [])
    case Persist(ending, next) =>
      After(Persists(u, ending), PersistStep(u.last, u.held, Captured(u.h), ending).result.Cut?, next)
    case Other(op, ending, next) =>
      After(u.(held := Apply(u.held, op, ending).held), Apply(u.held, op, ending).result.PowerLost?, next)
    case Restart(next) => Booted(u.held, u.saved, next, u.landings)
  }

  predicate AllPossible(moves: seq<Move>) { forall i :: 0 <= i < |moves| ==> moves[i].Possible() }

  /** From a store that holds nothing. */
  function Run(start: Start, moves: seq<Move>): (u: Unit)
    requires start.h.InBounds() && AllPossible(moves)
    ensures u.InBounds()
  {
    if moves == [] then Booted(None, None, start, [])
    else Moved(Run(start, moves[..|moves| - 1]), moves[|moves| - 1])
  }

  // ---------------------------------------------------------------- pasts and sensors

  /** An observation adds its events to the past, oldest source first, and shows the newest state. */
  lemma ObservationGrowsPast(u: Unit, live: Live)
    requires u.InBounds() && live.data.SensorData? && StandsFor(u.h, u.past)
    ensures var v := Moved(u, Observe(live));
            && v.past[..|u.past|] == u.past && Grows(live, u.h.lastFault, v.past[|u.past|..])
            && v.h.currentData == live.data && ShowsCurrent(live, v.h.currentEvent)
  {
    IngestedGrows(u.h, live);
    var _ := ObservedLiveExactly(u.h, u.past, live);
    var grown := WithData(Ingested(u.h, live), live.data);
    assert (u.past + grown)[..|u.past|] == u.past && (u.past + grown)[|u.past|..] == grown;
  }

  /** The store as far as the history is concerned. */
  predicate StoreInv(u: Unit)
    requires u.InBounds()
  {
    && WellHeld(u.held)
    && (u.saved.Some? <==> Base(u.held).snapshot.Some?)
    && StandsFor(AfterRestart(u.held, u.start.h), u.RestartPast())
    && SensorsOnly(AfterRestart(u.held, u.start.h))
  }

  predicate UnitInv(u: Unit)
    requires u.InBounds()
  {
    StandsFor(u.h, u.past) && SensorsOnly(u.h) && u.start.Possible() && StoreInv(u)
  }

  lemma RestoredSensors(s: Snapshot)
    ensures SensorsOnly(Restored(s)) <==> SnapshotCodec.Encodable(s)
  {}

  /** Other operations keep the stored history. */
  lemma OtherKeepsSnapshot(held: Held, op: KvOp, ending: Ending)
    requires WellHeld(held) && !op.SaveSnapshot?
    ensures Base(Apply(held, op, ending).held).snapshot == Base(held).snapshot
    ensures WellHeld(Apply(held, op, ending).held)
  {
    PrepareFrame(held, op, SnapshotR);
    LandedIsWellHeld(held, Prepare(held, op), ending.landed);
  }

  lemma SaveKeepsWellHeld(last: Snapshot, held: Held, s: Snapshot, ending: Ending)
    requires WellHeld(held)
    ensures WellHeld(PersistStep(last, held, s, ending).held)
  {
    LandedIsWellHeld(held, Prepare(held, KvOp.SaveSnapshot(s)), ending.landed);
  }

  lemma BootKeepsInv(held: Held, saved: Option<seq<Ingest>>, start: Start, landings: seq<Landing>)
    requires start.Possible() && WellHeld(held)
    requires saved.Some? <==> Base(held).snapshot.Some?
    requires saved.Some? ==> StandsFor(Restored(Base(held).snapshot.value), saved.value)
    ensures UnitInv(Booted(held, saved, start, landings))
  {
    if saved.Some? { RestoredSensors(Base(held).snapshot.value); }
  }

  lemma PersistKeepsInv(u: Unit, ending: Ending)
    requires u.InBounds() && UnitInv(u) && ending.Possible()
    ensures UnitInv(Persists(u, ending))
  {
    PersistEffect(u.last, u.held, u.h, ending);
    SaveKeepsWellHeld(u.last, u.held, Captured(u.h), ending);
    RestoringIsExact(u.h, u.h);
  }

  lemma LossKeepsInv(u: Unit, lost: bool, next: Start)
    requires u.InBounds() && UnitInv(u) && next.Possible()
    ensures UnitInv(After(u, lost, next))
  {
    BootKeepsInv(u.held, u.saved, next, u.landings);
  }

  lemma MoveKeepsInv(u: Unit, move: Move)
    requires u.InBounds() && UnitInv(u) && move.Possible()
    ensures UnitInv(Moved(u, move))
  {
    match move
    case Observe(live) =>
      LiveStandsFor(u.h, u.past, live);
      LiveKeepsSensors(u.h, live);
    case Clear => FreshAndClearedStandForNothing(u.h, u.h.currentData);
    case Persist(ending, next) =>
      PersistKeepsInv(u, ending);
      LossKeepsInv(Persists(u, ending), PersistStep(u.last, u.held, Captured(u.h), ending).result.Cut?, next);
    case Other(op, ending, next) =>
      OtherKeepsSnapshot(u.held, op, ending);
      LossKeepsInv(u.(held := Apply(u.held, op, ending).held), Apply(u.held, op, ending).result.PowerLost?, next);
    case Restart(next) => BootKeepsInv(u.held, u.saved, next, u.landings);
  }

  /**
   In every run the history stands for everything ingested since the last clear, the one
   a restart would come back to stands for the past of the last history that reached the
   store, and both hold sensor data only.
   */
  lemma {:induction false} PastsOverRuns(start: Start, moves: seq<Move>)
    requires start.Possible() && AllPossible(moves)
    ensures UnitInv(Run(start, moves))
  {
    if moves == [] {
      BootKeepsInv(None, None, start, []);
    } else {
      PastsOverRuns(start, moves[..|moves| - 1]);
      MoveKeepsInv(Run(start, moves[..|moves| - 1]), moves[|moves| - 1]);
    }
  }

  /** In every run, a save of the history of the moment has a complete image to program: staging it cannot fail. */
  lemma SavesAreStaged(start: Start, moves: seq<Move>, seqNo: U16)
    requires start.Possible() && AllPossible(moves)
    ensures var u := Run(start, moves);
            var prepared := Prepare(u.held, KvOp.SaveSnapshot(Captured(u.h)));
            prepared.Some? && FlashStore.PlanOf(prepared.value, seqNo).Full?
  {
    PastsOverRuns(start, moves);
    var u := Run(start, moves);
    StagingFailsExactly(u.held, KvOp.SaveSnapshot(Captured(u.h)));
  }

  // ---------------------------------------------------------------- whether answers can be believed

  /** The last landing was a save that was not reported as saved. */
  predicate Misled(landings: seq<Landing>) { landings != [] && landings[|landings| - 1] == SaveUnreported }

  predicate SyncInv(u: Unit)
    requires u.InBounds()
  {
    && (InSync(u.last, u.held, u.start.h) <==> !Misled(u.landings))
    && (Misled(u.landings) ==> u.saved.Some?)
  }

  lemma BootSyncs(held: Held, saved: Option<seq<Ingest>>, start: Start, landings: seq<Landing>)
    requires start.h.InBounds()
    ensures SyncInv(Booted(held, saved, start, landings))
  {}

  lemma PersistSyncs(u: Unit, ending: Ending)
    requires u.InBounds() && SensorsOnly(u.h) && SyncInv(u) && ending.Possible()
    ensures SyncInv(Persists(u, ending))
  {
    SyncIsKeptExactly(u.last, u.held, u.h, u.start.h, ending);
  }

  lemma MoveSyncs(u: Unit, move: Move)
    requires u.InBounds() && UnitInv(u) && SyncInv(u) && move.Possible()
    ensures SyncInv(Moved(u, move))
  {
    match move
    case Observe(live) =>
    case Clear =>
    case Persist(ending, next) =>
      PersistSyncs(u, ending);
      var v := Persists(u, ending);
      BootSyncs(v.held, v.saved, next, v.landings);
    case Other(op, ending, next) =>
      OtherKeepsSnapshot(u.held, op, ending);
      BootSyncs(Apply(u.held, op, ending).held, u.saved, next, u.landings);
    case Restart(next) => BootSyncs(u.held, u.saved, next, u.landings);
  }

  lemma {:induction false} SyncOverRuns(start: Start, moves: seq<Move>)
    requires start.Possible() && AllPossible(moves)
    ensures SyncInv(Run(start, moves))
  {
    if moves == [] {
      BootSyncs(None, None, start, []);
    } else {
      var before := moves[..|moves| - 1];
      PastsOverRuns(start, before);
      SyncOverRuns(start, before);
      MoveSyncs(Run(start, before), moves[|moves| - 1]);
    }
  }

  /**
   Whether what is remembered as saved is what the next boot would come up with: with a
   history in the store, exactly unless the last save that landed since boot went
   unreported; without one, exactly if the next boot starts with the history this one
   started with.
   */
  predicate Trusted(u: Unit, next: Start)
  {
    if Base(u.held).snapshot.Some? then !Misled(u.landings) else next.h == u.start.h
  }

  lemma SyncAtNextBoot(u: Unit, next: Start)
    requires u.InBounds() && StoreInv(u) && SyncInv(u) && next.h.InBounds()
    ensures InSync(u.last, u.held, next.h) <==> Trusted(u, next)
  {
    RestoringIsExact(u.start.h, next.h);
  }

  /** In every run, and for every start of the next boot. */
  lemma SyncOverRunsExactly(start: Start, moves: seq<Move>, next: Start)
    requires start.Possible() && AllPossible(moves) && next.h.InBounds()
    ensures var u := Run(start, moves); InSync(u.last, u.held, next.h) <==> Trusted(u, next)
  {
    PastsOverRuns(start, moves);
    SyncOverRuns(start, moves);
    SyncAtNextBoot(Run(start, moves), next);
  }

  /**
   In every run, and whatever the next boot starts with, an answer of saved means that
   the next boot comes up with this very history; an answer of unchanged means it if and
   only if the memory of the store can be trusted.
   */
  lemma AnswersOverRuns(start: Start, moves: seq<Move>, ending: Ending, next: Start)
    requires start.Possible() && AllPossible(moves) && ending.Possible() && next.h.InBounds()
    ensures var u := Run(start, moves);
            var end := PersistStep(u.last, u.held, Captured(u.h), ending);
            && (end.result.Saved? ==> AfterRestart(end.held, next.h) == u.h)
            && (end.result.Unchanged? ==> (AfterRestart(end.held, next.h) == u.h <==> Trusted(u, next)))
  {
    PastsOverRuns(start, moves);
    SyncOverRunsExactly(start, moves, next);
    var u := Run(start, moves);
    AnswersMeanExactly(u.last, u.held, u.h, next.h, ending);
  }

  // ---------------------------------------------------------------- where unchanged is wrong

  /** A live state with one sensor fault and nothing logged. */
  function SensorFault(data: Message): Live
  {
    Live(FaultState(SensorOutOfRange, Warning, Manual), None, seq(16, _ => None), [None, None], data)
  }

  lemma FaultObserved(data: Message)
    ensures Ingested(Fresh(data), SensorFault(data)) == [FaultEvent(SensorFault(data).faultState, data).value]
  {
    NothingPresent(SensorFault(data).log);
    NothingPresent(SensorFault(data).recent);
  }

  lemma ClearUndoesObserving(data: Message)
    ensures var h := ObservedLive(Fresh(data), SensorFault(data)); Cleared(h) == Fresh(data) != h
  {
    FaultObserved(data);
    var e := FaultEvent(SensorFault(data).faultState, data).value;
    ObservedStep(Begun(Fresh(data), SensorFault(data)), [], e);
    assert [] + [e] == [e];
    assert NO_CODES[0 := MapRange] == NO_CODES;
  }

  lemma RunStep(start: Start, moves: seq<Move>, move: Move)
    requires start.h.InBounds() && AllPossible(moves) && move.Possible()
    ensures AllPossible(moves + [move]) && Run(start, moves + [move]) == Moved(Run(start, moves), move)
  {
    assert (moves + [move])[..|moves|] == moves;
  }

  function FreshStart(data: Message): Start { Start(Fresh(data), []) }

  lemma FreshStartIsPossible(data: Message)
    requires data.SensorData?
    ensures FreshStart(data).Possible()
  {
    FreshAndClearedStandForNothing(Fresh(data), data);
  }

  /** From blank flash: a sensor fault is observed, its save lands but is reported as failed, and the history is cleared. */
  function StaleMoves(data: Message): seq<Move>
  {
    [Observe(SensorFault(data))] + [Persist(Ending(Failed, true), FreshStart(data))] + [Clear]
  }

  lemma StaleRun(data: Message)
    requires data.SensorData?
    ensures FreshStart(data).Possible() && AllPossible(StaleMoves(data))
    ensures var u := Run(FreshStart(data), StaleMoves(data));
            && u.h == Fresh(data) && u.last == Captured(Fresh(data)) && Misled(u.landings)
            && Base(u.held).snapshot == Some(Captured(ObservedLive(Fresh(data), SensorFault(data))))
  {
    var start, h := FreshStart(data), ObservedLive(Fresh(data), SensorFault(data));
    FreshStartIsPossible(data);
    var observe, persist := Observe(SensorFault(data)), Persist(Ending(Failed, true), start);
    RunStep(start, [], observe);
    assert [] + [observe] == [observe];
    RunStep(start, [observe], persist);
    RunStep(start, [observe] + [persist], Clear);
    ClearUndoesObserving(data);
    LiveKeepsSensors(Fresh(data), SensorFault(data));
    RestoringIsExact(h, Fresh(data));
    PersistEffect(Captured(Fresh(data)), None, h, Ending(Failed, true));
  }

  /** Then the answer is unchanged, nothing is written, and the next boot brings the cleared code back. */
  lemma UnchangedCanBeStale(data: Message, next: Start)
    requires data.SensorData? && next.h.InBounds()
    ensures FreshStart(data).Possible() && AllPossible(StaleMoves(data))
    ensures var u := Run(FreshStart(data), StaleMoves(data));
            var end := PersistStep(u.last, u.held, Captured(u.h), Ending(Done, true));
            && end.result.Unchanged? && Base(u.held).snapshot.Some? && Misled(u.landings)
            && AfterRestart(end.held, next.h) == ObservedLive(Fresh(data), SensorFault(data)) != u.h
  {
    StaleRun(data);
    ClearUndoesObserving(data);
    var h := ObservedLive(Fresh(data), SensorFault(data));
    RestoringIsExact(h, h);
  }

  /** What a boot that finds a corrupt sector observes before it restores. */
  function StoreFault(data: Message): Live
  {
    Live(FaultState(NoFault, Info, Manual), None,
         [Some(DiagEvent(PersistCrcFault, 0, User, None, 0, 0))] + seq(15, _ => None), [None, None], data)
  }

  lemma {:induction false} TrailingNothing(slots: seq<Option<DiagEvent>>, n: nat)
    requires n <= |slots| && forall i :: n <= i < |slots| ==> slots[i].None?
    ensures Present(slots) == Present(slots[..n])
    decreases |slots|
  {
    if n < |slots| {
      TrailingNothing(slots[..|slots| - 1], n);
      assert slots[..|slots| - 1][..n] == slots[..n];
    } else {
      assert slots[..n] == slots;
    }
  }

  function FaultyStart(data: Message): Start
  {
    Start(ObservedLive(Fresh(data), StoreFault(data)), [] + WithData(Ingested(Fresh(data), StoreFault(data)), data))
  }

  lemma FaultyStartDiffers(data: Message)
    requires data.SensorData?
    ensures FaultyStart(data).Possible() && FaultyStart(data).h != Fresh(data)
  {
    FreshStartIsPossible(data);
    LiveStandsFor(Fresh(data), [], StoreFault(data));
    LiveKeepsSensors(Fresh(data), StoreFault(data));
    var log := StoreFault(data).log;
    TrailingNothing(log, 1);
    assert log[..1] == [] + [log[0]];
    PresentStep([], log[0].value);
    var events := Ingested(Fresh(data), StoreFault(data));
    assert Present(log)[0] == events[0];
    PassFreezes(Begun(Fresh(data), StoreFault(data)), events);
    assert !Repeats(Begun(Fresh(data), StoreFault(data)), events[0]);
  }

  /**
   The other way it is wrong: nothing is stored, nothing has happened since boot, the
   answer is unchanged, and the next boot finds a corrupt sector and comes up with a code.
   */
  lemma UnchangedForThisBootOnly(data: Message)
    requires data.SensorData?
    ensures FreshStart(data).Possible() && FaultyStart(data).Possible()
    ensures var u := Run(FreshStart(data), []);
            var end := PersistStep(u.last, u.held, Captured(u.h), Ending(Done, true));
            && end.result.Unchanged? && !Misled(u.landings)
            && AfterRestart(end.held, FaultyStart(data).h) == FaultyStart(data).h != u.h
  {
    FreshStartIsPossible(data);
    FaultyStartDiffers(data);
  }
}
