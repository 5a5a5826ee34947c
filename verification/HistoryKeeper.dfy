/**
 The unit as it runs: the adapter's history, the flash store and the memory of what was
 last saved. Every call is a move of the runs, so the laws of all runs are laws of this
 object.
 */
module HistoryKeeper {
  import opened Words
  import opened Diagnostics
  import opened KvOps
  import opened KvStore
  import opened HistoryModel
  import opened HistoryLaws
  import opened RetainedHistory
  import opened HistoryPersistence
  import opened HistoryRuns
  import FlashStore

  /** What an adapter has before it restores: nothing, or one observation made while booting. */
  function StartOf(data: Message, first: Option<Live>): Start
  {
    if first.None? then Start(Fresh(data), [])
    else Start(ObservedLive(Fresh(data), first.value), [] + WithData(Ingested(Fresh(data), first.value), first.value.data))
  }

  predicate Sensed(first: Option<Live>) { first.Some? ==> first.value.data.SensorData? }

  lemma StartIsPossible(data: Message, first: Option<Live>)
    requires data.SensorData? && Sensed(first)
    ensures StartOf(data, first).Possible()
  {
    FreshAndClearedStandForNothing(Fresh(data), data);
    if first.Some? {
      LiveStandsFor(Fresh(data), [], first.value);
      LiveKeepsSensors(Fresh(data), first.value);
    }
  }

  /** What an answer is worth for a next boot that starts like this. */
  predicate Worth(r: PersistResult, before: Unit, u: Unit, next: Start)
    requires next.h.InBounds()
  {
    && (r.Saved? ==> AfterRestart(u.held, next.h) == u.h)
    && (r.Unchanged? ==> (AfterRestart(u.held, next.h) == u.h <==> Trusted(before, next)))
  }

  /** What an answer is worth, given the unit before it and the unit after it, whatever the next boot starts with. */
  ghost predicate Believable(r: PersistResult, before: Unit, u: Unit)
  {
    forall next: Start | next.h.InBounds() :: Worth(r, before, u, next)
  }

  /** There is a stored history exactly when one has been saved. */
  predicate Saves(u: Unit) { u.saved.Some? <==> Base(u.held).snapshot.Some? }

  lemma PersistKeepsSaves(u: Unit, ending: Ending)
    requires u.InBounds() && SensorsOnly(u.h) && Saves(u) && ending.Possible()
    ensures Saves(Persists(u, ending))
  {
    PersistEffect(u.last, u.held, u.h, ending);
  }

  ghost predicate Same(u: Unit, v: Unit) { u == v }

  /** This unit is where the run from this start leads. */
  predicate InRun(origin: Start, moves: seq<Move>, u: Unit)
  {
    origin.Possible() && AllPossible(moves) && u == Run(origin, moves)
  }

  lemma RunExtended(origin: Start, moves: seq<Move>, u: Unit, move: Move)
    requires InRun(origin, moves, u) && move.Possible()
    ensures u.InBounds() && InRun(origin, moves + [move], Moved(u, move))
  {
    assert (moves + [move])[..|moves|] == moves;
  }

  class Keeper {
    const kv: FlashKv
    const data: Message
    var owner: DiagnosticHistory
    var state: PersistenceState
    ghost var origin: Start
    ghost var moves: seq<Move>
    ghost var unit: Unit

    /** The fields are what the unit of the run says. */
    ghost predicate Tied()
      reads this, kv, kv.dev.bankA, kv.dev.bankB, owner, owner.codes, state
    {
      && kv.Valid() && owner.Shape() && data.SensorData?
      && unit.h == owner.Now() && unit.past == owner.past && unit.last == state.last && unit.held == kv.held
    }

    /** Said of every unit equal to this one, so that a proof opens it only where it names the unit. */
    ghost predicate RunsTo(u: Unit)
      reads this`origin, this`moves
    {
      forall v :: Same(v, u) ==> InRun(origin, moves, v)
    }

    /** This object is where a unit would be after these moves. */
    ghost predicate Valid()
      reads this, kv, kv.dev.bankA, kv.dev.bankB, owner, owner.codes, state
    {
      Tied() && RunsTo(unit)
    }

    /** Whatever has been called so far, with whatever faults, this object obeys the laws of all runs. */
    lemma ObeysTheLaws()
      requires Valid()
      ensures unit.InBounds() && UnitInv(unit) && SyncInv(unit) && owner.Valid()
    {
      assert Same(unit, unit);
      PastsOverRuns(origin, moves);
      SyncOverRuns(origin, moves);
    }

    lemma UnitInBounds()
      requires Valid()
      ensures unit.InBounds()
    {
      assert Same(unit, unit);
    }

    lemma ReadyToSave()
      requires Valid()
      ensures unit.InBounds() && SensorsOnly(unit.h) && Saves(unit) && unit.start.Possible()
    {
      ObeysTheLaws();
    }

    lemma AnswerIsBelievable(was: Unit, ending: Ending, next: Start)
      requires RunsTo(was) && was.InBounds() && ending.Possible() && next.Possible()
      ensures Believable(PersistStep(was.last, was.held, Captured(was.h), ending).result, was,
                         Moved(was, Move.Persist(ending, next)))
    {
      assert Same(was, was);
      forall later: Start | later.h.InBounds()
        ensures Worth(PersistStep(was.last, was.held, Captured(was.h), ending).result, was,
                      Moved(was, Move.Persist(ending, next)), later)
      {
        AnswersOverRuns(origin, moves, ending, later);
      }
    }

    ghost method Record(was: Unit, move: Move)
      requires RunsTo(was) && move.Possible() && was.InBounds() && unit == Moved(was, move)
      modifies this`moves
      ensures RunsTo(unit) && moves == old(moves) + [move]
    {
      assert Same(was, was);
      RunExtended(origin, moves, was, move);
      moves := moves + [move];
    }

    /** A fresh adapter, with what it observes before restoring. */
    static method Begin(data: Message, first: Option<Live>) returns (adapter: DiagnosticHistory, ghost start: Start)
      requires data.SensorData? && Sensed(first)
      ensures fresh(adapter) && fresh(adapter.codes) && adapter.Shape()
      ensures start == StartOf(data, first) == Start(adapter.Now(), adapter.past) && start.Possible()
    {
      adapter := new DiagnosticHistory(data);
      if first.Some? { adapter.TakeIn(first.value); }
      start := Start(adapter.Now(), adapter.past);
      StartIsPossible(data, first);
    }

    /** An adapter that has restored what is stored. */
    static method Rebuild(kv: FlashKv, data: Message, first: Option<Live>, ghost saved: Option<seq<Ingest>>)
      returns (adapter: DiagnosticHistory, restored: PersistenceState, ghost start: Start)
      requires data.SensorData? && Sensed(first)
      requires kv.Valid() && (saved.Some? <==> Base(kv.held).snapshot.Some?)
      ensures fresh(adapter) && fresh(adapter.codes) && fresh(restored) && adapter.Shape()
      ensures start.Possible() && adapter.Now() == AfterRestart(kv.held, start.h)
      ensures adapter.past == if saved.Some? then saved.value else start.past
      ensures restored.last == Captured(adapter.Now())
    {
      adapter, start := Begin(data, first);
      restored := new PersistenceState.RestoreFromStore(adapter, kv, if saved.Some? then saved.value else []);
    }

    /** Replaces the adapter by one that has restored what is stored. */
    method Reload(first: Option<Live>) returns (ghost start: Start)
      requires kv.Valid() && data.SensorData? && Sensed(first) && unit.held == kv.held
      requires unit.saved.Some? <==> Base(kv.held).snapshot.Some?
      modifies this`owner, this`state, this`unit
      ensures Tied() && fresh(owner) && fresh(owner.codes) && fresh(state)
      ensures start.Possible() && unit == Booted(old(unit).held, old(unit).saved, start, old(unit).landings)
    {
      var adapter, restored;
      adapter, restored, start := Rebuild(kv, data, first, unit.saved);
      owner, state := adapter, restored;
      unit := Booted(unit.held, unit.saved, start, unit.landings);
    }

    /** A unit with factory-fresh flash. */
    constructor (react: FlashStore.Reactions, data: Message, first: Option<Live>)
      requires data.SensorData? && Sensed(first)
      ensures Valid() && moves == [] && this.data == data
      ensures fresh(kv) && fresh(kv.dev) && fresh(kv.dev.bankA) && fresh(kv.dev.bankB)
      ensures fresh(owner) && fresh(owner.codes) && fresh(state)
    {
      this.data := data;
      var store := new FlashKv(react);
      var adapter, restored, start := Rebuild(store, data, first, None);
      kv, owner, state := store, adapter, restored;
      origin, moves, unit := start, [], Booted(None, None, start, []);
    }

    method Observe(live: Live)
      requires Valid() && live.data.SensorData?
      modifies this`unit, this`moves, owner, owner.codes
      ensures Valid() && moves == old(moves) + [Move.Observe(live)]
    {
      UnitInBounds();
      ghost var was := unit;
      owner.TakeIn(live);
      unit := Moved(was, Move.Observe(live));
      Record(was, Move.Observe(live));
    }

    method Clear()
      requires Valid()
      modifies this`unit, this`moves, owner
      ensures Valid() && moves == old(moves) + [Move.Clear]
    {
      UnitInBounds();
      ghost var was := unit;
      owner.Clear();
      unit := Moved(was, Move.Clear);
      Record(was, Move.Clear);
    }

    /** `first` is what the adapter observes while booting, before it restores. */
    method Restart(first: Option<Live>) returns (ghost next: Start)
      requires Valid() && Sensed(first)
      modifies this`owner, this`state, this`unit, this`moves
      ensures Valid() && moves == old(moves) + [Move.Restart(next)]
      ensures fresh(owner) && fresh(owner.codes) && fresh(state)
    {
      ReadyToSave();
      ghost var was := unit;
      next := Reload(first);
      Record(was, Move.Restart(next));
    }

    /** The save itself, before any restart. */
    method TrySave() returns (r: PersistResult, ghost ending: Ending)
      requires Tied() && unit.InBounds() && SensorsOnly(unit.h) && Saves(unit)
      modifies this`unit, state
      modifies kv`held, kv.dev`clock, kv.dev.bankA, kv.dev.bankB
      ensures Tied() && ending.Possible() && unit == Persists(old(unit), ending) && Saves(unit)
      ensures r == PersistStep(old(unit).last, old(unit).held, Captured(old(unit).h), ending).result
    {
      ghost var u := unit;
      r, ending := state.PersistIfChanged(owner, kv);
      PersistKeepsSaves(u, ending);
      unit := Persists(u, ending);
    }

    method Save(first: Option<Live>) returns (r: PersistResult, ghost ending: Ending, ghost next: Start)
      requires Tied() && unit.InBounds() && SensorsOnly(unit.h) && Saves(unit) && unit.start.Possible() && Sensed(first)
      modifies this`owner, this`state, this`unit, state
      modifies kv`held, kv.dev`clock, kv.dev.bankA, kv.dev.bankB
      ensures Tied() && ending.Possible() && next.Possible()
      ensures unit == Moved(old(unit), Move.Persist(ending, next))
      ensures r == PersistStep(old(unit).last, old(unit).held, Captured(old(unit).h), ending).result
      ensures !r.Cut? ==> owner == old(owner) && state == old(state)
      ensures r.Cut? ==> fresh(owner) && fresh(owner.codes) && fresh(state)
    {
      next := unit.start;
      r, ending := TrySave();
      if r.Cut? { next := Reload(first); }
    }

    /**
     Saves the history if it has changed. Saved means that the next boot brings it back;
     unchanged means so exactly if the memory of the store can be trusted. `first` is what
     the adapter would observe while booting, should this call lose power.
     */
    method Persist(first: Option<Live>) returns (r: PersistResult, ghost ending: Ending, ghost next: Start)
      requires Valid() && Sensed(first)
      modifies this`owner, this`state, this`unit, this`moves, state
      modifies kv`held, kv.dev`clock, kv.dev.bankA, kv.dev.bankB
      ensures Valid() && moves == old(moves) + [Move.Persist(ending, next)]
      ensures Believable(r, old(unit), unit)
      ensures !r.Cut? ==> owner == old(owner) && state == old(state)
      ensures r.Cut? ==> fresh(owner) && fresh(owner.codes) && fresh(state)
    {
      ReadyToSave();
      ghost var was := unit;
      r, ending, next := Save(first);
      AnswerIsBelievable(was, ending, next);
      Record(was, Move.Persist(ending, next));
    }

    ghost method RecordOther(was: Unit, op: KvOp, ending: Ending, next: Start)
      requires RunsTo(was) && was.InBounds() && !op.SaveSnapshot? && ending.Possible() && next.Possible()
      requires var end := Apply(was.held, op, ending);
               unit == After(was.(held := end.held), end.result.PowerLost?, next)
      modifies this`moves
      ensures RunsTo(unit) && moves == old(moves) + [Move.Other(op, ending, next)]
    {
      Record(was, Move.Other(op, ending, next));
    }

    method StorePage(pageKey: string, page: seq<Byte>, first: Option<Live>)
      returns (r: KvResult, ghost ending: Ending, ghost next: Start)
      requires Tied() && unit.InBounds() && Saves(unit) && unit.start.Possible() && Sensed(first)
      modifies this`owner, this`state, this`unit
      modifies kv`held, kv.dev`clock, kv.dev.bankA, kv.dev.bankB
      ensures Tied() && ending.Possible() && next.Possible()
      ensures var end := Apply(old(unit).held, KvOp.WritePage(pageKey, page), ending);
              r == end.result && unit == After(old(unit).(held := end.held), end.result.PowerLost?, next)
      ensures !r.PowerLost? ==> owner == old(owner) && state == old(state)
      ensures r.PowerLost? ==> fresh(owner) && fresh(owner.codes) && fresh(state)
    {
      kv.HeldIsRepresentable();
      ghost var was := unit;
      next := was.start;
      r, ending := kv.WritePage(pageKey, page);
      OtherKeepsSnapshot(was.held, KvOp.WritePage(pageKey, page), ending);
      unit := was.(held := kv.held);
      if r.PowerLost? { next := Reload(first); }
    }

    /** A tuning page written in between is a move that leaves the history and its copy alone. */
    method SavePage(pageKey: string, page: seq<Byte>, first: Option<Live>)
      returns (r: KvResult, ghost ending: Ending, ghost next: Start)
      requires Valid() && Sensed(first)
      modifies this`owner, this`state, this`unit, this`moves
      modifies kv`held, kv.dev`clock, kv.dev.bankA, kv.dev.bankB
      ensures Valid() && moves == old(moves) + [Move.Other(KvOp.WritePage(pageKey, page), ending, next)]
      ensures !r.PowerLost? ==> owner == old(owner) && state == old(state)
      ensures r.PowerLost? ==> fresh(owner) && fresh(owner.codes) && fresh(state)
    {
      ReadyToSave();
      ghost var was := unit;
      r, ending, next := StorePage(pageKey, page, first);
      RecordOther(was, KvOp.WritePage(pageKey, page), ending, next);
    }
  }
}
