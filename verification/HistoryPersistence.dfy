/**
 Keeping the retained history in the store: restoring it at boot and saving it when it
 has changed since it was last saved.
 */
module HistoryPersistence {
  import opened Words
  import opened Diagnostics
  import opened StoreViews
  import opened KvOps
  import opened KvStore
  import opened HistoryModel
  import opened HistoryLaws
  import opened RetainedHistory
  import SectorImage
  import SnapshotCodec
  import opened FlashStore

  /** The history a restart comes up with: the stored one, or the one the adapter starts with. */
  function AfterRestart(held: Held, start: History): (h: History)
    requires start.InBounds()
    ensures h.InBounds()
  {
    if Base(held).snapshot.Some? then Restored(Base(held).snapshot.value) else start
  }

  /** What is remembered as saved is what a restart would find. */
  predicate InSync(last: Snapshot, held: Held, start: History)
    requires start.InBounds()
  {
    last == Captured(AfterRestart(held, start))
  }

  datatype PersistResult = Unchanged | Saved | NotSaved | Cut

  datatype Persisted = Persisted(last: Snapshot, held: Held, result: PersistResult)

  function PersistStep(last: Snapshot, held: Held, current: Snapshot, ending: Ending): Persisted
  {
    if current == last then Persisted(last, held, Unchanged)
    else
      var end := Apply(held, KvOp.SaveSnapshot(current), ending);
      match end.result
      case Ok => Persisted(current, end.held, Saved)
      case Err => Persisted(last, end.held, NotSaved)
      case PowerLost => Persisted(last, end.held, Cut)
  }

  lemma RestoringIsExact(h: History, g: History)
    requires h.InBounds() && g.InBounds()
    ensures Restored(Captured(h)) == h
    ensures Captured(h) == Captured(g) <==> h == g
  {
    assert Restored(Captured(g)) == g;
  }

  lemma SaveLands(held: Held, h: History, ending: Ending)
    requires ending.Possible() && h.InBounds() && SensorsOnly(h)
    ensures var end := Apply(held, KvOp.SaveSnapshot(Captured(h)), ending);
            Base(end.held).snapshot == if ending.landed then Some(Captured(h)) else Base(held).snapshot
  {
    assert SnapshotCodec.ClampCount(Captured(h)) == Captured(h);
  }

  /** What a save leaves in the store, and what it answers. */
  lemma PersistEffect(last: Snapshot, held: Held, h: History, ending: Ending)
    requires ending.Possible() && h.InBounds() && SensorsOnly(h)
    ensures var end := PersistStep(last, held, Captured(h), ending);
            && Base(end.held).snapshot ==
                 (if Captured(h) != last && ending.landed then Some(Captured(h)) else Base(held).snapshot)
            && end.last == (if ending.outcome.Done? then Captured(h) else last)
            && end.result == if Captured(h) == last then Unchanged
                             else match ending.outcome case Done => Saved case Failed => NotSaved case Lost => Cut
  {
    SaveLands(held, h, ending);
  }

  /**
   Saving keeps the memory of the store right exactly unless a write that did land was
   reported as failed; a successful save always puts it right.
   */
  lemma SyncIsKeptExactly(last: Snapshot, held: Held, h: History, start: History, ending: Ending)
    requires ending.Possible() && h.InBounds() && start.InBounds() && SensorsOnly(h)
    ensures var end := PersistStep(last, held, Captured(h), ending);
            InSync(end.last, end.held, start) <==>
              if Captured(h) != last && ending.landed then ending.outcome.Done? else InSync(last, held, start)
  {
    SaveLands(held, h, ending);
    RestoringIsExact(h, start);
  }

  /**
   What the answers mean. Saved always means that a restart would bring back this very
   history; unchanged means it if and only if the memory of the store was right.
   */
  lemma AnswersMeanExactly(last: Snapshot, held: Held, h: History, start: History, ending: Ending)
    requires ending.Possible() && h.InBounds() && start.InBounds() && SensorsOnly(h)
    ensures var end := PersistStep(last, held, Captured(h), ending);
            && (end.result.Saved? ==> AfterRestart(end.held, start) == h)
            && (end.result.Unchanged? ==> (AfterRestart(end.held, start) == h <==> InSync(last, held, start)))
  {
    SaveLands(held, h, ending);
    RestoringIsExact(h, AfterRestart(held, start));
  }

  /** Saving this history prepares contents that can be staged. */
  predicate Staged(held: Held, h: History)
    requires h.InBounds()
  {
    var prepared := Prepare(held, KvOp.SaveSnapshot(Captured(h)));
    prepared.Some? && SectorImage.Stageable(prepared.value)
  }

  class PersistenceState {
    var last: Snapshot

    /**
     At boot: the stored history, if there is one, replaces the one the owner starts with,
     and with it what it stood for.
     */
    constructor RestoreFromStore(owner: DiagnosticHistory, kv: FlashKv, ghost of: seq<Ingest>)
      requires owner.Shape() && kv.Valid()
      modifies owner, owner.codes
      ensures owner.Shape() && owner.Now() == AfterRestart(kv.held, old(owner.Now()))
      ensures last == Captured(owner.Now()) && InSync(last, kv.held, old(owner.Now()))
      ensures Base(kv.held).snapshot.Some? ==> owner.past == of && (StandsFor(owner.Now(), of) ==> owner.Valid())
      ensures Base(kv.held).snapshot.None? ==> owner.past == old(owner.past) && (old(owner.Valid()) ==> owner.Valid())
    {
      var stored := kv.LoadSnapshot();
      if stored.Some? { owner.Restore(stored.value, of); }
      var snapshot := owner.TakeSnapshot();
      last := snapshot;
    }

    method PersistIfChanged(owner: DiagnosticHistory, kv: FlashKv) returns (r: PersistResult, ghost ending: Ending)
      requires owner.Shape() && kv.Valid()
      modifies this, kv`held, kv.dev`clock, kv.dev.bankA, kv.dev.bankB
      ensures kv.Valid() && ending.Possible()
      ensures Persisted(last, kv.held, r) == PersistStep(old(last), old(kv.held), Captured(owner.Now()), ending)
      ensures SensorsOnly(owner.Now()) ==> Staged(old(kv.held), owner.Now())
      ensures SensorsOnly(owner.Now()) && Uninterrupted(kv.dev.react, old(kv.dev.clock), kv.dev.clock) ==>
                r == if Captured(owner.Now()) == old(last) then Unchanged else Saved
    {
      ghost var was := kv.held;
      kv.HeldIsRepresentable();
      StagingFailsExactly(kv.held, KvOp.SaveSnapshot(Captured(owner.Now())));
      var snapshot := owner.TakeSnapshot();
      if snapshot == last { return Unchanged, Ending(Failed, false); }
      var result;
      result, ending := kv.SaveSnapshot(snapshot);
      if Uninterrupted(kv.dev.react, old(kv.dev.clock), kv.dev.clock) {
        FaultlessSucceeds(was, KvOp.SaveSnapshot(snapshot), ending, kv.dev.react, old(kv.dev.clock), kv.dev.clock);
      }
      match result {
        case Ok =>
          last := snapshot;
          r := Saved;
        case Err => r := NotSaved;
        case PowerLost => r := Cut;
      }
    }
  }
}
