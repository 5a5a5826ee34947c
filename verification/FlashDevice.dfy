/**
 The flash part and the driver that rewrites a sector in place. The reactions of the
 part are fixed in advance by `react`, so that a proof about every `react` is a proof
 about every fault and every power loss.
 */
module FlashDevice {
  import opened Words
  import opened NorCells
  import opened SectorImage
  import opened StoreViews
  import opened FlashStore

  class Device {
    const bankA: array<Byte>
    const bankB: array<Byte>
    const react: Reactions
    var clock: nat

    ghost predicate Valid()
    {
      bankA != bankB && bankA.Length == SECTOR_BYTES && bankB.Length == SECTOR_BYTES
    }

    ghost function Now(): Store
      requires Valid()
      reads bankA, bankB
    {
      Store(bankA[..], bankB[..])
    }

    /** A part as it leaves the factory: every cell erased. */
    constructor (react: Reactions)
      ensures Valid() && fresh(bankA) && fresh(bankB) && this.react == react && clock == 0
      ensures Now() == Store(Blank(SECTOR_BYTES), Blank(SECTOR_BYTES))
    {
      var a := new Byte[SECTOR_BYTES](_ => ERASED);
      var b := new Byte[SECTOR_BYTES](_ => ERASED);
      bankA, bankB := a, b;
      this.react := react;
      clock := 0;
      new;
      assert bankA[..] == Blank(SECTOR_BYTES) && bankB[..] == Blank(SECTOR_BYTES);
    }

    /** The readiness check before a rewrite; it touches no cell. */
    method Preflight() returns (outcome: Outcome)
      modifies this`clock
      ensures clock == old(clock) + 1
      ensures outcome == if react(old(clock)).Completed? then Done else Stopped(react(old(clock)).power)
    {
      var reaction := react(clock);
      clock := clock + 1;
      outcome := if reaction.Completed? then Done else Stopped(reaction.power);
    }

    method EraseSector(cells: array<Byte>) returns (outcome: Outcome)
      requires cells.Length == SECTOR_BYTES
      modifies this`clock, cells
      ensures clock == old(clock) + 1
      ensures var reaction := react(old(clock));
              && outcome == (if reaction.Completed? then Done else Stopped(reaction.power))
              && cells[..] == if reaction.Completed? || reaction.blanked then Blank(SECTOR_BYTES) else old(cells[..])
    {
      var reaction := react(clock);
      clock := clock + 1;
      if reaction.Completed? || reaction.blanked {
        forall i | 0 <= i < cells.Length {
          cells[i] := ERASED;
        }
        assert cells[..] == Blank(SECTOR_BYTES);
      }
      outcome := if reaction.Completed? then Done else Stopped(reaction.power);
    }

    method ProgramHalf(cells: array<Byte>, w: Word) returns (outcome: Outcome)
      requires cells.Length == SECTOR_BYTES
      modifies this`clock, cells
      ensures clock == old(clock) + 1
      ensures var reaction := react(old(clock));
              if reaction.Completed? then outcome == Done && cells[..] == Program(old(cells[..]), w, 0, 0)
              else outcome == Stopped(reaction.power) &&
                   cells[..] == Program(old(cells[..]), w, reaction.keepLo, reaction.keepHi)
    {
      var reaction := react(clock);
      clock := clock + 1;
      var keepLo, keepHi := 0, 0;
      if reaction.Interrupted? { keepLo, keepHi := reaction.keepLo, reaction.keepHi; }
      cells[w.at] := cells[w.at] & (w.lo | keepLo);
      cells[w.at + 1] := cells[w.at + 1] & (w.hi | keepHi);
      outcome := if reaction.Completed? then Done else Stopped(reaction.power);
    }

    /** One round of a half-word loop, and what is left of the loop behind it. */
    method ProgramNext(cells: array<Byte>, at: nat, lo: Byte, hi: Byte, ghost left: seq<Byte>, ghost all: Run)
      returns (outcome: Outcome)
      requires cells.Length == SECTOR_BYTES
      requires |left| >= 2 && |left| % 2 == 0 && at + |left| <= SECTOR_BYTES && lo == left[0] && hi == left[1]
      requires all == RunSteps(cells[..], HalfWords(at, left), react, clock)
      modifies this`clock, cells
      ensures outcome.Done? ==> all == RunSteps(cells[..], HalfWords(at + 2, left[2..]), react, clock)
      ensures !outcome.Done? ==> all == Run(cells[..], outcome, clock)
    {
      RunOneWord(cells[..], at, left, react, clock);
      outcome := ProgramHalf(cells, HalfWord(at, lo, hi));
    }

    /** One half-word loop of the driver: it stops at the first interrupted step. */
    method ProgramBytes(cells: array<Byte>, at: nat, bytes: seq<Byte>) returns (outcome: Outcome)
      requires cells.Length == SECTOR_BYTES
      requires |bytes| % 2 == 0 && at + |bytes| <= SECTOR_BYTES
      modifies this`clock, cells
      ensures Run(cells[..], outcome, clock) == RunSteps(old(cells[..]), HalfWords(at, bytes), react, old(clock))
    {
      ghost var all, left := RunSteps(cells[..], HalfWords(at, bytes), react, clock), bytes;
      ghost var rounds, next := |bytes| / 2, at;
      var i := 0;
      while i < |bytes|
        invariant 0 <= i && rounds >= 0 && i + 2 * rounds == |bytes| && next == at + i
        invariant |left| == 2 * rounds && left == bytes[i..]
        invariant all == RunSteps(cells[..], HalfWords(next, left), react, clock)
      {
        assert left[0] == bytes[i] && left[1] == bytes[i + 1];
        outcome := ProgramNext(cells, at + i, bytes[i], bytes[i + 1], left, all);
        if !outcome.Done? { return; }
        i, left, rounds, next := i + 2, left[2..], rounds - 1, next + 2;
      }
      outcome := Done;
    }

    /** A region in the middle of a rewrite, and what is left of the whole run behind it. */
    method ProgramSlot(cells: array<Byte>, at: nat, record: Option<seq<Byte>>, ghost rest: seq<Word>)
      returns (outcome: Outcome)
      requires cells.Length == SECTOR_BYTES
      requires record.Some? ==> |record.value| % 2 == 0 && at + |record.value| <= SECTOR_BYTES
      modifies this`clock, cells
      ensures RunSteps(old(cells[..]), SlotWords(at, record) + rest, react, old(clock)) ==
              if outcome.Done? then RunSteps(cells[..], rest, react, clock) else Run(cells[..], outcome, clock)
    {
      RunAppend(cells[..], SlotWords(at, record), rest, react, clock);
      if record.Some? {
        outcome := ProgramBytes(cells, at, record.value);
      } else {
        outcome := Done;
      }
    }

    method ProgramPages(cells: array<Byte>, p: Parts, ghost rest: seq<Word>) returns (outcome: Outcome)
      requires cells.Length == SECTOR_BYTES
      modifies this`clock, cells
      ensures RunSteps(old(cells[..]), PagesThen(p, rest), react, old(clock)) ==
              if outcome.Done? then RunSteps(cells[..], rest, react, clock) else Run(cells[..], outcome, clock)
    {
      ghost var angles := HalfWords(ANGLES_AT, p.angles) + rest;
      ghost var ign := HalfWords(IGN_AT, p.ign) + angles;
      outcome := ProgramSlot(cells, 0, Some(p.header), HalfWords(FUEL_AT, p.fuel) + ign);
      if !outcome.Done? { return; }
      outcome := ProgramSlot(cells, FUEL_AT, Some(p.fuel), ign);
      if !outcome.Done? { return; }
      outcome := ProgramSlot(cells, IGN_AT, Some(p.ign), angles);
      if !outcome.Done? { return; }
      outcome := ProgramSlot(cells, ANGLES_AT, Some(p.angles), rest);
    }

    method ProgramCommands(cells: array<Byte>, p: Parts, ghost rest: seq<Word>) returns (outcome: Outcome)
      requires cells.Length == SECTOR_BYTES
      modifies this`clock, cells
      ensures RunSteps(old(cells[..]), CommandsThen(p, rest), react, old(clock)) ==
              if outcome.Done? then RunSteps(cells[..], rest, react, clock) else Run(cells[..], outcome, clock)
    {
      ghost var keyAudit := SlotWords(KEY_AUDIT_AT, p.keyAudit) + rest;
      outcome := ProgramSlot(cells, AUDIT_AT, p.audit, SlotWords(KEY_AT, p.key) + keyAudit);
      if !outcome.Done? { return; }
      outcome := ProgramSlot(cells, KEY_AT, p.key, keyAudit);
      if !outcome.Done? { return; }
      outcome := ProgramSlot(cells, KEY_AUDIT_AT, p.keyAudit, rest);
    }

    method ProgramRecords(cells: array<Byte>, p: Parts, ghost rest: seq<Word>) returns (outcome: Outcome)
      requires cells.Length == SECTOR_BYTES
      modifies this`clock, cells
      ensures RunSteps(old(cells[..]), RecordsThen(p, rest), react, old(clock)) ==
              if outcome.Done? then RunSteps(cells[..], rest, react, clock) else Run(cells[..], outcome, clock)
    {
      ghost var commands := CommandsThen(p, rest);
      outcome := ProgramSlot(cells, SNAPSHOT_AT, p.snapshot, SlotWords(IDENTITY_AT, p.identity) + commands);
      if !outcome.Done? { return; }
      outcome := ProgramSlot(cells, IDENTITY_AT, p.identity, commands);
      if !outcome.Done? { return; }
      outcome := ProgramCommands(cells, p, rest);
    }

    /** All half-words of a rewrite, the commit marker last. */
    method ProgramEverything(cells: array<Byte>, plan: Plan) returns (outcome: Outcome)
      requires cells.Length == SECTOR_BYTES && cells[..] == Blank(SECTOR_BYTES)
      modifies this`clock, cells
      ensures Run(cells[..], outcome, clock) == ProgramPlan(plan, react, old(clock))
    {
      var p := plan.parts;
      ghost var rest := if plan.Full? then RecordsThen(p, [MARKER]) else [];
      outcome := ProgramPages(cells, p, rest);
      if !outcome.Done? { return; }
      if plan.PagesOnly? {
        outcome := Lost;
        return;
      }
      outcome := ProgramRecords(cells, p, [MARKER]);
      if !outcome.Done? { return; }
      outcome := ProgramHalf(cells, MARKER);
    }

    method RewriteCells(cells: array<Byte>, plan: Plan) returns (outcome: Outcome)
      requires cells.Length == SECTOR_BYTES
      modifies this`clock, cells
      ensures Run(cells[..], outcome, clock) == RewriteRun(old(cells[..]), plan, react, old(clock))
    {
      outcome := Preflight();
      if !outcome.Done? { return; }
      outcome := EraseSector(cells);
      if !outcome.Done? { return; }
      outcome := ProgramEverything(cells, plan);
    }

    /** Erases and rewrites the sector that is not the newest; the other one is not touched. */
    method RewriteSector(seqA: Option<U16>, seqB: Option<U16>, c: Contents) returns (outcome: Outcome)
      requires Valid()
      requires seqA == ReadSeq(bankA[..]) && seqB == ReadSeq(bankB[..])
      modifies this`clock, bankA, bankB
      ensures RewriteEnd(Now(), outcome, clock) == Rewrite(old(Now()), c, react, old(clock))
    {
      var seqNo := Succ(CurrentSeq(seqA, seqB));
      var plan := PlanOf(c, seqNo);
      match RewriteTarget(seqA, seqB) {
        case A => outcome := RewriteCells(bankA, plan);
        case B => outcome := RewriteCells(bankB, plan);
      }
    }
  }
}
