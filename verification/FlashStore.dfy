/**
 The bytes of the two-sector store: how a rewrite is carried out half-word by half-word
 on NOR cells that may fault, tear or lose power at any step, and that however it ends
 it is one of the steps of `StoreViews`.
 */
module FlashStore {
  import opened Words
  import opened NorCells
  import opened SectorImage
  import opened StoreViews

  datatype Store = Store(a: Sector, b: Sector) {
    function Get(bank: Bank): Sector { if bank.A? then a else b }
    function Set(bank: Bank, s: Sector): Store { if bank.A? then Store(s, b) else Store(a, s) }
  }

  function ViewOf(s: Sector): SectorView { SectorView(ReadHeader(s), ContentsOf(s)) }

  function ViewsOf(st: Store): Views { Views(ViewOf(st.a), ViewOf(st.b)) }

  // ---------------------------------------------------------------- NOR steps

  datatype RawHalfWord = HalfWord(at: nat, lo: Byte, hi: Byte)

  /** A half-word to program, inside the sector. */
  type Word = w: RawHalfWord | w.at + 2 <= SECTOR_BYTES witness HalfWord(0, 0, 0)

  /**
   How the part reacts to one operation. An interrupted program step keeps some of the
   bits it should have cleared; an interrupted erase leaves the sector as it was or
   blank. `power` tells a reset from a fault that the driver sees and reports.
   */
  datatype Reaction =
    | Completed
    | Interrupted(power: bool, keepLo: Byte, keepHi: Byte, blanked: bool)

  type Reactions = nat -> Reaction

  function Stopped(power: bool): Outcome { if power then Lost else Failed }

  datatype Run = Run(cells: Sector, outcome: Outcome, clock: nat)

  function Program(s: Sector, w: Word, keepLo: Byte, keepHi: Byte): (r: Sector)
    ensures forall i :: 0 <= i < SECTOR_BYTES && i != w.at && i != w.at + 1 ==> r[i] == s[i]
    ensures r[w.at] == s[w.at] & (w.lo | keepLo) && r[w.at + 1] == s[w.at + 1] & (w.hi | keepHi)
  {
    s[w.at := s[w.at] & (w.lo | keepLo)][w.at + 1 := s[w.at + 1] & (w.hi | keepHi)]
  }

  /** The program steps in order, up to the first one that is interrupted. */
  function RunSteps(s: Sector, steps: seq<Word>, react: Reactions, clock: nat): Run
    decreases |steps|
  {
    if steps == [] then Run(s, Done, clock)
    else match react(clock)
      case Completed => RunSteps(Program(s, steps[0], 0, 0), steps[1..], react, clock + 1)
      case Interrupted(power, keepLo, keepHi, _) =>
        Run(Program(s, steps[0], keepLo, keepHi), Stopped(power), clock + 1)
  }

  /** A byte string as half-words at consecutive addresses. */
  function HalfWords(at: nat, bytes: seq<Byte>): seq<Word>
    requires |bytes| % 2 == 0 && at + |bytes| <= SECTOR_BYTES
    decreases |bytes|
  {
    if bytes == [] then []
    else [HalfWord(at, bytes[0], bytes[1])] + HalfWords(at + 2, bytes[2..])
  }

  /** The first step of what is left of a byte string. */
  lemma RunOneWord(s: Sector, at: nat, bytes: seq<Byte>, react: Reactions, clock: nat)
    requires |bytes| % 2 == 0 && at + |bytes| <= SECTOR_BYTES && bytes != []
    ensures var w := HalfWord(at, bytes[0], bytes[1]);
            RunSteps(s, HalfWords(at, bytes), react, clock) ==
              match react(clock)
              case Completed => RunSteps(Program(s, w, 0, 0), HalfWords(at + 2, bytes[2..]), react, clock + 1)
              case Interrupted(power, keepLo, keepHi, _) =>
                Run(Program(s, w, keepLo, keepHi), Stopped(power), clock + 1)
  {
    assert HalfWords(at, bytes)[1..] == HalfWords(at + 2, bytes[2..]);
  }

  function SlotWords(at: nat, record: Option<seq<Byte>>): seq<Word>
    requires record.Some? ==> |record.value| % 2 == 0 && at + |record.value| <= SECTOR_BYTES
  {
    if record.Some? then HalfWords(at, record.value) else []
  }

  const MARKER: Word := HalfWord(6, 0, 0)

  /** Header and pages, then the rest. */
  function PagesThen(p: Parts, rest: seq<Word>): seq<Word>
  {
    HalfWords(0, p.header) + (HalfWords(FUEL_AT, p.fuel) + IgnitionThen(p, rest))
  }

  function IgnitionThen(p: Parts, rest: seq<Word>): seq<Word>
  {
    HalfWords(IGN_AT, p.ign) + (HalfWords(ANGLES_AT, p.angles) + rest)
  }

  /** The records that are present, then the rest. */
  function RecordsThen(p: Parts, rest: seq<Word>): seq<Word>
  {
    SlotWords(SNAPSHOT_AT, p.snapshot) + (SlotWords(IDENTITY_AT, p.identity) + CommandsThen(p, rest))
  }

  function CommandsThen(p: Parts, rest: seq<Word>): seq<Word>
  {
    SlotWords(AUDIT_AT, p.audit) + (SlotWords(KEY_AT, p.key) + (SlotWords(KEY_AUDIT_AT, p.keyAudit) + rest))
  }

  lemma {:induction false} RunAppend(s: Sector, xs: seq<Word>, ys: seq<Word>, react: Reactions, clock: nat)
    ensures var first := RunSteps(s, xs, react, clock);
            RunSteps(s, xs + ys, react, clock) ==
              if first.outcome.Done? then RunSteps(first.cells, ys, react, first.clock) else first
    decreases |xs|
  {
    if xs == [] {
      assert xs + ys == ys;
    } else {
      assert (xs + ys)[1..] == xs[1..] + ys;
      if react(clock).Completed? {
        RunAppend(Program(s, xs[0], 0, 0), xs[1..], ys, react, clock + 1);
      }
    }
  }

  lemma OverErased(b: Byte)
    ensures ERASED & (b | 0) == b
  {}

  lemma ProgramErased(s: Sector, at: nat, pair: seq<Byte>)
    requires |pair| == 2 && at + 2 <= SECTOR_BYTES && s[at] == ERASED && s[at + 1] == ERASED
    ensures Program(s, HalfWord(at, pair[0], pair[1]), 0, 0) == Splice(s, at, pair)
  {
    OverErased(pair[0]);
    OverErased(pair[1]);
  }

  /** The cells after all steps complete. */
  function ProgramAll(s: Sector, steps: seq<Word>): Sector
    decreases |steps|
  {
    if steps == [] then s else ProgramAll(Program(s, steps[0], 0, 0), steps[1..])
  }

  lemma {:induction false} RunDone(s: Sector, steps: seq<Word>, react: Reactions, clock: nat)
    requires RunSteps(s, steps, react, clock).outcome.Done?
    ensures RunSteps(s, steps, react, clock).cells == ProgramAll(s, steps)
    decreases |steps|
  {
    if steps != [] {
      RunDone(Program(s, steps[0], 0, 0), steps[1..], react, clock + 1);
    }
  }

  lemma SplicePair(s: Sector, at: nat, bytes: seq<Byte>)
    requires |bytes| >= 2 && at + |bytes| <= SECTOR_BYTES
    ensures Splice(Splice(s, at, bytes[..2]), at + 2, bytes[2..]) == Splice(s, at, bytes)
  {
    SpliceAppend(s, at, bytes[..2], bytes[2..]);
    assert bytes[..2] + bytes[2..] == bytes;
  }

  predicate ErasedSpan(s: Sector, at: nat, len: nat)
  {
    forall i :: at <= i < at + len && i < SECTOR_BYTES ==> s[i] == ERASED
  }

  lemma ErasedBehind(s: Sector, at: nat, pair: seq<Byte>, len: nat)
    requires |pair| == 2 <= len && at + len <= SECTOR_BYTES && ErasedSpan(s, at, len)
    ensures ErasedSpan(Splice(s, at, pair), at + 2, len - 2)
  {}

  lemma SpliceNothing(s: Sector, at: nat)
    requires at <= SECTOR_BYTES
    ensures Splice(s, at, []) == s
  {}

  lemma ProgramFirst(s: Sector, at: nat, bytes: seq<Byte>)
    requires |bytes| % 2 == 0 && at + |bytes| <= SECTOR_BYTES && bytes != []
    requires ErasedSpan(s, at, |bytes|)
    ensures ProgramAll(s, HalfWords(at, bytes)) ==
            ProgramAll(Splice(s, at, bytes[..2]), HalfWords(at + 2, bytes[2..]))
  {
    assert HalfWords(at, bytes)[1..] == HalfWords(at + 2, bytes[2..]);
    ProgramErased(s, at, bytes[..2]);
  }

  /** Half-words over erased cells reproduce the bytes exactly. */
  lemma {:induction false} ProgramRegion(s: Sector, at: nat, bytes: seq<Byte>)
    requires |bytes| % 2 == 0 && at + |bytes| <= SECTOR_BYTES
    requires ErasedSpan(s, at, |bytes|)
    ensures ProgramAll(s, HalfWords(at, bytes)) == Splice(s, at, bytes)
    decreases |bytes|
  {
    if bytes == [] {
      SpliceNothing(s, at);
    } else {
      ProgramFirst(s, at, bytes);
      ErasedBehind(s, at, bytes[..2], |bytes|);
      ProgramRegion(Splice(s, at, bytes[..2]), at + 2, bytes[2..]);
      SplicePair(s, at, bytes);
    }
  }

  /** Steps that leave the commit marker's cells alone. */
  predicate SparesMarker(w: Word)
  {
    w.at % 2 == 0 && (w.at == 6 ==> w.lo == ERASED && w.hi == ERASED)
  }

  predicate MarkerErased(s: Sector) { s[6] == ERASED && s[7] == ERASED }

  /** However a run of such steps ends, the marker is still erased. */
  lemma {:induction false} RunSparesMarker(s: Sector, steps: seq<Word>, react: Reactions, clock: nat)
    requires forall w :: w in steps ==> SparesMarker(w)
    requires MarkerErased(s)
    ensures MarkerErased(RunSteps(s, steps, react, clock).cells)
    decreases |steps|
  {
    if steps != [] {
      var w := steps[0];
      match react(clock)
      case Completed =>
        ProgramSparesMarker(s, w, 0, 0);
        RunSparesMarker(Program(s, w, 0, 0), steps[1..], react, clock + 1);
      case Interrupted(power, keepLo, keepHi, _) =>
        ProgramSparesMarker(s, w, keepLo, keepHi);
    }
  }

  lemma ProgramSparesMarker(s: Sector, w: Word, keepLo: Byte, keepHi: Byte)
    requires SparesMarker(w) && MarkerErased(s)
    ensures MarkerErased(Program(s, w, keepLo, keepHi))
  {}

  lemma {:induction false} HalfWordsSpareMarker(at: nat, bytes: seq<Byte>)
    requires at % 2 == 0 && |bytes| % 2 == 0 && at + |bytes| <= SECTOR_BYTES
    requires at <= 6 < at + |bytes| ==> bytes[6 - at] == ERASED && bytes[7 - at] == ERASED
    ensures forall w :: w in HalfWords(at, bytes) ==> SparesMarker(w)
    decreases |bytes|
  {
    if bytes != [] {
      HalfWordsSpareMarker(at + 2, bytes[2..]);
    }
  }

  // ---------------------------------------------------------------- the steps of a rewrite

  /** Everything but the commit marker. */
  function DataWords(p: Parts): seq<Word> { PagesThen(p, RecordsThen(p, [])) }

  lemma SlotWordsSpareMarker(at: nat, record: Option<seq<Byte>>)
    requires at % 2 == 0 && at >= 8
    requires record.Some? ==> |record.value| % 2 == 0 && at + |record.value| <= SECTOR_BYTES
    ensures forall w :: w in SlotWords(at, record) ==> SparesMarker(w)
  {
    if record.Some? { HalfWordsSpareMarker(at, record.value); }
  }

  lemma DataWordsSpareMarker(p: Parts)
    ensures forall w :: w in PagesThen(p, []) ==> SparesMarker(w)
    ensures forall w :: w in DataWords(p) ==> SparesMarker(w)
  {
    HalfWordsSpareMarker(0, p.header);
    HalfWordsSpareMarker(FUEL_AT, p.fuel);
    HalfWordsSpareMarker(IGN_AT, p.ign);
    HalfWordsSpareMarker(ANGLES_AT, p.angles);
    SlotWordsSpareMarker(SNAPSHOT_AT, p.snapshot);
    SlotWordsSpareMarker(IDENTITY_AT, p.identity);
    SlotWordsSpareMarker(AUDIT_AT, p.audit);
    SlotWordsSpareMarker(KEY_AT, p.key);
    SlotWordsSpareMarker(KEY_AUDIT_AT, p.keyAudit);
  }

  lemma RegionOnPadded(front: seq<Byte>, bytes: seq<Byte>, react: Reactions, clock: nat)
    requires |bytes| % 2 == 0 && |front| + |bytes| <= SECTOR_BYTES
    requires RunSteps(Padded(front), HalfWords(|front|, bytes), react, clock).outcome.Done?
    ensures RunSteps(Padded(front), HalfWords(|front|, bytes), react, clock).cells == Padded(front + bytes)
  {
    RunDone(Padded(front), HalfWords(|front|, bytes), react, clock);
    ProgramRegion(Padded(front), |front|, bytes);
    assert Splice(Padded(front), |front|, bytes) == Padded(front + bytes);
  }

  lemma SlotOnPadded(front: seq<Byte>, record: Option<seq<Byte>>, len: nat, react: Reactions, clock: nat)
    requires Fits(record, len) && len % 2 == 0 && |front| + len <= SECTOR_BYTES
    requires RunSteps(Padded(front), SlotWords(|front|, record), react, clock).outcome.Done?
    ensures RunSteps(Padded(front), SlotWords(|front|, record), react, clock).cells == Padded(front + SlotOf(record, len))
  {
    if record.Some? {
      RegionOnPadded(front, record.value, react, clock);
    } else {
      assert Padded(front) == Padded(front + Blank(len));
    }
  }

  /** One region of a run that completes: the region is in place, the rest of the run follows. */
  lemma ThenSlot(front: seq<Byte>, record: Option<seq<Byte>>, len: nat, rest: seq<Word>, react: Reactions, clock: nat)
    returns (next: nat)
    requires Fits(record, len) && len % 2 == 0 && |front| + len <= SECTOR_BYTES
    requires RunSteps(Padded(front), SlotWords(|front|, record) + rest, react, clock).outcome.Done?
    ensures RunSteps(Padded(front), SlotWords(|front|, record) + rest, react, clock) ==
            RunSteps(Padded(front + SlotOf(record, len)), rest, react, next)
  {
    RunAppend(Padded(front), SlotWords(|front|, record), rest, react, clock);
    SlotOnPadded(front, record, len, react, clock);
    next := RunSteps(Padded(front), SlotWords(|front|, record), react, clock).clock;
  }

  lemma IgnitionRun(p: Parts, rest: seq<Word>, react: Reactions, clock: nat) returns (next: nat)
    requires RunSteps(Padded(ThroughFuel(p)), IgnitionThen(p, rest), react, clock).outcome.Done?
    ensures RunSteps(Padded(ThroughFuel(p)), IgnitionThen(p, rest), react, clock) ==
            RunSteps(Padded(ThroughPages(p)), rest, react, next)
  {
    next := ThenSlot(ThroughFuel(p), Some(p.ign), IGN_LEN, HalfWords(ANGLES_AT, p.angles) + rest, react, clock);
    next := ThenSlot(ThroughIgn(p), Some(p.angles), ANGLES_LEN, rest, react, next);
  }

  /** Completed page steps leave header and pages on erased cells. */
  lemma PagesRun(p: Parts, rest: seq<Word>, react: Reactions, clock: nat) returns (next: nat)
    requires RunSteps(Padded([]), PagesThen(p, rest), react, clock).outcome.Done?
    ensures RunSteps(Padded([]), PagesThen(p, rest), react, clock) ==
            RunSteps(Padded(ThroughPages(p)), rest, react, next)
  {
    next := ThenSlot([], Some(p.header), HEADER_LEN, HalfWords(FUEL_AT, p.fuel) + IgnitionThen(p, rest), react, clock);
    assert [] + p.header == p.header;
    next := ThenSlot(p.header, Some(p.fuel), FUEL_LEN, IgnitionThen(p, rest), react, next);
    next := IgnitionRun(p, rest, react, next);
  }

  lemma CommandsRun(p: Parts, rest: seq<Word>, react: Reactions, clock: nat) returns (next: nat)
    requires RunSteps(Padded(ThroughIdentity(p)), CommandsThen(p, rest), react, clock).outcome.Done?
    ensures RunSteps(Padded(ThroughIdentity(p)), CommandsThen(p, rest), react, clock) ==
            RunSteps(StagedImage(p), rest, react, next)
  {
    var keyAudit := SlotWords(KEY_AUDIT_AT, p.keyAudit) + rest;
    next := ThenSlot(ThroughIdentity(p), p.audit, 20, SlotWords(KEY_AT, p.key) + keyAudit, react, clock);
    next := ThenSlot(ThroughAudit(p), p.key, 50, keyAudit, react, next);
    next := ThenSlot(ThroughKey(p), p.keyAudit, 22, rest, react, next);
  }

  lemma RecordsRun(p: Parts, rest: seq<Word>, react: Reactions, clock: nat) returns (next: nat)
    requires RunSteps(Padded(ThroughPages(p)), RecordsThen(p, rest), react, clock).outcome.Done?
    ensures RunSteps(Padded(ThroughPages(p)), RecordsThen(p, rest), react, clock) ==
            RunSteps(StagedImage(p), rest, react, next)
  {
    next := ThenSlot(ThroughPages(p), p.snapshot, 100, SlotWords(IDENTITY_AT, p.identity) + CommandsThen(p, rest), react, clock);
    next := ThenSlot(ThroughSnapshot(p), p.identity, 52, CommandsThen(p, rest), react, next);
    next := CommandsRun(p, rest, react, next);
  }

  /** Completed data steps leave the staged image. */
  lemma DataRun(p: Parts, react: Reactions, clock: nat)
    requires RunSteps(Padded([]), DataWords(p), react, clock).outcome.Done?
    ensures RunSteps(Padded([]), DataWords(p), react, clock).cells == StagedImage(p)
  {
    var next := PagesRun(p, RecordsThen(p, []), react, clock);
    next := RecordsRun(p, [], react, next);
  }

  // ---------------------------------------------------------------- the commit

  lemma MarkerCleared(b: Byte)
    ensures b & (0 | 0) == 0
    ensures ERASED & (0 | b) == b
  {}

  lemma WordIsZero(lo: Byte, hi: Byte)
    ensures U16From(lo, hi) == 0 <==> lo == 0 && hi == 0
  {}

  lemma MarkerNotErasedIffCommitted(s: Sector)
    ensures MarkerErased(s) ==> !Committed(s)
  {
    WordIsZero(s[6], s[7]);
  }

  /** A commit that keeps any marker bit is no commit; one that keeps none is complete. */
  lemma CommitStep(s: Sector, keepLo: Byte, keepHi: Byte)
    requires MarkerErased(s)
    ensures var left := Program(s, MARKER, keepLo, keepHi);
            if keepLo == 0 && keepHi == 0 then left == Mark(s) else !Committed(left)
  {
    MarkerCleared(keepLo);
    MarkerCleared(keepHi);
    WordIsZero(keepLo, keepHi);
  }

  function RewriteWords(p: Parts): seq<Word> { PagesThen(p, RecordsThen(p, [MARKER])) }

  lemma ThenAppend(p: Parts, xs: seq<Word>, ys: seq<Word>)
    ensures PagesThen(p, xs) + ys == PagesThen(p, xs + ys)
    ensures RecordsThen(p, xs) + ys == RecordsThen(p, xs + ys)
  {
    assert IgnitionThen(p, xs) + ys == IgnitionThen(p, xs + ys);
    assert CommandsThen(p, xs) + ys == CommandsThen(p, xs + ys);
  }

  lemma MarkerComesLast(p: Parts)
    ensures DataWords(p) + [MARKER] == RewriteWords(p)
  {
    ThenAppend(p, RecordsThen(p, []), [MARKER]);
    ThenAppend(p, [], [MARKER]);
    assert [] + [MARKER] == [MARKER];
  }

  predicate Ascending(words: seq<Word>, from: nat, to: nat)
  {
    && (forall i :: 0 <= i < |words| ==> from <= words[i].at < to)
    && forall i, j :: 0 <= i < j < |words| ==> words[i].at < words[j].at
  }

  lemma AscendingAppend(xs: seq<Word>, ys: seq<Word>, from: nat, between: nat, to: nat)
    requires from <= between <= to && Ascending(xs, from, between) && Ascending(ys, between, to)
    ensures Ascending(xs + ys, from, to)
  {}

  lemma {:induction false} HalfWordsAscend(at: nat, bytes: seq<Byte>)
    requires |bytes| % 2 == 0 && at + |bytes| <= SECTOR_BYTES
    ensures Ascending(HalfWords(at, bytes), at, at + |bytes|)
    decreases |bytes|
  {
    if bytes != [] {
      HalfWordsAscend(at + 2, bytes[2..]);
      AscendingAppend([HalfWord(at, bytes[0], bytes[1])], HalfWords(at + 2, bytes[2..]), at, at + 2, at + |bytes|);
    }
  }

  lemma SlotThen(at: nat, record: Option<seq<Byte>>, len: nat, rest: seq<Word>, to: nat)
    requires Fits(record, len) && len % 2 == 0 && at + len <= to <= SECTOR_BYTES && Ascending(rest, at + len, to)
    ensures Ascending(SlotWords(at, record) + rest, at, to)
  {
    if record.Some? { HalfWordsAscend(at, record.value); }
    AscendingAppend(SlotWords(at, record), rest, at, at + len, to);
  }

  lemma PageThen(at: nat, page: seq<Byte>, rest: seq<Word>, to: nat)
    requires |page| % 2 == 0 && at + |page| <= to <= SECTOR_BYTES && Ascending(rest, at + |page|, to)
    ensures Ascending(HalfWords(at, page) + rest, at, to)
  {
    SlotThen(at, Some(page), |page|, rest, to);
  }

  lemma CommandsAscend(p: Parts)
    ensures Ascending(CommandsThen(p, []), AUDIT_AT, END_AT)
  {
    var none: seq<Word> := [];
    SlotThen(KEY_AUDIT_AT, p.keyAudit, 22, none, END_AT);
    SlotThen(KEY_AT, p.key, 50, SlotWords(KEY_AUDIT_AT, p.keyAudit) + none, END_AT);
    SlotThen(AUDIT_AT, p.audit, 20, SlotWords(KEY_AT, p.key) + (SlotWords(KEY_AUDIT_AT, p.keyAudit) + none), END_AT);
  }

  /** A rewrite programs each half-word of the image at most once, from the front to the back, and the marker last. */
  lemma ProgrammedInOrder(p: Parts)
    ensures RewriteWords(p) == DataWords(p) + [HalfWord(6, 0, 0)]
    ensures Ascending(DataWords(p), 0, 1400)
  {
    MarkerComesLast(p);
    CommandsAscend(p);
    SlotThen(IDENTITY_AT, p.identity, 52, CommandsThen(p, []), END_AT);
    SlotThen(SNAPSHOT_AT, p.snapshot, 100, SlotWords(IDENTITY_AT, p.identity) + CommandsThen(p, []), END_AT);
    var rest := RecordsThen(p, []);
    PageThen(ANGLES_AT, p.angles, rest, END_AT);
    PageThen(IGN_AT, p.ign, HalfWords(ANGLES_AT, p.angles) + rest, END_AT);
    PageThen(FUEL_AT, p.fuel, IgnitionThen(p, rest), END_AT);
    PageThen(0, p.header, HalfWords(FUEL_AT, p.fuel) + IgnitionThen(p, rest), END_AT);
  }

  /**
   Crash atomicity of the programming phase: stopped after any number of half-words, with
   any bits of the last one torn, the sector either does not read as committed or is the
   complete image; it is the complete image whenever the phase finishes.
   */
  lemma ProgrammingIsAtomic(p: Parts, react: Reactions, clock: nat)
    ensures var run := RunSteps(Blank(SECTOR_BYTES), RewriteWords(p), react, clock);
            if run.outcome.Done? then run.cells == CommittedImage(p)
            else !Committed(run.cells) || run.cells == CommittedImage(p)
  {
    var blank := Blank(SECTOR_BYTES);
    var first := RunSteps(blank, DataWords(p), react, clock);
    assert blank == Padded([]);
    MarkerComesLast(p);
    RunAppend(blank, DataWords(p), [MARKER], react, clock);
    DataWordsSpareMarker(p);
    RunSparesMarker(blank, DataWords(p), react, clock);
    MarkerNotErasedIffCommitted(first.cells);
    if first.outcome.Done? {
      DataRun(p, react, clock);
      match react(first.clock)
      case Completed =>
        CommitStep(first.cells, 0, 0);
      case Interrupted(_, keepLo, keepHi, _) =>
        CommitStep(first.cells, keepLo, keepHi);
    }
  }

  // ---------------------------------------------------------------- a whole rewrite

  /**
   What a rewrite is about to program: everything, or only the pages because the snapshot
   cannot be staged, which stops the processor once the pages are programmed.
   */
  datatype Plan = Full(parts: Parts) | PagesOnly(parts: Parts)

  function PlanOf(c: Contents, seqNo: U16): Plan
  {
    if Stageable(c) then Full(PartsOf(c, seqNo)) else PagesOnly(PartsOf(c.(snapshot := None), seqNo))
  }

  function ProgramPlan(plan: Plan, react: Reactions, clock: nat): Run
  {
    match plan
    case Full(p) => RunSteps(Blank(SECTOR_BYTES), RewriteWords(p), react, clock)
    case PagesOnly(p) =>
      var run := RunSteps(Blank(SECTOR_BYTES), PagesThen(p, []), react, clock);
      if run.outcome.Done? then run.(outcome := Lost) else run
  }

  /** A rewrite's effect on the sector it works on: a readiness check, the erase, then the half-words. */
  function RewriteRun(s: Sector, plan: Plan, react: Reactions, clock: nat): Run
  {
    match react(clock)
    case Interrupted(power, _, _, _) => Run(s, Stopped(power), clock + 1)
    case Completed =>
      match react(clock + 1)
      case Interrupted(power, _, _, blanked) =>
        Run(if blanked then Blank(SECTOR_BYTES) else s, Stopped(power), clock + 2)
      case Completed => ProgramPlan(plan, react, clock + 2)
  }

  datatype RewriteEnd = RewriteEnd(store: Store, outcome: Outcome, clock: nat)

  function Rewrite(st: Store, c: Contents, react: Reactions, clock: nat): RewriteEnd
  {
    var target := RewriteTarget(ReadSeq(st.a), ReadSeq(st.b));
    var seqNo := Succ(CurrentSeq(ReadSeq(st.a), ReadSeq(st.b)));
    var run := RewriteRun(st.Get(target), PlanOf(c, seqNo), react, clock);
    RewriteEnd(st.Set(target, run.cells), run.outcome, run.clock)
  }

  /** A complete image reads as the contents it was made from, under a header that vouches for its pages. */
  lemma ImageView(c: Contents, seqNo: U16)
    requires Stageable(c)
    ensures ViewOf(CommittedImage(PartsOf(c, seqNo))) == CommittedView(c, seqNo)
  {
    ImageReadsBack(c, seqNo);
  }

  lemma BlankIsUncommitted()
    ensures !Committed(Blank(SECTOR_BYTES))
  {
    MarkerNotErasedIffCommitted(Blank(SECTOR_BYTES));
  }

  lemma PagesAloneUncommitted(p: Parts, react: Reactions, clock: nat)
    ensures !Committed(RunSteps(Blank(SECTOR_BYTES), PagesThen(p, []), react, clock).cells)
  {
    DataWordsSpareMarker(p);
    RunSparesMarker(Blank(SECTOR_BYTES), PagesThen(p, []), react, clock);
    MarkerNotErasedIffCommitted(RunSteps(Blank(SECTOR_BYTES), PagesThen(p, []), react, clock).cells);
  }

  lemma PlanCells(plan: Plan, react: Reactions, clock: nat)
    ensures var run := ProgramPlan(plan, react, clock);
            && (!Committed(run.cells) || (plan.Full? && run.cells == CommittedImage(plan.parts)))
            && (run.outcome.Done? ==> plan.Full? && run.cells == CommittedImage(plan.parts))
  {
    match plan
    case Full(p) => ProgrammingIsAtomic(p, react, clock);
    case PagesOnly(p) => PagesAloneUncommitted(p, react, clock);
  }

  lemma RewriteRunCells(s: Sector, plan: Plan, react: Reactions, clock: nat)
    ensures var run := RewriteRun(s, plan, react, clock);
            && (run.cells == s || !Committed(run.cells) || (plan.Full? && run.cells == CommittedImage(plan.parts)))
            && (run.outcome.Done? ==> plan.Full? && run.cells == CommittedImage(plan.parts))
  {
    BlankIsUncommitted();
    PlanCells(plan, react, clock + 2);
  }

  lemma RewriteRunLeaves(s: Sector, c: Contents, seqNo: U16, react: Reactions, clock: nat)
    ensures var run := RewriteRun(s, PlanOf(c, seqNo), react, clock);
            && MayLeave(ViewOf(s), c, seqNo, ViewOf(run.cells))
            && (run.outcome.Done? ==> ViewOf(run.cells) == CommittedView(c, seqNo))
  {
    RewriteRunCells(s, PlanOf(c, seqNo), react, clock);
    if Stageable(c) { ImageView(c, seqNo); }
  }

  lemma SeqIsOfHeader(s: Sector)
    ensures ReadSeq(s) == SeqOf(ViewOf(s).header)
  {}

  /**
   Every rewrite of the bytes, with any reactions of the part, is a rewrite step of the
   views: only the sector that is not the newest changes, and it ends up unchanged,
   unreadable or committed.
   */
  lemma RewriteIsStep(st: Store, c: Contents, react: Reactions, clock: nat)
    ensures var end := Rewrite(st, c, react, clock);
            RewriteStep(ViewsOf(st), c, ViewsOf(end.store), end.outcome)
  {
    var target := RewriteTarget(ReadSeq(st.a), ReadSeq(st.b));
    SeqIsOfHeader(st.a);
    SeqIsOfHeader(st.b);
    RewriteRunLeaves(st.Get(target), c, NewSeq(ViewsOf(st)), react, clock);
  }

  // ---------------------------------------------------------------- when a rewrite succeeds

  predicate Uninterrupted(react: Reactions, from: nat, to: nat)
  {
    forall t {:trigger react(t)} :: from <= t < to ==> react(t).Completed?
  }

  /** The steps from one moment to another all completed, or the last of them was the first to be interrupted. */
  predicate EndsAsReacted(react: Reactions, from: nat, to: nat, outcome: Outcome)
  {
    if outcome.Done? then from <= to && Uninterrupted(react, from, to)
    else
      && from < to && Uninterrupted(react, from, to - 1) && react(to - 1).Interrupted?
      && outcome == if react(to - 1).power then Lost else Failed
  }

  lemma {:induction false} RunEndsAsReacted(s: Sector, steps: seq<Word>, react: Reactions, clock: nat)
    ensures var run := RunSteps(s, steps, react, clock);
            && EndsAsReacted(react, clock, run.clock, run.outcome) && run.clock <= clock + |steps|
            && (run.outcome.Done? ==> run.clock == clock + |steps|)
    decreases |steps|
  {
    if steps != [] && react(clock).Completed? {
      RunEndsAsReacted(Program(s, steps[0], 0, 0), steps[1..], react, clock + 1);
    }
  }

  lemma {:induction false} HalfWordCount(at: nat, bytes: seq<Byte>)
    requires |bytes| % 2 == 0 && at + |bytes| <= SECTOR_BYTES
    ensures 2 * |HalfWords(at, bytes)| == |bytes|
    decreases |bytes|
  {
    if bytes != [] { HalfWordCount(at + 2, bytes[2..]); }
  }

  /** How many half-words a rewrite programs: 578 for header and pages, the records that are present, and the marker. */
  function HalfWordsOf(c: Contents): nat
  {
    579 + (if c.snapshot.Some? then 50 else 0) + (if c.identity.Some? then 26 else 0)
    + (if c.audit.Some? then 10 else 0) + (if c.key.Some? then 25 else 0) + (if c.keyAudit.Some? then 11 else 0)
  }

  lemma SlotCount(at: nat, record: Option<seq<Byte>>)
    requires record.Some? ==> |record.value| % 2 == 0 && at + |record.value| <= SECTOR_BYTES
    ensures 2 * |SlotWords(at, record)| == if record.Some? then |record.value| else 0
  {
    if record.Some? { HalfWordCount(at, record.value); }
  }

  lemma PagesCount(p: Parts, rest: seq<Word>)
    ensures |PagesThen(p, rest)| == 578 + |rest|
  {
    HalfWordCount(0, p.header);
    HalfWordCount(FUEL_AT, p.fuel);
    HalfWordCount(IGN_AT, p.ign);
    HalfWordCount(ANGLES_AT, p.angles);
  }

  lemma RecordsCount(p: Parts, rest: seq<Word>)
    ensures |RecordsThen(p, rest)| == |rest| + (if p.snapshot.Some? then 50 else 0) + (if p.identity.Some? then 26 else 0)
              + (if p.audit.Some? then 10 else 0) + (if p.key.Some? then 25 else 0) + (if p.keyAudit.Some? then 11 else 0)
  {
    SlotCount(SNAPSHOT_AT, p.snapshot);
    SlotCount(IDENTITY_AT, p.identity);
    SlotCount(AUDIT_AT, p.audit);
    SlotCount(KEY_AT, p.key);
    SlotCount(KEY_AUDIT_AT, p.keyAudit);
  }

  lemma RewriteCount(c: Contents, seqNo: U16)
    requires Stageable(c)
    ensures |RewriteWords(PartsOf(c, seqNo))| == HalfWordsOf(c)
  {
    var p := PartsOf(c, seqNo);
    PagesCount(p, RecordsThen(p, [MARKER]));
    RecordsCount(p, [MARKER]);
  }

  lemma PlanEndsAsReacted(p: Parts, react: Reactions, clock: nat)
    ensures var run, n := ProgramPlan(Full(p), react, clock), |RewriteWords(p)|;
            && EndsAsReacted(react, clock, run.clock, run.outcome)
            && (run.outcome.Done? <==> Uninterrupted(react, clock, clock + n))
            && (run.outcome.Done? ==> run.clock == clock + n)
  {
    RunEndsAsReacted(Blank(SECTOR_BYTES), RewriteWords(p), react, clock);
  }

  lemma RewriteRunEnds(s: Sector, p: Parts, react: Reactions, clock: nat)
    ensures var run, n := RewriteRun(s, Full(p), react, clock), |RewriteWords(p)|;
            && EndsAsReacted(react, clock, run.clock, run.outcome)
            && (run.outcome.Done? <==> Uninterrupted(react, clock, clock + 2 + n))
            && (run.outcome.Done? ==> run.clock == clock + 2 + n)
            && (react(clock).Interrupted? ==> run.cells == s)
  {
    PlanEndsAsReacted(p, react, clock + 2);
  }

  /** What can be said of the end of a rewrite from the reactions of the part alone. */
  predicate RewriteReacts(c: Contents, react: Reactions, from: nat, to: nat, outcome: Outcome)
  {
    if Stageable(c) then
      && EndsAsReacted(react, from, to, outcome)
      && (outcome.Done? <==> Uninterrupted(react, from, from + 2 + HalfWordsOf(c)))
      && (outcome.Done? ==> to == from + 2 + HalfWordsOf(c))
    else from <= to && !outcome.Done?
  }

  lemma StagedReacts(s: Sector, c: Contents, seqNo: U16, react: Reactions, clock: nat)
    requires Stageable(c)
    ensures var run := RewriteRun(s, Full(PartsOf(c, seqNo)), react, clock);
            RewriteReacts(c, react, clock, run.clock, run.outcome) && (react(clock).Interrupted? ==> run.cells == s)
  {
    RewriteCount(c, seqNo);
    RewriteRunEnds(s, PartsOf(c, seqNo), react, clock);
  }

  lemma UnstagedNeverDone(s: Sector, p: Parts, react: Reactions, clock: nat)
    ensures var run := RewriteRun(s, PagesOnly(p), react, clock);
            clock <= run.clock && !run.outcome.Done? && (react(clock).Interrupted? ==> run.cells == s)
  {
    RunEndsAsReacted(Blank(SECTOR_BYTES), PagesThen(p, []), react, clock + 2);
  }

  lemma RunReacts(s: Sector, c: Contents, seqNo: U16, react: Reactions, clock: nat)
    ensures var run := RewriteRun(s, PlanOf(c, seqNo), react, clock);
            RewriteReacts(c, react, clock, run.clock, run.outcome) && (react(clock).Interrupted? ==> run.cells == s)
  {
    if Stageable(c) {
      StagedReacts(s, c, seqNo, react, clock);
    } else {
      UnstagedNeverDone(s, PlanOf(c, seqNo).parts, react, clock);
    }
  }

  /**
   A rewrite of contents that can be staged succeeds if and only if the readiness check,
   the erase and every half-word complete; otherwise it ends at the first step that does
   not, as a fault or a power loss according to that step. If the check fails, no cell
   changes.
   */
  lemma RewriteSucceedsExactly(st: Store, c: Contents, react: Reactions, clock: nat)
    ensures var end := Rewrite(st, c, react, clock);
            RewriteReacts(c, react, clock, end.clock, end.outcome) && (react(clock).Interrupted? ==> end.store == st)
  {
    var target := RewriteTarget(ReadSeq(st.a), ReadSeq(st.b));
    RunReacts(st.Get(target), c, Succ(CurrentSeq(ReadSeq(st.a), ReadSeq(st.b))), react, clock);
  }

  /** Uninterrupted, it leaves a store whose readers see the contents. */
  lemma UninterruptedCommits(st: Store, c: Contents, react: Reactions, clock: nat)
    requires Inv(ViewsOf(st)) && Stageable(c) && Uninterrupted(react, clock, clock + 2 + HalfWordsOf(c))
    ensures var end := Rewrite(st, c, react, clock); end.outcome.Done? && Current(ViewsOf(end.store)) == Some(Normal(c))
  {
    RewriteSucceedsExactly(st, c, react, clock);
    RewriteIsStep(st, c, react, clock);
    var end := Rewrite(st, c, react, clock);
    RewriteIsAtomic(ViewsOf(st), c, ViewsOf(end.store), end.outcome);
  }
}
