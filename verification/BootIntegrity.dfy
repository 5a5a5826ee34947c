/**
 What the boot scan says about the two sectors, and why it can be believed: on every
 store that rewrites can leave behind, it calls the store usable exactly when there is
 something to read.
 */
module BootIntegrity {
  import opened Words
  import opened NorCells
  import opened SectorImage
  import opened StoreViews
  import opened FlashStore
  import Crc

  datatype SectorIntegrity = BlankSector | ValidSector | CorruptSector

  datatype StoreIntegrity = BlankStore | ValidStore | ValidWithCorruptSibling | CorruptStore {
    predicate Usable() { ValidStore? || ValidWithCorruptSibling? }
  }

  predicate HeaderBlank(s: Sector) { forall i :: 0 <= i < HEADER_LEN ==> s[i] == ERASED }

  function Classify(s: Sector): SectorIntegrity
  {
    if HeaderBlank(s) then BlankSector
    else if !Committed(s) || !PagesValid(s) then CorruptSector
    else ValidSector
  }

  function FromSectors(a: SectorIntegrity, b: SectorIntegrity): StoreIntegrity
  {
    match (a, b)
    case (BlankSector, BlankSector) => BlankStore
    case (ValidSector, CorruptSector) => ValidWithCorruptSibling
    case (CorruptSector, ValidSector) => ValidWithCorruptSibling
    case (ValidSector, BlankSector) => ValidStore
    case (BlankSector, ValidSector) => ValidStore
    case (ValidSector, ValidSector) => ValidStore
    case (BlankSector, CorruptSector) => CorruptStore
    case (CorruptSector, BlankSector) => CorruptStore
    case (CorruptSector, CorruptSector) => CorruptStore
  }

  function Integrity(st: Store): StoreIntegrity { FromSectors(Classify(st.a), Classify(st.b)) }

  // ---------------------------------------------------------------- the scan

  method HeaderIsBlank(cells: array<Byte>) returns (blank: bool)
    requires cells.Length == SECTOR_BYTES
    ensures blank == HeaderBlank(cells[..])
  {
    var i := 0;
    while i < HEADER_LEN
      invariant 0 <= i <= HEADER_LEN
      invariant forall j :: 0 <= j < i ==> cells[..][j] == ERASED
    {
      if cells[i] != ERASED {
        assert cells[..][i] != ERASED;
        return false;
      }
      i := i + 1;
    }
    return true;
  }

  method ClassifySector(cells: array<Byte>) returns (r: SectorIntegrity)
    requires cells.Length == SECTOR_BYTES
    ensures r == Classify(cells[..])
  {
    var blank := HeaderIsBlank(cells);
    if blank { return BlankSector; }
    var s := cells[..];
    if !ReadHeader(s).ok { return CorruptSector; }
    if !PagesValid(s) { return CorruptSector; }
    return ValidSector;
  }

  method BootStoreIntegrity(bankA: array<Byte>, bankB: array<Byte>) returns (r: StoreIntegrity)
    requires bankA.Length == SECTOR_BYTES && bankB.Length == SECTOR_BYTES
    ensures r == Integrity(Store(bankA[..], bankB[..]))
  {
    var a := ClassifySector(bankA);
    var b := ClassifySector(bankB);
    r := FromSectors(a, b);
  }

  // ---------------------------------------------------------------- what it means

  lemma BlankHeaderUncommitted(s: Sector)
    requires HeaderBlank(s)
    ensures !Committed(s)
  {
    assert s[0] == ERASED && s[1] == ERASED && s[2] == ERASED && s[3] == ERASED;
  }

  lemma ValidIffReadable(s: Sector)
    requires Sound(ViewOf(s))
    ensures Classify(s) == ValidSector <==> ViewOf(s).header.ok
  {
    if HeaderBlank(s) { BlankHeaderUncommitted(s); }
  }

  lemma UsableIffAnyValid(a: SectorIntegrity, b: SectorIntegrity)
    ensures FromSectors(a, b).Usable() <==> a == ValidSector || b == ValidSector
  {}

  lemma ReadableIffAnyCommitted(vs: Views)
    ensures Current(vs).Some? <==> vs.a.header.ok || vs.b.header.ok
  {}

  /** All 64 header bytes read 0xFF. */
  predicate Unwritten(s: Sector) { forall i :: 0 <= i < 64 ==> s[i] == 0xFF }

  /** Magic number and cleared marker, the three page lengths, and the check values of the three pages. */
  predicate Good(s: Sector)
  {
    && ReadU32(s, 0) == MAGIC && ReadU16(s, 6) == 0
    && ReadU16(s, 10) == 512 && ReadU16(s, 12) == 512 && ReadU16(s, 18) == 68
    && ReadU16(s, 14) == Crc.Crc16(s[64..576]) && ReadU16(s, 16) == Crc.Crc16(s[576..1088])
    && ReadU16(s, 20) == Crc.Crc16(s[1088..1156])
  }

  lemma ClassifyExactly(s: Sector)
    ensures Classify(s) == if Unwritten(s) then BlankSector else if Good(s) then ValidSector else CorruptSector
    ensures Unwritten(s) ==> !Good(s)
  {
    if HeaderBlank(s) { BlankHeaderUncommitted(s); }
  }

  /** Each status of the store, by the cells of its two sectors. */
  lemma IntegrityByCells(st: Store)
    ensures Integrity(st) == BlankStore <==> Unwritten(st.a) && Unwritten(st.b)
    ensures Integrity(st) == ValidStore <==>
              (Good(st.a) || Good(st.b)) && (Good(st.a) || Unwritten(st.a)) && (Good(st.b) || Unwritten(st.b))
    ensures Integrity(st) == ValidWithCorruptSibling <==>
              || (Good(st.a) && !Good(st.b) && !Unwritten(st.b))
              || (Good(st.b) && !Good(st.a) && !Unwritten(st.a))
    ensures Integrity(st) == CorruptStore <==> !Good(st.a) && !Good(st.b) && !(Unwritten(st.a) && Unwritten(st.b))
  {
    ClassifyExactly(st.a);
    ClassifyExactly(st.b);
  }

  /** Boot calls a reachable store usable exactly when it holds contents, and then the newest sector's pages pass their checks. */
  lemma IntegrityIsExact(st: Store)
    requires Inv(ViewsOf(st))
    ensures Integrity(st).Usable() <==> Current(ViewsOf(st)).Some?
    ensures Newest(ViewsOf(st)).Some? ==> PagesValid(st.Get(Newest(ViewsOf(st)).value))
  {
    ValidIffReadable(st.a);
    ValidIffReadable(st.b);
    UsableIffAnyValid(Classify(st.a), Classify(st.b));
    ReadableIffAnyCommitted(ViewsOf(st));
  }

  // ---------------------------------------------------------------- runs of rewrites

  datatype StoreRun = StoreRun(store: Store, clock: nat, done: bool)

  function StepRun(run: StoreRun, c: Contents, react: Reactions): StoreRun
  {
    var end := Rewrite(run.store, c, react, run.clock);
    StoreRun(end.store, end.clock, run.done || end.outcome.Done?)
  }

  /** Any number of rewrites, one after another; each may be cut short and is then followed by a restart. */
  function RunRewrites(run: StoreRun, writes: seq<Contents>, react: Reactions): StoreRun
  {
    if writes == [] then run
    else StepRun(RunRewrites(run, writes[..|writes| - 1], react), writes[|writes| - 1], react)
  }

  function Held(run: StoreRun): Option<Contents> { Current(ViewsOf(run.store)) }

  predicate GoodRun(run: StoreRun)
  {
    Inv(ViewsOf(run.store)) && (run.done ==> Held(run).Some?)
  }

  lemma StepKeepsGood(run: StoreRun, c: Contents, react: Reactions)
    requires GoodRun(run)
    ensures GoodRun(StepRun(run, c, react))
    ensures Held(StepRun(run, c, react)) == Held(run) || Held(StepRun(run, c, react)) == Some(Normal(c))
  {
    var end := Rewrite(run.store, c, react, run.clock);
    RewriteIsStep(run.store, c, react, run.clock);
    RewriteIsAtomic(ViewsOf(run.store), c, ViewsOf(end.store), end.outcome);
  }

  /** Over any run of rewrites with any faults and power losses the invariant is kept. */
  lemma {:induction false} RunsKeepGood(run: StoreRun, writes: seq<Contents>, react: Reactions)
    requires GoodRun(run)
    ensures GoodRun(RunRewrites(run, writes, react))
  {
    if writes != [] {
      var before := writes[..|writes| - 1];
      RunsKeepGood(run, before, react);
      StepKeepsGood(RunRewrites(run, before, react), writes[|writes| - 1], react);
    }
  }

  predicate AmongWritten(held: Option<Contents>, writes: seq<Contents>)
  {
    exists i :: 0 <= i < |writes| && held == Some(Normal(writes[i]))
  }

  lemma AmongMore(start: Option<Contents>, held: Option<Contents>, after: Option<Contents>, writes: seq<Contents>)
    requires writes != []
    requires held == start || AmongWritten(held, writes[..|writes| - 1])
    requires after == held || after == Some(Normal(writes[|writes| - 1]))
    ensures after == start || AmongWritten(after, writes)
  {}

  /** What is read after a run is what was there at its start or exactly one of the contents written. */
  lemma {:induction false} RunsReadWritten(run: StoreRun, writes: seq<Contents>, react: Reactions)
    requires GoodRun(run)
    ensures Held(RunRewrites(run, writes, react)) == Held(run) ||
            AmongWritten(Held(RunRewrites(run, writes, react)), writes)
  {
    if writes != [] {
      var before := writes[..|writes| - 1];
      var prev := RunRewrites(run, before, react);
      RunsKeepGood(run, before, react);
      RunsReadWritten(run, before, react);
      StepKeepsGood(prev, writes[|writes| - 1], react);
      AmongMore(Held(run), Held(prev), Held(StepRun(prev, writes[|writes| - 1], react)), writes);
    }
  }

  const FACTORY: Store := Store(Blank(SECTOR_BYTES), Blank(SECTOR_BYTES))

  lemma FactoryIsGood()
    ensures GoodRun(StoreRun(FACTORY, 0, false)) && Current(ViewsOf(FACTORY)).None?
  {
    BlankIsUncommitted();
  }

  /** From a factory-fresh part, once one rewrite has reported success every later boot finds a usable store. */
  lemma UsableAfterFirstCommit(writes: seq<Contents>, react: Reactions)
    ensures var end := RunRewrites(StoreRun(FACTORY, 0, false), writes, react);
            end.done ==> Integrity(end.store).Usable()
  {
    FactoryIsGood();
    RunsKeepGood(StoreRun(FACTORY, 0, false), writes, react);
    IntegrityIsExact(RunRewrites(StoreRun(FACTORY, 0, false), writes, react).store);
  }
}
