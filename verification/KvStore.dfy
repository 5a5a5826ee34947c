/**
 The key/value store over the two sectors: its reads, and its writes, each of which loads
 everything held, patches the regions it names and commits the whole in one rewrite.
 */
module KvStore {
  import opened Words
  import opened Diagnostics
  import opened Records
  import opened SectorImage
  import opened StoreViews
  import opened FlashStore
  import opened FlashDevice
  import opened KvOps
  import Crc
  import SnapshotCodec

  // ---------------------------------------------------------------- reading a page

  datatype ReadResult = Read(len: nat) | NotFound | Io

  /** What a read leaves in the caller's buffer, and what it answers. */
  datatype ReadEnd = ReadEnd(out: seq<Byte>, result: ReadResult)

  function PageOf(c: Contents, page: Page): (data: seq<Byte>)
    ensures |data| == PageLength(page)
  {
    match page case Fuel => c.fuel case Ign => c.ign case Angles => c.angles
  }

  function HeaderLength(h: KvHeader, page: Page): U16
  {
    match page case Fuel => h.fuelLen case Ign => h.ignLen case Angles => h.anglesLen
  }

  function HeaderCrc(h: KvHeader, page: Page): U16
  {
    match page case Fuel => h.fuelCrc case Ign => h.ignCrc case Angles => h.anglesCrc
  }

  function PageLength16(page: Page): U16
  {
    match page case Fuel => FUEL_LEN16 case Ign => IGN_LEN16 case Angles => ANGLES_LEN16
  }

  /** The buffer is filled before the check value is compared. */
  function ReadFrom(v: SectorView, page: Page, out: seq<Byte>): ReadEnd
  {
    var len := PageLength(page);
    if HeaderLength(v.header, page) != PageLength16(page) || |out| < len then ReadEnd(out, NotFound)
    else
      var data := PageOf(v.contents, page);
      ReadEnd(data + out[len..], if Crc.Crc16(data) == HeaderCrc(v.header, page) then Read(len) else Io)
  }

  function ReadKey(vs: Views, key: string, out: seq<Byte>): ReadEnd
  {
    match Newest(vs)
    case None => ReadEnd(out, NotFound)
    case Some(bank) =>
      match PageNamed(key)
      case None => ReadEnd(out, Io)
      case Some(page) => ReadFrom(vs.Get(bank), page, out)
  }

  /**
   A page is read only if the header gives its length and the buffer can take it; its bytes
   are then handed over in any case, but reported as read only if their check value fits.
   */
  lemma PagesReadExactly(v: SectorView, out: seq<Byte>)
    ensures ReadFrom(v, Fuel, out) ==
              if v.header.fuelLen != 512 || |out| < 512 then ReadEnd(out, NotFound)
              else ReadEnd(v.contents.fuel + out[512..], if Crc.Crc16(v.contents.fuel) == v.header.fuelCrc then Read(512) else Io)
    ensures ReadFrom(v, Ign, out) ==
              if v.header.ignLen != 512 || |out| < 512 then ReadEnd(out, NotFound)
              else ReadEnd(v.contents.ign + out[512..], if Crc.Crc16(v.contents.ign) == v.header.ignCrc then Read(512) else Io)
    ensures ReadFrom(v, Angles, out) ==
              if v.header.anglesLen != 68 || |out| < 68 then ReadEnd(out, NotFound)
              else ReadEnd(v.contents.angles + out[68..], if Crc.Crc16(v.contents.angles) == v.header.anglesCrc then Read(68) else Io)
  {}

  /** On a reachable store a page never fails its check: a large enough buffer always receives it. */
  lemma ReadsHeldPage(vs: Views, page: Page, out: seq<Byte>)
    requires Inv(vs) && |out| >= PageLength(page)
    ensures ReadKey(vs, KeyName(page), out) ==
            match Current(vs)
            case None => ReadEnd(out, NotFound)
            case Some(c) => ReadEnd(PageOf(c, page) + out[PageLength(page)..], Read(PageLength(page)))
  {}

  /** A read into a zeroed buffer leaves what an operation starts from. */
  lemma ReadsBasePage(vs: Views, page: Page)
    requires Inv(vs)
    ensures ReadKey(vs, KeyName(page), Zeros(PageLength(page))).out == PageOf(Base(Current(vs)), page)
  {
    ReadsHeldPage(vs, page, Zeros(PageLength(page)));
  }

  /** What a caller may not expect is refused as the source does: an unknown key, and a buffer that is too short. */
  lemma ReadRefuses(vs: Views, key: string, out: seq<Byte>)
    requires Inv(vs)
    ensures key != "fuel" && key != "ign" && key != "angles" ==>
              ReadKey(vs, key, out) == ReadEnd(out, if Current(vs).Some? then Io else NotFound)
    ensures ((key == "fuel" || key == "ign") && |out| < 512) || (key == "angles" && |out| < 68) ==>
              ReadKey(vs, key, out) == ReadEnd(out, NotFound)
  {}

  /** Read by name, on a store that holds something. */
  lemma ReadsByName(vs: Views, c: Contents, out: seq<Byte>)
    requires Inv(vs) && Current(vs) == Some(c) && |out| >= 512
    ensures ReadKey(vs, "fuel", out) == ReadEnd(c.fuel + out[512..], Read(512))
    ensures ReadKey(vs, "ign", out) == ReadEnd(c.ign + out[512..], Read(512))
    ensures ReadKey(vs, "angles", out) == ReadEnd(c.angles + out[68..], Read(68))
  {
    ReadsHeldPage(vs, Fuel, out);
    ReadsHeldPage(vs, Ign, out);
    ReadsHeldPage(vs, Angles, out);
  }

  // ---------------------------------------------------------------- faultless operations

  /** An operation that is refused up front does not touch the part; any other ends as its rewrite does. */
  predicate FollowsPart(prepared: Option<Contents>, react: Reactions, from: nat, to: nat, outcome: Outcome)
  {
    if prepared.None? then to == from else RewriteReacts(prepared.value, react, from, to, outcome)
  }

  lemma ClockMovesOn(prepared: Option<Contents>, react: Reactions, from: nat, to: nat, outcome: Outcome)
    requires FollowsPart(prepared, react, from, to, outcome)
    ensures from <= to
  {}

  /** A prepared operation that can be staged and meets no interruption is done. */
  lemma FaultlessIsDone(held: Held, op: KvOp, react: Reactions, from: nat, to: nat, outcome: Outcome)
    requires WellHeld(held) && Prepare(held, op).Some? && !op.SaveSnapshot?
    requires FollowsPart(Prepare(held, op), react, from, to, outcome) && Uninterrupted(react, from, to)
    ensures outcome.Done?
  {
    StagingFailsExactly(held, op);
  }

  /**
   An operation that is prepared and meets no interruption answers success and has stored
   what it was given, with two exceptions: an audit whose three lengths are 0xFF, and a
   history that cannot be staged.
   */
  lemma FaultlessSucceeds(held: Held, op: KvOp, ending: Ending, react: Reactions, from: nat, to: nat)
    requires WellHeld(held) && ending.Possible() && Prepare(held, op).Some?
    requires FollowsPart(Prepare(held, op), react, from, to, ending.outcome) && Uninterrupted(react, from, to)
    ensures Apply(held, op, ending).result == Ok <==>
              && !(op.WriteCommandAudit? && !Records.Encodable(op.audit))
              && !(op.SaveSnapshot? && !SnapshotCodec.Encodable(op.snapshot))
    ensures Apply(held, op, ending).result == Ok ==>
              var after := Apply(held, op, ending).held; after.Some? && Stored(held, op, after.value)
  {
    StagingFailsExactly(held, op);
    if ending.outcome.Done? {
      ReadBackFails(held, op, ending);
      if Apply(held, op, ending).result == Ok { SuccessStores(held, op, ending); }
    }
  }

  // ---------------------------------------------------------------- the store object

  predicate Holds(st: Store, held: Held) { Inv(ViewsOf(st)) && held == Current(ViewsOf(st)) }

  /** Every rewrite, however it ends, leaves a store that holds all of the new contents or what it held before. */
  lemma RewriteLands(st: Store, held: Held, c: Contents, react: Reactions, clock: nat) returns (landed: bool)
    requires Holds(st, held)
    ensures var end := Rewrite(st, c, react, clock);
            Holds(end.store, Landed(held, Some(c), landed)) && (end.outcome.Done? ==> landed)
  {
    var end := Rewrite(st, c, react, clock);
    var before, after := ViewsOf(st), ViewsOf(end.store);
    RewriteIsStep(st, c, react, clock);
    RewriteIsAtomic(before, c, after, end.outcome);
    landed := after.Get(Target(before)) == CommittedView(c, NewSeq(before));
  }

  class FlashKv {
    const dev: Device
    ghost var held: Held

    ghost predicate IsNow(st: Store)
      requires dev.Valid()
      reads dev.bankA, dev.bankB
    {
      st == dev.Now()
    }

    /**
     The cells keep the invariant of the two sectors, and `held` is what every reader
     sees. It is said of each store equal to the cells, so that a proof opens it only
     where it names the cells.
     */
    ghost predicate Valid()
      reads this, dev.bankA, dev.bankB
    {
      dev.Valid() && forall st :: IsNow(st) ==> Holds(st, held)
    }

    /** A store on a part that has just left the factory. */
    constructor (react: Reactions)
      ensures Valid() && held == None && fresh(dev) && fresh(dev.bankA) && fresh(dev.bankB)
    {
      dev := new Device(react);
      held := None;
      new;
      BlankIsUncommitted();
    }

    /** Whatever is held can be written back without change. */
    lemma HeldIsRepresentable()
      requires Valid()
      ensures WellHeld(held)
    {
      assert IsNow(dev.Now());
      ReadIsRepresentable(dev.bankA[..]);
      ReadIsRepresentable(dev.bankB[..]);
    }

    method Active() returns (bank: Option<Bank>)
      requires dev.Valid()
      ensures bank == Newest(ViewsOf(dev.Now()))
    {
      bank := NewestSector(ReadHeader(dev.bankA[..]), ReadHeader(dev.bankB[..]));
    }

    method LoadSnapshot() returns (r: Option<Snapshot>)
      requires Valid()
      ensures r == Base(held).snapshot
    {
      assert IsNow(dev.Now());
      var active := Active();
      match active {
        case None => r := None;
        case Some(A) => r := SnapshotOf(dev.bankA[..]);
        case Some(B) => r := SnapshotOf(dev.bankB[..]);
      }
    }

    method LoadIdentity() returns (r: Option<IdentityRecord>)
      requires Valid()
      ensures r == Base(held).identity
    {
      assert IsNow(dev.Now());
      var active := Active();
      match active {
        case None => r := None;
        case Some(A) => r := IdentityOf(dev.bankA[..]);
        case Some(B) => r := IdentityOf(dev.bankB[..]);
      }
    }

    method LoadCommandAudit() returns (r: Option<CommandAudit>)
      requires Valid()
      ensures r == Base(held).audit
    {
      assert IsNow(dev.Now());
      var active := Active();
      match active {
        case None => r := None;
        case Some(A) => r := AuditOf(dev.bankA[..]);
        case Some(B) => r := AuditOf(dev.bankB[..]);
      }
    }

    method LoadKey() returns (r: Option<KeyRecord>)
      requires Valid()
      ensures r == Base(held).key
    {
      assert IsNow(dev.Now());
      var active := Active();
      match active {
        case None => r := None;
        case Some(A) => r := KeyOf(dev.bankA[..]);
        case Some(B) => r := KeyOf(dev.bankB[..]);
      }
    }

    method LoadKeyAudit() returns (r: Option<KeyAudit>)
      requires Valid()
      ensures r == Base(held).keyAudit
    {
      assert IsNow(dev.Now());
      var active := Active();
      match active {
        case None => r := None;
        case Some(A) => r := KeyAuditOf(dev.bankA[..]);
        case Some(B) => r := KeyAuditOf(dev.bankB[..]);
      }
    }

    method CopyPage(data: seq<Byte>, out: array<Byte>)
      requires |data| <= out.Length
      modifies out
      ensures out[..] == data + old(out[..])[|data|..]
    {
      var i := 0;
      while i < |data|
        invariant 0 <= i <= |data|
        invariant forall j :: 0 <= j < out.Length ==> out[j] == if j < i then data[j] else old(out[j])
      {
        out[i] := data[i];
        i := i + 1;
      }
    }

    /** Reads a page into the caller's buffer. */
    method Read(key: string, out: array<Byte>) returns (r: ReadResult)
      requires dev.Valid() && out != dev.bankA && out != dev.bankB
      modifies out
      ensures ReadEnd(out[..], r) == ReadKey(ViewsOf(dev.Now()), key, old(out[..]))
    {
      var active := Active();
      if active.None? { return NotFound; }
      var s := if active.value.A? then dev.bankA[..] else dev.bankB[..];
      var page := PageNamed(key);
      if page.None? { return Io; }
      var header := ReadHeader(s);
      var len := PageLength(page.value);
      if HeaderLength(header, page.value) != PageLength16(page.value) || out.Length < len { return NotFound; }
      var data := PageOf(ContentsOf(s), page.value);
      CopyPage(data, out);
      r := if Crc.Crc16(data) == HeaderCrc(header, page.value) then ReadResult.Read(len) else Io;
    }

    method ReadFresh(page: Page) returns (data: seq<Byte>)
      requires dev.Valid()
      ensures data == ReadKey(ViewsOf(dev.Now()), KeyName(page), Zeros(PageLength(page))).out
    {
      var out := new Byte[PageLength(page)](_ => 0);
      assert out[..] == Zeros(PageLength(page));
      var _ := Read(KeyName(page), out);
      data := out[..];
    }

    /** One page as an operation starts from it: the held page, or zeros when nothing is held. */
    method LoadPage(page: Page) returns (data: seq<Byte>)
      requires Valid()
      ensures data == PageOf(Base(held), page)
    {
      assert IsNow(dev.Now());
      ReadsBasePage(ViewsOf(dev.Now()), page);
      data := ReadFresh(page);
    }

    method LoadPages() returns (c: Contents)
      requires Valid()
      ensures c == Base(held).(snapshot := None, identity := None, audit := None, key := None, keyAudit := None)
    {
      var fuel := LoadPage(Fuel);
      var ign := LoadPage(Ign);
      var angles := LoadPage(Angles);
      c := Contents(fuel, ign, angles, None, None, None, None, None);
    }

    /** Everything held, as an operation starts from it. */
    method LoadAll() returns (c: Contents)
      requires Valid()
      ensures c == Base(held)
    {
      c := LoadPages();
      var snapshot := LoadSnapshot();
      var identity := LoadIdentity();
      var audit := LoadCommandAudit();
      var key := LoadKey();
      var keyAudit := LoadKeyAudit();
      c := Contents(c.fuel, c.ign, c.angles, snapshot, identity, audit, key, keyAudit);
    }

    method RewriteCells(c: Contents, ghost was: Held) returns (outcome: Outcome, ghost landed: bool)
      requires dev.Valid() && Holds(dev.Now(), was)
      modifies dev`clock, dev.bankA, dev.bankB
      ensures Holds(dev.Now(), Landed(was, Some(c), landed)) && (outcome.Done? ==> landed)
      ensures RewriteReacts(c, dev.react, old(dev.clock), dev.clock, outcome)
    {
      landed := RewriteLands(dev.Now(), was, c, dev.react, dev.clock);
      RewriteSucceedsExactly(dev.Now(), c, dev.react, dev.clock);
      var seqA, seqB := ReadSeq(dev.bankA[..]), ReadSeq(dev.bankB[..]);
      outcome := dev.RewriteSector(seqA, seqB, c);
    }

    /** Commits prepared contents in one rewrite; what is held afterwards is all of them or what was held before. */
    method Commit(c: Contents) returns (outcome: Outcome, ghost landed: bool)
      requires Valid()
      modifies this`held, dev`clock, dev.bankA, dev.bankB
      ensures Valid()
      ensures Ending(outcome, landed).Possible()
      ensures held == Landed(old(held), Some(c), landed)
      ensures RewriteReacts(c, dev.react, old(dev.clock), dev.clock, outcome)
    {
      assert IsNow(dev.Now());
      outcome, landed := RewriteCells(c, held);
      held := Landed(held, Some(c), landed);
    }

    /** The check an operation makes on what it reads back. */
    method Confirm(op: KvOp, prepared: Contents) returns (ok: bool)
      requires Valid()
      ensures ok == ReadsBack(prepared, op, held)
    {
      match op {
        case WritePage(_, _) => ok := true;
        case SaveSnapshot(_) => ok := true;
        case WriteIdentity(identity) =>
          var stored := LoadIdentity();
          ok := stored == Some(identity);
        case WriteCommandAudit(audit) =>
          var stored := LoadCommandAudit();
          ok := stored == Some(audit);
        case WriteKey(key) =>
          var stored := LoadKey();
          ok := stored == Some(key);
        case WriteKeyAudit(keyAudit) =>
          ok := ConfirmKeyAudit(keyAudit, prepared.key);
        case WriteKeyAuditWithKey(keyAudit, key) =>
          ok := ConfirmKeyAudit(keyAudit, key);
        case WriteArmNonce(_, _) =>
          var stored := LoadKey();
          ok := stored == prepared.key;
      }
    }

    method ConfirmKeyAudit(keyAudit: KeyAudit, key: Option<KeyRecord>) returns (ok: bool)
      requires Valid()
      ensures ok == (Base(held).keyAudit == Some(keyAudit) && Base(held).key == key)
    {
      var storedAudit := LoadKeyAudit();
      var stored := LoadKey();
      ok := storedAudit == Some(keyAudit) && stored == key;
    }

    /** Commits what an operation prepared and confirms it. */
    method Persist(op: KvOp, prepared: Contents) returns (result: KvResult, ghost ending: Ending)
      requires Prepare(held, op) == Some(prepared)
      requires Valid()
      modifies this`held, dev`clock, dev.bankA, dev.bankB
      ensures Valid() && ending.Possible()
      ensures Applied(held, result) == Apply(old(held), op, ending)
      ensures RewriteReacts(prepared, dev.react, old(dev.clock), dev.clock, ending.outcome)
    {
      var outcome, landed := Commit(prepared);
      ending := Ending(outcome, landed);
      match outcome {
        case Failed => result := Err;
        case Lost => result := PowerLost;
        case Done =>
          var ok := Confirm(op, prepared);
          result := if ok then Ok else Err;
      }
    }

    /** Replaces one page; an unknown key or a wrong length is refused before any cell changes. */
    method WritePage(pageKey: string, data: seq<Byte>) returns (result: KvResult, ghost ending: Ending)
      requires Valid()
      modifies this`held, dev`clock, dev.bankA, dev.bankB
      ensures Valid() && ending.Possible()
      ensures Applied(held, result) == Apply(old(held), KvOp.WritePage(pageKey, data), ending)
      ensures FollowsPart(Prepare(old(held), KvOp.WritePage(pageKey, data)), dev.react, old(dev.clock), dev.clock, ending.outcome)
      ensures Prepare(old(held), KvOp.WritePage(pageKey, data)).None? ==> dev.Now() == old(dev.Now())
    {
      var c := LoadAll();
      var patched := PatchPage(c, PageNamed(pageKey), data);
      if patched.None? { return Err, Ending(Failed, false); }
      result, ending := Persist(KvOp.WritePage(pageKey, data), patched.value);
    }

    /** Replaces the retained history. */
    method SaveSnapshot(snapshot: Snapshot) returns (result: KvResult, ghost ending: Ending)
      requires Valid()
      modifies this`held, dev`clock, dev.bankA, dev.bankB
      ensures Valid() && ending.Possible()
      ensures Applied(held, result) == Apply(old(held), KvOp.SaveSnapshot(snapshot), ending)
      ensures FollowsPart(Prepare(old(held), KvOp.SaveSnapshot(snapshot)), dev.react, old(dev.clock), dev.clock, ending.outcome)
    {
      var c := LoadAll();
      result, ending := Persist(KvOp.SaveSnapshot(snapshot), c.(snapshot := Some(snapshot)));
    }

    /** Replaces the identity record; lengths out of range are refused before any cell changes. */
    method WriteIdentity(identity: IdentityRecord) returns (result: KvResult, ghost ending: Ending)
      requires Valid()
      modifies this`held, dev`clock, dev.bankA, dev.bankB
      ensures Valid() && ending.Possible()
      ensures Applied(held, result) == Apply(old(held), KvOp.WriteIdentity(identity), ending)
      ensures FollowsPart(Prepare(old(held), KvOp.WriteIdentity(identity)), dev.react, old(dev.clock), dev.clock, ending.outcome)
      ensures Prepare(old(held), KvOp.WriteIdentity(identity)).None? ==> dev.Now() == old(dev.Now())
    {
      if !LengthsInRange(identity) { return Err, Ending(Failed, false); }
      var c := LoadAll();
      result, ending := Persist(KvOp.WriteIdentity(identity), c.(identity := Some(identity)));
    }

    /** Replaces the command audit. */
    method WriteCommandAudit(audit: CommandAudit) returns (result: KvResult, ghost ending: Ending)
      requires Valid()
      modifies this`held, dev`clock, dev.bankA, dev.bankB
      ensures Valid() && ending.Possible()
      ensures Applied(held, result) == Apply(old(held), KvOp.WriteCommandAudit(audit), ending)
      ensures FollowsPart(Prepare(old(held), KvOp.WriteCommandAudit(audit)), dev.react, old(dev.clock), dev.clock, ending.outcome)
    {
      var c := LoadAll();
      result, ending := Persist(KvOp.WriteCommandAudit(audit), c.(audit := Some(audit)));
    }

    /** Replaces the key record. */
    method WriteKey(key: KeyRecord) returns (result: KvResult, ghost ending: Ending)
      requires Valid()
      modifies this`held, dev`clock, dev.bankA, dev.bankB
      ensures Valid() && ending.Possible()
      ensures Applied(held, result) == Apply(old(held), KvOp.WriteKey(key), ending)
      ensures FollowsPart(Prepare(old(held), KvOp.WriteKey(key)), dev.react, old(dev.clock), dev.clock, ending.outcome)
    {
      var c := LoadAll();
      result, ending := Persist(KvOp.WriteKey(key), c.(key := Some(key)));
    }

    /** Replaces the key record, which may be absent, and the key audit in one rewrite. */
    method WriteKeyAuditWithKey(keyAudit: KeyAudit, key: Option<KeyRecord>) returns (result: KvResult, ghost ending: Ending)
      requires Valid()
      modifies this`held, dev`clock, dev.bankA, dev.bankB
      ensures Valid() && ending.Possible()
      ensures Applied(held, result) == Apply(old(held), KvOp.WriteKeyAuditWithKey(keyAudit, key), ending)
      ensures FollowsPart(Prepare(old(held), KvOp.WriteKeyAuditWithKey(keyAudit, key)), dev.react, old(dev.clock), dev.clock, ending.outcome)
    {
      var c := LoadAll();
      result, ending := Persist(KvOp.WriteKeyAuditWithKey(keyAudit, key), c.(key := key, keyAudit := Some(keyAudit)));
    }

    /** Replaces the key audit and keeps the key record beside it. */
    method WriteKeyAudit(keyAudit: KeyAudit) returns (result: KvResult, ghost ending: Ending)
      requires Valid()
      modifies this`held, dev`clock, dev.bankA, dev.bankB
      ensures Valid() && ending.Possible()
      ensures Applied(held, result) == Apply(old(held), KvOp.WriteKeyAudit(keyAudit), ending)
      ensures FollowsPart(Prepare(old(held), KvOp.WriteKeyAudit(keyAudit)), dev.react, old(dev.clock), dev.clock, ending.outcome)
    {
      var c := LoadAll();
      result, ending := Persist(KvOp.WriteKeyAudit(keyAudit), c.(keyAudit := Some(keyAudit)));
    }

    /** Records an arm nonce under the current key; a stored key that is not the current one refuses it. */
    method WriteArmNonce(currentKey: Key, nonce: U32) returns (result: KvResult, ghost ending: Ending)
      requires Valid()
      modifies this`held, dev`clock, dev.bankA, dev.bankB
      ensures Valid() && ending.Possible()
      ensures Applied(held, result) == Apply(old(held), KvOp.WriteArmNonce(currentKey, nonce), ending)
      ensures FollowsPart(Prepare(old(held), KvOp.WriteArmNonce(currentKey, nonce)), dev.react, old(dev.clock), dev.clock, ending.outcome)
      ensures Prepare(old(held), KvOp.WriteArmNonce(currentKey, nonce)).None? ==> dev.Now() == old(dev.Now())
    {
      var c := LoadAll();
      var record := NonceRecord(c.key, currentKey, nonce);
      if record.None? { return Err, Ending(Failed, false); }
      result, ending := Persist(KvOp.WriteArmNonce(currentKey, nonce), c.(key := record));
    }
  }
}
