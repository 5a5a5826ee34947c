/**
 The store's operations on what it holds: what each one prepares to write, which regions
 it names, and what is held afterwards, however its rewrite ends.
 */
module KvOps {
  import opened Words
  import opened Diagnostics
  import opened Records
  import opened SectorImage
  import opened StoreViews
  import SnapshotCodec

  datatype KvOp =
    | WritePage(pageKey: string, data: seq<Byte>)
    | SaveSnapshot(snapshot: Snapshot)
    | WriteIdentity(identity: IdentityRecord)
    | WriteCommandAudit(audit: CommandAudit)
    | WriteKey(key: KeyRecord)
    | WriteKeyAudit(keyAudit: KeyAudit)
    | WriteKeyAuditWithKey(keyAudit: KeyAudit, keyRecord: Option<KeyRecord>)
    | WriteArmNonce(currentKey: Key, nonce: U32)

  datatype KvResult = Ok | Err | PowerLost

  type Held = Option<Contents>

  /** What an operation starts from; a store that holds nothing reads as zero pages. */
  function Base(held: Held): Contents
  {
    if held.Some? then held.value
    else Contents(Zeros(FUEL_LEN), Zeros(IGN_LEN), Zeros(ANGLES_LEN), None, None, None, None, None)
  }

  datatype Page = Fuel | Ign | Angles

  function PageNamed(key: string): Option<Page>
  {
    if key == "fuel" then Some(Fuel) else if key == "ign" then Some(Ign)
    else if key == "angles" then Some(Angles) else None
  }

  function KeyName(page: Page): (key: string)
    ensures PageNamed(key) == Some(page)
  {
    match page case Fuel => "fuel" case Ign => "ign" case Angles => "angles"
  }

  function PageLength(page: Page): nat
  {
    match page case Fuel => FUEL_LEN case Ign => IGN_LEN case Angles => ANGLES_LEN
  }

  /** The contents with one page replaced; a key that names no page, or data of another length, is refused. */
  function PatchPage(c: Contents, page: Option<Page>, data: seq<Byte>): Option<Contents>
  {
    if page.None? || |data| != PageLength(page.value) then None
    else match page.value
      case Fuel => Some(c.(fuel := data))
      case Ign => Some(c.(ign := data))
      case Angles => Some(c.(angles := data))
  }

  /** The record an arm nonce is written into: refused unless the stored key is the current one. */
  function NonceRecord(stored: Option<KeyRecord>, currentKey: Key, nonce: U32): Option<KeyRecord>
  {
    match stored
    case None => Some(KeyRecord(currentKey, 0, nonce, false))
    case Some(record) =>
      if record.ActiveKey() == Some(currentKey) then Some(record.(lastArmNonce := nonce)) else None
  }

  /** What an operation is about to write, or nothing when it is refused up front. */
  function Prepare(held: Held, op: KvOp): Option<Contents>
  {
    var c := Base(held);
    match op
    case WritePage(key, data) => PatchPage(c, PageNamed(key), data)
    case SaveSnapshot(snapshot) => Some(c.(snapshot := Some(snapshot)))
    case WriteIdentity(identity) =>
      if LengthsInRange(identity) then Some(c.(identity := Some(identity))) else None
    case WriteCommandAudit(audit) => Some(c.(audit := Some(audit)))
    case WriteKey(key) => Some(c.(key := Some(key)))
    case WriteKeyAudit(keyAudit) => Some(c.(keyAudit := Some(keyAudit)))
    case WriteKeyAuditWithKey(keyAudit, key) => Some(c.(key := key, keyAudit := Some(keyAudit)))
    case WriteArmNonce(currentKey, nonce) =>
      match NonceRecord(c.key, currentKey, nonce)
      case None => None
      case Some(record) => Some(c.(key := Some(record)))
  }

  /** A page key is one of three names, each with its own length. */
  predicate PageFits(key: string, data: seq<Byte>)
  {
    (key == "fuel" && |data| == 512) || (key == "ign" && |data| == 512) || (key == "angles" && |data| == 68)
  }

  /** The stored key record allows a nonce under this key: there is none, or it is this key's and not revoked. */
  predicate TakesNonce(stored: Option<KeyRecord>, currentKey: Key)
  {
    stored.Some? ==> stored.value.key == currentKey && !stored.value.revoked
  }

  /** Exactly three kinds of operation are refused up front. */
  lemma RefusedExactly(held: Held, op: KvOp)
    ensures Prepare(held, op).None? <==>
              || (op.WritePage? && !PageFits(op.pageKey, op.data))
              || (op.WriteIdentity? && !(op.identity.vinLen <= 17 && op.identity.calibrationIdLen <= 17 && op.identity.boardLen <= 6))
              || (op.WriteArmNonce? && !TakesNonce(Base(held).key, op.currentKey))
  {}

  /** A page goes where its name says. */
  lemma PagePrepared(held: Held, data: seq<Byte>)
    ensures |data| == 512 ==> Prepare(held, WritePage("fuel", data)) == Some(Base(held).(fuel := data))
    ensures |data| == 512 ==> Prepare(held, WritePage("ign", data)) == Some(Base(held).(ign := data))
    ensures |data| == 68 ==> Prepare(held, WritePage("angles", data)) == Some(Base(held).(angles := data))
  {}

  /** The check an operation makes on what it reads back. */
  predicate ReadsBack(prepared: Contents, op: KvOp, held: Held)
  {
    match op
    case WritePage(_, _) => true
    case SaveSnapshot(_) => true
    case WriteIdentity(identity) => Base(held).identity == Some(identity)
    case WriteCommandAudit(audit) => Base(held).audit == Some(audit)
    case WriteKey(key) => Base(held).key == Some(key)
    case WriteKeyAudit(keyAudit) => Base(held).keyAudit == Some(keyAudit) && Base(held).key == prepared.key
    case WriteKeyAuditWithKey(keyAudit, key) => Base(held).keyAudit == Some(keyAudit) && Base(held).key == key
    case WriteArmNonce(_, _) => Base(held).key == prepared.key
  }

  /** How a rewrite ended: `landed` says whether its contents are what readers now see. */
  datatype Ending = Ending(outcome: Outcome, landed: bool) {
    predicate Possible() { outcome.Done? ==> landed }
  }

  datatype Applied = Applied(held: Held, result: KvResult)

  /** What is held once a prepared rewrite has landed, or has not. */
  function Landed(held: Held, prepared: Option<Contents>, landed: bool): Held
  {
    if prepared.Some? && landed then Some(Normal(prepared.value)) else held
  }

  function ResultOf(op: KvOp, prepared: Option<Contents>, after: Held, outcome: Outcome): KvResult
  {
    if prepared.None? then Err
    else match outcome
      case Done => if ReadsBack(prepared.value, op, after) then Ok else Err
      case Failed => Err
      case Lost => PowerLost
  }

  function Apply(held: Held, op: KvOp, ending: Ending): Applied
  {
    var prepared := Prepare(held, op);
    var after := Landed(held, prepared, ending.landed);
    Applied(after, ResultOf(op, prepared, after, ending.outcome))
  }

  predicate WellHeld(held: Held) { held.Some? ==> Representable(held.value) }

  lemma LandedIsWellHeld(held: Held, prepared: Option<Contents>, landed: bool)
    requires WellHeld(held)
    ensures WellHeld(Landed(held, prepared, landed))
  {
    if prepared.Some? { NormalIsIdentity(prepared.value); }
  }

  /** The only operation that can be committed and still fail its own read-back check is an audit whose three lengths are 0xFF. */
  lemma ReadBackFails(held: Held, op: KvOp, ending: Ending)
    requires WellHeld(held) && ending.Possible() && ending.outcome.Done? && Prepare(held, op).Some?
    ensures Apply(held, op, ending).result == Err <==> op.WriteCommandAudit? && !Records.Encodable(op.audit)
  {}

  /**
   What an operation answers: an error if it is refused or its rewrite gives up, nothing if
   power is lost, and success if the rewrite is done, the one audit above aside.
   */
  lemma ResultExactly(held: Held, op: KvOp, ending: Ending)
    requires WellHeld(held) && ending.Possible()
    ensures var end := Apply(held, op, ending);
            if Prepare(held, op).None? then end == Applied(held, Err)
            else match ending.outcome
              case Failed => end.result == Err
              case Lost => end.result == PowerLost
              case Done => end.result == if op.WriteCommandAudit? && !Records.Encodable(op.audit) then Err else Ok
  {
    if Prepare(held, op).Some? && ending.outcome.Done? { ReadBackFails(held, op, ending); }
  }

  /** The named regions hold what the operation was given. */
  predicate Stored(held: Held, op: KvOp, after: Contents)
  {
    match op
    case WritePage(key, data) =>
      PageNamed(key).Some? && data == (match PageNamed(key).value
                                       case Fuel => after.fuel case Ign => after.ign case Angles => after.angles)
    case SaveSnapshot(snapshot) =>
      after.snapshot == if SnapshotCodec.Encodable(snapshot) then Some(SnapshotCodec.ClampCount(snapshot)) else None
    case WriteIdentity(identity) => after.identity == Some(identity)
    case WriteCommandAudit(audit) => after.audit == Some(audit)
    case WriteKey(key) => after.key == Some(key)
    case WriteKeyAudit(keyAudit) => after.keyAudit == Some(keyAudit)
    case WriteKeyAuditWithKey(keyAudit, key) => after.keyAudit == Some(keyAudit) && after.key == key
    case WriteArmNonce(currentKey, nonce) =>
      && after.key.Some? && after.key.value.lastArmNonce == nonce && after.key.value.ActiveKey() == Some(currentKey)
      && after.key.value.generation == (if Base(held).key.Some? then Base(held).key.value.generation else 0)
  }

  /** Success means that what was given is what is held. */
  lemma SuccessStores(held: Held, op: KvOp, ending: Ending)
    requires ending.Possible() && Apply(held, op, ending).result == Ok
    ensures var after := Apply(held, op, ending).held; after.Some? && Stored(held, op, after.value)
  {}

  /**
   On a reachable store only one operation can prepare contents that cannot be staged:
   saving a history that holds anything but sensor data.
   */
  lemma StagingFailsExactly(held: Held, op: KvOp)
    requires WellHeld(held) && Prepare(held, op).Some?
    ensures Stageable(Prepare(held, op).value) <==> !(op.SaveSnapshot? && !SnapshotCodec.Encodable(op.snapshot))
  {}

  // ---------------------------------------------------------------- frames

  datatype Region = FuelR | IgnR | AnglesR | SnapshotR | IdentityR | AuditR | KeyR | KeyAuditR

  predicate Names(op: KvOp, r: Region)
  {
    match op
    case WritePage(key, _) =>
      var page := PageNamed(key);
      (r == FuelR && page == Some(Fuel)) || (r == IgnR && page == Some(Ign)) || (r == AnglesR && page == Some(Angles))
    case SaveSnapshot(_) => r == SnapshotR
    case WriteIdentity(_) => r == IdentityR
    case WriteCommandAudit(_) => r == AuditR
    case WriteKey(_) => r == KeyR
    case WriteKeyAudit(_) => r == KeyAuditR
    case WriteKeyAuditWithKey(_, _) => r == KeyR || r == KeyAuditR
    case WriteArmNonce(_, _) => r == KeyR
  }

  predicate SameRegion(c: Contents, d: Contents, r: Region)
  {
    match r
    case FuelR => c.fuel == d.fuel
    case IgnR => c.ign == d.ign
    case AnglesR => c.angles == d.angles
    case SnapshotR => c.snapshot == d.snapshot
    case IdentityR => c.identity == d.identity
    case AuditR => c.audit == d.audit
    case KeyR => c.key == d.key
    case KeyAuditR => c.keyAudit == d.keyAudit
  }

  lemma PrepareFrame(held: Held, op: KvOp, r: Region)
    requires !Names(op, r)
    ensures Prepare(held, op).Some? ==> SameRegion(Base(held), Prepare(held, op).value, r)
  {}

  lemma LandedFrame(held: Held, prepared: Option<Contents>, landed: bool, r: Region)
    requires held.Some? && Representable(held.value)
    requires prepared.Some? ==> SameRegion(held.value, prepared.value, r)
    ensures var after := Landed(held, prepared, landed);
            after.Some? && Representable(after.value) && SameRegion(held.value, after.value, r)
  {
    LandedIsWellHeld(held, prepared, landed);
  }

  /** On an initialised store an operation changes only the regions it names, whatever becomes of it. */
  lemma ApplyFrame(held: Held, op: KvOp, ending: Ending, r: Region)
    requires held.Some? && Representable(held.value) && !Names(op, r)
    ensures var after := Apply(held, op, ending).held;
            after.Some? && Representable(after.value) && SameRegion(held.value, after.value, r)
  {
    PrepareFrame(held, op, r);
    LandedFrame(held, Prepare(held, op), ending.landed, r);
  }

  datatype KvStep = KvStep(op: KvOp, ending: Ending)

  function RunOps(held: Held, steps: seq<KvStep>): Held
    decreases |steps|
  {
    if steps == [] then held else RunOps(Apply(held, steps[0].op, steps[0].ending).held, steps[1..])
  }

  /** Over any run of operations, finished or not, a region that none of them names reads back unchanged. */
  lemma {:induction false} FrameOverRuns(held: Held, steps: seq<KvStep>, r: Region)
    requires held.Some? && Representable(held.value)
    requires forall i :: 0 <= i < |steps| ==> !Names(steps[i].op, r)
    ensures RunOps(held, steps).Some? && SameRegion(held.value, RunOps(held, steps).value, r)
    decreases |steps|
  {
    if steps != [] {
      ApplyFrame(held, steps[0].op, steps[0].ending, r);
      FrameOverRuns(Apply(held, steps[0].op, steps[0].ending).held, steps[1..], r);
    }
  }
}
