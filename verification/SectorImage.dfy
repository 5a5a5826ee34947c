/**
 What one 128 KiB sector of the STM32F4 store holds: a 64-byte header, three calibration
 pages and five optional records at fixed offsets.
 */
module SectorImage {
  import opened Words
  import opened NorCells
  import opened Diagnostics
  import opened Records
  import SnapshotCodec
  import Crc

  const SECTOR_BYTES: nat := 0x2_0000
  const HEADER_LEN: nat := 64
  const FUEL_LEN: nat := 512
  const IGN_LEN: nat := 512
  const ANGLES_LEN: nat := 68

  const FUEL_AT: nat := 64
  const IGN_AT: nat := 576
  const ANGLES_AT: nat := 1088
  const SNAPSHOT_AT: nat := 1156
  const IDENTITY_AT: nat := 1256
  const AUDIT_AT: nat := 1308
  const KEY_AT: nat := 1328
  const KEY_AUDIT_AT: nat := 1378
  const END_AT: nat := 1400

  type Sector = s: seq<Byte> | |s| == SECTOR_BYTES witness Blank(SECTOR_BYTES)
  type FuelPage = s: seq<Byte> | |s| == FUEL_LEN witness Blank(FUEL_LEN)
  type AnglesPage = s: seq<Byte> | |s| == ANGLES_LEN witness Blank(ANGLES_LEN)

  datatype Contents = Contents(
    fuel: FuelPage, ign: FuelPage, angles: AnglesPage,
    snapshot: Option<Snapshot>,
    identity: Option<IdentityRecord>,
    audit: Option<CommandAudit>,
    key: Option<KeyRecord>,
    keyAudit: Option<KeyAudit>)

  // ---------------------------------------------------------------- header

  const MAGIC: U32 := 0x3250_4B56
  const FUEL_LEN16: U16 := 0x0200
  const IGN_LEN16: U16 := 0x0200
  const ANGLES_LEN16: U16 := 0x0044

  /** The header of a rewrite; the commit marker at offset 6 is left erased. */
  function EncodeHeader(seqNo: U16, fuel: FuelPage, ign: FuelPage, angles: AnglesPage): (hdr: seq<Byte>)
    ensures |hdr| == HEADER_LEN
    ensures hdr[6] == ERASED && hdr[7] == ERASED
  {
    var hdr := PutU32(Blank(HEADER_LEN), 0, MAGIC);
    var hdr := hdr[4 := 2][5 := 0];
    var hdr := PutU16(hdr, 8, seqNo);
    var hdr := PutU16(hdr, 10, FUEL_LEN16);
    var hdr := PutU16(hdr, 12, IGN_LEN16);
    var hdr := PutU16(hdr, 18, ANGLES_LEN16);
    var hdr := PutU16(hdr, 14, Crc.Crc16(fuel));
    var hdr := PutU16(hdr, 16, Crc.Crc16(ign));
    PutU16(hdr, 20, Crc.Crc16(angles))
  }

  datatype KvHeader = KvHeader(
    ok: bool, seqNo: U16, fuelLen: U16, ignLen: U16, anglesLen: U16,
    fuelCrc: U16, ignCrc: U16, anglesCrc: U16)

  const INVALID_HEADER: KvHeader := KvHeader(false, 0, 0, 0, 0, 0, 0, 0)

  predicate Committed(s: Sector)
  {
    ReadU32(s, 0) == MAGIC && ReadU16(s, 6) == 0
  }

  function ReadHeader(s: Sector): (h: KvHeader)
    ensures h.ok <==> Committed(s)
  {
    if ReadU32(s, 0) != MAGIC then INVALID_HEADER
    else if ReadU16(s, 6) != 0 then INVALID_HEADER
    else KvHeader(true, ReadU16(s, 8), ReadU16(s, 10), ReadU16(s, 12), ReadU16(s, 18),
                  ReadU16(s, 14), ReadU16(s, 16), ReadU16(s, 20))
  }

  function ReadSeq(s: Sector): (r: Option<U16>)
    ensures r == if Committed(s) then Some(ReadHeader(s).seqNo) else None
  {
    if ReadU32(s, 0) != MAGIC then None
    else if ReadU16(s, 6) != 0 then None
    else Some(ReadU16(s, 8))
  }

  // ---------------------------------------------------------------- reading

  function FuelOf(s: Sector): FuelPage { s[FUEL_AT..IGN_AT] }
  function IgnOf(s: Sector): FuelPage { s[IGN_AT..ANGLES_AT] }
  function AnglesOf(s: Sector): AnglesPage { s[ANGLES_AT..SNAPSHOT_AT] }
  function SnapshotOf(s: Sector): Option<Snapshot> { SnapshotCodec.DecodeSidecar(s[SNAPSHOT_AT..IDENTITY_AT]) }
  function IdentityOf(s: Sector): Option<IdentityRecord> { DecodeIdentity(s[IDENTITY_AT..AUDIT_AT]) }
  function AuditOf(s: Sector): Option<CommandAudit> { DecodeCommandAudit(s[AUDIT_AT..KEY_AT]) }
  function KeyOf(s: Sector): Option<KeyRecord> { DecodeKeyRecord(s[KEY_AT..KEY_AUDIT_AT]) }
  function KeyAuditOf(s: Sector): Option<KeyAudit> { DecodeKeyAudit(s[KEY_AUDIT_AT..END_AT]) }

  function ContentsOf(s: Sector): Contents
  {
    Contents(FuelOf(s), IgnOf(s), AnglesOf(s), SnapshotOf(s), IdentityOf(s), AuditOf(s), KeyOf(s), KeyAuditOf(s))
  }

  /** The header's lengths and check values agree with the three pages. */
  predicate PagesValid(s: Sector)
  {
    var h := ReadHeader(s);
    && h.fuelLen == FUEL_LEN16 && h.ignLen == IGN_LEN16 && h.anglesLen == ANGLES_LEN16
    && h.fuelCrc == Crc.Crc16(FuelOf(s)) && h.ignCrc == Crc.Crc16(IgnOf(s))
    && h.anglesCrc == Crc.Crc16(AnglesOf(s))
  }

  // ---------------------------------------------------------------- the image of a rewrite

  /** A record's place in the image: its bytes, or nothing, in which case the cells stay erased. */
  predicate Fits(record: Option<seq<Byte>>, len: nat) { record.Some? ==> |record.value| == len }

  type Slot100 = r: Option<seq<Byte>> | Fits(r, 100) witness None
  type Slot52 = r: Option<seq<Byte>> | Fits(r, 52) witness None
  type Slot20 = r: Option<seq<Byte>> | Fits(r, 20) witness None
  type Slot50 = r: Option<seq<Byte>> | Fits(r, 50) witness None
  type Slot22 = r: Option<seq<Byte>> | Fits(r, 22) witness None
  type HeaderBytes = s: seq<Byte> | |s| == HEADER_LEN && s[6] == ERASED && s[7] == ERASED witness Blank(HEADER_LEN)

  /** The byte strings a rewrite programs, in order. */
  datatype Parts = Parts(
    header: HeaderBytes, fuel: FuelPage, ign: FuelPage, angles: AnglesPage,
    snapshot: Slot100, identity: Slot52, audit: Slot20, key: Slot50, keyAudit: Slot22)

  predicate Stageable(c: Contents)
  {
    c.snapshot.Some? ==> SnapshotCodec.Encodable(c.snapshot.value)
  }

  function SnapshotSlot(c: Contents): Slot100
    requires Stageable(c)
  {
    if c.snapshot.Some? then Some(SnapshotCodec.SidecarBytes(c.snapshot.value)) else None
  }

  function IdentitySlot(c: Contents): Slot52
  {
    if c.identity.Some? then Some(EncodeIdentity(c.identity.value)) else None
  }

  function AuditSlot(c: Contents): Slot20
  {
    if c.audit.Some? then Some(EncodeCommandAudit(c.audit.value)) else None
  }

  function KeySlot(c: Contents): Slot50
  {
    if c.key.Some? then Some(EncodeKeyRecord(c.key.value)) else None
  }

  function KeyAuditSlot(c: Contents): Slot22
  {
    if c.keyAudit.Some? then Some(EncodeKeyAudit(c.keyAudit.value)) else None
  }

  function PartsOf(c: Contents, seqNo: U16): Parts
    requires Stageable(c)
  {
    Parts(EncodeHeader(seqNo, c.fuel, c.ign, c.angles), c.fuel, c.ign, c.angles,
          SnapshotSlot(c), IdentitySlot(c), AuditSlot(c), KeySlot(c), KeyAuditSlot(c))
  }

  function SlotOf(record: Option<seq<Byte>>, len: nat): (r: seq<Byte>)
    requires Fits(record, len)
    ensures |r| == len
  {
    if record.Some? then record.value else Blank(len)
  }

  // The image, region by region in the order it is programmed.

  function ThroughFuel(p: Parts): (r: seq<Byte>)
    ensures |r| == IGN_AT
  {
    p.header + p.fuel
  }

  function ThroughIgn(p: Parts): (r: seq<Byte>)
    ensures |r| == ANGLES_AT
  {
    ThroughFuel(p) + p.ign
  }

  function ThroughPages(p: Parts): (r: seq<Byte>)
    ensures |r| == SNAPSHOT_AT
  {
    ThroughIgn(p) + p.angles
  }

  function ThroughSnapshot(p: Parts): (r: seq<Byte>)
    ensures |r| == IDENTITY_AT
  {
    ThroughPages(p) + SlotOf(p.snapshot, 100)
  }

  function ThroughIdentity(p: Parts): (r: seq<Byte>)
    ensures |r| == AUDIT_AT
  {
    ThroughSnapshot(p) + SlotOf(p.identity, 52)
  }

  function ThroughAudit(p: Parts): (r: seq<Byte>)
    ensures |r| == KEY_AT
  {
    ThroughIdentity(p) + SlotOf(p.audit, 20)
  }

  function ThroughKey(p: Parts): (r: seq<Byte>)
    ensures |r| == KEY_AUDIT_AT
  {
    ThroughAudit(p) + SlotOf(p.key, 50)
  }

  function ThroughKeyAudit(p: Parts): (r: seq<Byte>)
    ensures |r| == END_AT
  {
    ThroughKey(p) + SlotOf(p.keyAudit, 22)
  }

  /** Programmed so far, erased behind. */
  function Padded(front: seq<Byte>): (s: Sector)
    requires |front| <= SECTOR_BYTES
    ensures s[..|front|] == front
    ensures forall i :: |front| <= i < SECTOR_BYTES ==> s[i] == ERASED
  {
    front + Blank(SECTOR_BYTES - |front|)
  }

  function StagedImage(p: Parts): Sector { Padded(ThroughKeyAudit(p)) }

  function Mark(s: Sector): Sector { s[6 := 0][7 := 0] }

  function CommittedImage(p: Parts): Sector { Mark(StagedImage(p)) }

  /** What a record turns into when it is written and read back. */
  function Normal(c: Contents): (n: Contents)
    ensures Stageable(n)
    ensures n.fuel == c.fuel && n.ign == c.ign && n.angles == c.angles && n.key == c.key && n.keyAudit == c.keyAudit
  {
    Contents(
      c.fuel, c.ign, c.angles,
      if c.snapshot.Some? && SnapshotCodec.Encodable(c.snapshot.value)
      then Some(SnapshotCodec.ClampCount(c.snapshot.value)) else None,
      if c.identity.Some? then Some(ClampLengths(c.identity.value)) else None,
      if c.audit.Some? then Some(DropAllOnes(c.audit.value)) else None,
      c.key, c.keyAudit)
  }

  predicate Representable(c: Contents)
  {
    && (c.snapshot.Some? ==> SnapshotCodec.Encodable(c.snapshot.value) && c.snapshot.value.codeCount <= 3)
    && (c.identity.Some? ==> LengthsInRange(c.identity.value))
    && (c.audit.Some? ==> Records.Encodable(c.audit.value))
  }

  /** Writing and reading back changes nothing exactly for representable contents. */
  lemma NormalIsIdentity(c: Contents)
    ensures Normal(c) == c <==> Representable(c)
    ensures Representable(Normal(c))
  {}

  /** Whatever is read from any sector, committed or not, is representable. */
  lemma ReadIsRepresentable(s: Sector)
    ensures Representable(ContentsOf(s))
  {}

  // ---------------------------------------------------------------- reading an image back

  lemma HeaderFields(seqNo: U16, fuel: FuelPage, ign: FuelPage, angles: AnglesPage)
    ensures var h := EncodeHeader(seqNo, fuel, ign, angles);
            && ReadU32(h, 0) == MAGIC && ReadU16(h, 8) == seqNo
            && ReadU16(h, 10) == FUEL_LEN16 && ReadU16(h, 12) == IGN_LEN16 && ReadU16(h, 18) == ANGLES_LEN16
            && ReadU16(h, 14) == Crc.Crc16(fuel) && ReadU16(h, 16) == Crc.Crc16(ign)
            && ReadU16(h, 20) == Crc.Crc16(angles)
  {}

  lemma PrefixOfConcat(p: seq<Byte>, x: seq<Byte>)
    ensures (p + x)[..|p|] == p && (p + x)[|p|..] == x
  {}

  lemma PrefixOfPrefix(s: seq<Byte>, t: seq<Byte>, n: nat, m: nat)
    requires n <= m <= |s| && m <= |t| && s[..m] == t[..m]
    ensures s[..n] == t[..n]
  {
    assert s[..n] == s[..m][..n] && t[..n] == t[..m][..n];
  }

  /** The part of the image up to each region is a prefix of the whole. */
  lemma StagedPrefixes(p: Parts)
    ensures var s := StagedImage(p);
            && s[..END_AT] == ThroughKeyAudit(p) && s[..KEY_AUDIT_AT] == ThroughKey(p)
            && s[..KEY_AT] == ThroughAudit(p) && s[..AUDIT_AT] == ThroughIdentity(p)
            && s[..IDENTITY_AT] == ThroughSnapshot(p) && s[..SNAPSHOT_AT] == ThroughPages(p)
  {
    var s := StagedImage(p);
    PrefixOfConcat(ThroughKey(p), SlotOf(p.keyAudit, 22));
    PrefixOfPrefix(s, ThroughKeyAudit(p), KEY_AUDIT_AT, END_AT);
    PrefixOfConcat(ThroughAudit(p), SlotOf(p.key, 50));
    PrefixOfPrefix(s, ThroughKey(p), KEY_AT, KEY_AUDIT_AT);
    PrefixOfConcat(ThroughIdentity(p), SlotOf(p.audit, 20));
    PrefixOfPrefix(s, ThroughAudit(p), AUDIT_AT, KEY_AT);
    PrefixOfConcat(ThroughSnapshot(p), SlotOf(p.identity, 52));
    PrefixOfPrefix(s, ThroughIdentity(p), IDENTITY_AT, AUDIT_AT);
    PrefixOfConcat(ThroughPages(p), SlotOf(p.snapshot, 100));
    PrefixOfPrefix(s, ThroughSnapshot(p), SNAPSHOT_AT, IDENTITY_AT);
  }

  lemma SliceBehindPrefix(s: seq<Byte>, p: seq<Byte>, x: seq<Byte>)
    requires |p| + |x| <= |s| && s[..|p| + |x|] == p + x
    ensures s[|p|..|p| + |x|] == x
  {
    assert s[|p|..|p| + |x|] == s[..|p| + |x|][|p|..];
  }

  lemma MarkerAside(s: Sector, from: nat, to: nat)
    requires 8 <= from <= to <= SECTOR_BYTES
    ensures Mark(s)[from..to] == s[from..to]
  {}

  lemma ImagePages(p: Parts)
    ensures var s := CommittedImage(p); FuelOf(s) == p.fuel && IgnOf(s) == p.ign && AnglesOf(s) == p.angles
    ensures StagedImage(p)[..FUEL_AT] == p.header
  {
    var t := StagedImage(p);
    StagedPrefixes(p);
    PrefixOfConcat(ThroughIgn(p), p.angles);
    PrefixOfPrefix(t, ThroughPages(p), ANGLES_AT, SNAPSHOT_AT);
    PrefixOfConcat(ThroughFuel(p), p.ign);
    PrefixOfPrefix(t, ThroughIgn(p), IGN_AT, ANGLES_AT);
    PrefixOfConcat(p.header, p.fuel);
    PrefixOfPrefix(t, ThroughFuel(p), FUEL_AT, IGN_AT);
    SliceBehindPrefix(t, ThroughIgn(p), p.angles);
    SliceBehindPrefix(t, ThroughFuel(p), p.ign);
    SliceBehindPrefix(t, p.header, p.fuel);
    MarkerAside(t, FUEL_AT, IGN_AT);
    MarkerAside(t, IGN_AT, ANGLES_AT);
    MarkerAside(t, ANGLES_AT, SNAPSHOT_AT);
  }

  lemma ImageSlots(p: Parts)
    ensures var s := CommittedImage(p);
            && s[SNAPSHOT_AT..IDENTITY_AT] == SlotOf(p.snapshot, 100)
            && s[IDENTITY_AT..AUDIT_AT] == SlotOf(p.identity, 52)
            && s[AUDIT_AT..KEY_AT] == SlotOf(p.audit, 20)
            && s[KEY_AT..KEY_AUDIT_AT] == SlotOf(p.key, 50)
            && s[KEY_AUDIT_AT..END_AT] == SlotOf(p.keyAudit, 22)
  {
    var t := StagedImage(p);
    StagedPrefixes(p);
    SliceBehindPrefix(t, ThroughPages(p), SlotOf(p.snapshot, 100));
    SliceBehindPrefix(t, ThroughSnapshot(p), SlotOf(p.identity, 52));
    SliceBehindPrefix(t, ThroughIdentity(p), SlotOf(p.audit, 20));
    SliceBehindPrefix(t, ThroughAudit(p), SlotOf(p.key, 50));
    SliceBehindPrefix(t, ThroughKey(p), SlotOf(p.keyAudit, 22));
    MarkerAside(t, SNAPSHOT_AT, IDENTITY_AT);
    MarkerAside(t, IDENTITY_AT, AUDIT_AT);
    MarkerAside(t, AUDIT_AT, KEY_AT);
    MarkerAside(t, KEY_AT, KEY_AUDIT_AT);
    MarkerAside(t, KEY_AUDIT_AT, END_AT);
  }

  lemma ErasedBehindImage(p: Parts)
    ensures forall i :: END_AT <= i < SECTOR_BYTES ==> CommittedImage(p)[i] == ERASED
  {
    var t := StagedImage(p);
    assert forall i :: END_AT <= i < SECTOR_BYTES ==> Mark(t)[i] == t[i];
  }

  /** Where a sector keeps what: header fields, pages, and records or erased cells in their place. */
  lemma ImageLayout(c: Contents, seqNo: U16)
    requires Stageable(c)
    ensures var s := CommittedImage(PartsOf(c, seqNo));
            && s[64..576] == c.fuel && s[576..1088] == c.ign && s[1088..1156] == c.angles
            && s[1156..1256] == (if c.snapshot.Some? then SnapshotCodec.SidecarBytes(c.snapshot.value) else Blank(100))
            && s[1256..1308] == (if c.identity.Some? then EncodeIdentity(c.identity.value) else Blank(52))
            && s[1308..1328] == (if c.audit.Some? then EncodeCommandAudit(c.audit.value) else Blank(20))
            && s[1328..1378] == (if c.key.Some? then EncodeKeyRecord(c.key.value) else Blank(50))
            && s[1378..1400] == (if c.keyAudit.Some? then EncodeKeyAudit(c.keyAudit.value) else Blank(22))
            && forall i :: 1400 <= i < SECTOR_BYTES ==> s[i] == ERASED
  {
    var p := PartsOf(c, seqNo);
    ImagePages(p);
    ImageSlots(p);
    ErasedBehindImage(p);
  }

  lemma HistorySlotsDecode(c: Contents)
    requires Stageable(c)
    ensures SnapshotCodec.DecodeSidecar(SlotOf(SnapshotSlot(c), 100)) == Normal(c).snapshot
    ensures DecodeIdentity(SlotOf(IdentitySlot(c), 52)) == Normal(c).identity
  {
    if c.snapshot.Some? {
      SnapshotCodec.SidecarRoundTrip(c.snapshot.value);
    } else {
      SnapshotCodec.ErasedSidecar(Blank(100));
    }
    if c.identity.Some? { IdentityRoundTrip(c.identity.value); }
  }

  lemma AuditSlotDecodes(c: Contents)
    ensures DecodeCommandAudit(SlotOf(AuditSlot(c), 20)) == Normal(c).audit
  {
    if c.audit.Some? { CommandAuditRoundTrip(c.audit.value); }
  }

  lemma KeySlotsDecode(c: Contents)
    ensures DecodeKeyRecord(SlotOf(KeySlot(c), 50)) == c.key
    ensures DecodeKeyAudit(SlotOf(KeyAuditSlot(c), 22)) == c.keyAudit
  {
    if c.key.Some? { KeyRecordRoundTrip(c.key.value); }
    if c.keyAudit.Some? { KeyAuditRoundTrip(c.keyAudit.value); }
  }

  lemma HeaderInImage(p: Parts)
    ensures var s := CommittedImage(p);
            && ReadU16(s, 6) == 0 && ReadU32(s, 0) == ReadU32(p.header, 0)
            && forall i :: 8 <= i < FUEL_AT ==> s[i] == p.header[i]
  {
    var s, t := CommittedImage(p), StagedImage(p);
    ImagePages(p);
    forall i | 0 <= i < FUEL_AT && i != 6 && i != 7
      ensures s[i] == p.header[i]
    {
      assert t[i] == t[..FUEL_AT][i];
    }
  }

  lemma ImageHeader(c: Contents, seqNo: U16)
    requires Stageable(c)
    ensures var s := CommittedImage(PartsOf(c, seqNo));
            Committed(s) && ReadHeader(s).seqNo == seqNo && PagesValid(s)
  {
    ImagePages(PartsOf(c, seqNo));
    HeaderInImage(PartsOf(c, seqNo));
    HeaderFields(seqNo, c.fuel, c.ign, c.angles);
  }

  /** A committed rewrite reads back as the contents it was given, up to what the formats drop. */
  lemma ImageReadsBack(c: Contents, seqNo: U16)
    requires Stageable(c)
    ensures var s := CommittedImage(PartsOf(c, seqNo));
            Committed(s) && ReadHeader(s).seqNo == seqNo && PagesValid(s) && ContentsOf(s) == Normal(c)
  {
    ImageHeader(c, seqNo);
    ImagePages(PartsOf(c, seqNo));
    ImageSlots(PartsOf(c, seqNo));
    HistorySlotsDecode(c);
    AuditSlotDecodes(c);
    KeySlotsDecode(c);
  }
}
