/**
 The records that the STM32F4 store keeps behind the calibration pages, and their
 fixed-size byte formats. Every format starts with a magic number and a version and
 ends with a check value over everything before it.
 */
module Records {
  import opened Words
  import opened NorCells
  import Crc

  type Bytes17 = s: seq<Byte> | |s| == 17 witness Blank(17)
  type Bytes6 = s: seq<Byte> | |s| == 6 witness Blank(6)
  type Key = s: seq<Byte> | |s| == 32 witness Blank(32)

  const VIN_LEN: Byte := 17
  const BOARD_LEN: Byte := 6

  datatype IdentityRecord = IdentityRecord(
    vinLen: Byte, vin: Bytes17,
    calibrationIdLen: Byte, calibrationId: Bytes17,
    boardLen: Byte, board: Bytes6)

  datatype Field = Vin | CalibrationId | BoardBuildIdentity
  datatype Lengths = Lengths(vin: Byte, calibrationId: Byte, board: Byte)

  datatype ProvisioningStatus = ProvisioningStatus(
    attempted: bool, accepted: bool, rejectedField: Option<Field>, storeFailed: bool,
    lengths: Option<Lengths>)

  datatype CommandAudit = CommandAudit(
    requestId: U32, authorized: bool, authorizationFailed: bool, status: Option<ProvisioningStatus>)

  datatype KeyRecord = KeyRecord(key: Key, generation: U32, lastArmNonce: U32, revoked: bool) {
    function ActiveKey(): Option<Key> { if revoked then None else Some(key) }
  }

  datatype KeyAudit = KeyAudit(
    requestId: U32, authorized: bool, accepted: bool, storeFailed: bool, rejectedReason: Byte,
    generation: U32)

  // ---------------------------------------------------------------- the common frame

  predicate AllErased(s: seq<Byte>) { forall i :: 0 <= i < |s| ==> s[i] == ERASED }

  predicate Sealed(s: seq<Byte>)
    requires |s| >= 2
  {
    Crc.Crc16(s[..|s| - 2]) == U16From(s[|s| - 2], s[|s| - 1])
  }

  /** Fills in the check value over everything before the last two bytes. */
  function Seal(s: seq<Byte>): (r: seq<Byte>)
    requires |s| >= 2
    ensures |r| == |s| && Sealed(r)
    ensures forall i :: 0 <= i < |s| - 2 ==> r[i] == s[i]
  {
    var crc := Crc.Crc16(s[..|s| - 2]);
    U16RoundTrip(crc);
    var r := s[..|s| - 2] + [Lo(crc), Hi(crc)];
    assert r[..|s| - 2] == s[..|s| - 2];
    r
  }

  /** An erased image of n bytes with the magic number and version 1 filled in. */
  function Opened(n: nat, magic: U32): (r: seq<Byte>)
    requires n >= 6
    ensures |r| == n
    ensures ReadU32(r, 0) == magic && r[4] == 1 && r[5] == 0
    ensures forall i :: 6 <= i < n ==> r[i] == ERASED
  {
    U32RoundTrip(magic);
    Splice(Splice(Blank(n), 0, Le32(magic)), 4, [1, 0])
  }

  /** The three tests every decoder starts with. */
  predicate HasFrame(s: seq<Byte>, magic: U32)
    requires |s| >= 6
  {
    !AllErased(s) && ReadU32(s, 0) == magic && s[4] == 1 && s[5] == 0
  }

  lemma MagicNotErased(s: seq<Byte>, magic: U32)
    requires |s| >= 4 && ReadU32(s, 0) == magic && magic & 0xFF != 0xFF
    ensures s[0] != ERASED
  {}

  // ---------------------------------------------------------------- key record

  const KEY_BYTES: nat := 50
  const KEY_MAGIC: U32 := 0x4B49_424F
  const KEY_ACTIVE: Byte := 0x01
  const KEY_REVOKED: Byte := 0x02

  function EncodeKeyRecord(record: KeyRecord): (out: seq<Byte>)
    ensures |out| == KEY_BYTES
  {
    var out := Opened(KEY_BYTES, KEY_MAGIC);
    var out := out[6 := if record.revoked then KEY_REVOKED else KEY_ACTIVE];
    var out := PutU32(out, 8, record.generation);
    var out := Splice(out, 12, record.key);
    var out := PutU32(out, 44, record.lastArmNonce);
    Seal(out)
  }

  /** No flag beside the two lifecycle flags, and exactly one of those. */
  predicate LifecycleFlags(flags: Byte)
  {
    flags & !(KEY_ACTIVE | KEY_REVOKED) == 0 && (flags & KEY_ACTIVE != 0) != (flags & KEY_REVOKED != 0)
  }

  function DecodeKeyRecord(bytes: seq<Byte>): (r: Option<KeyRecord>)
    requires |bytes| == KEY_BYTES
    ensures AllErased(bytes) ==> r == None
  {
    if !HasFrame(bytes, KEY_MAGIC) then None
    else if !LifecycleFlags(bytes[6]) then None
    else if !Sealed(bytes) then None
    else Some(KeyRecord(bytes[12..44], ReadU32(bytes, 8), ReadU32(bytes, 44), bytes[6] & KEY_REVOKED != 0))
  }

  lemma KeyRecordRoundTrip(record: KeyRecord)
    ensures DecodeKeyRecord(EncodeKeyRecord(record)) == Some(record)
    ensures !AllErased(EncodeKeyRecord(record))
  {
    var out := EncodeKeyRecord(record);
    MagicNotErased(out, KEY_MAGIC);
    assert LifecycleFlags(KEY_ACTIVE) && LifecycleFlags(KEY_REVOKED);
    assert out[12..44] == record.key;
  }

  // ---------------------------------------------------------------- key audit

  const KEY_AUDIT_BYTES: nat := 22
  const KEY_AUDIT_MAGIC: U32 := 0x4C49_424F

  function Flag(on: bool, mask: Byte): Byte { if on then mask else 0 }

  function KeyAuditFlags(audit: KeyAudit): Byte
  {
    Flag(audit.authorized, 0x01) | Flag(audit.accepted, 0x02) | Flag(audit.storeFailed, 0x04)
  }

  function EncodeKeyAudit(audit: KeyAudit): (out: seq<Byte>)
    ensures |out| == KEY_AUDIT_BYTES
  {
    var out := Opened(KEY_AUDIT_BYTES, KEY_AUDIT_MAGIC);
    var out := PutU32(out, 6, audit.requestId);
    var out := out[10 := KeyAuditFlags(audit)][11 := audit.rejectedReason];
    var out := PutU32(out, 12, audit.generation);
    Seal(out)
  }

  function DecodeKeyAudit(bytes: seq<Byte>): (r: Option<KeyAudit>)
    requires |bytes| == KEY_AUDIT_BYTES
    ensures AllErased(bytes) ==> r == None
  {
    if !HasFrame(bytes, KEY_AUDIT_MAGIC) then None
    else if !Sealed(bytes) then None
    else
      var flags := bytes[10];
      if flags & !0x07 != 0 then None
      else Some(KeyAudit(ReadU32(bytes, 6), flags & 0x01 != 0, flags & 0x02 != 0, flags & 0x04 != 0,
                         bytes[11], ReadU32(bytes, 12)))
  }

  lemma KeyAuditFlagsRead(audit: KeyAudit)
    ensures var flags := KeyAuditFlags(audit);
            && flags & !0x07 == 0
            && (flags & 0x01 != 0) == audit.authorized
            && (flags & 0x02 != 0) == audit.accepted
            && (flags & 0x04 != 0) == audit.storeFailed
  {}

  lemma KeyAuditRoundTrip(audit: KeyAudit)
    ensures DecodeKeyAudit(EncodeKeyAudit(audit)) == Some(audit)
    ensures !AllErased(EncodeKeyAudit(audit))
  {
    var out := EncodeKeyAudit(audit);
    MagicNotErased(out, KEY_AUDIT_MAGIC);
    KeyAuditFlagsRead(audit);
  }

  // ---------------------------------------------------------------- identity record

  const IDENTITY_BYTES: nat := 52
  const IDENTITY_MAGIC: U32 := 0x3249_424F

  function EncodeIdentity(record: IdentityRecord): (out: seq<Byte>)
    ensures |out| == IDENTITY_BYTES
  {
    var out := Opened(IDENTITY_BYTES, IDENTITY_MAGIC);
    var out := out[6 := MinByte(record.vinLen, VIN_LEN)];
    var out := out[7 := MinByte(record.calibrationIdLen, VIN_LEN)];
    var out := out[8 := MinByte(record.boardLen, BOARD_LEN)];
    var out := Splice(out, 9, record.vin);
    var out := Splice(out, 26, record.calibrationId);
    var out := Splice(out, 43, record.board);
    Seal(out)
  }

  predicate LengthsInRange(record: IdentityRecord)
  {
    record.vinLen <= VIN_LEN && record.calibrationIdLen <= VIN_LEN && record.boardLen <= BOARD_LEN
  }

  function DecodeIdentity(bytes: seq<Byte>): (r: Option<IdentityRecord>)
    requires |bytes| == IDENTITY_BYTES
    ensures AllErased(bytes) ==> r == None
    ensures r.Some? ==> LengthsInRange(r.value)
  {
    if !HasFrame(bytes, IDENTITY_MAGIC) then None
    else if bytes[6] > VIN_LEN || bytes[7] > VIN_LEN || bytes[8] > BOARD_LEN then None
    else if !Sealed(bytes) then None
    else Some(IdentityRecord(bytes[6], bytes[9..26], bytes[7], bytes[26..43], bytes[8], bytes[43..49]))
  }

  function ClampLengths(record: IdentityRecord): (r: IdentityRecord)
    ensures LengthsInRange(r)
    ensures r == record <==> LengthsInRange(record)
  {
    record.(vinLen := MinByte(record.vinLen, VIN_LEN),
            calibrationIdLen := MinByte(record.calibrationIdLen, VIN_LEN),
            boardLen := MinByte(record.boardLen, BOARD_LEN))
  }

  /** An identity survives the byte format if and only if its lengths are in range. */
  lemma IdentityRoundTrip(record: IdentityRecord)
    ensures DecodeIdentity(EncodeIdentity(record)) == Some(ClampLengths(record))
    ensures DecodeIdentity(EncodeIdentity(record)) == Some(record) <==> LengthsInRange(record)
    ensures !AllErased(EncodeIdentity(record))
  {
    var out := EncodeIdentity(record);
    MagicNotErased(out, IDENTITY_MAGIC);
    assert out[9..26] == record.vin;
    assert out[26..43] == record.calibrationId;
    assert out[43..49] == record.board;
  }

  // ---------------------------------------------------------------- command audit

  const COMMAND_AUDIT_BYTES: nat := 20
  const COMMAND_AUDIT_MAGIC: U32 := 0x4149_424F

  function EncodeRejectedField(field: Option<Field>): Byte
  {
    match field
    case None => 0
    case Some(Vin) => 1
    case Some(CalibrationId) => 2
    case Some(BoardBuildIdentity) => 3
  }

  function DecodeRejectedField(value: Byte): Option<Option<Field>>
  {
    if value == 0 || value == 0xFF then Some(None)
    else if value == 1 then Some(Some(Vin))
    else if value == 2 then Some(Some(CalibrationId))
    else if value == 3 then Some(Some(BoardBuildIdentity))
    else None
  }

  predicate AllOnes(lengths: Lengths)
  {
    lengths.vin == 0xFF && lengths.calibrationId == 0xFF && lengths.board == 0xFF
  }

  function DecodeLengths(vin: Byte, calibrationId: Byte, board: Byte): Option<Lengths>
  {
    var lengths := Lengths(vin, calibrationId, board);
    if AllOnes(lengths) then None else Some(lengths)
  }

  function CommandAuditFlags(audit: CommandAudit): Byte
  {
    var flags := Flag(audit.authorized, 0x01) | Flag(audit.authorizationFailed, 0x02);
    match audit.status
    case None => flags
    case Some(status) =>
      flags | 0x04 | Flag(status.attempted, 0x08) | Flag(status.accepted, 0x10) | Flag(status.storeFailed, 0x20)
  }

  function PutStatus(out: seq<Byte>, status: ProvisioningStatus): (r: seq<Byte>)
    requires |out| == COMMAND_AUDIT_BYTES
    ensures |r| == |out|
  {
    var out := out[11 := EncodeRejectedField(status.rejectedField)];
    match status.lengths
    case None => out
    case Some(lengths) => out[12 := lengths.vin][13 := lengths.calibrationId][14 := lengths.board]
  }

  function EncodeCommandAudit(audit: CommandAudit): (out: seq<Byte>)
    ensures |out| == COMMAND_AUDIT_BYTES
  {
    var out := Opened(COMMAND_AUDIT_BYTES, COMMAND_AUDIT_MAGIC);
    var out := PutU32(out, 6, audit.requestId);
    var out := if audit.status.Some? then PutStatus(out, audit.status.value) else out;
    Seal(out[10 := CommandAuditFlags(audit)])
  }

  function DecodeCommandAudit(bytes: seq<Byte>): (r: Option<CommandAudit>)
    requires |bytes| == COMMAND_AUDIT_BYTES
    ensures AllErased(bytes) ==> r == None
    ensures r.Some? ==> Encodable(r.value)
  {
    if !HasFrame(bytes, COMMAND_AUDIT_MAGIC) then None
    else if !Sealed(bytes) then None
    else
      var flags := bytes[10];
      var requestId := ReadU32(bytes, 6);
      if flags & 0x04 == 0 then Some(CommandAudit(requestId, flags & 0x01 != 0, flags & 0x02 != 0, None))
      else match DecodeRejectedField(bytes[11])
        case None => None
        case Some(field) =>
          var status := ProvisioningStatus(flags & 0x08 != 0, flags & 0x10 != 0, field, flags & 0x20 != 0,
                                           DecodeLengths(bytes[12], bytes[13], bytes[14]));
          Some(CommandAudit(requestId, flags & 0x01 != 0, flags & 0x02 != 0, Some(status)))
  }

  /** Three lengths of 0xFF are the format's own way to say that there are no lengths. */
  predicate Encodable(audit: CommandAudit)
  {
    audit.status.Some? && audit.status.value.lengths.Some? ==> !AllOnes(audit.status.value.lengths.value)
  }

  function DropAllOnes(audit: CommandAudit): (r: CommandAudit)
    ensures Encodable(r)
    ensures r == audit <==> Encodable(audit)
  {
    if Encodable(audit) then audit else audit.(status := Some(audit.status.value.(lengths := None)))
  }

  lemma CommandAuditFlagsRead(audit: CommandAudit)
    ensures var flags := CommandAuditFlags(audit);
            && (flags & 0x01 != 0) == audit.authorized
            && (flags & 0x02 != 0) == audit.authorizationFailed
            && (flags & 0x04 != 0) == audit.status.Some?
            && (audit.status.Some? ==>
                  && (flags & 0x08 != 0) == audit.status.value.attempted
                  && (flags & 0x10 != 0) == audit.status.value.accepted
                  && (flags & 0x20 != 0) == audit.status.value.storeFailed)
  {}

  lemma CommandAuditBytes(audit: CommandAudit)
    ensures var out := EncodeCommandAudit(audit);
            && out[0] != ERASED && HasFrame(out, COMMAND_AUDIT_MAGIC) && Sealed(out)
            && ReadU32(out, 6) == audit.requestId && out[10] == CommandAuditFlags(audit)
  {
    var out := EncodeCommandAudit(audit);
    MagicNotErased(out, COMMAND_AUDIT_MAGIC);
  }

  lemma CommandStatusBytes(audit: CommandAudit)
    requires audit.status.Some?
    ensures var out := EncodeCommandAudit(audit);
            && DecodeRejectedField(out[11]) == Some(audit.status.value.rejectedField)
            && DecodeLengths(out[12], out[13], out[14]) ==
                 if Encodable(audit) then audit.status.value.lengths else None
  {
    var out := EncodeCommandAudit(audit);
    assert out[11] == EncodeRejectedField(audit.status.value.rejectedField);
  }

  /** A command audit survives the byte format unless its three lengths are all 0xFF. */
  lemma CommandAuditRoundTrip(audit: CommandAudit)
    ensures DecodeCommandAudit(EncodeCommandAudit(audit)) == Some(DropAllOnes(audit))
    ensures DecodeCommandAudit(EncodeCommandAudit(audit)) == Some(audit) <==> Encodable(audit)
    ensures !AllErased(EncodeCommandAudit(audit))
  {
    CommandAuditBytes(audit);
    CommandAuditFlagsRead(audit);
    if audit.status.Some? {
      CommandStatusBytes(audit);
    }
  }

  // ---------------------------------------------------------------- damage

  lemma DamageBreaksSeal(s: seq<Byte>, hit: seq<Byte>, start: nat)
    requires |s| == |hit| >= 2 && Sealed(s) && s != hit && s[|s| - 2..] == hit[|s| - 2..]
    requires var xs, ys := s[..|s| - 2], hit[..|s| - 2];
             forall i :: 0 <= i < 8 * |xs| && Crc.MessageBits(xs)[i] != Crc.MessageBits(ys)[i] ==> start <= i < start + 16
    ensures !Sealed(hit)
  {
    var xs, ys := s[..|s| - 2], hit[..|s| - 2];
    assert s == xs + s[|s| - 2..] && hit == ys + hit[|s| - 2..];
    Crc.BurstDetected(0xFFFF, xs, ys, start);
    assert s[|s| - 2] == s[|s| - 2..][0] && s[|s| - 1] == s[|s| - 2..][1];
    assert hit[|s| - 2] == hit[|s| - 2..][0] && hit[|s| - 1] == hit[|s| - 2..][1];
  }

  /** A stored record in which a burst of up to 16 bits is damaged is not read, whichever of the four it is. */
  lemma DamagedRecordRejected(s: seq<Byte>, hit: seq<Byte>, start: nat)
    requires |s| == |hit| >= 2 && Sealed(s) && s != hit && s[|s| - 2..] == hit[|s| - 2..]
    requires var xs, ys := s[..|s| - 2], hit[..|s| - 2];
             forall i :: 0 <= i < 8 * |xs| && Crc.MessageBits(xs)[i] != Crc.MessageBits(ys)[i] ==> start <= i < start + 16
    ensures |s| == KEY_BYTES ==> DecodeKeyRecord(hit) == None
    ensures |s| == KEY_AUDIT_BYTES ==> DecodeKeyAudit(hit) == None
    ensures |s| == IDENTITY_BYTES ==> DecodeIdentity(hit) == None
    ensures |s| == COMMAND_AUDIT_BYTES ==> DecodeCommandAudit(hit) == None
  {
    DamageBreaksSeal(s, hit, start);
  }
}
