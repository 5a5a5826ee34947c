/**
 The byte formats of the stored records as relations between an image and a record,
 written down field by field. Every decoder accepts exactly the images of its format
 and every encoder produces one.
 */
module RecordFormats {
  import opened Words
  import opened Records
  import Crc

  /** The part all four formats share: the magic number's bytes, version 1 and the check value at the end. */
  predicate Framed(b: seq<Byte>, magic: seq<Byte>)
    requires |b| >= 8 && |magic| == 4
  {
    && b[0] == magic[0] && b[1] == magic[1] && b[2] == magic[2] && b[3] == magic[3]
    && b[4] == 1 && b[5] == 0
    && Crc.Crc16(b[..|b| - 2]) == U16From(b[|b| - 2], b[|b| - 1])
  }

  lemma U32Parts(b0: Byte, b1: Byte, b2: Byte, b3: Byte)
    ensures var x := U32From(b0, b1, b2, b3);
            ByteAt(x, 0) == b0 && ByteAt(x, 1) == b1 && ByteAt(x, 2) == b2 && ByteAt(x, 3) == b3
  {}

  lemma SameWord(b0: Byte, b1: Byte, b2: Byte, b3: Byte, x: U32)
    ensures U32From(b0, b1, b2, b3) == x <==>
            b0 == ByteAt(x, 0) && b1 == ByteAt(x, 1) && b2 == ByteAt(x, 2) && b3 == ByteAt(x, 3)
  {
    if U32From(b0, b1, b2, b3) == x {
      U32Parts(b0, b1, b2, b3);
    } else {
      U32RoundTrip(x);
    }
  }

  lemma SameFour(s: seq<Byte>, t: seq<Byte>)
    requires |s| == |t| == 4
    ensures s == t <==> s[0] == t[0] && s[1] == t[1] && s[2] == t[2] && s[3] == t[3]
  {}

  /** Four cells read as a word exactly if they hold its bytes. */
  lemma ReadsAs(b: seq<Byte>, off: nat, x: U32)
    requires off + 4 <= |b|
    ensures ReadU32(b, off) == x <==> b[off..off + 4] == Le32(x)
  {
    SameWord(b[off], b[off + 1], b[off + 2], b[off + 3], x);
    SameFour(b[off..off + 4], Le32(x));
  }

  lemma MagicBytes(b: seq<Byte>, magic: U32, bytes: seq<Byte>)
    requires |b| >= 4 && bytes == Le32(magic)
    ensures ReadU32(b, 0) == magic <==>
            b[0] == bytes[0] && b[1] == bytes[1] && b[2] == bytes[2] && b[3] == bytes[3]
  {
    SameWord(b[0], b[1], b[2], b[3], magic);
  }

  lemma NotErased(b: seq<Byte>)
    requires |b| >= 1 && b[0] != ERASED
    ensures !AllErased(b)
  {}

  lemma FramedExactly(b: seq<Byte>, magic: U32, bytes: seq<Byte>)
    requires |b| >= 8 && bytes == Le32(magic) && bytes[0] != ERASED
    ensures HasFrame(b, magic) && Sealed(b) <==> Framed(b, bytes)
  {
    MagicBytes(b, magic, bytes);
    if b[0] == bytes[0] { NotErased(b); }
  }

  lemma Magics()
    ensures Le32(KEY_MAGIC) == [0x4F, 0x42, 0x49, 0x4B]
    ensures Le32(KEY_AUDIT_MAGIC) == [0x4F, 0x42, 0x49, 0x4C]
    ensures Le32(IDENTITY_MAGIC) == [0x4F, 0x42, 0x49, 0x32]
    ensures Le32(COMMAND_AUDIT_MAGIC) == [0x4F, 0x42, 0x49, 0x41]
  {}

  // ---------------------------------------------------------------- key record

  predicate KeyImage(b: seq<Byte>, r: KeyRecord)
  {
    && |b| == 50 && Framed(b, [0x4F, 0x42, 0x49, 0x4B])
    && b[6] == (if r.revoked then 2 else 1)
    && b[8..12] == Le32(r.generation) && b[12..44] == r.key && b[44..48] == Le32(r.lastArmNonce)
  }

  lemma OneLifecycleFlag(flags: Byte)
    ensures LifecycleFlags(flags) <==> flags == 1 || flags == 2
    ensures LifecycleFlags(flags) ==> (flags & KEY_REVOKED != 0 <==> flags == 2)
  {}

  lemma KeyRecordExactly(b: seq<Byte>, r: KeyRecord)
    requires |b| == 50
    ensures DecodeKeyRecord(b) == Some(r) <==> KeyImage(b, r)
    ensures KeyImage(EncodeKeyRecord(r), r)
  {
    KeyImageRead(b, r);
    KeyRecordRoundTrip(r);
    KeyImageRead(EncodeKeyRecord(r), r);
  }

  lemma KeyImageRead(b: seq<Byte>, r: KeyRecord)
    requires |b| == 50
    ensures DecodeKeyRecord(b) == Some(r) <==> KeyImage(b, r)
  {
    Magics();
    FramedExactly(b, KEY_MAGIC, [0x4F, 0x42, 0x49, 0x4B]);
    OneLifecycleFlag(b[6]);
    ReadsAs(b, 8, r.generation);
    ReadsAs(b, 44, r.lastArmNonce);
  }

  // ---------------------------------------------------------------- key audit

  predicate KeyAuditImage(b: seq<Byte>, r: KeyAudit)
  {
    && |b| == 22 && Framed(b, [0x4F, 0x42, 0x49, 0x4C])
    && b[6..10] == Le32(r.requestId)
    && b[10] & 0xF8 == 0
    && (b[10] & 1 != 0 <==> r.authorized) && (b[10] & 2 != 0 <==> r.accepted) && (b[10] & 4 != 0 <==> r.storeFailed)
    && b[11] == r.rejectedReason
    && b[12..16] == Le32(r.generation)
  }

  lemma KeyAuditImageRead(b: seq<Byte>, r: KeyAudit)
    requires |b| == 22
    ensures DecodeKeyAudit(b) == Some(r) <==> KeyAuditImage(b, r)
  {
    Magics();
    FramedExactly(b, KEY_AUDIT_MAGIC, [0x4F, 0x42, 0x49, 0x4C]);
    ReadsAs(b, 6, r.requestId);
    ReadsAs(b, 12, r.generation);
  }

  lemma KeyAuditExactly(b: seq<Byte>, r: KeyAudit)
    requires |b| == 22
    ensures DecodeKeyAudit(b) == Some(r) <==> KeyAuditImage(b, r)
    ensures KeyAuditImage(EncodeKeyAudit(r), r)
  {
    KeyAuditImageRead(b, r);
    KeyAuditRoundTrip(r);
    KeyAuditImageRead(EncodeKeyAudit(r), r);
  }

  // ---------------------------------------------------------------- identity

  predicate IdentityImage(b: seq<Byte>, r: IdentityRecord)
  {
    && |b| == 52 && Framed(b, [0x4F, 0x42, 0x49, 0x32])
    && b[6] == r.vinLen <= 17 && b[7] == r.calibrationIdLen <= 17 && b[8] == r.boardLen <= 6
    && b[9..26] == r.vin && b[26..43] == r.calibrationId && b[43..49] == r.board
  }

  lemma IdentityImageRead(b: seq<Byte>, r: IdentityRecord)
    requires |b| == 52
    ensures DecodeIdentity(b) == Some(r) <==> IdentityImage(b, r)
  {
    Magics();
    FramedExactly(b, IDENTITY_MAGIC, [0x4F, 0x42, 0x49, 0x32]);
  }

  lemma IdentityExactly(b: seq<Byte>, r: IdentityRecord)
    requires |b| == 52
    ensures DecodeIdentity(b) == Some(r) <==> IdentityImage(b, r)
    ensures IdentityImage(EncodeIdentity(r), ClampLengths(r))
  {
    IdentityImageRead(b, r);
    IdentityRoundTrip(r);
    IdentityImageRead(EncodeIdentity(r), ClampLengths(r));
  }

  // ---------------------------------------------------------------- command audit

  predicate FieldImage(b: Byte, field: Option<Field>)
  {
    match field
    case None => b == 0 || b == 0xFF
    case Some(Vin) => b == 1
    case Some(CalibrationId) => b == 2
    case Some(BoardBuildIdentity) => b == 3
  }

  predicate LengthsImage(b: seq<Byte>, lengths: Option<Lengths>)
    requires |b| == 20
  {
    if b[12] == 0xFF && b[13] == 0xFF && b[14] == 0xFF then lengths == None
    else lengths == Some(Lengths(b[12], b[13], b[14]))
  }

  predicate StatusImage(b: seq<Byte>, status: ProvisioningStatus)
    requires |b| == 20
  {
    && (b[10] & 8 != 0 <==> status.attempted)
    && (b[10] & 16 != 0 <==> status.accepted)
    && (b[10] & 32 != 0 <==> status.storeFailed)
    && FieldImage(b[11], status.rejectedField)
    && LengthsImage(b, status.lengths)
  }

  predicate CommandAuditImage(b: seq<Byte>, r: CommandAudit)
  {
    && |b| == 20 && Framed(b, [0x4F, 0x42, 0x49, 0x41])
    && b[6..10] == Le32(r.requestId)
    && (b[10] & 1 != 0 <==> r.authorized)
    && (b[10] & 2 != 0 <==> r.authorizationFailed)
    && (b[10] & 4 != 0 <==> r.status.Some?)
    && (r.status.Some? ==> StatusImage(b, r.status.value))
  }

  lemma FieldExactly(b: Byte, field: Option<Field>)
    ensures DecodeRejectedField(b) == Some(field) <==> FieldImage(b, field)
  {}

  lemma CommandAuditImageRead(b: seq<Byte>, r: CommandAudit)
    requires |b| == 20
    ensures DecodeCommandAudit(b) == Some(r) <==> CommandAuditImage(b, r)
  {
    Magics();
    FramedExactly(b, COMMAND_AUDIT_MAGIC, [0x4F, 0x42, 0x49, 0x41]);
    ReadsAs(b, 6, r.requestId);
    if r.status.Some? { FieldExactly(b[11], r.status.value.rejectedField); }
  }

  lemma CommandAuditExactly(b: seq<Byte>, r: CommandAudit)
    requires |b| == 20
    ensures DecodeCommandAudit(b) == Some(r) <==> CommandAuditImage(b, r)
    ensures CommandAuditImage(EncodeCommandAudit(r), DropAllOnes(r))
  {
    CommandAuditImageRead(b, r);
    CommandAuditRoundTrip(r);
    CommandAuditImageRead(EncodeCommandAudit(r), DropAllOnes(r));
  }
}
