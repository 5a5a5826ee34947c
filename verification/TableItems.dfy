/**
 The items of the RP2040 table log: an eight-byte header and a 512-byte payload whose
 check value the header carries.
 */
module TableItems {
  import opened Words
  import opened NorCells
  import Crc
  import CrcPolynomial

  const TABLE_LEN: nat := 512
  const HDR: nat := 8

  type Payload = s: seq<Byte> | |s| == TABLE_LEN witness Blank(TABLE_LEN)

  datatype TableItem = TableItem(key: Byte, payload: Payload)
  datatype ItemError = BufferTooSmall | BadHeader
  datatype ItemResult = Item(item: TableItem, used: nat) | ItemFailed(error: ItemError)

  function HeaderByte(key: Byte, crc: U16, i: nat): Byte
  {
    if i == 0 then 0x49
    else if i == 1 then 0x50
    else if i == 2 then key
    else if i == 3 then 0x00
    else if i == 4 then 0x02
    else if i == 5 then 0x00
    else if i == 6 then Lo(crc)
    else Hi(crc)
  }

  function Header(key: Byte, crc: U16): (h: seq<Byte>)
    ensures |h| == HDR && forall i :: 0 <= i < HDR ==> h[i] == HeaderByte(key, crc, i)
  {
    seq(HDR, i requires 0 <= i < HDR => HeaderByte(key, crc, i))
  }

  /** The bytes of an item. */
  function Serialized(item: TableItem): (s: seq<Byte>)
    ensures |s| == HDR + TABLE_LEN
  {
    Header(item.key, Crc.Crc16(item.payload)) + item.payload
  }

  method WriteHeader(key: Byte, crc: U16, buf: array<Byte>)
    requires buf.Length >= HDR
    modifies buf
    ensures forall i :: 0 <= i < HDR ==> buf[i] == HeaderByte(key, crc, i)
    ensures forall i :: HDR <= i < buf.Length ==> buf[i] == old(buf[i])
  {
    buf[0], buf[1], buf[2] := 0x49, 0x50, key;
    buf[3], buf[4], buf[5] := 0x00, 0x02, 0x00;
    buf[6], buf[7] := Lo(crc), Hi(crc);
  }

  /** Fills the front of a caller's buffer in place, or refuses a short buffer untouched. */
  method SerializeInto(item: TableItem, buf: array<Byte>) returns (used: Option<nat>)
    modifies buf
    ensures used == if buf.Length < HDR + TABLE_LEN then None else Some(HDR + TABLE_LEN)
    ensures buf[..] == if used.Some? then Splice(old(buf[..]), 0, Serialized(item)) else old(buf[..])
  {
    if buf.Length < HDR + TABLE_LEN { return None; }
    forall i | 0 <= i < TABLE_LEN {
      buf[HDR + i] := item.payload[i];
    }
    assert buf[..] == Splice(old(buf[..]), HDR, item.payload);
    var crc := Crc.Crc16Ccitt(0xFFFF, item.payload);
    WriteHeader(item.key, crc, buf);
    used := Some(HDR + TABLE_LEN);
  }

  function Deserialize(buf: seq<Byte>): (r: ItemResult)
  {
    if |buf| < HDR then ItemFailed(BufferTooSmall)
    else if buf[0] != 0x49 || buf[1] != 0x50 then ItemFailed(BadHeader)
    else if U16From(buf[3], buf[4]) != 0x0200 || |buf| < HDR + TABLE_LEN then ItemFailed(BufferTooSmall)
    else
      var payload := buf[HDR..HDR + TABLE_LEN];
      if Crc.Crc16(payload) != U16From(buf[6], buf[7]) then ItemFailed(BadHeader)
      else Item(TableItem(buf[2], payload), HDR + TABLE_LEN)
  }

  lemma LengthWord()
    ensures U16From(0x00, 0x02) == 0x0200 && Lo(0x0200) == 0x00 && Hi(0x0200) == 0x02
  {}

  /** Whatever is read back is what the buffer starts with, the reserved byte aside. */
  lemma DeserializeSound(buf: seq<Byte>)
    requires Deserialize(buf).Item?
    ensures |buf| >= HDR + TABLE_LEN == Deserialize(buf).used
    ensures buf[..HDR + TABLE_LEN] == Serialized(Deserialize(buf).item)[5 := buf[5]]
  {
    LengthWord();
    U16Parts(buf[3], buf[4]);
    U16Parts(buf[6], buf[7]);
    var t := Serialized(Deserialize(buf).item)[5 := buf[5]];
    assert t[HDR..] == buf[HDR..HDR + TABLE_LEN];
    forall i | 0 <= i < HDR
      ensures t[i] == buf[i]
    {
      assert i == 5 || t[i] == HeaderByte(buf[2], Crc.Crc16(buf[HDR..HDR + TABLE_LEN]), i);
    }
    assert t[..HDR] == buf[..HDR];
    assert t == t[..HDR] + t[HDR..];
  }

  /** Every buffer that starts with an item's bytes reads back as that item. */
  lemma DeserializeComplete(item: TableItem, reserved: Byte, rest: seq<Byte>)
    ensures Deserialize(Serialized(item)[5 := reserved] + rest) == Item(item, HDR + TABLE_LEN)
  {
    var buf := Serialized(item)[5 := reserved] + rest;
    LengthWord();
    U16RoundTrip(Crc.Crc16(item.payload));
    assert buf[HDR..HDR + TABLE_LEN] == item.payload;
  }

  /**
   What is refused, and how: without the two magic bytes, or with a check value that does
   not fit the payload, as a bad header; too short, or with another length, as too small.
   */
  lemma RefusedExactly(buf: seq<Byte>)
    ensures Deserialize(buf) == ItemFailed(BufferTooSmall) <==>
              |buf| < 8 || (buf[0] == 0x49 && buf[1] == 0x50 && (buf[3] != 0x00 || buf[4] != 0x02 || |buf| < 520))
    ensures Deserialize(buf) == ItemFailed(BadHeader) <==>
              |buf| >= 8 &&
              (|| buf[0] != 0x49 || buf[1] != 0x50
               || (&& buf[3] == 0x00 && buf[4] == 0x02 && |buf| >= 520
                   && (buf[6] != Lo(Crc.Crc16(buf[8..520])) || buf[7] != Hi(Crc.Crc16(buf[8..520])))))
  {
    LengthWord();
    if |buf| >= 8 {
      U16Parts(buf[3], buf[4]);
      U16Parts(buf[6], buf[7]);
      if |buf| >= 520 { U16RoundTrip(Crc.Crc16(buf[8..520])); }
    }
  }

  /** A serialized item whose payload is hit by a burst of at most 16 bits is rejected. */
  lemma BurstRejected(item: TableItem, hit: Payload, start: nat)
    requires hit != item.payload
    requires forall i :: 0 <= i < 8 * TABLE_LEN && Crc.MessageBits(item.payload)[i] != Crc.MessageBits(hit)[i]
               ==> start <= i < start + 16
    ensures Deserialize(Serialized(item)[..HDR] + hit) == ItemFailed(BadHeader)
  {
    var buf := Serialized(item)[..HDR] + hit;
    Crc.BurstDetected(0xFFFF, item.payload, hit, start);
    LengthWord();
    U16RoundTrip(Crc.Crc16(item.payload));
    assert buf[HDR..HDR + TABLE_LEN] == hit;
  }

  /** So is one in whose payload any odd number of bits is flipped. */
  lemma OddRejected(item: TableItem, hit: Payload)
    requires CrcPolynomial.Ones(Crc.Xor(Crc.MessageBits(item.payload), Crc.MessageBits(hit))) % 2 == 1
    ensures Deserialize(Serialized(item)[..HDR] + hit) == ItemFailed(BadHeader)
  {
    var buf := Serialized(item)[..HDR] + hit;
    CrcPolynomial.OddDetected(0xFFFF, item.payload, hit);
    LengthWord();
    U16RoundTrip(Crc.Crc16(item.payload));
    assert buf[HDR..HDR + TABLE_LEN] == hit;
  }
}
