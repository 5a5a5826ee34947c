/**
 Machine words of the targets and their little-endian byte order.
 */
module Words {

  type Byte = bv8
  type U16 = bv16
  type U32 = bv32

  datatype Option<+T> = None | Some(value: T)

  const ERASED: Byte := 0xFF

  function Lo(x: U16): Byte { (x & 0xFF) as Byte }

  function Hi(x: U16): Byte { (x >> 8) as Byte }

  function U16From(lo: Byte, hi: Byte): U16 { lo as U16 | (hi as U16 << 8) }

  /** Byte k of a 32-bit word, least significant first. */
  function ByteAt(x: U32, k: nat): Byte
    requires k < 4
  {
    if k == 0 then (x & 0xFF) as Byte
    else if k == 1 then ((x >> 8) & 0xFF) as Byte
    else if k == 2 then ((x >> 16) & 0xFF) as Byte
    else (x >> 24) as Byte
  }

  function U32From(b0: Byte, b1: Byte, b2: Byte, b3: Byte): U32
  {
    b0 as U32 | (b1 as U32 << 8) | (b2 as U32 << 16) | (b3 as U32 << 24)
  }

  function Le16(x: U16): seq<Byte> { [Lo(x), Hi(x)] }

  function Le32(x: U32): seq<Byte> { [ByteAt(x, 0), ByteAt(x, 1), ByteAt(x, 2), ByteAt(x, 3)] }

  function ReadU16(s: seq<Byte>, off: nat): U16
    requires off + 2 <= |s|
  {
    U16From(s[off], s[off + 1])
  }

  function ReadU32(s: seq<Byte>, off: nat): U32
    requires off + 4 <= |s|
  {
    U32From(s[off], s[off + 1], s[off + 2], s[off + 3])
  }

  lemma U16RoundTrip(x: U16)
    ensures U16From(Lo(x), Hi(x)) == x
  {}

  lemma U16Parts(lo: Byte, hi: Byte)
    ensures Lo(U16From(lo, hi)) == lo && Hi(U16From(lo, hi)) == hi
  {}

  lemma U32RoundTrip(x: U32)
    ensures U32From(ByteAt(x, 0), ByteAt(x, 1), ByteAt(x, 2), ByteAt(x, 3)) == x
  {}

  /** The number a 32-bit word stands for; words are compared as numbers. */
  function Value(x: U32): nat { x as nat }

  function Widened(x: U16): U32 { x as U32 }
  function WidenedByte(x: Byte): U32 { x as U32 }

  function MinByte(a: Byte, b: Byte): Byte { if a < b then a else b }

  function Zeros(n: nat): (s: seq<Byte>)
    ensures |s| == n && forall i :: 0 <= i < n ==> s[i] == 0
  {
    seq(n, _ => 0)
  }

  function SaturatingSub(a: nat, b: nat): nat { if a > b then a - b else 0 }
}
