/**
 The 16-bit cyclic redundancy check with generator x^16 + x^12 + x^5 + 1 that both
 flash back ends use, and what it detects.

 The check register is related to a sequence of 16 bits driven bit by bit. There it is
 linear over exclusive-or, which reduces every detection claim to feeding the
 difference of two messages into a register of zeros.
 */
module Crc {
  import opened Words

  type Bits = seq<bool>

  // ---------------------------------------------------------------- the algorithm

  /** One shift of the register, subtracting the generator when a one is carried out. */
  function ShiftBit(crc: U16): U16
  {
    if crc & 0x8000 != 0 then (crc << 1) ^ 0x1021 else crc << 1
  }

  function Shift(crc: U16, n: nat): U16
    decreases n
  {
    if n == 0 then crc else Shift(ShiftBit(crc), n - 1)
  }

  /** One byte enters at the top, then the register shifts once per bit of the byte. */
  function FeedByte(crc: U16, b: Byte): U16 { Shift(crc ^ (b as U16 << 8), |ByteBits(b)|) }

  function CrcFrom(crc: U16, data: seq<Byte>): U16
    decreases |data|
  {
    if data == [] then crc else CrcFrom(FeedByte(crc, data[0]), data[1..])
  }

  function Crc16(data: seq<Byte>): U16 { CrcFrom(0xFFFF, data) }

  /** The source's inner loop. */
  method ShiftByte(init: U16, b: Byte) returns (crc: U16)
    ensures crc == FeedByte(init, b)
  {
    crc := init ^ (b as U16 << 8);
    ghost var loaded := crc;
    var bit := 0;
    while bit < 8
      invariant 0 <= bit <= |ByteBits(b)|
      invariant Shift(loaded, |ByteBits(b)|) == Shift(crc, |ByteBits(b)| - bit)
    {
      crc := if crc & 0x8000 != 0 then (crc << 1) ^ 0x1021 else crc << 1;
      bit := bit + 1;
    }
  }

  /** The source's outer loop computes `CrcFrom`. */
  method Crc16Ccitt(init: U16, data: seq<Byte>) returns (crc: U16)
    ensures crc == CrcFrom(init, data)
  {
    crc := init;
    for i := 0 to |data|
      invariant CrcFrom(init, data) == CrcFrom(crc, data[i..])
    {
      assert data[i..][1..] == data[i + 1..];
      crc := ShiftByte(crc, data[i]);
    }
  }

  // ---------------------------------------------------------------- words as bits

  /** The mask of bit i, counting from the most significant bit. */
  function Mask(i: nat): U16
  {
    if i == 0 then 0x8000
    else if i == 1 then 0x4000
    else if i == 2 then 0x2000
    else if i == 3 then 0x1000
    else if i == 4 then 0x0800
    else if i == 5 then 0x0400
    else if i == 6 then 0x0200
    else if i == 7 then 0x0100
    else if i == 8 then 0x0080
    else if i == 9 then 0x0040
    else if i == 10 then 0x0020
    else if i == 11 then 0x0010
    else if i == 12 then 0x0008
    else if i == 13 then 0x0004
    else if i == 14 then 0x0002
    else 0x0001
  }

  function WordBits(w: U16): (bits: Bits)
    ensures |bits| == 16
    ensures forall i :: 0 <= i < 16 ==> bits[i] == (w & Mask(i) != 0)
  {
    seq(16, i requires 0 <= i < 16 => w & Mask(i) != 0)
  }

  predicate ByteBit(b: Byte, i: nat) { (b as U16 << 8) & Mask(i) != 0 }

  function ByteBits(b: Byte): (bits: Bits)
    ensures |bits| == 8
    ensures forall i :: 0 <= i < 8 ==> bits[i] == ByteBit(b, i)
  {
    seq(8, i requires 0 <= i < 8 => ByteBit(b, i))
  }

  /** A message as the bits in the order the register sees them. */
  function MessageBits(data: seq<Byte>): (bits: Bits)
    ensures |bits| == 8 * |data|
  {
    if data == [] then [] else ByteBits(data[0]) + MessageBits(data[1..])
  }

  function Xor(xs: Bits, ys: Bits): (d: Bits)
    requires |xs| == |ys|
    ensures |d| == |xs|
    ensures forall i :: 0 <= i < |d| ==> d[i] == (xs[i] != ys[i])
  {
    seq(|xs|, i requires 0 <= i < |xs| => xs[i] != ys[i])
  }

  function ZeroBits(n: nat): (bits: Bits)
    ensures |bits| == n && forall i :: 0 <= i < n ==> !bits[i]
  {
    seq(n, _ => false)
  }

  lemma ByteBitsInjective(a: Byte, b: Byte)
    requires ByteBits(a) == ByteBits(b)
    ensures a == b
  {
    var p, q := ByteBits(a), ByteBits(b);
    assert p[0] == q[0] && p[1] == q[1] && p[2] == q[2] && p[3] == q[3];
    assert p[4] == q[4] && p[5] == q[5] && p[6] == q[6] && p[7] == q[7];
  }

  lemma {:induction false} MessageBitsInjective(xs: seq<Byte>, ys: seq<Byte>)
    requires |xs| == |ys| && MessageBits(xs) == MessageBits(ys)
    ensures xs == ys
  {
    if xs != [] {
      assert MessageBits(xs)[..8] == ByteBits(xs[0]) && MessageBits(ys)[..8] == ByteBits(ys[0]);
      assert MessageBits(xs)[8..] == MessageBits(xs[1..]) && MessageBits(ys)[8..] == MessageBits(ys[1..]);
      ByteBitsInjective(xs[0], ys[0]);
      MessageBitsInjective(xs[1..], ys[1..]);
    }
  }

  // ---------------------------------------------------------------- the register as bits

  /** The generator's bits below x^16, most significant first. */
  predicate Generator(i: nat) { i == 3 || i == 10 || i == 15 }

  /** One shift: the carry re-enters at x^12, x^5 and 1. */
  function Step(r: Bits): (s: Bits)
    requires |r| == 16
    ensures |s| == 16
    ensures forall i :: 0 <= i < 16 ==> s[i] == ((i < 15 && r[i + 1]) != (r[0] && Generator(i)))
  {
    seq(16, i requires 0 <= i < 16 => (i < 15 && r[i + 1]) != (r[0] && Generator(i)))
  }

  function Steps(r: Bits, n: nat): (s: Bits)
    requires |r| == 16
    ensures |s| == 16
    decreases n
  {
    if n == 0 then r else Steps(Step(r), n - 1)
  }

  /** One message bit enters at the top, then the register shifts. */
  function Feed(r: Bits, bit: bool): (s: Bits)
    requires |r| == 16
    ensures |s| == 16
  {
    Step(r[0 := r[0] != bit])
  }

  function FeedAll(r: Bits, bits: Bits): (s: Bits)
    requires |r| == 16
    ensures |s| == 16
    decreases |bits|
  {
    if bits == [] then r else FeedAll(Feed(r, bits[0]), bits[1..])
  }

  lemma ShiftedBit(w: U16, i: nat)
    requires i < 16
    ensures (w << 1) & Mask(i) != 0 <==> i < 15 && w & Mask(i + 1) != 0
  {}

  lemma SubtractedBit(w: U16, i: nat)
    requires i < 16
    ensures (w ^ 0x1021) & Mask(i) != 0 <==> (w & Mask(i) != 0) != Generator(i)
  {}

  lemma CarryStep(w: U16)
    requires w & 0x8000 != 0
    ensures WordBits((w << 1) ^ 0x1021) == Step(WordBits(w))
  {
    forall i | 0 <= i < 16
      ensures WordBits((w << 1) ^ 0x1021)[i] == Step(WordBits(w))[i]
    {
      ShiftedBit(w, i);
      SubtractedBit(w << 1, i);
    }
  }

  lemma NoCarryStep(w: U16)
    requires w & 0x8000 == 0
    ensures WordBits(w << 1) == Step(WordBits(w))
  {
    forall i | 0 <= i < 16
      ensures WordBits(w << 1)[i] == Step(WordBits(w))[i]
    {
      ShiftedBit(w, i);
    }
  }

  lemma ShiftBitIsStep(w: U16)
    ensures WordBits(ShiftBit(w)) == Step(WordBits(w))
  {
    if w & 0x8000 != 0 { CarryStep(w); } else { NoCarryStep(w); }
  }

  lemma {:induction false} ShiftIsSteps(w: U16, n: nat)
    ensures WordBits(Shift(w, n)) == Steps(WordBits(w), n)
    decreases n
  {
    if n > 0 {
      ShiftBitIsStep(w);
      ShiftIsSteps(ShiftBit(w), n - 1);
    }
  }

  /** Adds bits to the top of a register. */
  function Load(r: Bits, bits: Bits): (s: Bits)
    requires |bits| <= |r|
    ensures |s| == |r|
    ensures forall i :: 0 <= i < |r| ==> s[i] == (r[i] != (i < |bits| && bits[i]))
  {
    seq(|r|, i requires 0 <= i < |r| => r[i] != (i < |bits| && bits[i]))
  }

  /** Loading bits at once and shifting is the same as feeding them one at a time. */
  lemma {:induction false} FeedAllIsLoad(r: Bits, bits: Bits)
    requires |r| == 16 && |bits| <= 16
    ensures FeedAll(r, bits) == Steps(Load(r, bits), |bits|)
    decreases |bits|
  {
    if bits == [] {
      assert Load(r, bits) == r;
    } else {
      assert Step(Load(r, bits)) == Load(Feed(r, bits[0]), bits[1..]);
      FeedAllIsLoad(Feed(r, bits[0]), bits[1..]);
    }
  }

  lemma AddedBit(w: U16, b: Byte, i: nat)
    requires i < 16
    ensures (w ^ (b as U16 << 8)) & Mask(i) != 0 <==>
            (w & Mask(i) != 0) != (i < 8 && ByteBit(b, i))
  {}

  lemma LoadedByte(w: U16, b: Byte)
    ensures WordBits(w ^ (b as U16 << 8)) == Load(WordBits(w), ByteBits(b))
  {
    forall i | 0 <= i < 16
      ensures WordBits(w ^ (b as U16 << 8))[i] == Load(WordBits(w), ByteBits(b))[i]
    {
      AddedBit(w, b, i);
    }
  }

  lemma {:induction false} CrcIsFeedAll(crc: U16, data: seq<Byte>)
    ensures WordBits(CrcFrom(crc, data)) == FeedAll(WordBits(crc), MessageBits(data))
    decreases |data|
  {
    if data != [] {
      var loaded := crc ^ (data[0] as U16 << 8);
      LoadedByte(crc, data[0]);
      ShiftIsSteps(loaded, |ByteBits(data[0])|);
      FeedAllIsLoad(WordBits(crc), ByteBits(data[0]));
      FeedAllAppend(WordBits(crc), ByteBits(data[0]), MessageBits(data[1..]));
      CrcIsFeedAll(FeedByte(crc, data[0]), data[1..]);
    }
  }

  lemma {:induction false} FeedAllAppend(r: Bits, xs: Bits, ys: Bits)
    requires |r| == 16
    ensures FeedAll(r, xs + ys) == FeedAll(FeedAll(r, xs), ys)
    decreases |xs|
  {
    if xs == [] {
      assert xs + ys == ys;
    } else {
      assert (xs + ys)[1..] == xs[1..] + ys;
      FeedAllAppend(Feed(r, xs[0]), xs[1..], ys);
    }
  }

  // ---------------------------------------------------------------- differences

  /** The register difference of two runs is a run of the differences. */
  lemma {:induction false} Superposition(a: Bits, b: Bits, xs: Bits, ys: Bits)
    requires |a| == |b| == 16 && |xs| == |ys|
    ensures Xor(FeedAll(a, xs), FeedAll(b, ys)) == FeedAll(Xor(a, b), Xor(xs, ys))
    decreases |xs|
  {
    if xs != [] {
      assert Xor(xs, ys)[1..] == Xor(xs[1..], ys[1..]);
      assert Xor(Feed(a, xs[0]), Feed(b, ys[0])) == Feed(Xor(a, b), xs[0] != ys[0]);
      Superposition(Feed(a, xs[0]), Feed(b, ys[0]), xs[1..], ys[1..]);
    }
  }

  predicate AllZero(bits: Bits) { forall i :: 0 <= i < |bits| ==> !bits[i] }

  /** Zero bits neither create nor destroy a difference. */
  lemma {:induction false} ZerosKeepNonzero(r: Bits, bits: Bits)
    requires |r| == 16 && AllZero(bits)
    ensures AllZero(FeedAll(r, bits)) <==> AllZero(r)
    decreases |bits|
  {
    if bits != [] {
      var s := Feed(r, false);
      assert !bits[0] && s[15] == r[0];
      assert forall i :: 0 <= i < 15 ==> s[i] == (r[i + 1] != (r[0] && Generator(i)));
      if AllZero(s) {
        forall i | 0 <= i < 16 ensures !r[i] { if i > 0 { assert !s[i - 1]; } }
      }
      ZerosKeepNonzero(s, bits[1..]);
    }
  }

  // ---------------------------------------------------------------- bursts

  /** A set bit at least n places below the top survives n more steps, whatever is fed. */
  lemma {:induction false} LowBitSurvives(r: Bits, bits: Bits, k: nat)
    requires |r| == 16 && |bits| <= k < 16 && r[k]
    ensures !AllZero(FeedAll(r, bits))
    decreases |bits|
  {
    if bits != [] {
      var s := Feed(r, bits[0]);
      if r[0] != bits[0] {
        assert s[15];
        LowBitSurvives(s, bits[1..], 15);
      } else {
        assert s[k - 1];
        LowBitSurvives(s, bits[1..], k - 1);
      }
    }
  }

  /** A difference starting with a one and at most 16 bits long never cancels. */
  lemma {:induction false} BurstLeavesResidue(d: Bits, first: nat)
    requires first < |d| && d[first]
    requires forall i :: 0 <= i < |d| && d[i] ==> first <= i < first + 16
    ensures !AllZero(FeedAll(ZeroBits(16), d))
  {
    var end := if first + 16 < |d| then first + 16 else |d|;
    var head, tail, rest := d[..first], d[first + 1..end], d[end..];
    var r := FeedAll(ZeroBits(16), head);
    ZerosKeepNonzero(ZeroBits(16), head);
    assert d == head + ([true] + (tail + rest));
    FeedAllAppend(ZeroBits(16), head, [true] + (tail + rest));
    assert ([true] + (tail + rest))[1..] == tail + rest;
    var s := Feed(r, true);
    assert s[15];
    FeedAllAppend(s, tail, rest);
    LowBitSurvives(s, tail, 15);
    ZerosKeepNonzero(FeedAll(s, tail), rest);
  }

  lemma FirstDifference(d: Bits) returns (first: nat)
    requires !AllZero(d)
    ensures first < |d| && d[first] && forall i :: 0 <= i < first ==> !d[i]
  {
    first := 0;
    while !d[first]
      invariant first < |d| && forall i :: 0 <= i < first ==> !d[i]
      decreases |d| - first
    {
      first := first + 1;
    }
  }

  /**
   Burst detection, for every initial register value and every message length: two
   different messages of equal length whose bits differ only inside some window of
   16 consecutive bits never have the same check value.
   */
  lemma BurstDetected(crc: U16, xs: seq<Byte>, ys: seq<Byte>, start: nat)
    requires |xs| == |ys| && xs != ys
    requires forall i :: 0 <= i < 8 * |xs| && MessageBits(xs)[i] != MessageBits(ys)[i] ==> start <= i < start + 16
    ensures CrcFrom(crc, xs) != CrcFrom(crc, ys)
  {
    var p, q, r := MessageBits(xs), MessageBits(ys), WordBits(crc);
    var d := Xor(p, q);
    if AllZero(d) {
      forall i | 0 <= i < |p| ensures p[i] == q[i] { assert !d[i]; }
      MessageBitsInjective(xs, ys);
      assert false;
    }
    var first := FirstDifference(d);
    CrcIsFeedAll(crc, xs);
    CrcIsFeedAll(crc, ys);
    Superposition(r, r, p, q);
    assert Xor(r, r) == ZeroBits(16);
    BurstLeavesResidue(d, first);
    assert AllZero(Xor(FeedAll(r, p), FeedAll(r, p)));
  }

  /** Bit i of a message is decided by byte i / 8. */
  lemma {:induction false} BitsOfEqualBytes(xs: seq<Byte>, ys: seq<Byte>, i: nat)
    requires |xs| == |ys| && i < 8 * |xs|
    requires xs[i / 8] == ys[i / 8]
    ensures MessageBits(xs)[i] == MessageBits(ys)[i]
  {
    if i >= 8 {
      assert (i - 8) / 8 == i / 8 - 1;
      BitsOfEqualBytes(xs[1..], ys[1..], i - 8);
    }
  }

  /** Messages that differ only in two adjacent bytes have different check values. */
  lemma AdjacentBytesDetected(crc: U16, xs: seq<Byte>, ys: seq<Byte>, at: nat)
    requires |xs| == |ys| && xs != ys
    requires forall k :: 0 <= k < |xs| && xs[k] != ys[k] ==> at <= k <= at + 1
    ensures CrcFrom(crc, xs) != CrcFrom(crc, ys)
  {
    forall i | 0 <= i < 8 * |xs| && MessageBits(xs)[i] != MessageBits(ys)[i]
      ensures 8 * at <= i < 8 * at + 16
    {
      if xs[i / 8] == ys[i / 8] {
        BitsOfEqualBytes(xs, ys, i);
      }
    }
    BurstDetected(crc, xs, ys, 8 * at);
  }
}
