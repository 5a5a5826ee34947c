/**
 The check value as arithmetic on polynomials over two elements: it is the remainder of
 the message on division by x^16 + x^12 + x^5 + 1, and since x + 1 divides that
 generator, it notices every odd number of flipped bits.
 */
module CrcPolynomial {
  import opened Words
  import opened Crc

  // ---------------------------------------------------------------- division

  /** The generator times a constant and x^n; coefficients run from the highest power down. */
  function Scaled(c: bool, n: nat): (p: Bits)
    ensures |p| == 17 + n
    ensures forall i :: 0 <= i < |p| ==> p[i] == (c && (i == 0 || (i < 17 && Generator(i - 1))))
  {
    seq(17 + n, i requires 0 <= i < 17 + n => c && (i == 0 || (i < 17 && Generator(i - 1))))
  }

  /** The generator is x^16 + x^12 + x^5 + 1. */
  lemma GeneratorExactly(i: nat)
    requires i <= 16
    ensures Scaled(true, 0)[16 - i] <==> i == 16 || i == 12 || i == 5 || i == 0
  {}

  /** A polynomial times the generator. */
  function Product(q: Bits): (p: Bits)
    ensures |p| == |q| + 16
  {
    if q == [] then ZeroBits(16) else Xor(Scaled(q[0], |q| - 1), [false] + Product(q[1..]))
  }

  /** What is divided: the message times x^16, plus the initial register in front of it. */
  function Dividend(r: Bits, message: Bits): (p: Bits)
    requires |r| == 16
    ensures |p| == |message| + 16
  {
    Xor(r + ZeroBits(|message|), message + ZeroBits(16))
  }

  /** The rest is what a multiple of the generator leaves, below x^16. */
  ghost predicate IsRemainder(dividend: Bits, rest: Bits)
    requires |dividend| >= 16 && |rest| == 16
  {
    exists q :: |q| == |dividend| - 16 && Leaves(dividend, q, rest)
  }

  predicate Leaves(dividend: Bits, q: Bits, rest: Bits)
    requires |dividend| == |q| + 16 && |rest| == 16
  {
    dividend == Xor(Product(q), ZeroBits(|q|) + rest)
  }

  /** The carries of the register are the quotient. */
  function Quotient(r: Bits, message: Bits): (q: Bits)
    requires |r| == 16
    ensures |q| == |message|
    decreases |message|
  {
    if message == [] then [] else [r[0] != message[0]] + Quotient(Feed(r, message[0]), message[1..])
  }

  /** One shift of the register is one step of long division. */
  lemma DivisionStep(r: Bits, message: Bits)
    requires |r| == 16 && message != []
    ensures Dividend(r, message) ==
            Xor(Scaled(r[0] != message[0], |message| - 1), [false] + Dividend(Feed(r, message[0]), message[1..]))
  {
    var lhs := Dividend(r, message);
    var next := Dividend(Feed(r, message[0]), message[1..]);
    var rhs := Xor(Scaled(r[0] != message[0], |message| - 1), [false] + next);
    forall i | 0 <= i < |lhs| ensures lhs[i] == rhs[i] {
      if i > 0 { assert ([false] + next)[i] == next[i - 1]; }
    }
  }

  lemma PrependToLeaves(next: Bits, q: Bits, rest: Bits, c: bool)
    requires |next| == |q| + 16 && |rest| == 16 && Leaves(next, q, rest)
    ensures Leaves(Xor(Scaled(c, |q|), [false] + next), [c] + q, rest)
  {
    assert ([c] + q)[1..] == q;
    var lhs, rhs := Xor(Scaled(c, |q|), [false] + next), Xor(Product([c] + q), ZeroBits(|q| + 1) + rest);
    forall i | 0 <= i < |lhs| ensures lhs[i] == rhs[i] {
      if i > 0 { assert next[i - 1] == (Product(q)[i - 1] != (ZeroBits(|q|) + rest)[i - 1]); }
    }
  }

  lemma {:induction false} FeedingDivides(r: Bits, message: Bits)
    requires |r| == 16
    ensures Leaves(Dividend(r, message), Quotient(r, message), FeedAll(r, message))
    decreases |message|
  {
    if message == [] {
      assert Dividend(r, message) == Xor(Product([]), ZeroBits(0) + r);
    } else {
      FeedingDivides(Feed(r, message[0]), message[1..]);
      DivisionStep(r, message);
      PrependToLeaves(Dividend(Feed(r, message[0]), message[1..]), Quotient(Feed(r, message[0]), message[1..]),
                      FeedAll(r, message), r[0] != message[0]);
    }
  }

  lemma LeadingDigit(dividend: Bits, q: Bits, rest: Bits)
    requires |dividend| == |q| + 16 && |rest| == 16 && q != [] && Leaves(dividend, q, rest)
    ensures dividend[0] == q[0]
    ensures Leaves(Xor(dividend, Scaled(q[0], |q| - 1))[1..], q[1..], rest)
  {
    var less := Xor(dividend, Scaled(q[0], |q| - 1))[1..];
    var want := Xor(Product(q[1..]), ZeroBits(|q| - 1) + rest);
    forall i | 0 <= i < |less| ensures less[i] == want[i] {
      assert Product(q)[i + 1] == (Scaled(q[0], |q| - 1)[i + 1] != ([false] + Product(q[1..]))[i + 1]);
    }
  }

  /** Division leaves only one rest. */
  lemma {:induction false} RemainderIsUnique(dividend: Bits, p: Bits, rest: Bits, q: Bits, other: Bits)
    requires |dividend| == |q| + 16 && |p| == |q| && |rest| == 16 && |other| == 16
    requires Leaves(dividend, p, rest) && Leaves(dividend, q, other)
    ensures rest == other
    decreases |q|
  {
    if q == [] {
      assert forall i :: 0 <= i < 16 ==> dividend[i] == rest[i] && dividend[i] == other[i];
    } else {
      LeadingDigit(dividend, p, rest);
      LeadingDigit(dividend, q, other);
      RemainderIsUnique(Xor(dividend, Scaled(q[0], |q| - 1))[1..], p[1..], rest, q[1..], other);
    }
  }

  /** The check value, and nothing else, is the remainder of the message, for every initial value. */
  lemma CrcIsRemainder(crc: U16, data: seq<Byte>, rest: Bits)
    requires |rest| == 16
    ensures IsRemainder(Dividend(WordBits(crc), MessageBits(data)), rest) <==> rest == WordBits(CrcFrom(crc, data))
  {
    var r, message := WordBits(crc), MessageBits(data);
    var dividend := Dividend(r, message);
    CrcIsFeedAll(crc, data);
    FeedingDivides(r, message);
    assert IsRemainder(dividend, FeedAll(r, message));
    if q :| |q| == |dividend| - 16 && Leaves(dividend, q, rest) {
      RemainderIsUnique(dividend, q, rest, Quotient(r, message), FeedAll(r, message));
    }
  }

  // ---------------------------------------------------------------- parity

  function Ones(bits: Bits): nat
  {
    if bits == [] then 0 else (if bits[0] then 1 else 0) + Ones(bits[1..])
  }

  /** Whether the number of ones is odd. */
  predicate Odd(bits: Bits) { bits != [] && bits[0] != Odd(bits[1..]) }

  lemma {:induction false} OddIsCounted(bits: Bits)
    ensures Odd(bits) <==> Ones(bits) % 2 == 1
  {
    if bits != [] { OddIsCounted(bits[1..]); }
  }

  lemma {:induction false} OddOfXor(xs: Bits, ys: Bits)
    requires |xs| == |ys|
    ensures Odd(Xor(xs, ys)) == (Odd(xs) != Odd(ys))
  {
    if xs != [] {
      assert Xor(xs, ys)[1..] == Xor(xs[1..], ys[1..]);
      OddOfXor(xs[1..], ys[1..]);
    }
  }

  lemma {:induction false} OddOfConcat(xs: Bits, ys: Bits)
    ensures Odd(xs + ys) == (Odd(xs) != Odd(ys))
  {
    if xs == [] {
      assert xs + ys == ys;
    } else {
      assert (xs + ys)[1..] == xs[1..] + ys;
      OddOfConcat(xs[1..], ys);
    }
  }

  lemma {:induction false} OddOfZeros(n: nat)
    ensures !Odd(ZeroBits(n))
  {
    if n > 0 {
      assert ZeroBits(n)[1..] == ZeroBits(n - 1);
      OddOfZeros(n - 1);
    }
  }

  /** A single bit behind zeros. */
  lemma OddOfOne(n: nat, c: bool)
    ensures Odd(ZeroBits(n) + [c]) == c
  {
    OddOfZeros(n);
    OddOfConcat(ZeroBits(n), [c]);
    assert [c][1..] == [];
  }

  /** What a carry adds to the register: three bits, an odd number. */
  function CarryIn(c: bool): (p: Bits)
    ensures |p| == 16 && Odd(p) == c
    ensures forall i :: 0 <= i < 16 ==> p[i] == (c && Generator(i))
  {
    OddOfOne(3, c);
    OddOfOne(6, c);
    OddOfOne(4, c);
    OddOfConcat(ZeroBits(3) + [c], ZeroBits(6) + [c]);
    OddOfConcat(ZeroBits(3) + [c] + (ZeroBits(6) + [c]), ZeroBits(4) + [c]);
    ZeroBits(3) + [c] + (ZeroBits(6) + [c]) + (ZeroBits(4) + [c])
  }

  /** Each message bit flips the parity of the register, or not, as it is set or not. */
  lemma FeedParity(r: Bits, bit: bool)
    requires |r| == 16
    ensures Odd(Feed(r, bit)) == (Odd(r) != bit)
  {
    var carry := r[0] != bit;
    assert Feed(r, bit) == Xor(r[1..] + [false], CarryIn(carry));
    OddOfXor(r[1..] + [false], CarryIn(carry));
    OddOfConcat(r[1..], [false]);
    assert !Odd([false]);
  }

  lemma {:induction false} FeedAllParity(r: Bits, bits: Bits)
    requires |r| == 16
    ensures Odd(FeedAll(r, bits)) == (Odd(r) != Odd(bits))
    decreases |bits|
  {
    if bits != [] {
      FeedParity(r, bits[0]);
      FeedAllParity(Feed(r, bits[0]), bits[1..]);
    }
  }

  /** Messages of equal length that differ in an odd number of bits have different check values. */
  lemma OddDetected(crc: U16, xs: seq<Byte>, ys: seq<Byte>)
    requires |xs| == |ys| && Ones(Xor(MessageBits(xs), MessageBits(ys))) % 2 == 1
    ensures CrcFrom(crc, xs) != CrcFrom(crc, ys)
  {
    var p, q := MessageBits(xs), MessageBits(ys);
    OddIsCounted(Xor(p, q));
    OddOfXor(p, q);
    CrcIsFeedAll(crc, xs);
    CrcIsFeedAll(crc, ys);
    FeedAllParity(WordBits(crc), p);
    FeedAllParity(WordBits(crc), q);
  }
}
