/**
 Splicing bytes into a byte image, and NOR flash cells: erasing sets every bit,
 programming can only clear bits.
 */
module NorCells {
  import opened Words

  function Blank(n: nat): (s: seq<Byte>)
    ensures |s| == n && forall i :: 0 <= i < n ==> s[i] == ERASED
  {
    seq(n, _ => ERASED)
  }

  function Splice(s: seq<Byte>, off: nat, data: seq<Byte>): (r: seq<Byte>)
    requires off + |data| <= |s|
    ensures |r| == |s|
    ensures forall i :: 0 <= i < |s| ==> r[i] == if off <= i < off + |data| then data[i - off] else s[i]
  {
    s[..off] + data + s[off + |data|..]
  }

  function PutU16(s: seq<Byte>, off: nat, x: U16): (r: seq<Byte>)
    requires off + 2 <= |s|
    ensures |r| == |s| && ReadU16(r, off) == x
    ensures forall i :: 0 <= i < |s| && i != off && i != off + 1 ==> r[i] == s[i]
  {
    U16RoundTrip(x);
    s[off := Lo(x)][off + 1 := Hi(x)]
  }

  function PutU32(s: seq<Byte>, off: nat, x: U32): (r: seq<Byte>)
    requires off + 4 <= |s|
    ensures |r| == |s| && ReadU32(r, off) == x
    ensures forall i :: 0 <= i < |s| && !(off <= i < off + 4) ==> r[i] == s[i]
  {
    U32RoundTrip(x);
    Splice(s, off, Le32(x))
  }

  /** Splicing a chunk right behind an earlier one is one splice of both. */
  lemma SpliceAppend(s: seq<Byte>, off: nat, a: seq<Byte>, b: seq<Byte>)
    requires off + |a| + |b| <= |s|
    ensures Splice(Splice(s, off, a), off + |a|, b) == Splice(s, off, a + b)
  {
    assert |Splice(Splice(s, off, a), off + |a|, b)| == |Splice(s, off, a + b)|;
  }

  /** Rewriting a page with one part of it replaced is a splice of that part. */
  lemma SpliceWithinPage(s: seq<Byte>, page: nat, len: nat, within: nat, b: seq<Byte>)
    requires page + len <= |s| && within + |b| <= len
    ensures Splice(s, page, Splice(s[page..page + len], within, b)) == Splice(s, page + within, b)
  {}

  function And(a: Byte, b: Byte): Byte { a & b }

  /** Programming: each bit of the span stays set only if it is set in the data too. */
  function Programmed(s: seq<Byte>, off: nat, data: seq<Byte>): (r: seq<Byte>)
    requires off + |data| <= |s|
    ensures |r| == |s|
    ensures forall i :: 0 <= i < |s| ==> r[i] == if off <= i < off + |data| then s[i] & data[i - off] else s[i]
  {
    seq(|s|, i requires 0 <= i < |s| => if off <= i < off + |data| then And(s[i], data[i - off]) else s[i])
  }

  /** Programming a chunk right behind an earlier one is programming both. */
  lemma ProgrammedAppend(s: seq<Byte>, off: nat, a: seq<Byte>, b: seq<Byte>)
    requires off + |a| + |b| <= |s|
    ensures Programmed(Programmed(s, off, a), off + |a|, b) == Programmed(s, off, a + b)
  {
    var p, q := Programmed(Programmed(s, off, a), off + |a|, b), Programmed(s, off, a + b);
    assert forall i :: 0 <= i < |s| ==> p[i] == q[i];
  }

  /** Over erased cells, programming is a splice. */
  lemma ProgrammedOverErased(s: seq<Byte>, off: nat, data: seq<Byte>)
    requires off + |data| <= |s| && s[off..off + |data|] == Blank(|data|)
    ensures Programmed(s, off, data) == Splice(s, off, data)
  {
    forall i | off <= i < off + |data| ensures s[i] & data[i - off] == data[i - off] {
      assert s[off..off + |data|][i - off] == ERASED;
    }
  }
}
