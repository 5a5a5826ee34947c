/**
 The two-sector store one level above its bytes: what each sector's header and regions
 read as, which sector is newest, and what one rewrite, finished or cut short anywhere,
 can do to that.
 */
module StoreViews {
  import opened Words
  import opened SectorImage
  import Crc

  datatype Bank = A | B {
    function Sibling(): Bank { if A? then B else A }
  }

  datatype SectorView = SectorView(header: KvHeader, contents: Contents)

  datatype Views = Views(a: SectorView, b: SectorView) {
    function Get(bank: Bank): SectorView { if bank.A? then a else b }
    function Set(bank: Bank, v: SectorView): Views { if bank.A? then Views(v, b) else Views(a, v) }
  }

  datatype Outcome = Done | Failed | Lost

  // ---------------------------------------------------------------- choosing sectors

  /** Sequence numbers compare by wrapping distance. */
  predicate NotOlder(b: U16, a: U16) { b - a < 0x8000 }

  function NewestSector(a: KvHeader, b: KvHeader): Option<Bank>
  {
    match (a.ok, b.ok)
    case (true, true) => if NotOlder(b.seqNo, a.seqNo) then Some(B) else Some(A)
    case (true, false) => Some(A)
    case (false, true) => Some(B)
    case (false, false) => None
  }

  function TargetForNextWrite(a: KvHeader, b: KvHeader): Bank
  {
    match NewestSector(a, b)
    case Some(A) => B
    case Some(B) => A
    case None => A
  }

  /** The rewrite's own choice, from the two sequence numbers alone. */
  function RewriteTarget(seqA: Option<U16>, seqB: Option<U16>): Bank
  {
    match (seqA, seqB)
    case (Some(a), Some(b)) => if NotOlder(b, a) then A else B
    case (Some(_), None) => B
    case (None, Some(_)) => A
    case (None, None) => A
  }

  function CurrentSeq(seqA: Option<U16>, seqB: Option<U16>): U16
  {
    match (seqA, seqB)
    case (Some(a), Some(b)) => if NotOlder(b, a) then b else a
    case (Some(a), None) => a
    case (None, Some(b)) => b
    case (None, None) => 0
  }

  function Succ(n: U16): U16 { n + 1 }

  function SeqOf(h: KvHeader): Option<U16> { if h.ok then Some(h.seqNo) else None }

  /** For every two headers, both choices of a target agree and never name the newest sector. */
  lemma ChoicesAgree(a: KvHeader, b: KvHeader)
    ensures RewriteTarget(SeqOf(a), SeqOf(b)) == TargetForNextWrite(a, b)
    ensures NewestSector(a, b).Some? ==> NewestSector(a, b).value == TargetForNextWrite(a, b).Sibling()
  {
    if a.ok && b.ok && NotOlder(b.seqNo, a.seqNo) {
      assert NewestSector(a, b) == Some(B);
    }
  }

  lemma SeqOfNewest(a: KvHeader, b: KvHeader)
    ensures NewestSector(a, b) == Some(A) ==> a.ok && CurrentSeq(SeqOf(a), SeqOf(b)) == a.seqNo
    ensures NewestSector(a, b) == Some(B) ==> b.ok && CurrentSeq(SeqOf(a), SeqOf(b)) == b.seqNo
    ensures NewestSector(a, b) == None ==> CurrentSeq(SeqOf(a), SeqOf(b)) == 0 && RewriteTarget(SeqOf(a), SeqOf(b)) == A
  {
    if a.ok && b.ok && NotOlder(b.seqNo, a.seqNo) {
      assert NewestSector(a, b) == Some(B);
    }
  }

  /** Adjacent sequence numbers are ordered, across the wrap from 0xFFFF to 0 as well. */
  lemma AdjacentOrder(n: U16)
    ensures NotOlder(Succ(n), n) && !NotOlder(n, Succ(n))
  {}

  // ---------------------------------------------------------------- what is read

  function Newest(vs: Views): Option<Bank> { NewestSector(vs.a.header, vs.b.header) }

  function Target(vs: Views): Bank { RewriteTarget(SeqOf(vs.a.header), SeqOf(vs.b.header)) }

  function NewSeq(vs: Views): U16 { Succ(CurrentSeq(SeqOf(vs.a.header), SeqOf(vs.b.header))) }

  /** The contents every reader sees. */
  function Current(vs: Views): Option<Contents>
  {
    match Newest(vs)
    case None => None
    case Some(bank) => Some(vs.Get(bank).contents)
  }

  /** A readable header describes the pages beside it. */
  predicate Sound(v: SectorView)
  {
    v.header.ok ==> v.header == CommittedHeader(v.contents, v.header.seqNo)
  }

  function CommittedHeader(c: Contents, seqNo: U16): KvHeader
  {
    KvHeader(true, seqNo, FUEL_LEN16, IGN_LEN16, ANGLES_LEN16,
             Crc.Crc16(c.fuel), Crc.Crc16(c.ign), Crc.Crc16(c.angles))
  }

  function CommittedView(c: Contents, seqNo: U16): SectorView
  {
    SectorView(CommittedHeader(c, seqNo), Normal(c))
  }

  /** Two committed sectors are exactly one commit apart. */
  predicate Adjacent(m: U16, n: U16) { m == Succ(n) || n == Succ(m) }

  predicate Inv(vs: Views)
  {
    && Sound(vs.a) && Sound(vs.b)
    && (vs.a.header.ok && vs.b.header.ok ==> Adjacent(vs.a.header.seqNo, vs.b.header.seqNo))
  }

  // ---------------------------------------------------------------- one rewrite

  /** What a rewrite may leave in the sector it works on. */
  predicate MayLeave(was: SectorView, c: Contents, seqNo: U16, left: SectorView)
  {
    left == was || !left.header.ok || left == CommittedView(c, seqNo)
  }

  predicate RewriteStep(before: Views, c: Contents, after: Views, outcome: Outcome)
  {
    && after == before.Set(Target(before), after.Get(Target(before)))
    && MayLeave(before.Get(Target(before)), c, NewSeq(before), after.Get(Target(before)))
    && (outcome.Done? ==> after.Get(Target(before)) == CommittedView(c, NewSeq(before)))
  }

  lemma TargetIsNotNewest(vs: Views)
    ensures Newest(vs).Some? ==> Newest(vs).value == Target(vs).Sibling()
    ensures Newest(vs).Some? ==>
              var newest := vs.Get(Newest(vs).value).header; newest.ok && NewSeq(vs) == Succ(newest.seqNo)
    ensures Newest(vs).None? ==> !vs.a.header.ok && !vs.b.header.ok
  {
    ChoicesAgree(vs.a.header, vs.b.header);
    SeqOfNewest(vs.a.header, vs.b.header);
  }

  /** When the target ends up unreadable or unchanged, every reader sees what it saw before. */
  lemma UncommittedKeepsCurrent(before: Views, left: SectorView)
    requires Inv(before)
    requires left == before.Get(Target(before)) || !left.header.ok
    ensures var after := before.Set(Target(before), left);
            Inv(after) && Newest(after) == Newest(before) && Current(after) == Current(before)
  {
    TargetIsNotNewest(before);
  }

  lemma NewestByOrder(a: KvHeader, b: KvHeader)
    requires a.ok && b.ok
    ensures b.seqNo == Succ(a.seqNo) ==> NewestSector(a, b) == Some(B)
    ensures a.seqNo == Succ(b.seqNo) ==> NewestSector(a, b) == Some(A)
  {
    AdjacentOrder(a.seqNo);
    AdjacentOrder(b.seqNo);
  }

  /** When the target is committed with the next sequence number, it is the newest sector. */
  lemma CommittedIsNewest(before: Views, v: SectorView)
    requires Inv(before) && Sound(v) && v.header.ok && v.header.seqNo == NewSeq(before)
    ensures var after := before.Set(Target(before), v);
            Inv(after) && Newest(after) == Some(Target(before)) && Current(after) == Some(v.contents)
  {
    TargetIsNotNewest(before);
    var after := before.Set(Target(before), v);
    if after.a.header.ok && after.b.header.ok {
      NewestByOrder(after.a.header, after.b.header);
    }
  }

  /**
   Atomicity of one rewrite, however it ends: the invariant is kept, readers see either
   exactly the old contents or exactly the new ones, the new ones if and only if the
   rewritten sector carries a complete commit, and always after success.
   */
  lemma RewriteIsAtomic(before: Views, c: Contents, after: Views, outcome: Outcome)
    requires Inv(before) && RewriteStep(before, c, after, outcome)
    ensures Inv(after)
    ensures Current(after) == if after.Get(Target(before)) == CommittedView(c, NewSeq(before))
                              then Some(Normal(c)) else Current(before)
    ensures outcome.Done? ==> Current(after) == Some(Normal(c)) && Newest(after) == Some(Target(before))
    ensures after.Get(Target(before).Sibling()) == before.Get(Target(before).Sibling())
  {
    var left := after.Get(Target(before));
    if left == CommittedView(c, NewSeq(before)) {
      CommittedIsNewest(before, left);
    } else {
      UncommittedKeepsCurrent(before, left);
    }
  }
}
