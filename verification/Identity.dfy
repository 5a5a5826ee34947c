/**
 The identity fields: how they are normalised, parsed, kept in the store and reported.
 */
module Identity {
  import opened Words
  import opened Records
  import opened SectorImage
  import opened StoreViews
  import opened KvOps

  // ---------------------------------------------------------------- normalisation

  predicate IsLower(b: Byte) { 0x61 <= b <= 0x7A }

  predicate IsUpperOrDigit(b: Byte) { 0x41 <= b <= 0x5A || 0x30 <= b <= 0x39 }

  /** Letters in upper case, digits as they are, nothing else. */
  function Kept(b: Byte): (r: seq<Byte>)
    ensures |r| <= 1 && forall i :: 0 <= i < |r| ==> IsUpperOrDigit(r[i])
  {
    if IsLower(b) then [b - 32] else if IsUpperOrDigit(b) then [b] else []
  }

  function KeptAll(input: seq<Byte>): (r: seq<Byte>)
    ensures forall i :: 0 <= i < |r| ==> IsUpperOrDigit(r[i])
    ensures |r| <= |input|
  {
    if input == [] then [] else KeptAll(input[..|input| - 1]) + Kept(input[|input| - 1])
  }

  function FirstOf(s: seq<Byte>, n: nat): (r: seq<Byte>)
    ensures |r| <= n && r <= s
  {
    if |s| <= n then s else s[..n]
  }

  function Normalized(input: seq<Byte>): seq<Byte> { FirstOf(KeptAll(input), 17) }

  function ZeroPadded(s: seq<Byte>, n: nat): (r: seq<Byte>)
    requires |s| <= n
    ensures |r| == n && r[..|s|] == s && forall i :: |s| <= i < n ==> r[i] == 0
  {
    s + Zeros(n - |s|)
  }

  lemma {:induction false} KeptIsPrefix(input: seq<Byte>, n: nat)
    requires n <= |input|
    ensures KeptAll(input[..n]) <= KeptAll(input)
    decreases |input|
  {
    if n < |input| {
      var before := input[..|input| - 1];
      KeptIsPrefix(before, n);
      assert before[..n] == input[..n];
    } else {
      assert input[..n] == input;
    }
  }

  lemma {:induction false} KeptOfClean(s: seq<Byte>)
    requires forall i :: 0 <= i < |s| ==> IsUpperOrDigit(s[i])
    ensures KeptAll(s) == s
  {
    if s != [] {
      KeptOfClean(s[..|s| - 1]);
      assert Kept(s[|s| - 1]) == [s[|s| - 1]];
    }
  }

  /** What becomes of each byte: the letters of both cases, the digits, and nothing else. */
  lemma KeptExactly(b: Byte, k: Byte)
    ensures k < 26 ==> Kept('A' as Byte + k) == ['A' as Byte + k] && Kept('a' as Byte + k) == ['A' as Byte + k]
    ensures k < 10 ==> Kept('0' as Byte + k) == ['0' as Byte + k]
    ensures Kept(b) != [] <==>
              || 'A' as Byte <= b <= 'Z' as Byte || 'a' as Byte <= b <= 'z' as Byte || '0' as Byte <= b <= '9' as Byte
  {}

  /** Replacing each byte by some bytes, in order. */
  function Replaced(f: Byte -> seq<Byte>, input: seq<Byte>): seq<Byte>
  {
    if input == [] then [] else Replaced(f, input[..|input| - 1]) + f(input[|input| - 1])
  }

  lemma {:induction false} ReplacedConcat(f: Byte -> seq<Byte>, xs: seq<Byte>, ys: seq<Byte>)
    ensures Replaced(f, xs + ys) == Replaced(f, xs) + Replaced(f, ys)
    decreases |ys|
  {
    if ys == [] {
      assert xs + ys == xs;
    } else {
      ReplacedConcat(f, xs, ys[..|ys| - 1]);
      assert (xs + ys)[..|xs + ys| - 1] == xs + ys[..|ys| - 1];
    }
  }

  lemma {:induction false} KeptIsReplaced(input: seq<Byte>)
    ensures KeptAll(input) == Replaced(Kept, input)
  {
    if input != [] { KeptIsReplaced(input[..|input| - 1]); }
  }

  /** What is kept of a text is what is kept of its parts, in their order. */
  lemma KeptOfConcat(xs: seq<Byte>, ys: seq<Byte>)
    ensures KeptAll(xs + ys) == KeptAll(xs) + KeptAll(ys)
  {
    KeptIsReplaced(xs);
    KeptIsReplaced(ys);
    KeptIsReplaced(xs + ys);
    ReplacedConcat(Kept, xs, ys);
  }

  /** Normalising is idempotent and yields only upper-case letters and digits. */
  lemma NormalizedIsStable(input: seq<Byte>)
    ensures Normalized(Normalized(input)) == Normalized(input)
    ensures forall i :: 0 <= i < |Normalized(input)| ==> IsUpperOrDigit(Normalized(input)[i])
  {
    KeptOfClean(Normalized(input));
  }

  lemma FullIsEnough(input: seq<Byte>, n: nat)
    requires n <= |input| && |KeptAll(input[..n])| >= 17
    ensures Normalized(input) == FirstOf(KeptAll(input[..n]), 17)
  {
    KeptIsPrefix(input, n);
  }

  lemma KeptStep(input: seq<Byte>, i: nat)
    requires i < |input|
    ensures KeptAll(input[..i + 1]) == KeptAll(input[..i]) + Kept(input[i])
  {
    assert input[..i + 1][..i] == input[..i];
  }

  lemma PaddedBuffer(buffer: seq<Byte>, s: seq<Byte>)
    requires |buffer| == 17 && |s| <= 17 && buffer[..|s|] == s
    requires forall j :: |s| <= j < 17 ==> buffer[j] == 0
    ensures buffer == ZeroPadded(s, 17)
  {}

  /** The loop of the source: it stops as soon as the buffer is full. */
  method NormalizeAscii(input: seq<Byte>) returns (out: Bytes17, len: nat)
    ensures len == |Normalized(input)| <= 17
    ensures out == ZeroPadded(Normalized(input), 17)
  {
    var buffer := new Byte[17](_ => 0);
    len := 0;
    var i := 0;
    while i < |input| && len < 17
      invariant 0 <= i <= |input| && len <= 17
      invariant buffer[..len] == KeptAll(input[..i])
      invariant forall j :: len <= j < 17 ==> buffer[j] == 0
    {
      KeptStep(input, i);
      if IsLower(input[i]) {
        buffer[len] := input[i] - 32;
        len := len + 1;
      } else if IsUpperOrDigit(input[i]) {
        buffer[len] := input[i];
        len := len + 1;
      }
      i := i + 1;
    }
    if i < |input| { FullIsEnough(input, i); } else { assert input[..i] == input; }
    PaddedBuffer(buffer[..], Normalized(input));
    out := buffer[..];
  }

  // ---------------------------------------------------------------- parsing

  function Count(s: seq<Byte>): (n: Byte)
    requires |s| <= 17
    ensures n as int == |s|
  {
    |s| as Byte
  }

  function RecordFrom(vin: seq<Byte>, calibrationId: seq<Byte>, board: seq<Byte>): IdentityRecord
  {
    var v, c, b := Normalized(vin), Normalized(calibrationId), Normalized(board);
    IdentityRecord(Count(v), ZeroPadded(v, 17), Count(c), ZeroPadded(c, 17),
                   Count(FirstOf(b, 6)), ZeroPadded(b, 17)[..6])
  }

  datatype Parsed = Accepted(record: IdentityRecord) | TooLong(field: Field) | Empty(field: Field)

  function ParseFields(vin: seq<Byte>, calibrationId: seq<Byte>, board: seq<Byte>): Parsed
  {
    if |vin| > 17 then TooLong(Vin)
    else if |calibrationId| > 17 then TooLong(CalibrationId)
    else if |board| > 6 then TooLong(BoardBuildIdentity)
    else
      var record := RecordFrom(vin, calibrationId, board);
      if record.vinLen == 0 then Empty(Vin)
      else if record.calibrationIdLen == 0 then Empty(CalibrationId)
      else if record.boardLen == 0 then Empty(BoardBuildIdentity)
      else Accepted(record)
  }

  /** A field is acceptable when it is short enough and something of it survives normalisation. */
  predicate Acceptable(field: seq<Byte>, max: nat) { |field| <= max && Normalized(field) != [] }

  lemma CountIsZero(s: seq<Byte>)
    requires |s| <= 17
    ensures Count(s) == 0 <==> s == []
  {}

  /** Exactly acceptable fields are accepted, and what is accepted holds each whole normalised field, zero-padded. */
  lemma ParseIsExact(vin: seq<Byte>, calibrationId: seq<Byte>, board: seq<Byte>)
    ensures ParseFields(vin, calibrationId, board).Accepted? <==>
            Acceptable(vin, 17) && Acceptable(calibrationId, 17) && Acceptable(board, 6)
    ensures ParseFields(vin, calibrationId, board).Accepted? ==>
              var r := ParseFields(vin, calibrationId, board).record;
              && HoldsField(r.vin, r.vinLen, vin) && HoldsField(r.calibrationId, r.calibrationIdLen, calibrationId)
              && HoldsField(r.board, r.boardLen, board)
  {
    CountIsZero(Normalized(vin));
    CountIsZero(Normalized(calibrationId));
    CountIsZero(FirstOf(Normalized(board), 6));
  }

  /** A refusal names the first field that is too long, and if there is none the first that is empty. */
  lemma RefusalNamesField(vin: seq<Byte>, calibrationId: seq<Byte>, board: seq<Byte>)
    ensures ParseFields(vin, calibrationId, board) ==
            if |vin| > 17 then TooLong(Vin)
            else if |calibrationId| > 17 then TooLong(CalibrationId)
            else if |board| > 6 then TooLong(BoardBuildIdentity)
            else if Normalized(vin) == [] then Empty(Vin)
            else if Normalized(calibrationId) == [] then Empty(CalibrationId)
            else if Normalized(board) == [] then Empty(BoardBuildIdentity)
            else Accepted(RecordFrom(vin, calibrationId, board))
  {
    CountIsZero(Normalized(vin));
    CountIsZero(Normalized(calibrationId));
    CountIsZero(FirstOf(Normalized(board), 6));
  }

  predicate HoldsField(stored: seq<Byte>, len: Byte, field: seq<Byte>)
  {
    && len as int == |Normalized(field)| <= |stored|
    && stored[..|Normalized(field)|] == Normalized(field)
    && forall i :: |Normalized(field)| <= i < |stored| ==> stored[i] == 0
  }

  // ---------------------------------------------------------------- reporting

  datatype VehicleIdentity = VehicleIdentity(
    ecuNameLen: Byte, ecuName: Bytes6, vinLen: Byte, vin: Bytes17, calibrationIdLen: Byte, calibrationId: Bytes17)

  function WithProvisioned(base: VehicleIdentity, r: IdentityRecord): VehicleIdentity
  {
    var named := if MinByte(r.boardLen, 6) > 0 then base.(ecuNameLen := MinByte(r.boardLen, 6), ecuName := r.board) else base;
    var vinned := if MinByte(r.vinLen, 17) > 0 then named.(vinLen := MinByte(r.vinLen, 17), vin := r.vin) else named;
    if MinByte(r.calibrationIdLen, 17) > 0
    then vinned.(calibrationIdLen := MinByte(r.calibrationIdLen, 17), calibrationId := r.calibrationId) else vinned
  }

  /** Each field is reported from the record exactly when it has one, and otherwise from the base. */
  lemma EachFieldFallsBack(base: VehicleIdentity, r: IdentityRecord)
    requires LengthsInRange(r)
    ensures var v := WithProvisioned(base, r);
            && (v.vinLen, v.vin) == (if r.vinLen > 0 then (r.vinLen, r.vin) else (base.vinLen, base.vin))
            && (v.calibrationIdLen, v.calibrationId) ==
                 (if r.calibrationIdLen > 0 then (r.calibrationIdLen, r.calibrationId)
                  else (base.calibrationIdLen, base.calibrationId))
            && (v.ecuNameLen, v.ecuName) == if r.boardLen > 0 then (r.boardLen, r.board) else (base.ecuNameLen, base.ecuName)
  {}

  /** What a boot installs for reporting: the record it finds stored, or else the built-in one. */
  function Installable(stored: Option<IdentityRecord>, builtIn: IdentityRecord): IdentityRecord
  {
    ClampLengths(if stored.Some? then stored.value else builtIn)
  }

  predicate Reports(v: VehicleIdentity, vin: seq<Byte>, calibrationId: seq<Byte>, board: seq<Byte>)
  {
    && HoldsField(v.vin, v.vinLen, vin) && HoldsField(v.calibrationId, v.calibrationIdLen, calibrationId)
    && HoldsField(v.ecuName, v.ecuNameLen, board)
  }

  lemma LengthBounds(stored: seq<Byte>, len: Byte, field: seq<Byte>)
    requires HoldsField(stored, len, field) && Normalized(field) != [] && |stored| <= 17
    ensures 0 < len <= 17 && (|stored| <= 6 ==> len <= 6)
  {}

  lemma AcceptedInRange(vin: seq<Byte>, calibrationId: seq<Byte>, board: seq<Byte>)
    requires ParseFields(vin, calibrationId, board).Accepted?
    ensures var r := ParseFields(vin, calibrationId, board).record;
            LengthsInRange(r) && r.vinLen > 0 && r.calibrationIdLen > 0 && r.boardLen > 0
  {
    ParseIsExact(vin, calibrationId, board);
    var r := ParseFields(vin, calibrationId, board).record;
    LengthBounds(r.vin, r.vinLen, vin);
    LengthBounds(r.calibrationId, r.calibrationIdLen, calibrationId);
    LengthBounds(r.board, r.boardLen, board);
  }

  /** A record that holds three non-empty fields hides everything under it. */
  lemma RecordIsReported(base: VehicleIdentity, r: IdentityRecord)
    requires LengthsInRange(r) && r.vinLen > 0 && r.calibrationIdLen > 0 && r.boardLen > 0
    ensures WithProvisioned(base, r) ==
            VehicleIdentity(r.boardLen, r.board, r.vinLen, r.vin, r.calibrationIdLen, r.calibrationId)
  {}

  /** Whatever the calibration's own identity is, these fields are reported. */
  ghost predicate AlwaysReports(installed: IdentityRecord, vin: seq<Byte>, calibrationId: seq<Byte>, board: seq<Byte>)
  {
    forall base :: Reports(WithProvisioned(base, installed), vin, calibrationId, board)
  }

  const NO_IDENTITY: VehicleIdentity := VehicleIdentity(0, Zeros(6), 0, Zeros(17), 0, Zeros(17))

  lemma HeldFieldIsUnique(p: seq<Byte>, q: seq<Byte>, len: Byte, other: Byte, field: seq<Byte>)
    requires |p| == |q| && HoldsField(p, len, field) && HoldsField(q, other, field)
    ensures p == q && len == other
  {
    var n := |Normalized(field)|;
    assert p[..n] == q[..n];
    forall i | 0 <= i < |p| ensures p[i] == q[i] {
      if i < n { assert p[i] == p[..n][i] && q[i] == q[..n][i]; }
    }
  }

  lemma EmptyBaseShows(r: IdentityRecord)
    ensures var v := WithProvisioned(NO_IDENTITY, r);
            && (v.vinLen > 0 ==> v.vin == r.vin && v.vinLen == MinByte(r.vinLen, 17))
            && (v.calibrationIdLen > 0 ==>
                  v.calibrationId == r.calibrationId && v.calibrationIdLen == MinByte(r.calibrationIdLen, 17))
            && (v.ecuNameLen > 0 ==> v.ecuName == r.board && v.ecuNameLen == MinByte(r.boardLen, 6))
  {}

  lemma SameFields(r: IdentityRecord, v: VehicleIdentity,
                   vin: seq<Byte>, calibrationId: seq<Byte>, board: seq<Byte>)
    requires ParseFields(vin, calibrationId, board) == Accepted(r) && Reports(v, vin, calibrationId, board)
    ensures v == VehicleIdentity(r.boardLen, r.board, r.vinLen, r.vin, r.calibrationIdLen, r.calibrationId)
  {
    ParseIsExact(vin, calibrationId, board);
    HeldFieldIsUnique(v.vin, r.vin, v.vinLen, r.vinLen, vin);
    HeldFieldIsUnique(v.calibrationId, r.calibrationId, v.calibrationIdLen, r.calibrationIdLen, calibrationId);
    HeldFieldIsUnique(v.ecuName, r.board, v.ecuNameLen, r.boardLen, board);
  }

  /** Accepted fields are reported over every calibration if and only if their record is the one installed. */
  lemma ReportedIffInstalled(
    installed: IdentityRecord, r: IdentityRecord, vin: seq<Byte>, calibrationId: seq<Byte>, board: seq<Byte>)
    requires LengthsInRange(installed) && ParseFields(vin, calibrationId, board) == Accepted(r)
    ensures AlwaysReports(installed, vin, calibrationId, board) <==> installed == r
  {
    AcceptedInRange(vin, calibrationId, board);
    ParseIsExact(vin, calibrationId, board);
    if installed == r {
      forall base ensures Reports(WithProvisioned(base, installed), vin, calibrationId, board) {
        RecordIsReported(base, r);
      }
    }
    if AlwaysReports(installed, vin, calibrationId, board) {
      var v := WithProvisioned(NO_IDENTITY, installed);
      assert Reports(v, vin, calibrationId, board);
      SameFields(r, v, vin, calibrationId, board);
      EmptyBaseShows(installed);
    }
  }

  // ---------------------------------------------------------------- over restarts

  /** The store, the record installed for reporting, and whether a boot has happened since a given moment. */
  datatype Panel = Panel(held: Held, installed: IdentityRecord, rebooted: bool)

  datatype PanelMove = StoreOp(op: KvOp, ending: Ending) | Restart

  function Rebooted(p: Panel, builtIn: IdentityRecord): Panel
  {
    Panel(p.held, Installable(Base(p.held).identity, builtIn), true)
  }

  /** Only a boot installs a record; storing one does not. */
  function PanelStep(p: Panel, move: PanelMove, builtIn: IdentityRecord): Panel
  {
    match move
    case StoreOp(op, ending) =>
      var end := Apply(p.held, op, ending);
      var stored := p.(held := end.held);
      if end.result.PowerLost? then Rebooted(stored, builtIn) else stored
    case Restart => Rebooted(p, builtIn)
  }

  function PanelRun(p: Panel, moves: seq<PanelMove>, builtIn: IdentityRecord): Panel
  {
    if moves == [] then p
    else PanelStep(PanelRun(p, moves[..|moves| - 1], builtIn), moves[|moves| - 1], builtIn)
  }

  predicate LeavesIdentity(move: PanelMove) { move.StoreOp? ==> !Names(move.op, IdentityR) }

  /** The store holds the record, and a boot since has installed it; without one, what was installed still is. */
  predicate PanelInv(p: Panel, r: IdentityRecord, before: IdentityRecord)
  {
    && p.held.Some? && Representable(p.held.value) && p.held.value.identity == Some(r)
    && p.installed == if p.rebooted then r else before
  }

  lemma StepKeepsPanel(p: Panel, move: PanelMove, builtIn: IdentityRecord, r: IdentityRecord, before: IdentityRecord)
    requires PanelInv(p, r, before) && LengthsInRange(r) && LeavesIdentity(move)
    ensures PanelInv(PanelStep(p, move, builtIn), r, before)
  {
    if move.StoreOp? { ApplyFrame(p.held, move.op, move.ending, IdentityR); }
  }

  lemma {:induction false} RunKeepsPanel(
    p: Panel, moves: seq<PanelMove>, builtIn: IdentityRecord, r: IdentityRecord, before: IdentityRecord)
    requires PanelInv(p, r, before) && LengthsInRange(r)
    requires forall i :: 0 <= i < |moves| ==> LeavesIdentity(moves[i])
    ensures PanelInv(PanelRun(p, moves, builtIn), r, before)
  {
    if moves != [] {
      RunKeepsPanel(p, moves[..|moves| - 1], builtIn, r, before);
      StepKeepsPanel(PanelRun(p, moves[..|moves| - 1], builtIn), moves[|moves| - 1], builtIn, r, before);
    }
  }

  /** The panel right after a successful write of an identity record. */
  function Provisioned(p: Panel, r: IdentityRecord, ending: Ending): Panel
  {
    Panel(Apply(p.held, KvOp.WriteIdentity(r), ending).held, p.installed, false)
  }

  lemma ProvisionedPanel(p: Panel, r: IdentityRecord, ending: Ending)
    requires WellHeld(p.held) && Apply(p.held, KvOp.WriteIdentity(r), ending).result == Ok
    ensures PanelInv(Provisioned(p, r, ending), r, p.installed) && LengthsInRange(r)
  {
    LandedIsWellHeld(p.held, Prepare(p.held, KvOp.WriteIdentity(r)), ending.landed);
  }

  /**
   End to end: after accepted fields have been stored successfully, and any later
   operations on other regions with any faults and restarts, the vehicle reports exactly
   the normalised fields if and only if it has booted since, or had that very record
   installed before.
   */
  lemma ProvisionedFieldsAreReported(
    p: Panel, vin: seq<Byte>, calibrationId: seq<Byte>, board: seq<Byte>, r: IdentityRecord, ending: Ending,
    later: seq<PanelMove>, builtIn: IdentityRecord)
    requires WellHeld(p.held) && LengthsInRange(p.installed) && ParseFields(vin, calibrationId, board) == Accepted(r)
    requires Apply(p.held, KvOp.WriteIdentity(r), ending).result == Ok
    requires forall i :: 0 <= i < |later| ==> LeavesIdentity(later[i])
    ensures var end := PanelRun(Provisioned(p, r, ending), later, builtIn);
            AlwaysReports(end.installed, vin, calibrationId, board) <==> end.rebooted || p.installed == r
  {
    ProvisionedPanel(p, r, ending);
    RunKeepsPanel(Provisioned(p, r, ending), later, builtIn, r, p.installed);
    ReportedIffInstalled(PanelRun(Provisioned(p, r, ending), later, builtIn).installed, r, vin, calibrationId, board);
  }

  /**
   A case where it does not: a unit booted on a store that holds nothing goes on reporting
   its built-in identity, and not the accepted one, until the next boot, and then the
   accepted one.
   */
  lemma AcceptedNotYetReported(
    vin: seq<Byte>, calibrationId: seq<Byte>, board: seq<Byte>, r: IdentityRecord, builtIn: IdentityRecord)
    requires ParseFields(vin, calibrationId, board) == Accepted(r) && ClampLengths(builtIn) != r
    ensures var p := Rebooted(Panel(None, builtIn, false), builtIn);
            var stored := Provisioned(p, r, Ending(Done, true));
            && Apply(p.held, KvOp.WriteIdentity(r), Ending(Done, true)).result == Ok
            && !AlwaysReports(stored.installed, vin, calibrationId, board)
            && AlwaysReports(PanelStep(stored, Restart, builtIn).installed, vin, calibrationId, board)
  {
    AcceptedInRange(vin, calibrationId, board);
    var p := Rebooted(Panel(None, builtIn, false), builtIn);
    var stored := Provisioned(p, r, Ending(Done, true));
    ProvisionedPanel(p, r, Ending(Done, true));
    ReportedIffInstalled(stored.installed, r, vin, calibrationId, board);
    ReportedIffInstalled(PanelStep(stored, Restart, builtIn).installed, r, vin, calibrationId, board);
  }
}
