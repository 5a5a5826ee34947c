/**
 What holds of the provisioning protocol over every run: any messages, any store faults,
 any power losses and restarts. Each law is kept as an invariant that looks only at the
 end of the log, and then read off for every pair of events.
 */
module ProvisioningRuns {
  import opened Words
  import opened Records
  import opened StoreViews
  import opened KvOps
  import opened Provisioning
  import opened ProvisioningSteps

  function Init(log: seq<Event>): seq<Event>
    requires log != []
  {
    log[..|log| - 1]
  }

  function Last(log: seq<Event>): Event
    requires log != []
  {
    log[|log| - 1]
  }

  lemma Appended(log: seq<Event>, e: Event)
    ensures Init(log + [e]) == log && Last(log + [e]) == e
  {}

  // ---------------------------------------------------------------- generations

  /** The generation of the last accepted key command; no command is accepted with generation 0. */
  function LastAccepted(log: seq<Event>): nat
  {
    if log == [] then 0
    else if Last(log).Accepted? then Value(Last(log).generation)
    else LastAccepted(Init(log))
  }

  predicate Ascending(log: seq<Event>)
  {
    log != [] ==>
      Ascending(Init(log)) && (Last(log).Accepted? ==> LastAccepted(Init(log)) < Value(Last(log).generation))
  }

  /** An accepted audit is always stored beside the key record it speaks of. */
  predicate AuditBesideKey(slots: KeySlots)
  {
    slots.audit.Some? && slots.audit.value.accepted ==>
      slots.key.Some? && slots.key.value.generation == slots.audit.value.generation
  }

  predicate GenerationInv(m: Machine)
  {
    AuditBesideKey(m.slots) && LastAccepted(m.log) <= GenerationOf(m.slots.key) && Ascending(m.log)
  }

  lemma QuietEvent(log: seq<Event>, e: Event)
    requires !e.Accepted? && Ascending(log)
    ensures LastAccepted(log + [e]) == LastAccepted(log) && Ascending(log + [e])
  {
    Appended(log, e);
  }

  lemma BootKeepsGenerations(site: Site, m: Machine)
    requires GenerationInv(m)
    ensures GenerationInv(Rebooted(site, m))
  {
    QuietEvent(m.log, Booted);
  }

  lemma NonceKeepsGenerations(m: Machine, currentKey: Key, nonce: U32, landed: bool)
    requires GenerationInv(m) && NonceRecord(m.slots.key, currentKey, nonce).Some?
    ensures GenerationInv(m.(slots := PutKey(m.slots, NonceRecord(m.slots.key, currentKey, nonce).value, landed)))
  {}

  lemma ArmKeepsGenerations(site: Site, m: Machine, msg: ArmMessage, ending: Ending)
    requires GenerationInv(m)
    ensures GenerationInv(ArmStep(site, m, msg, ending))
  {
    if ArmAccepts(site, m.op, msg) {
      match NonceRecord(m.slots.key, m.op.key.value, msg.nonce)
      case None =>
      case Some(record) =>
        NonceKeepsGenerations(m, m.op.key.value, msg.nonce, ending.landed);
        var stored := m.(slots := PutKey(m.slots, record, ending.landed));
        match ending.outcome
        case Done => QuietEvent(m.log, Armed(record.generation, msg.nonce, ArmedCommand(msg.requestId, msg.fields)));
        case Failed =>
        case Lost => BootKeepsGenerations(site, stored);
    }
  }

  lemma RefuseKeepsGenerations(site: Site, m: Machine, start: KeySlots, audit: KeyAudit, ending: Ending)
    requires GenerationInv(m) && GenerationInv(m.(slots := start)) && !audit.accepted
    ensures GenerationInv(Refuse(site, m, start.key, audit, ending))
  {
    QuietEvent(m.log, Booted);
  }

  lemma AcceptanceRaises(log: seq<Event>, e: Event)
    requires e.Accepted? && Ascending(log) && LastAccepted(log) < Value(e.generation)
    ensures LastAccepted(log + [e]) == Value(e.generation) && Ascending(log + [e])
  {
    Appended(log, e);
  }

  lemma NewKeyKeepsGenerations(m: Machine, msg: KeyMessage, landed: bool)
    requires GenerationInv(m) && Value(msg.generation) > GenerationOf(m.slots.key)
    ensures GenerationInv(m.(slots := PutBoth(m.slots, Some(NewKeyRecord(msg)), AcceptedAudit(msg), landed)))
  {}

  lemma KeyCommandKeepsGenerations(site: Site, m: Machine, msg: KeyMessage, write: Ending, refusal: Ending)
    requires GenerationInv(m) && write.Possible()
    ensures GenerationInv(KeyStep(site, m, msg, write, refusal))
  {
    var verdict := Judge(site, m, msg);
    if !verdict.Proceed? {
      RefuseKeepsGenerations(site, m, m.slots, RefusedAudit(msg, verdict), refusal);
    } else {
      NewKeyKeepsGenerations(m, msg, write.landed);
      var stored := m.(slots := PutBoth(m.slots, Some(NewKeyRecord(msg)), AcceptedAudit(msg), write.landed));
      match write.outcome
      case Done => AcceptanceRaises(m.log, Accepted(msg.generation, msg.revoke));
      case Failed => RefuseKeepsGenerations(site, stored, m.slots, RefusedAudit(msg, verdict), refusal);
      case Lost => BootKeepsGenerations(site, stored);
    }
  }

  lemma IdentityKeepsGenerations(site: Site, m: Machine, command: IdentityCommand, lost: bool)
    requires GenerationInv(m)
    ensures GenerationInv(IdentityStep(site, m, command, lost))
  {
    if Authorises(m.op, command) { QuietEvent(m.log, Authorised(m.op.armed.value, command)); }
    BootKeepsGenerations(site, IdentityStep(site, m, command, false));
  }

  lemma {:induction false} GenerationInvOverRuns(site: Site, inputs: seq<Input>)
    requires AllPossible(inputs)
    ensures GenerationInv(Run(site, inputs))
  {
    if inputs != [] {
      var before := inputs[..|inputs| - 1];
      GenerationInvOverRuns(site, before);
      var m := Run(site, before);
      match inputs[|inputs| - 1]
      case Arm(msg, ending) => ArmKeepsGenerations(site, m, msg, ending);
      case KeyCommand(msg, write, refusal) => KeyCommandKeepsGenerations(site, m, msg, write, refusal);
      case Identity(command, lost) => IdentityKeepsGenerations(site, m, command, lost);
      case PowerCycle => BootKeepsGenerations(site, m);
    }
  }

  lemma {:induction false} AcceptedAtMostLast(log: seq<Event>, i: nat)
    requires Ascending(log) && i < |log| && log[i].Accepted?
    ensures Value(log[i].generation) <= LastAccepted(log)
    decreases |log|
  {
    if i < |log| - 1 { AcceptedAtMostLast(Init(log), i); }
  }

  lemma {:induction false} AscendingPair(log: seq<Event>, i: nat, j: nat)
    requires Ascending(log) && i < j < |log| && log[i].Accepted? && log[j].Accepted?
    ensures Value(log[i].generation) < Value(log[j].generation)
    decreases |log|
  {
    if j == |log| - 1 {
      AcceptedAtMostLast(Init(log), i);
    } else {
      AscendingPair(Init(log), i, j);
    }
  }

  /** In every run, of any two accepted key commands the later one has the greater generation. */
  lemma GenerationsIncrease(site: Site, inputs: seq<Input>, i: nat, j: nat)
    requires AllPossible(inputs)
    requires i < j < |Run(site, inputs).log|
    requires Run(site, inputs).log[i].Accepted? && Run(site, inputs).log[j].Accepted?
    ensures Value(Run(site, inputs).log[i].generation) < Value(Run(site, inputs).log[j].generation)
  {
    GenerationInvOverRuns(site, inputs);
    AscendingPair(Run(site, inputs).log, i, j);
  }

  /** In every run, a stored audit that says accepted sits beside a key record of the same generation. */
  lemma AuditMatchesKey(site: Site, inputs: seq<Input>)
    requires AllPossible(inputs)
    ensures AuditBesideKey(Run(site, inputs).slots)
  {
    GenerationInvOverRuns(site, inputs);
  }

  predicate NotLower(before: Option<KeyRecord>, after: Option<KeyRecord>)
  {
    (before.Some? ==> after.Some?) && GenerationOf(before) <= GenerationOf(after)
  }

  lemma ArmNeverLowers(site: Site, m: Machine, msg: ArmMessage, ending: Ending)
    ensures NotLower(m.slots.key, ArmStep(site, m, msg, ending).slots.key)
  {
    if ArmAccepts(site, m.op, msg) {
      match NonceRecord(m.slots.key, m.op.key.value, msg.nonce)
      case None =>
      case Some(record) => assert NotLower(m.slots.key, Some(record));
    }
  }

  lemma KeyCommandNeverLowers(site: Site, m: Machine, msg: KeyMessage, write: Ending, refusal: Ending)
    ensures NotLower(m.slots.key, KeyStep(site, m, msg, write, refusal).slots.key)
  {
    var verdict := Judge(site, m, msg);
    if verdict.Proceed? {
      assert NotLower(m.slots.key, Some(NewKeyRecord(msg)));
    }
    var end := KeyStep(site, m, msg, write, refusal).slots.key;
    assert end == m.slots.key || (verdict.Proceed? && end == Some(NewKeyRecord(msg)));
  }

  /** From one message to the next the stored generation never falls, whatever lands or is restored, and a stored record never disappears. */
  lemma StoredGenerationNeverFalls(site: Site, m: Machine, input: Input)
    ensures NotLower(m.slots.key, Step(site, m, input).slots.key)
  {
    match input
    case Arm(msg, ending) => ArmNeverLowers(site, m, msg, ending);
    case KeyCommand(msg, write, refusal) => KeyCommandNeverLowers(site, m, msg, write, refusal);
    case Identity(_, _) =>
    case PowerCycle =>
  }

  // ---------------------------------------------------------------- refused key commands

  /** The joint write landed although it was not reported as done, and nothing has put the previous record back. */
  predicate LeftBehind(site: Site, m: Machine, msg: KeyMessage, write: Ending, refusal: Ending)
  {
    Judge(site, m, msg).Proceed? && write.landed && (write.outcome.Lost? || !refusal.landed)
  }

  /**
   A key command that is not accepted leaves the stored key record alone if and only if
   it does not leave its own behind; the next boot comes up under the one that is there.
   */
  lemma RefusalKeepsKeyExactly(site: Site, m: Machine, msg: KeyMessage, write: Ending, refusal: Ending)
    requires Judge(site, m, msg).Proceed? ==> !write.outcome.Done?
    ensures var end := KeyStep(site, m, msg, write, refusal);
            var left := LeftBehind(site, m, msg, write, refusal);
            && (end.slots.key == m.slots.key <==> !left)
            && (left ==> end.slots == KeySlots(Some(NewKeyRecord(msg)), Some(AcceptedAudit(msg))))
            && Rebooted(site, end).op ==
                 if left then Operator(None, NewKeyRecord(msg).ActiveKey(), Some(0)) else Boot(site, m.slots)
  {
    var verdict := Judge(site, m, msg);
    if verdict.Proceed? {
      assert m.slots.key != Some(NewKeyRecord(msg));
    }
  }

  /**
   From blank flash: the record and audit of a valid key command land but are reported as
   failed, and so is the refusal, which does not land. The command is answered as refused
   and the old key stays in use, but the next boot comes up under the refused one.
   */
  lemma RefusedKeyComesUp(site: Site, msg: KeyMessage)
    requires site.builtInKey.Some? && site.keyTagOk(site.builtInKey.value, msg) && Value(msg.generation) > 0
    ensures var input := KeyCommand(msg, Ending(Failed, true), Ending(Failed, false));
            var answered, booted := Run(site, [input]), Run(site, [input] + [PowerCycle]);
            && AllPossible([input] + [PowerCycle])
            && answered.log == [] && answered.op.key == site.builtInKey
            && booted.log == [Booted] && booted.op.key == NewKeyRecord(msg).ActiveKey()
  {
    var input := KeyCommand(msg, Ending(Failed, true), Ending(Failed, false));
    var inputs := [input] + [PowerCycle];
    assert [input][..0] == [] && inputs[..1] == [input];
    assert Run(site, [input]) == Step(site, PowerOn(site), input);
    assert Run(site, inputs) == Step(site, Run(site, [input]), PowerCycle);
    RefusalKeepsKeyExactly(site, PowerOn(site), msg, Ending(Failed, true), Ending(Failed, false));
  }

  // ---------------------------------------------------------------- revocation

  predicate Revoked(m: Machine)
  {
    m.slots.key.Some? && m.slots.key.value.revoked && m.op.key == None && m.op.armed == None
  }

  predicate IsRevocation(e: Event) { e.Accepted? && e.revoke }

  predicate HasRevocation(log: seq<Event>)
  {
    log != [] && (IsRevocation(Last(log)) || HasRevocation(Init(log)))
  }

  predicate QuietAfterRevocation(log: seq<Event>)
  {
    log != [] ==> QuietAfterRevocation(Init(log)) && (HasRevocation(Init(log)) ==> Last(log).Booted?)
  }

  predicate RevocationInv(m: Machine)
  {
    QuietAfterRevocation(m.log) && (HasRevocation(m.log) ==> Revoked(m))
  }

  /** Once revoked, a step of any kind leaves the machine revoked and tells the outside nothing but a restart. */
  lemma RevokedIsAbsorbing(site: Site, m: Machine, input: Input)
    requires Revoked(m)
    ensures var after := Step(site, m, input);
            Revoked(after) && (after.log == m.log || after.log == m.log + [Booted])
  {}

  /** Appending an event to a log without revocations. */
  lemma NoRevocationYet(log: seq<Event>, e: Event)
    requires !HasRevocation(log) && QuietAfterRevocation(log)
    ensures QuietAfterRevocation(log + [e]) && (HasRevocation(log + [e]) <==> IsRevocation(e))
  {
    Appended(log, e);
  }

  lemma FirstRevocation(site: Site, m: Machine, input: Input)
    requires input.Possible() && !HasRevocation(m.log) && QuietAfterRevocation(m.log)
    ensures RevocationInv(Step(site, m, input))
  {
    NoRevocationYet(m.log, Booted);
    match input
    case Arm(msg, ending) =>
      var after := ArmStep(site, m, msg, ending);
      if |after.log| > |m.log| { NoRevocationYet(m.log, Last(after.log)); }
    case KeyCommand(msg, write, refusal) =>
      NoRevocationYet(m.log, Accepted(msg.generation, msg.revoke));
    case Identity(command, lost) =>
      var next := IdentityStep(site, m, command, false);
      if Authorises(m.op, command) { NoRevocationYet(m.log, Authorised(m.op.armed.value, command)); }
      NoRevocationYet(next.log, Booted);
    case PowerCycle =>
  }

  lemma {:induction false} RevocationInvOverRuns(site: Site, inputs: seq<Input>)
    requires AllPossible(inputs)
    ensures RevocationInv(Run(site, inputs))
  {
    if inputs != [] {
      var before, input := inputs[..|inputs| - 1], inputs[|inputs| - 1];
      RevocationInvOverRuns(site, before);
      var m := Run(site, before);
      if HasRevocation(m.log) {
        RevokedIsAbsorbing(site, m, input);
        Appended(m.log, Booted);
      } else {
        FirstRevocation(site, m, input);
      }
    }
  }

  lemma {:induction false} RevocationSeen(log: seq<Event>, i: nat)
    requires i < |log| && IsRevocation(log[i])
    ensures HasRevocation(log)
    decreases |log|
  {
    if i < |log| - 1 { RevocationSeen(Init(log), i); }
  }

  lemma {:induction false} QuietPair(log: seq<Event>, i: nat, j: nat)
    requires QuietAfterRevocation(log) && i < j < |log| && IsRevocation(log[i])
    ensures log[j].Booted?
    decreases |log|
  {
    if j == |log| - 1 {
      RevocationSeen(Init(log), i);
    } else {
      QuietPair(Init(log), i, j);
    }
  }

  /** In every run, nothing but restarts follows an accepted revocation: no arm, key or identity command succeeds again. */
  lemma RevocationIsFinal(site: Site, inputs: seq<Input>, i: nat, j: nat)
    requires AllPossible(inputs)
    requires i < j < |Run(site, inputs).log| && IsRevocation(Run(site, inputs).log[i])
    ensures Run(site, inputs).log[j].Booted?
  {
    RevocationInvOverRuns(site, inputs);
    QuietPair(Run(site, inputs).log, i, j);
  }

  // ---------------------------------------------------------------- nonces

  datatype Mark = Mark(generation: nat, nonce: nat) {
    predicate Below(other: Mark)
    {
      generation < other.generation || (generation == other.generation && nonce < other.nonce)
    }
  }

  function MarkOf(e: Event): Mark
    requires e.Armed?
  {
    Mark(Value(e.underGeneration), Value(e.nonce))
  }

  function LastMark(log: seq<Event>): Option<Mark>
  {
    if log == [] then None
    else if Last(log).Armed? then Some(MarkOf(Last(log)))
    else LastMark(Init(log))
  }

  predicate MarkFollows(previous: Option<Mark>, mark: Mark) { previous.Some? ==> previous.value.Below(mark) }

  predicate MarksAscend(log: seq<Event>)
  {
    log != [] ==> MarksAscend(Init(log)) && (Last(log).Armed? ==> MarkFollows(LastMark(Init(log)), MarkOf(Last(log))))
  }

  /** A nonce that was ever confirmed under the stored generation is known to the store. */
  predicate StoreCovers(mark: Option<Mark>, key: Option<KeyRecord>)
  {
    mark.Some? ==>
      && key.Some? && mark.value.generation <= Value(key.value.generation)
      && (mark.value.generation == Value(key.value.generation) ==> mark.value.nonce <= Value(key.value.lastArmNonce))
  }

  /** It is known to the operator too, whenever the operator's key is the stored one. */
  predicate OperatorCovers(mark: Option<Mark>, key: Option<KeyRecord>, op: Operator)
  {
    mark.Some? && key.Some? && op.key.Some? && key.value.ActiveKey() == op.key
      && mark.value.generation == Value(key.value.generation) ==>
      op.lastNonce.Some? && mark.value.nonce <= Value(op.lastNonce.value)
  }

  predicate Covered(mark: Option<Mark>, slots: KeySlots, op: Operator)
  {
    StoreCovers(mark, slots.key) && OperatorCovers(mark, slots.key, op)
  }

  predicate NonceInv(m: Machine) { MarksAscend(m.log) && Covered(LastMark(m.log), m.slots, m.op) }

  lemma NoNewMark(log: seq<Event>, e: Event)
    requires !e.Armed? && MarksAscend(log)
    ensures LastMark(log + [e]) == LastMark(log) && MarksAscend(log + [e])
  {
    Appended(log, e);
  }

  lemma NewMark(log: seq<Event>, e: Event)
    requires e.Armed? && MarksAscend(log) && MarkFollows(LastMark(log), MarkOf(e))
    ensures LastMark(log + [e]) == Some(MarkOf(e)) && MarksAscend(log + [e])
  {
    Appended(log, e);
  }

  lemma BootCovers(site: Site, mark: Option<Mark>, slots: KeySlots)
    requires StoreCovers(mark, slots.key)
    ensures Covered(mark, slots, Boot(site, slots))
  {}

  lemma BootKeepsNonces(site: Site, m: Machine)
    requires MarksAscend(m.log) && StoreCovers(LastMark(m.log), m.slots.key)
    ensures NonceInv(Rebooted(site, m))
  {
    NoNewMark(m.log, Booted);
    BootCovers(site, LastMark(m.log), m.slots);
  }

  /** A fresh nonce written under the operator's key: the store still covers, and the new mark follows the last one. */
  lemma FreshNonce(mark: Option<Mark>, slots: KeySlots, op: Operator, nonce: U32, landed: bool)
    requires Covered(mark, slots, op) && op.key.Some?
    requires op.lastNonce.Some? ==> Value(nonce) > Value(op.lastNonce.value)
    requires NonceRecord(slots.key, op.key.value, nonce).Some?
    ensures var record := NonceRecord(slots.key, op.key.value, nonce).value;
            && Covered(mark, PutKey(slots, record, landed), op)
            && MarkFollows(mark, Mark(Value(record.generation), Value(nonce)))
            && record.lastArmNonce == nonce
  {}

  lemma ArmKeepsNonces(site: Site, m: Machine, msg: ArmMessage, ending: Ending)
    requires NonceInv(m) && ending.Possible()
    ensures NonceInv(ArmStep(site, m, msg, ending))
  {
    if ArmAccepts(site, m.op, msg) {
      match NonceRecord(m.slots.key, m.op.key.value, msg.nonce)
      case None =>
      case Some(record) =>
        FreshNonce(LastMark(m.log), m.slots, m.op, msg.nonce, ending.landed);
        var stored := m.(slots := PutKey(m.slots, record, ending.landed));
        match ending.outcome
        case Done => NewMark(m.log, Armed(record.generation, msg.nonce, ArmedCommand(msg.requestId, msg.fields)));
        case Failed =>
        case Lost => BootKeepsNonces(site, stored);
    }
  }

  lemma RefuseKeepsNonces(site: Site, m: Machine, start: KeySlots, audit: KeyAudit, ending: Ending)
    requires NonceInv(m) && NonceInv(m.(slots := start))
    ensures NonceInv(Refuse(site, m, start.key, audit, ending))
  {
    var stored := m.(slots := PutBoth(m.slots, start.key, audit, ending.landed));
    assert NonceInv(stored);
    BootKeepsNonces(site, stored);
  }

  /** A record of a higher generation covers every mark there is, under any operator. */
  lemma NewKeyCovers(mark: Option<Mark>, slots: KeySlots, msg: KeyMessage, op: Operator)
    requires StoreCovers(mark, slots.key) && Value(msg.generation) > GenerationOf(slots.key)
    ensures Covered(mark, KeySlots(Some(NewKeyRecord(msg)), Some(AcceptedAudit(msg))), op)
  {}

  lemma KeyCommandKeepsNonces(site: Site, m: Machine, msg: KeyMessage, write: Ending, refusal: Ending)
    requires NonceInv(m) && write.Possible()
    ensures NonceInv(KeyStep(site, m, msg, write, refusal))
  {
    var verdict := Judge(site, m, msg);
    if !verdict.Proceed? {
      RefuseKeepsNonces(site, m, m.slots, RefusedAudit(msg, verdict), refusal);
    } else {
      var stored := m.(slots := PutBoth(m.slots, Some(NewKeyRecord(msg)), AcceptedAudit(msg), write.landed));
      NewKeyCovers(LastMark(m.log), m.slots, msg, m.op);
      match write.outcome
      case Done =>
        NoNewMark(m.log, Accepted(msg.generation, msg.revoke));
        NewKeyCovers(LastMark(m.log), m.slots, msg, Operator(None, NewKeyRecord(msg).ActiveKey(), None));
      case Failed => RefuseKeepsNonces(site, stored, m.slots, RefusedAudit(msg, verdict), refusal);
      case Lost => BootKeepsNonces(site, stored);
    }
  }

  lemma IdentityKeepsNonces(site: Site, m: Machine, command: IdentityCommand, lost: bool)
    requires NonceInv(m)
    ensures NonceInv(IdentityStep(site, m, command, lost))
  {
    if Authorises(m.op, command) { NoNewMark(m.log, Authorised(m.op.armed.value, command)); }
    BootKeepsNonces(site, IdentityStep(site, m, command, false));
  }

  lemma {:induction false} NonceInvOverRuns(site: Site, inputs: seq<Input>)
    requires AllPossible(inputs)
    ensures NonceInv(Run(site, inputs))
  {
    if inputs != [] {
      var before := inputs[..|inputs| - 1];
      NonceInvOverRuns(site, before);
      var m := Run(site, before);
      match inputs[|inputs| - 1]
      case Arm(msg, ending) => ArmKeepsNonces(site, m, msg, ending);
      case KeyCommand(msg, write, refusal) => KeyCommandKeepsNonces(site, m, msg, write, refusal);
      case Identity(command, lost) => IdentityKeepsNonces(site, m, command, lost);
      case PowerCycle => BootKeepsNonces(site, m);
    }
  }

  lemma {:induction false} MarkAtMostLast(log: seq<Event>, i: nat)
    requires MarksAscend(log) && i < |log| && log[i].Armed?
    ensures var last := LastMark(log);
            last.Some? && (MarkOf(log[i]) == last.value || MarkOf(log[i]).Below(last.value))
    decreases |log|
  {
    if i < |log| - 1 { MarkAtMostLast(Init(log), i); }
  }

  lemma {:induction false} MarkPair(log: seq<Event>, i: nat, j: nat)
    requires MarksAscend(log) && i < j < |log| && log[i].Armed? && log[j].Armed?
    ensures MarkOf(log[i]).Below(MarkOf(log[j]))
    decreases |log|
  {
    if j == |log| - 1 {
      MarkAtMostLast(Init(log), i);
    } else {
      MarkPair(Init(log), i, j);
    }
  }

  /**
   In every run, of any two confirmed arms the later one is under a later generation, or
   under the same one with a greater nonce; so within a generation nonces strictly increase.
   */
  lemma NoncesIncrease(site: Site, inputs: seq<Input>, i: nat, j: nat)
    requires AllPossible(inputs)
    requires i < j < |Run(site, inputs).log|
    requires Run(site, inputs).log[i].Armed? && Run(site, inputs).log[j].Armed?
    ensures MarkOf(Run(site, inputs).log[i]).Below(MarkOf(Run(site, inputs).log[j]))
  {
    NonceInvOverRuns(site, inputs);
    MarkPair(Run(site, inputs).log, i, j);
  }

  // ---------------------------------------------------------------- consuming arms

  /** The arm still pending: the last thing that happened, if that was an arm. */
  function Pending(log: seq<Event>): Option<ArmedCommand>
  {
    if log != [] && Last(log).Armed? then Some(Last(log).command) else None
  }

  predicate Consumes(log: seq<Event>)
  {
    log != [] ==>
      && Consumes(Init(log))
      && (Last(log).Authorised? ==> Pending(Init(log)) == Some(Last(log).armed))
  }

  predicate PendingInv(m: Machine) { m.op.armed == Pending(m.log) && Consumes(m.log) }

  lemma OtherEvent(log: seq<Event>, e: Event)
    requires Consumes(log)
    requires e.Authorised? ==> Pending(log) == Some(e.armed)
    ensures Consumes(log + [e]) && Pending(log + [e]) == if e.Armed? then Some(e.command) else None
  {
    Appended(log, e);
  }

  lemma BootKeepsPending(site: Site, m: Machine)
    requires Consumes(m.log)
    ensures PendingInv(Rebooted(site, m))
  {
    OtherEvent(m.log, Booted);
  }

  lemma ArmKeepsPending(site: Site, m: Machine, msg: ArmMessage, ending: Ending)
    requires PendingInv(m)
    ensures PendingInv(ArmStep(site, m, msg, ending))
  {
    if ArmAccepts(site, m.op, msg) {
      match NonceRecord(m.slots.key, m.op.key.value, msg.nonce)
      case None =>
      case Some(record) =>
        BootKeepsPending(site, m.(slots := PutKey(m.slots, record, ending.landed)));
        OtherEvent(m.log, Armed(record.generation, msg.nonce, ArmedCommand(msg.requestId, msg.fields)));
    }
  }

  lemma RefuseKeepsPending(site: Site, m: Machine, previous: Option<KeyRecord>, audit: KeyAudit, ending: Ending)
    requires PendingInv(m)
    ensures PendingInv(Refuse(site, m, previous, audit, ending))
  {
    var after := Refuse(site, m, previous, audit, ending);
    if ending.outcome.Lost? {
      assert after.log == m.log + [Booted] && after.op.armed == None;
      OtherEvent(m.log, Booted);
    } else {
      assert after.log == m.log && after.op == m.op;
    }
  }

  lemma KeyCommandKeepsPending(site: Site, m: Machine, msg: KeyMessage, write: Ending, refusal: Ending)
    requires PendingInv(m)
    ensures PendingInv(KeyStep(site, m, msg, write, refusal))
  {
    var verdict := Judge(site, m, msg);
    if !verdict.Proceed? {
      RefuseKeepsPending(site, m, m.slots.key, RefusedAudit(msg, verdict), refusal);
    } else {
      var stored := m.(slots := PutBoth(m.slots, Some(NewKeyRecord(msg)), AcceptedAudit(msg), write.landed));
      match write.outcome
      case Done => OtherEvent(m.log, Accepted(msg.generation, msg.revoke));
      case Failed => RefuseKeepsPending(site, stored, m.slots.key, RefusedAudit(msg, verdict), refusal);
      case Lost => BootKeepsPending(site, stored);
    }
  }

  lemma IdentityKeepsPending(site: Site, m: Machine, command: IdentityCommand, lost: bool)
    requires PendingInv(m)
    ensures PendingInv(IdentityStep(site, m, command, lost))
  {
    if Authorises(m.op, command) {
      OtherEvent(m.log, Authorised(m.op.armed.value, command));
    }
    BootKeepsPending(site, IdentityStep(site, m, command, false));
  }

  lemma {:induction false} PendingInvOverRuns(site: Site, inputs: seq<Input>)
    ensures PendingInv(Run(site, inputs))
  {
    if inputs != [] {
      var before := inputs[..|inputs| - 1];
      PendingInvOverRuns(site, before);
      var m := Run(site, before);
      match inputs[|inputs| - 1]
      case Arm(msg, ending) => ArmKeepsPending(site, m, msg, ending);
      case KeyCommand(msg, write, refusal) => KeyCommandKeepsPending(site, m, msg, write, refusal);
      case Identity(command, lost) => IdentityKeepsPending(site, m, command, lost);
      case PowerCycle => BootKeepsPending(site, m);
    }
  }

  lemma {:induction false} ConsumedAt(log: seq<Event>, i: nat)
    requires Consumes(log) && i < |log| && log[i].Authorised?
    ensures i > 0 && log[i - 1].Armed? && log[i - 1].command == log[i].armed
    decreases |log|
  {
    if i < |log| - 1 { ConsumedAt(Init(log), i); }
  }

  predicate Agrees(e: Event) { e.Authorised? ==> Matches(e.armed, e.request) }

  predicate AllAgree(log: seq<Event>) { forall i :: 0 <= i < |log| ==> Agrees(log[i]) }

  lemma StepAgrees(site: Site, m: Machine, input: Input)
    requires AllAgree(m.log)
    ensures AllAgree(Step(site, m, input).log)
  {
    var after := Step(site, m, input).log;
    assert forall i :: 0 <= i < |m.log| ==> after[i] == m.log[i];
    assert forall i :: |m.log| <= i < |after| ==> Agrees(after[i]);
  }

  lemma {:induction false} AgreeOverRuns(site: Site, inputs: seq<Input>)
    ensures AllAgree(Run(site, inputs).log)
  {
    if inputs != [] {
      AgreeOverRuns(site, inputs[..|inputs| - 1]);
      StepAgrees(site, Run(site, inputs[..|inputs| - 1]), inputs[|inputs| - 1]);
    }
  }

  /**
   In every run each authorised identity command comes right after the arm it consumes,
   with nothing confirmed, rotated or restarted between them, and carries that arm's
   request id and fields. No two commands can share an arm.
   */
  lemma AuthorisedConsumesArm(site: Site, inputs: seq<Input>, i: nat)
    requires i < |Run(site, inputs).log| && Run(site, inputs).log[i].Authorised?
    ensures i > 0 && Run(site, inputs).log[i - 1].Armed?
    ensures var armed, request := Run(site, inputs).log[i - 1].command, Run(site, inputs).log[i].request;
            && armed.requestId == request.requestId && LengthsFit(armed.fields)
            && request.vin == armed.fields.vin[..armed.fields.vinLen as int]
            && request.calibrationId == armed.fields.calibrationId[..armed.fields.calibrationIdLen as int]
            && request.board == armed.fields.board[..armed.fields.boardLen as int]
  {
    MatchesExactly(Run(site, inputs).log[i].armed, Run(site, inputs).log[i].request);
    PendingInvOverRuns(site, inputs);
    ConsumedAt(Run(site, inputs).log, i);
    AgreeOverRuns(site, inputs);
    assert Agrees(Run(site, inputs).log[i]);
  }
}
