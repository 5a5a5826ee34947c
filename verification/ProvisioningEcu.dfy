/**
 The provisioning handlers as they run: an operator in memory and a store in flash. Every
 handler, with whatever the flash does to it, is one step of the protocol's state machine,
 so every law proved of all runs is a law of this object.
 */
module ProvisioningEcu {
  import opened Words
  import opened Records
  import opened StoreViews
  import opened KvOps
  import opened KvStore
  import opened Provisioning
  import opened ProvisioningSteps
  import Runs = ProvisioningRuns
  import Identity
  import FlashStore
  import Diagnostics

  function SlotsOf(held: Held): KeySlots { KeySlots(Base(held).key, Base(held).keyAudit) }

  // ---------------------------------------------------------------- what the store does to the slots

  predicate ResultFor(result: KvResult, outcome: Outcome)
  {
    match outcome case Done => result == Ok case Failed => result == Err case Lost => result == PowerLost
  }

  lemma NonceWrite(held: Held, key: Key, nonce: U32, ending: Ending)
    requires ending.Possible() && WellHeld(held)
    ensures Base(Apply(held, KvOp.WriteArmNonce(key, nonce), ending).held).identity == Base(held).identity
    ensures var end := Apply(held, KvOp.WriteArmNonce(key, nonce), ending);
            match NonceRecord(SlotsOf(held).key, key, nonce)
            case None => end.held == held && end.result == Err
            case Some(record) =>
              SlotsOf(end.held) == PutKey(SlotsOf(held), record, ending.landed) && ResultFor(end.result, ending.outcome)
  {}

  lemma BothWrite(held: Held, audit: KeyAudit, key: Option<KeyRecord>, ending: Ending)
    requires ending.Possible() && WellHeld(held)
    ensures var end := Apply(held, KvOp.WriteKeyAuditWithKey(audit, key), ending);
            && SlotsOf(end.held) == PutBoth(SlotsOf(held), key, audit, ending.landed)
            && Base(end.held).identity == Base(held).identity && ResultFor(end.result, ending.outcome)
  {}

  lemma IdentityWrite(held: Held, record: IdentityRecord, ending: Ending)
    requires ending.Possible() && LengthsInRange(record)
    ensures var end := Apply(held, KvOp.WriteIdentity(record), ending);
            && SlotsOf(end.held) == SlotsOf(held) && ResultFor(end.result, ending.outcome)
            && Base(end.held).identity == if ending.landed then Some(record) else Base(held).identity
  {}

  lemma AuditWrite(held: Held, audit: CommandAudit, ending: Ending)
    requires ending.Possible() && WellHeld(held)
    ensures var end := Apply(held, KvOp.WriteCommandAudit(audit), ending);
            && SlotsOf(end.held) == SlotsOf(held) && Base(end.held).identity == Base(held).identity
            && (end.result == PowerLost <==> ending.outcome.Lost?)
            && (ending.outcome.Done? && Records.Encodable(audit) ==> end.result == Ok)
  {}

  /** Pages and retained history share the sector with key and identity, and leave them alone. */
  lemma OtherWrite(held: Held, op: KvOp, ending: Ending)
    requires (op.WritePage? || op.SaveSnapshot?) && WellHeld(held)
    ensures SlotsOf(Apply(held, op, ending).held) == SlotsOf(held)
    ensures Base(Apply(held, op, ending).held).identity == Base(held).identity
  {}

  // ---------------------------------------------------------------- the handlers

  /** A message is answered, left unanswered, or cut off by a power loss that ends in a restart. */
  datatype Reply<T> = Sent(value: T) | Silent | PowerFailed

  function LengthsOf(r: IdentityRecord): Lengths { Lengths(r.vinLen, r.calibrationIdLen, r.boardLen) }

  /** The status of an authorised command, given how its record write ended. */
  function StatusOf(parsed: Identity.Parsed, stored: bool): ProvisioningStatus
  {
    match parsed
    case Accepted(r) => ProvisioningStatus(true, stored, None, !stored, Some(LengthsOf(r)))
    case TooLong(field) => ProvisioningStatus(true, false, Some(field), false, None)
    case Empty(field) => ProvisioningStatus(true, false, Some(field), false, None)
  }

  /** The status says what became of the fields: stored or not, or which field was refused. */
  lemma StatusExactly(vin: seq<Byte>, calibrationId: seq<Byte>, board: seq<Byte>, stored: bool)
    ensures var status := StatusOf(Identity.ParseFields(vin, calibrationId, board), stored);
            if Identity.Acceptable(vin, 17) && Identity.Acceptable(calibrationId, 17) && Identity.Acceptable(board, 6) then
              && status.attempted && status.accepted == stored && status.storeFailed == !stored && status.rejectedField == None
              && status.lengths == Some(Lengths(Identity.Count(Identity.Normalized(vin)),
                                                Identity.Count(Identity.Normalized(calibrationId)),
                                                Identity.Count(Identity.Normalized(board))))
            else
              && status.attempted && !status.accepted && !status.storeFailed && status.lengths == None
              && status.rejectedField == Some(
                   if |vin| > 17 then Vin else if |calibrationId| > 17 then CalibrationId
                   else if |board| > 6 then BoardBuildIdentity
                   else if Identity.Normalized(vin) == [] then Vin
                   else if Identity.Normalized(calibrationId) == [] then CalibrationId else BoardBuildIdentity)
  {
    Identity.RefusalNamesField(vin, calibrationId, board);
    Identity.ParseIsExact(vin, calibrationId, board);
  }

  function ParseCommand(command: IdentityCommand): Identity.Parsed
  {
    Identity.ParseFields(command.vin, command.calibrationId, command.board)
  }

  // ---------------------------------------------------------------- answers to key commands

  function RefusalReply(audit: KeyAudit, refusal: Ending): Reply<KeyAudit>
  {
    if refusal.outcome.Lost? then PowerFailed else Sent(audit)
  }

  function KeyReply(verdict: Verdict, msg: KeyMessage, write: Ending, refusal: Ending): Reply<KeyAudit>
  {
    if !verdict.Proceed? then RefusalReply(RefusedAudit(msg, verdict), refusal)
    else match write.outcome
      case Done => Sent(AcceptedAudit(msg))
      case Failed => RefusalReply(RefusedAudit(msg, verdict), refusal)
      case Lost => PowerFailed
  }

  /**
   The answer to a key command: unauthorised for reason 1 without a valid tag, refused for
   reason 2 if it is not newer than the stored record, and otherwise accepted exactly when
   its write is done.
   */
  predicate KeyAnswered(
    site: Site, m: Machine, msg: KeyMessage, write: Ending, refusal: Ending, reply: Reply<KeyAudit>)
  {
    if Vouched(site, m.op, msg) && Newer(m.slots.key, msg) && !write.outcome.Failed? then
      reply == if write.outcome.Done? then Sent(KeyAudit(msg.requestId, true, true, false, 0, msg.generation)) else PowerFailed
    else if refusal.outcome.Lost? then reply == PowerFailed
    else reply == Sent(
      if !Vouched(site, m.op, msg) then KeyAudit(msg.requestId, false, false, false, 1, msg.generation)
      else if !Newer(m.slots.key, msg) then KeyAudit(msg.requestId, true, false, false, 2, msg.generation)
      else KeyAudit(msg.requestId, true, false, true, 3, msg.generation))
  }

  lemma KeyReplyExactly(site: Site, m: Machine, msg: KeyMessage, write: Ending, refusal: Ending)
    ensures KeyAnswered(site, m, msg, write, refusal, KeyReply(Judge(site, m, msg), msg, write, refusal))
    ensures Judge(site, m, msg).Proceed? <==> Vouched(site, m.op, msg) && Newer(m.slots.key, msg)
  {}

  // ---------------------------------------------------------------- answers to identity commands

  predicate SaysAccepted(reply: Reply<CommandAudit>)
  {
    reply.Sent? && reply.value.status.Some? && reply.value.status.value.accepted
  }

  /** The stored identity is the record of this command. */
  predicate Stores(held: Held, command: IdentityCommand)
  {
    ParseCommand(command).Accepted? && Base(held).identity == Some(ParseCommand(command).record)
  }

  predicate AcceptableFields(f: Fields)
    requires LengthsFit(f)
  {
    && Identity.Acceptable(f.vin[..f.vinLen as int], 17)
    && Identity.Acceptable(f.calibrationId[..f.calibrationIdLen as int], 17)
    && Identity.Acceptable(f.board[..f.boardLen as int], 6)
  }

  /** The stored identity holds the normal forms of these fields. */
  predicate StoresFields(held: Held, f: Fields)
    requires LengthsFit(f)
  {
    && Base(held).identity.Some?
    && var r := Base(held).identity.value;
       && Identity.HoldsField(r.vin, r.vinLen, f.vin[..f.vinLen as int])
       && Identity.HoldsField(r.calibrationId, r.calibrationIdLen, f.calibrationId[..f.calibrationIdLen as int])
       && Identity.HoldsField(r.board, r.boardLen, f.board[..f.boardLen as int])
  }

  lemma StoresExactly(held: Held, msg: IdentityMessage)
    requires LengthsFit(msg.fields)
    ensures CommandOf(msg).Some? && (ParseCommand(CommandOf(msg).value).Accepted? <==> AcceptableFields(msg.fields))
    ensures Stores(held, CommandOf(msg).value) ==> StoresFields(held, msg.fields)
  {
    CommandExactly(msg);
    var c := CommandOf(msg).value;
    Identity.ParseIsExact(c.vin, c.calibrationId, c.board);
  }

  /** What is answered to an authorised command: its request id, and the status of its fields. */
  predicate AuthorisedAudit(audit: CommandAudit, command: IdentityCommand)
  {
    && audit.requestId == command.requestId && audit.authorized && !audit.authorizationFailed && audit.status.Some?
    && audit.status.value == StatusOf(ParseCommand(command), audit.status.value.accepted)
  }

  /** The stored identity changes only to the record of an authorised command, and every answer is the stored audit. */
  predicate CommandAnswered(
    authorised: bool, command: IdentityCommand, before: Option<IdentityRecord>, held: Held, reply: Reply<CommandAudit>)
  {
    && (Base(held).identity != before ==> authorised && Stores(held, command))
    && (reply.Sent? ==>
          && Base(held).audit == Some(reply.value)
          && if authorised then AuthorisedAudit(reply.value, command)
             else reply.value == CommandAudit(command.requestId, false, true, None))
    && (SaysAccepted(reply) ==> Stores(held, command))
  }

  /** There is an answer, and an authorised command is accepted exactly if its fields are. */
  predicate Served(authorised: bool, command: IdentityCommand, reply: Reply<CommandAudit>)
  {
    reply.Sent? && (authorised ==> (SaysAccepted(reply) <==> ParseCommand(command).Accepted?))
  }

  class Ecu {
    const site: Site
    const kv: FlashKv
    const builtIn: IdentityRecord
    var op: Operator
    /** The identity record installed for reporting, at boot. */
    var installed: IdentityRecord
    ghost var log: seq<Event>
    ghost var history: seq<Input>
    /** The command last answered as accepted, if no command was authorised since. */
    ghost var provisioned: Option<IdentityCommand>
    /** The record the last boot found stored, and whether there was a boot since `provisioned` was last set. */
    ghost var found: Option<IdentityRecord>
    ghost var restarted: bool

    /** The state the protocol is about. */
    ghost function Now(): Machine
      reads this, kv
    {
      Machine(op, SlotsOf(kv.held), log)
    }

    /** This object is where the protocol's machine would be after its history of inputs. */
    ghost predicate Valid()
      reads this, kv, kv.dev.bankA, kv.dev.bankB
    {
      kv.Valid() && AllPossible(history) && Now() == Run(site, history) && Remembers()
    }

    ghost predicate Remembers()
      reads this, kv
    {
      && installed == Identity.Installable(found, builtIn)
      && (provisioned.Some? ==> Stores(kv.held, provisioned.value))
      && (provisioned.Some? && restarted ==> found == Base(kv.held).identity)
    }

    /** No step of the flash part was interrupted since this moment. */
    ghost predicate Faultless(from: nat)
      reads kv.dev`clock
    {
      FlashStore.Uninterrupted(kv.dev.react, from, kv.dev.clock)
    }

    /** The state right after a boot on what is stored now. */
    ghost predicate JustBooted()
      reads this, kv
    {
      restarted && found == Base(kv.held).identity && installed == Identity.Installable(found, builtIn)
    }

    /**
     From an accepted answer until another command is authorised, the unit reports the
     accepted fields if and only if it has booted since, or the boot before had already
     found that very record, or had it built in.
     */
    lemma ReportsProvisioned()
      requires Valid() && provisioned.Some?
      ensures var command := provisioned.value;
              Identity.AlwaysReports(installed, command.vin, command.calibrationId, command.board) <==>
              restarted || Identity.Installable(found, builtIn) == ParseCommand(command).record
    {
      var command := provisioned.value;
      Identity.AcceptedInRange(command.vin, command.calibrationId, command.board);
      Identity.ReportedIffInstalled(
        installed, ParseCommand(command).record, command.vin, command.calibrationId, command.board);
    }

    /** What a query is answered with: the installed record over the identity of the calibration. */
    method Report(base: Identity.VehicleIdentity) returns (v: Identity.VehicleIdentity)
      requires Valid()
      ensures v == Identity.WithProvisioned(base, Identity.Installable(found, builtIn))
    {
      v := Identity.WithProvisioned(base, installed);
    }

    /** Whatever has been called so far, with whatever faults, this object obeys the laws of all runs. */
    lemma ObeysTheLaws()
      requires Valid()
      ensures Runs.GenerationInv(Now()) && Runs.RevocationInv(Now()) && Runs.NonceInv(Now()) && Runs.PendingInv(Now())
    {
      Runs.GenerationInvOverRuns(site, history);
      Runs.RevocationInvOverRuns(site, history);
      Runs.NonceInvOverRuns(site, history);
      Runs.PendingInvOverRuns(site, history);
    }

    /** A unit with factory-fresh flash. */
    constructor (site: Site, builtIn: IdentityRecord, react: FlashStore.Reactions)
      ensures Valid() && history == [] && log == [] && kv.held == None && provisioned == None && found == None
      ensures fresh(kv) && fresh(kv.dev) && fresh(kv.dev.bankA) && fresh(kv.dev.bankB)
    {
      this.site := site;
      var kv := new FlashKv(react);
      this.kv := kv;
      op := Boot(site, EMPTY_SLOTS);
      this.builtIn := builtIn;
      installed := Identity.Installable(None, builtIn);
      log, history, provisioned := [], [], None;
      found, restarted := None, false;
    }

    ghost method Record(input: Input)
      requires kv.Valid() && AllPossible(history) && input.Possible() && Remembers()
      requires Now() == Step(site, Run(site, history), input)
      modifies this`history
      ensures Valid() && history == old(history) + [input]
    {
      history := history + [input];
      assert history[..|history| - 1] == old(history);
    }

    /** The operator is rebuilt from the stored key record, and the stored identity is installed. */
    method Reload()
      requires kv.Valid()
      modifies this`op, this`log, this`installed, this`found, this`restarted
      ensures Now() == Rebooted(site, old(Now())) && JustBooted()
    {
      var identity := kv.LoadIdentity();
      installed := Identity.Installable(identity, builtIn);
      found, restarted := identity, true;
      var record := kv.LoadKey();
      op := match record
        case Some(r) => Operator(None, r.ActiveKey(), Some(r.lastArmNonce))
        case None => Operator(None, site.builtInKey, None);
      log := log + [Booted];
    }

    method Restart()
      requires Valid()
      modifies this`op, this`log, this`installed, this`found, this`restarted, this`history
      ensures Valid() && history == old(history) + [PowerCycle] && JustBooted()
      ensures BootedFrom(site, Base(kv.held).key, op)
    {
      Reload();
      Record(PowerCycle);
    }

    method StoreArm(msg: ArmMessage) returns (reply: Reply<bool>, ghost ending: Ending)
      requires kv.Valid()
      modifies this`op, this`log, this`installed, this`found, this`restarted
      modifies kv`held, kv.dev`clock, kv.dev.bankA, kv.dev.bankB
      ensures kv.Valid() && ending.Possible()
      ensures Now() == ArmStep(site, old(Now()), msg, ending)
      ensures if reply.PowerFailed? then JustBooted() else installed == old(installed) && found == old(found) && restarted == old(restarted)
      ensures Base(kv.held).identity == old(Base(kv.held).identity)
      ensures reply == Sent(true) <==> |log| > |old(log)| && log[|old(log)|].Armed?
      ensures reply == PowerFailed <==> log == old(log) + [Booted]
      ensures reply != Silent
      ensures ValidArm(site, old(Now()), msg) && Faultless(old(kv.dev.clock)) ==> ending.outcome.Done?
    {
      var previous := op;
      if !ArmAccepts(site, op, msg) { return Sent(false), Ending(Failed, false); }
      op := Operator(Some(ArmedCommand(msg.requestId, msg.fields)), op.key, Some(msg.nonce));
      var result;
      ghost var was := kv.held;
      kv.HeldIsRepresentable();
      result, ending := kv.WriteArmNonce(op.key.value, msg.nonce);
      NonceWrite(was, op.key.value, msg.nonce, ending);
      if NonceRecord(SlotsOf(was).key, op.key.value, msg.nonce).Some? && Faultless(old(kv.dev.clock)) {
        FaultlessIsDone(was, KvOp.WriteArmNonce(op.key.value, msg.nonce), kv.dev.react, old(kv.dev.clock), kv.dev.clock,
                        ending.outcome);
      }
      match result {
        case Ok =>
          ghost var record := NonceRecord(SlotsOf(was).key, op.key.value, msg.nonce).value;
          log := log + [Armed(record.generation, msg.nonce, op.armed.value)];
          reply := Sent(true);
        case Err =>
          op := previous;
          reply := Sent(false);
        case PowerLost =>
          Reload();
          reply := PowerFailed;
      }
    }

    /** An arm is confirmed only once its nonce is in the store. */
    method HandleArm(msg: ArmMessage) returns (reply: Reply<bool>, ghost ending: Ending)
      requires Valid()
      modifies this`op, this`log, this`installed, this`found, this`restarted, this`history
      modifies kv`held, kv.dev`clock, kv.dev.bankA, kv.dev.bankB
      ensures Valid() && history == old(history) + [Arm(msg, ending)]
      ensures if reply.PowerFailed? then JustBooted() else installed == old(installed) && found == old(found) && restarted == old(restarted)
      ensures Base(kv.held).identity == old(Base(kv.held).identity)
      ensures reply == Sent(true) <==> |log| > |old(log)| && log[|old(log)|].Armed?
      ensures reply == PowerFailed <==> log == old(log) + [Booted]
      ensures reply != Silent
      ensures reply == Sent(true) <==> ValidArm(site, old(Now()), msg) && ending.outcome.Done?
      ensures ValidArm(site, old(Now()), msg) && Faultless(old(kv.dev.clock)) ==> ending.outcome.Done?
    {
      ghost var before := Now();
      reply, ending := StoreArm(msg);
      ArmExactly(site, before, msg, ending);
      Record(Arm(msg, ending));
    }

    /** Writes a refusal beside the key record found at the start; only a power loss is noticed. */
    method StoreRefusal(previous: Option<KeyRecord>, audit: KeyAudit) returns (reply: Reply<KeyAudit>, ghost ending: Ending)
      requires kv.Valid()
      modifies this`op, this`log, this`installed, this`found, this`restarted
      modifies kv`held, kv.dev`clock, kv.dev.bankA, kv.dev.bankB
      ensures kv.Valid() && ending.Possible()
      ensures Now() == Refuse(site, old(Now()), previous, audit, ending)
      ensures if reply.PowerFailed? then JustBooted() else installed == old(installed) && found == old(found) && restarted == old(restarted)
      ensures Base(kv.held).identity == old(Base(kv.held).identity)
      ensures reply == RefusalReply(audit, ending)
      ensures old(kv.dev.clock) <= kv.dev.clock && (Faultless(old(kv.dev.clock)) ==> ending.outcome.Done?)
    {
      var result;
      ghost var was := kv.held;
      kv.HeldIsRepresentable();
      result, ending := kv.WriteKeyAuditWithKey(audit, previous);
      BothWrite(was, audit, previous, ending);
      if Faultless(old(kv.dev.clock)) {
        FaultlessIsDone(was, KvOp.WriteKeyAuditWithKey(audit, previous), kv.dev.react, old(kv.dev.clock), kv.dev.clock,
                        ending.outcome);
      }
      if result.PowerLost? {
        Reload();
        reply := PowerFailed;
      } else {
        reply := Sent(audit);
      }
    }

    method StoreKey(msg: KeyMessage) returns (reply: Reply<KeyAudit>, ghost write: Ending, ghost refusal: Ending)
      requires kv.Valid()
      modifies this`op, this`log, this`installed, this`found, this`restarted
      modifies kv`held, kv.dev`clock, kv.dev.bankA, kv.dev.bankB
      ensures kv.Valid() && write.Possible() && refusal.Possible()
      ensures Now() == KeyStep(site, old(Now()), msg, write, refusal)
      ensures if reply.PowerFailed? then JustBooted() else installed == old(installed) && found == old(found) && restarted == old(restarted)
      ensures Base(kv.held).identity == old(Base(kv.held).identity)
      ensures reply == KeyReply(Judge(site, old(Now()), msg), msg, write, refusal)
      ensures Faultless(old(kv.dev.clock)) ==>
                if Judge(site, old(Now()), msg).Proceed? then write.outcome.Done? else refusal.outcome.Done?
    {
      write, refusal := Ending(Failed, false), Ending(Failed, false);
      ghost var before := Now();
      var previous := kv.LoadKey();
      var verdict :=
        if op.key.None? then Unauthorised
        else if !site.keyTagOk(op.key.value, msg) then Unauthorised
        else if Value(msg.generation) <= GenerationOf(previous) then Rollback
        else Proceed;
      assert verdict == Judge(site, before, msg);
      if !verdict.Proceed? {
        reply, refusal := StoreRefusal(previous, RefusedAudit(msg, verdict));
        return;
      }
      var result;
      ghost var was := kv.held;
      kv.HeldIsRepresentable();
      result, write := kv.WriteKeyAuditWithKey(AcceptedAudit(msg), Some(NewKeyRecord(msg)));
      BothWrite(was, AcceptedAudit(msg), Some(NewKeyRecord(msg)), write);
      if Faultless(old(kv.dev.clock)) {
        FaultlessIsDone(was, KvOp.WriteKeyAuditWithKey(AcceptedAudit(msg), Some(NewKeyRecord(msg))), kv.dev.react,
                        old(kv.dev.clock), kv.dev.clock, write.outcome);
      }
      match result {
        case Ok =>
          op := Operator(None, if msg.revoke then None else Some(msg.key), None);
          log := log + [Accepted(msg.generation, msg.revoke)];
          reply := Sent(AcceptedAudit(msg));
        case Err =>
          reply, refusal := StoreRefusal(previous, RefusedAudit(msg, verdict));
        case PowerLost =>
          Reload();
          reply := PowerFailed;
      }
    }

    /** A rotation or revocation is accepted only once record and audit are in the store together. */
    method HandleKey(msg: KeyMessage) returns (reply: Reply<KeyAudit>, ghost write: Ending, ghost refusal: Ending)
      requires Valid()
      modifies this`op, this`log, this`installed, this`found, this`restarted, this`history
      modifies kv`held, kv.dev`clock, kv.dev.bankA, kv.dev.bankB
      ensures Valid() && history == old(history) + [KeyCommand(msg, write, refusal)]
      ensures if reply.PowerFailed? then JustBooted() else installed == old(installed) && found == old(found) && restarted == old(restarted)
      ensures Base(kv.held).identity == old(Base(kv.held).identity)
      ensures KeyAnswered(site, old(Now()), msg, write, refusal, reply)
      ensures reply == Sent(AcceptedAudit(msg)) <==> |log| > |old(log)| && log[|old(log)|].Accepted?
      ensures Faultless(old(kv.dev.clock)) ==>
                if Vouched(site, old(op), msg) && Newer(old(Base(kv.held).key), msg)
                then write.outcome.Done? else refusal.outcome.Done?
      ensures Vouched(site, old(op), msg) && Newer(old(Base(kv.held).key), msg) && write.outcome.Done? ==>
                && op == Operator(None, if msg.revoke then None else Some(msg.key), None)
                && Base(kv.held).key == Some(KeyRecord(msg.key, msg.generation, 0, msg.revoke))
                && Base(kv.held).keyAudit == Some(KeyAudit(msg.requestId, true, true, false, 0, msg.generation))
    {
      ghost var before := Now();
      reply, write, refusal := StoreKey(msg);
      KeyReplyExactly(site, before, msg, write, refusal);
      if Vouched(site, before.op, msg) && Newer(before.slots.key, msg) {
        KeyProceedsExactly(site, before, msg, write, refusal);
      }
      Record(KeyCommand(msg, write, refusal));
    }

    /** Stores the record of an authorised command, if its fields are acceptable. */
    method StoreRecord(command: IdentityCommand) returns (status: Reply<ProvisioningStatus>)
      requires kv.Valid()
      modifies kv`held, kv.dev`clock, kv.dev.bankA, kv.dev.bankB
      ensures kv.Valid() && SlotsOf(kv.held) == old(SlotsOf(kv.held))
      ensures status != Silent
      ensures !ParseCommand(command).Accepted? ==> status == Sent(StatusOf(ParseCommand(command), false)) && kv.held == old(kv.held)
      ensures ParseCommand(command).Accepted? ==>
                Base(kv.held).identity in {old(Base(kv.held).identity), Some(ParseCommand(command).record)}
      ensures status.Sent? ==> status.value == StatusOf(ParseCommand(command), status.value.accepted)
      ensures status.Sent? && status.value.accepted ==>
                ParseCommand(command).Accepted? && Base(kv.held).identity == Some(ParseCommand(command).record)
      ensures old(kv.dev.clock) <= kv.dev.clock
      ensures Faultless(old(kv.dev.clock)) ==> status == Sent(StatusOf(ParseCommand(command), ParseCommand(command).Accepted?))
      ensures status.Sent? ==> Records.Encodable(CommandAudit(command.requestId, true, false, Some(status.value)))
    {
      var parsed := ParseCommand(command);
      if !parsed.Accepted? { return Sent(StatusOf(parsed, false)); }
      Identity.AcceptedInRange(command.vin, command.calibrationId, command.board);
      kv.HeldIsRepresentable();
      ghost var was := kv.held;
      var result, ending := kv.WriteIdentity(parsed.record);
      IdentityWrite(was, parsed.record, ending);
      if Faultless(old(kv.dev.clock)) {
        FaultlessIsDone(was, KvOp.WriteIdentity(parsed.record), kv.dev.react, old(kv.dev.clock), kv.dev.clock, ending.outcome);
      }
      match result {
        case Ok => status := Sent(StatusOf(parsed, true));
        case Err => status := Sent(StatusOf(parsed, false));
        case PowerLost => status := PowerFailed;
      }
    }

    /** Persists the audit of a command; a command whose audit cannot be written is not answered. */
    method StoreAudit(audit: CommandAudit) returns (reply: Reply<CommandAudit>)
      requires kv.Valid()
      modifies kv`held, kv.dev`clock, kv.dev.bankA, kv.dev.bankB
      ensures kv.Valid() && SlotsOf(kv.held) == old(SlotsOf(kv.held))
      ensures Base(kv.held).identity == old(Base(kv.held).identity)
      ensures reply.Sent? ==> reply.value == audit && Base(kv.held).audit == Some(audit)
      ensures old(kv.dev.clock) <= kv.dev.clock
      ensures Faultless(old(kv.dev.clock)) && Records.Encodable(audit) ==> reply.Sent?
    {
      kv.HeldIsRepresentable();
      ghost var was := kv.held;
      var result, ending := kv.WriteCommandAudit(audit);
      AuditWrite(was, audit, ending);
      if Faultless(old(kv.dev.clock)) {
        FaultlessIsDone(was, KvOp.WriteCommandAudit(audit), kv.dev.react, old(kv.dev.clock), kv.dev.clock, ending.outcome);
      }
      match result {
        case Ok => reply := Sent(audit);
        case Err => reply := Silent;
        case PowerLost => reply := PowerFailed;
      }
    }

    /** Stores the record of an authorised command and then its audit. */
    method StoreBoth(command: IdentityCommand) returns (reply: Reply<CommandAudit>)
      requires kv.Valid()
      modifies kv`held, kv.dev`clock, kv.dev.bankA, kv.dev.bankB
      ensures kv.Valid() && SlotsOf(kv.held) == old(SlotsOf(kv.held))
      ensures CommandAnswered(true, command, old(Base(kv.held).identity), kv.held, reply)
      ensures Faultless(old(kv.dev.clock)) ==> Served(true, command, reply)
    {
      var status := StoreRecord(command);
      if status.PowerFailed? { return PowerFailed; }
      reply := StoreAudit(CommandAudit(command.requestId, true, false, Some(status.value)));
    }

    method RunCommand(command: IdentityCommand) returns (reply: Reply<CommandAudit>)
      requires kv.Valid()
      modifies this`op, this`log, this`installed, this`found, this`restarted
      modifies kv`held, kv.dev`clock, kv.dev.bankA, kv.dev.bankB
      ensures kv.Valid()
      ensures Now() == IdentityStep(site, old(Now()), command, reply.PowerFailed?)
      ensures if reply.PowerFailed? then JustBooted() else installed == old(installed) && found == old(found) && restarted == old(restarted)
      ensures CommandAnswered(Authorises(old(op), command), command, old(Base(kv.held).identity), kv.held, reply)
      ensures Faultless(old(kv.dev.clock)) ==> Served(Authorises(old(op), command), command, reply)
    {
      if !(op.armed.Some? && Matches(op.armed.value, command)) {
        reply := StoreAudit(CommandAudit(command.requestId, false, true, None));
      } else {
        log := log + [Authorised(op.armed.value, command)];
        op := op.(armed := None);
        reply := StoreBoth(command);
      }
      if reply.PowerFailed? { Reload(); }
    }

    /** One identity step, with what is remembered of it. */
    method CarryOut(command: IdentityCommand) returns (reply: Reply<CommandAudit>)
      requires Valid()
      modifies this`op, this`log, this`installed, this`found, this`restarted, this`history, this`provisioned
      modifies kv`held, kv.dev`clock, kv.dev.bankA, kv.dev.bankB
      ensures Valid() && history == old(history) + [Input.Identity(command, reply.PowerFailed?)]
      ensures CommandAnswered(Authorises(old(op), command), command, old(Base(kv.held).identity), kv.held, reply)
      ensures SaysAccepted(reply) ==> provisioned == Some(command) && !restarted
      ensures if reply.PowerFailed? then JustBooted() else installed == old(installed) && found == old(found)
      ensures !reply.PowerFailed? && !SaysAccepted(reply) ==> restarted == old(restarted)
      ensures !Authorises(old(op), command) ==> provisioned == old(provisioned)
      ensures Faultless(old(kv.dev.clock)) ==> Served(Authorises(old(op), command), command, reply)
    {
      ghost var authorised := Authorises(op, command);
      reply := RunCommand(command);
      if authorised {
        provisioned := if SaysAccepted(reply) then Some(command) else None;
        restarted := restarted && !SaysAccepted(reply);
      }
      Record(Input.Identity(command, reply.PowerFailed?));
    }

    /**
     An identity message whose lengths lie inside its buffers is carried out if and only if
     it is the armed one. The stored identity changes to nothing but the record of an
     authorised command, an answer that says accepted means that its fields are stored,
     and every answer is the audit that is stored. Without faults there is an answer, and
     it says accepted exactly if the command was armed and its fields are acceptable.
     */
    method HandleIdentity(msg: IdentityMessage) returns (reply: Reply<CommandAudit>)
      requires Valid()
      modifies this`op, this`log, this`installed, this`found, this`restarted, this`history, this`provisioned
      modifies kv`held, kv.dev`clock, kv.dev.bankA, kv.dev.bankB
      ensures Valid()
      ensures !LengthsFit(msg.fields) ==> reply == Silent && history == old(history) && kv.held == old(kv.held)
      ensures LengthsFit(msg.fields) ==>
                CommandOf(msg).Some? && history == old(history) + [Input.Identity(CommandOf(msg).value, reply.PowerFailed?)]
      ensures Base(kv.held).identity != old(Base(kv.held).identity) ==>
                LengthsFit(msg.fields) && ArmedFor(old(op), msg) && StoresFields(kv.held, msg.fields)
      ensures reply.Sent? ==> LengthsFit(msg.fields) && Base(kv.held).audit == Some(reply.value)
      ensures reply.Sent? && ArmedFor(old(op), msg) ==>
                CommandOf(msg).Some? && AuthorisedAudit(reply.value, CommandOf(msg).value)
      ensures reply.Sent? && !ArmedFor(old(op), msg) ==> reply.value == CommandAudit(msg.requestId, false, true, None)
      ensures SaysAccepted(reply) ==>
                StoresFields(kv.held, msg.fields) && CommandOf(msg).Some? && provisioned == CommandOf(msg) && !restarted
      ensures if reply.PowerFailed? then JustBooted() else installed == old(installed) && found == old(found)
      ensures !reply.PowerFailed? && !SaysAccepted(reply) ==> restarted == old(restarted)
      ensures !LengthsFit(msg.fields) || !ArmedFor(old(op), msg) ==> provisioned == old(provisioned)
      ensures LengthsFit(msg.fields) && Faultless(old(kv.dev.clock)) ==>
                reply.Sent? && (ArmedFor(old(op), msg) ==> (SaysAccepted(reply) <==> AcceptableFields(msg.fields)))
    {
      var command := CommandOf(msg);
      CommandExactly(msg);
      if command.None? { return Silent; }
      AuthorisedExactly(op, msg);
      reply := CarryOut(command.value);
      StoresExactly(kv.held, msg);
    }

    method AfterOtherWrite(result: KvResult)
      requires Valid()
      modifies this`op, this`log, this`installed, this`found, this`restarted, this`history
      ensures Valid() && history == if result.PowerLost? then old(history) + [PowerCycle] else old(history)
      ensures if result.PowerLost? then JustBooted() else installed == old(installed) && found == old(found) && restarted == old(restarted)
    {
      if result.PowerLost? { Restart(); }
    }

    /** Tuning pages are written between messages; only a power loss touches the protocol. */
    method SavePage(key: string, data: seq<Byte>) returns (result: KvResult, ghost ending: Ending)
      requires Valid()
      modifies this`op, this`log, this`installed, this`found, this`restarted, this`history
      modifies kv`held, kv.dev`clock, kv.dev.bankA, kv.dev.bankB
      ensures Valid() && history == if result.PowerLost? then old(history) + [PowerCycle] else old(history)
      ensures if result.PowerLost? then JustBooted() else installed == old(installed) && found == old(found) && restarted == old(restarted)
      ensures ending.Possible() && Applied(kv.held, result) == Apply(old(kv.held), KvOp.WritePage(key, data), ending)
      ensures FollowsPart(Prepare(old(kv.held), KvOp.WritePage(key, data)), kv.dev.react, old(kv.dev.clock), kv.dev.clock, ending.outcome)
      ensures Base(kv.held).identity == old(Base(kv.held).identity)
    {
      kv.HeldIsRepresentable();
      ghost var was := kv.held;
      result, ending := kv.WritePage(key, data);
      OtherWrite(was, KvOp.WritePage(key, data), ending);
      AfterOtherWrite(result);
    }

    /** So is the retained history. */
    method SaveHistory(snapshot: Diagnostics.Snapshot) returns (result: KvResult, ghost ending: Ending)
      requires Valid()
      modifies this`op, this`log, this`installed, this`found, this`restarted, this`history
      modifies kv`held, kv.dev`clock, kv.dev.bankA, kv.dev.bankB
      ensures Valid() && history == if result.PowerLost? then old(history) + [PowerCycle] else old(history)
      ensures if result.PowerLost? then JustBooted() else installed == old(installed) && found == old(found) && restarted == old(restarted)
      ensures ending.Possible() && Applied(kv.held, result) == Apply(old(kv.held), KvOp.SaveSnapshot(snapshot), ending)
      ensures FollowsPart(Prepare(old(kv.held), KvOp.SaveSnapshot(snapshot)), kv.dev.react, old(kv.dev.clock), kv.dev.clock, ending.outcome)
      ensures Base(kv.held).identity == old(Base(kv.held).identity)
    {
      kv.HeldIsRepresentable();
      ghost var was := kv.held;
      result, ending := kv.SaveSnapshot(snapshot);
      OtherWrite(was, KvOp.SaveSnapshot(snapshot), ending);
      AfterOtherWrite(result);
    }
  }
}
