/**
 What each provisioning message does, said of the bytes and records themselves: when an
 arm is confirmed, which key commands are refused and why, which identity command is the
 armed one, and that every confirmation of a run goes back to a message that was
 authenticated under the key of the moment.
 */
module ProvisioningSteps {
  import opened Words
  import opened Records
  import opened KvOps
  import opened Provisioning

  // ---------------------------------------------------------------- restarts

  /** A boot: no arm, and the key and nonce of the stored record, none if it is revoked; without a record the built-in key. */
  predicate BootedFrom(site: Site, stored: Option<KeyRecord>, op: Operator)
  {
    && op.armed.None?
    && op.key == (if stored.None? then site.builtInKey else if stored.value.revoked then None else Some(stored.value.key))
    && op.lastNonce == if stored.None? then None else Some(stored.value.lastArmNonce)
  }

  lemma RestartExactly(site: Site, m: Machine)
    ensures var end := Rebooted(site, m);
            BootedFrom(site, m.slots.key, end.op) && end.slots == m.slots && end.log == m.log + [Booted]
  {}

  // ---------------------------------------------------------------- arming

  /** A key is held, the tag is valid under it, the nonce is beyond the last one, and the store takes it. */
  predicate ValidArm(site: Site, m: Machine, msg: ArmMessage)
  {
    && m.op.key.Some? && site.armTagOk(m.op.key.value, msg)
    && (m.op.lastNonce.Some? ==> Value(m.op.lastNonce.value) < Value(msg.nonce))
    && (m.slots.key.Some? ==> !m.slots.key.value.revoked && m.slots.key.value.key == m.op.key.value)
  }

  /** The record a valid arm writes: the same key and generation, with the new nonce. */
  function NoncedRecord(m: Machine, msg: ArmMessage): KeyRecord
    requires m.op.key.Some?
  {
    KeyRecord(m.op.key.value, if m.slots.key.Some? then m.slots.key.value.generation else 0, msg.nonce, false)
  }

  /** An arm that is not valid does nothing; a valid one is confirmed exactly when its nonce is written. */
  lemma ArmExactly(site: Site, m: Machine, msg: ArmMessage, ending: Ending)
    ensures var end := ArmStep(site, m, msg, ending);
            if !ValidArm(site, m, msg) then end == m
            else
              var record := NoncedRecord(m, msg);
              && end.slots == (if ending.landed then KeySlots(Some(record), m.slots.audit) else m.slots)
              && match ending.outcome
                 case Done =>
                   var command := ArmedCommand(msg.requestId, msg.fields);
                   && end.op == Operator(Some(command), m.op.key, Some(msg.nonce))
                   && end.log == m.log + [Armed(record.generation, msg.nonce, command)]
                 case Failed => end.op == m.op && end.log == m.log
                 case Lost => BootedFrom(site, end.slots.key, end.op) && end.log == m.log + [Booted]
  {}

  // ---------------------------------------------------------------- key commands

  /** The tag of a key command is valid under the key held. */
  predicate Vouched(site: Site, op: Operator, msg: KeyMessage)
  {
    op.key.Some? && site.keyTagOk(op.key.value, msg)
  }

  predicate Newer(stored: Option<KeyRecord>, msg: KeyMessage)
  {
    Value(msg.generation) > if stored.Some? then Value(stored.value.generation) else 0
  }

  /** After a refusal was written, or not: nothing but the audit changes, and only a power loss is noticed. */
  predicate Refused(site: Site, m: Machine, slots: KeySlots, audit: KeyAudit, refusal: Ending, end: Machine)
  {
    && end.slots == (if refusal.landed then KeySlots(m.slots.key, Some(audit)) else slots)
    && if refusal.outcome.Lost? then BootedFrom(site, end.slots.key, end.op) && end.log == m.log + [Booted]
       else end.op == m.op && end.log == m.log
  }

  /** A command without a valid tag is refused for reason 1, one that is not newer than the stored record for reason 2. */
  lemma KeyRefusedExactly(site: Site, m: Machine, msg: KeyMessage, write: Ending, refusal: Ending)
    requires !Vouched(site, m.op, msg) || !Newer(m.slots.key, msg)
    ensures var vouched := Vouched(site, m.op, msg);
            var audit := KeyAudit(msg.requestId, vouched, false, false, if vouched then 2 else 1, msg.generation);
            Refused(site, m, m.slots, audit, refusal, KeyStep(site, m, msg, write, refusal))
  {}

  /** Any other command takes effect exactly when its record and audit are written. */
  lemma KeyProceedsExactly(site: Site, m: Machine, msg: KeyMessage, write: Ending, refusal: Ending)
    requires Vouched(site, m.op, msg) && Newer(m.slots.key, msg) && write.Possible()
    ensures var end := KeyStep(site, m, msg, write, refusal);
            var accepted := KeyAudit(msg.requestId, true, true, false, 0, msg.generation);
            var both := KeySlots(Some(KeyRecord(msg.key, msg.generation, 0, msg.revoke)), Some(accepted));
            var stored := if write.landed then both else m.slots;
            match write.outcome
            case Done =>
              && end.slots == both && end.op == Operator(None, if msg.revoke then None else Some(msg.key), None)
              && end.log == m.log + [Accepted(msg.generation, msg.revoke)]
            case Failed =>
              var audit := KeyAudit(msg.requestId, true, false, true, 3, msg.generation);
              Refused(site, m, stored, audit, refusal, end)
            case Lost => end.slots == stored && BootedFrom(site, end.slots.key, end.op) && end.log == m.log + [Booted]
  {}

  // ---------------------------------------------------------------- identity commands

  /** The command carries exactly the armed request id and the leading bytes of the armed fields. */
  predicate Carries(armed: ArmedCommand, command: IdentityCommand)
  {
    var f := armed.fields;
    && armed.requestId == command.requestId
    && f.vinLen as int <= 17 && command.vin == f.vin[..f.vinLen as int]
    && f.calibrationIdLen as int <= 17 && command.calibrationId == f.calibrationId[..f.calibrationIdLen as int]
    && f.boardLen as int <= 6 && command.board == f.board[..f.boardLen as int]
  }

  lemma MatchesExactly(armed: ArmedCommand, command: IdentityCommand)
    ensures Matches(armed, command) <==> Carries(armed, command)
  {
    var f := armed.fields;
    FieldMatchesExactly(f.vinLen, f.vin, command.vin);
    FieldMatchesExactly(f.calibrationIdLen, f.calibrationId, command.calibrationId);
    FieldMatchesExactly(f.boardLen, f.board, command.board);
  }

  lemma FieldMatchesExactly(len: Byte, armed: seq<Byte>, given: seq<Byte>)
    ensures FieldMatches(len, armed, given) <==> len as int <= |armed| && given == armed[..len as int]
  {}

  predicate LengthsFit(f: Fields) { f.vinLen as int <= 17 && f.calibrationIdLen as int <= 17 && f.boardLen as int <= 6 }

  lemma FitsAsBytes(f: Fields)
    ensures LengthsFit(f) <==> f.vinLen <= 17 && f.calibrationIdLen <= 17 && f.boardLen <= 6
  {}

  /** A message is a command exactly when its lengths lie inside its buffers, and then carries their leading bytes. */
  lemma CommandExactly(msg: IdentityMessage)
    ensures CommandOf(msg).Some? <==> LengthsFit(msg.fields)
    ensures CommandOf(msg).Some? ==> Carries(ArmedCommand(msg.requestId, msg.fields), CommandOf(msg).value)
  {
    FitsAsBytes(msg.fields);
  }

  predicate SameField(len: Byte, a: seq<Byte>, other: Byte, b: seq<Byte>)
  {
    len == other && len as int <= |a| && len as int <= |b| && a[..len as int] == b[..len as int]
  }

  /** A command was armed, with this request id and these fields. */
  predicate ArmedFor(op: Operator, msg: IdentityMessage)
  {
    && op.armed.Some? && op.armed.value.requestId == msg.requestId
    && SameField(op.armed.value.fields.vinLen, op.armed.value.fields.vin, msg.fields.vinLen, msg.fields.vin)
    && SameField(op.armed.value.fields.calibrationIdLen, op.armed.value.fields.calibrationId,
                 msg.fields.calibrationIdLen, msg.fields.calibrationId)
    && SameField(op.armed.value.fields.boardLen, op.armed.value.fields.board, msg.fields.boardLen, msg.fields.board)
  }

  lemma SameFieldExactly(len: Byte, a: seq<Byte>, other: Byte, b: seq<Byte>)
    requires |a| == |b| && other as int <= |b|
    ensures SameField(len, a, other, b) <==> len as int <= |a| && b[..other as int] == a[..len as int]
  {
    if len as int <= |a| && b[..other as int] == a[..len as int] {
      assert |b[..other as int]| == other as int && |a[..len as int]| == len as int;
      SameNumber(len, other);
    }
  }

  lemma SameNumber(x: Byte, y: Byte)
    requires x as int == y as int
    ensures x == y
  {
    assert x == x as int as Byte;
  }

  /** A message is authorised if and only if it is the armed one. */
  lemma AuthorisedExactly(op: Operator, msg: IdentityMessage)
    requires LengthsFit(msg.fields)
    ensures CommandOf(msg).Some? && (Authorises(op, CommandOf(msg).value) <==> ArmedFor(op, msg))
  {
    CommandExactly(msg);
    if op.armed.Some? {
      var f, g := op.armed.value.fields, msg.fields;
      MatchesExactly(op.armed.value, CommandOf(msg).value);
      SameFieldExactly(f.vinLen, f.vin, g.vinLen, g.vin);
      SameFieldExactly(f.calibrationIdLen, f.calibrationId, g.calibrationIdLen, g.calibrationId);
      SameFieldExactly(f.boardLen, f.board, g.boardLen, g.board);
    }
  }

  /** An identity command does nothing but use up the arm it was armed with; an unarmed one leaves everything as it is. */
  lemma IdentityExactly(site: Site, m: Machine, command: IdentityCommand)
    ensures var end := IdentityStep(site, m, command, false);
            if m.op.armed.Some? && Carries(m.op.armed.value, command) then
              && end.op == Operator(None, m.op.key, m.op.lastNonce) && end.slots == m.slots
              && end.log == m.log + [Authorised(m.op.armed.value, command)]
            else end == m
  {
    if m.op.armed.Some? { MatchesExactly(m.op.armed.value, command); }
  }

  // ---------------------------------------------------------------- where confirmations come from

  /** This input, met in this state, is what a confirmation stands for. */
  predicate Explains(site: Site, m: Machine, input: Input, e: Event)
  {
    match e
    case Armed(_, nonce, command) =>
      && input.Arm? && input.nonceWrite.outcome.Done? && nonce == input.arm.nonce
      && command == ArmedCommand(input.arm.requestId, input.arm.fields)
      && m.op.key.Some? && site.armTagOk(m.op.key.value, input.arm)
    case Accepted(generation, revoke) =>
      && input.KeyCommand? && input.keyWrite.outcome.Done?
      && generation == input.keyMsg.generation && revoke == input.keyMsg.revoke
      && m.op.key.Some? && site.keyTagOk(m.op.key.value, input.keyMsg)
    case Authorised(armed, request) =>
      input.Identity? && request == input.command && m.op.armed == Some(armed) && Carries(armed, request)
    case Booted => true
  }

  /** A step only ever adds to the log, and everything it adds is explained by its input. */
  lemma StepExplained(site: Site, m: Machine, input: Input)
    ensures var log := Step(site, m, input).log;
            && |m.log| <= |log| && log[..|m.log|] == m.log
            && forall j :: |m.log| <= j < |log| ==> Explains(site, m, input, log[j])
  {
    match input
    case Arm(msg, ending) => ArmExactly(site, m, msg, ending);
    case KeyCommand(msg, write, refusal) =>
    case Identity(command, lost) => IdentityExactly(site, m, command);
    case PowerCycle =>
  }

  /** Some input of the run explains the event, in the state the run was in when it came. */
  ghost predicate Explained(site: Site, inputs: seq<Input>, e: Event)
  {
    exists i :: 0 <= i < |inputs| && Explains(site, Run(site, inputs[..i]), inputs[i], e)
  }

  lemma ExplainedLater(site: Site, inputs: seq<Input>, e: Event)
    requires inputs != [] && Explained(site, inputs[..|inputs| - 1], e)
    ensures Explained(site, inputs, e)
  {
    var before := inputs[..|inputs| - 1];
    var i :| 0 <= i < |before| && Explains(site, Run(site, before[..i]), before[i], e);
    assert before[..i] == inputs[..i] && before[i] == inputs[i];
  }

  /**
   In every run each confirmed arm and each accepted key command goes back to a message
   whose tag is valid under the key that was held when it came, and whose write succeeded.
   */
  lemma {:induction false} ConfirmationsAreAuthentic(site: Site, inputs: seq<Input>, j: nat)
    requires j < |Run(site, inputs).log|
    ensures Explained(site, inputs, Run(site, inputs).log[j])
  {
    if inputs != [] {
      var before, last := inputs[..|inputs| - 1], inputs[|inputs| - 1];
      var m, log := Run(site, before), Run(site, inputs).log;
      StepExplained(site, m, last);
      if j < |m.log| {
        assert log[j] == log[..|m.log|][j];
        ConfirmationsAreAuthentic(site, before, j);
        ExplainedLater(site, inputs, log[j]);
      } else {
        assert Explains(site, Run(site, inputs[..|inputs| - 1]), inputs[|inputs| - 1], log[j]);
      }
    }
  }
}
