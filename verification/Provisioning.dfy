/**
 The identity provisioning protocol as a state machine: arm, key rotation and revocation,
 identity commands and restarts, over the key record and key audit that the store holds.
 Every store access may succeed, fail with or without having landed, or lose power.
 */
module Provisioning {
  import opened Words
  import opened Records
  import opened KvOps

  // ---------------------------------------------------------------- messages

  datatype Fields = Fields(
    vinLen: Byte, vin: Bytes17, calibrationIdLen: Byte, calibrationId: Bytes17, boardLen: Byte, board: Bytes6)

  datatype ArmMessage = ArmMessage(requestId: U32, nonce: U32, fields: Fields, tag: Key)

  datatype KeyMessage = KeyMessage(requestId: U32, nonce: U32, generation: U32, revoke: bool, key: Key, tag: Key)

  datatype IdentityMessage = IdentityMessage(requestId: U32, fields: Fields)

  datatype ArmedCommand = ArmedCommand(requestId: U32, fields: Fields)

  datatype IdentityCommand =
    IdentityCommand(requestId: U32, vin: seq<Byte>, calibrationId: seq<Byte>, board: seq<Byte>)

  /** What a message carries once its lengths are known to lie inside their buffers. */
  function CommandOf(msg: IdentityMessage): Option<IdentityCommand>
  {
    var f := msg.fields;
    if f.vinLen > 17 || f.calibrationIdLen > 17 || f.boardLen > 6 then None
    else Some(IdentityCommand(msg.requestId, f.vin[..f.vinLen as int],
                              f.calibrationId[..f.calibrationIdLen as int], f.board[..f.boardLen as int]))
  }

  predicate FieldMatches(len: Byte, armed: seq<Byte>, given: seq<Byte>)
  {
    len as int == |given| <= |armed| && armed[..|given|] == given
  }

  /** The armed request and the command agree in the request id and in all three fields. */
  predicate Matches(armed: ArmedCommand, command: IdentityCommand)
  {
    && armed.requestId == command.requestId
    && FieldMatches(armed.fields.vinLen, armed.fields.vin, command.vin)
    && FieldMatches(armed.fields.calibrationIdLen, armed.fields.calibrationId, command.calibrationId)
    && FieldMatches(armed.fields.boardLen, armed.fields.board, command.board)
  }

  // ---------------------------------------------------------------- state

  datatype Operator = Operator(armed: Option<ArmedCommand>, key: Option<Key>, lastNonce: Option<U32>)

  /** The two records of the store that the protocol depends on. */
  datatype KeySlots = KeySlots(key: Option<KeyRecord>, audit: Option<KeyAudit>)

  /** What is fixed for one build: the key compiled in, if any, and the two tag checks. */
  datatype Site = Site(
    builtInKey: Option<Key>, armTagOk: (Key, ArmMessage) -> bool, keyTagOk: (Key, KeyMessage) -> bool)

  /** What the outside has been told, and when memory was lost. */
  datatype Event =
    | Accepted(generation: U32, revoke: bool)
    | Armed(underGeneration: U32, nonce: U32, command: ArmedCommand)
    | Authorised(armed: ArmedCommand, request: IdentityCommand)
    | Booted

  datatype Machine = Machine(op: Operator, slots: KeySlots, log: seq<Event>)

  /** The operator as rebuilt at boot: a stored record, revoked or not, overrides the built-in key. */
  function Boot(site: Site, slots: KeySlots): Operator
  {
    match slots.key
    case Some(record) => Operator(None, record.ActiveKey(), Some(record.lastArmNonce))
    case None => Operator(None, site.builtInKey, None)
  }

  function Rebooted(site: Site, m: Machine): Machine
  {
    Machine(Boot(site, m.slots), m.slots, m.log + [Booted])
  }

  const EMPTY_SLOTS: KeySlots := KeySlots(None, None)

  function PowerOn(site: Site): Machine { Machine(Boot(site, EMPTY_SLOTS), EMPTY_SLOTS, []) }

  // ---------------------------------------------------------------- arming

  predicate ArmAccepts(site: Site, op: Operator, msg: ArmMessage)
  {
    && (op.lastNonce.Some? ==> Value(msg.nonce) > Value(op.lastNonce.value))
    && op.key.Some? && site.armTagOk(op.key.value, msg)
  }

  function PutKey(slots: KeySlots, record: KeyRecord, landed: bool): KeySlots
  {
    if landed then slots.(key := Some(record)) else slots
  }

  /** An arm counts only once its nonce is stored; otherwise the operator is as it was. */
  function ArmStep(site: Site, m: Machine, msg: ArmMessage, ending: Ending): Machine
  {
    if !ArmAccepts(site, m.op, msg) then m
    else
      match NonceRecord(m.slots.key, m.op.key.value, msg.nonce)
      case None => m
      case Some(record) =>
        var stored := m.(slots := PutKey(m.slots, record, ending.landed));
        match ending.outcome
        case Done =>
          var command := ArmedCommand(msg.requestId, msg.fields);
          stored.(op := Operator(Some(command), m.op.key, Some(msg.nonce)),
                  log := m.log + [Armed(record.generation, msg.nonce, command)])
        case Failed => stored
        case Lost => Rebooted(site, stored)
  }

  // ---------------------------------------------------------------- key commands

  datatype Verdict = Unauthorised | Rollback | Proceed

  function GenerationOf(key: Option<KeyRecord>): nat
  {
    if key.Some? then Value(key.value.generation) else 0
  }

  function Judge(site: Site, m: Machine, msg: KeyMessage): Verdict
  {
    if m.op.key.None? then Unauthorised
    else if !site.keyTagOk(m.op.key.value, msg) then Unauthorised
    else if Value(msg.generation) <= GenerationOf(m.slots.key) then Rollback
    else Proceed
  }

  function RefusedAudit(msg: KeyMessage, verdict: Verdict): KeyAudit
  {
    match verdict
    case Unauthorised => KeyAudit(msg.requestId, false, false, false, 1, msg.generation)
    case Rollback => KeyAudit(msg.requestId, true, false, false, 2, msg.generation)
    case Proceed => KeyAudit(msg.requestId, true, false, true, 3, msg.generation)
  }

  function AcceptedAudit(msg: KeyMessage): KeyAudit
  {
    KeyAudit(msg.requestId, true, true, false, 0, msg.generation)
  }

  function NewKeyRecord(msg: KeyMessage): KeyRecord { KeyRecord(msg.key, msg.generation, 0, msg.revoke) }

  function PutBoth(slots: KeySlots, key: Option<KeyRecord>, audit: KeyAudit, landed: bool): KeySlots
  {
    if landed then KeySlots(key, Some(audit)) else slots
  }

  /** A refusal is written beside the key record found at the start; failing to write it changes nothing else. */
  function Refuse(site: Site, m: Machine, previous: Option<KeyRecord>, audit: KeyAudit, ending: Ending): Machine
  {
    var stored := m.(slots := PutBoth(m.slots, previous, audit, ending.landed));
    if ending.outcome.Lost? then Rebooted(site, stored) else stored
  }

  function KeyStep(site: Site, m: Machine, msg: KeyMessage, write: Ending, refusal: Ending): Machine
  {
    var previous := m.slots.key;
    var verdict := Judge(site, m, msg);
    if !verdict.Proceed? then Refuse(site, m, previous, RefusedAudit(msg, verdict), refusal)
    else
      var stored := m.(slots := PutBoth(m.slots, Some(NewKeyRecord(msg)), AcceptedAudit(msg), write.landed));
      match write.outcome
      case Done =>
        stored.(op := Operator(None, NewKeyRecord(msg).ActiveKey(), None),
                log := m.log + [Accepted(msg.generation, msg.revoke)])
      case Failed => Refuse(site, stored, previous, RefusedAudit(msg, verdict), refusal)
      case Lost => Rebooted(site, stored)
  }

  // ---------------------------------------------------------------- identity commands and runs

  predicate Authorises(op: Operator, command: IdentityCommand)
  {
    op.armed.Some? && Matches(op.armed.value, command)
  }

  function IdentityStep(site: Site, m: Machine, command: IdentityCommand, lost: bool): Machine
  {
    var next :=
      if Authorises(m.op, command)
      then m.(op := m.op.(armed := None), log := m.log + [Authorised(m.op.armed.value, command)]) else m;
    if lost then Rebooted(site, next) else next
  }

  datatype Input =
    | Arm(arm: ArmMessage, nonceWrite: Ending)
    | KeyCommand(keyMsg: KeyMessage, keyWrite: Ending, refusalWrite: Ending)
    | Identity(command: IdentityCommand, lost: bool)
    | PowerCycle
  {
    predicate Possible()
    {
      match this
      case Arm(_, e) => e.Possible()
      case KeyCommand(_, w, r) => w.Possible() && r.Possible()
      case Identity(_, _) => true
      case PowerCycle => true
    }
  }

  function Step(site: Site, m: Machine, input: Input): Machine
  {
    match input
    case Arm(msg, ending) => ArmStep(site, m, msg, ending)
    case KeyCommand(msg, write, refusal) => KeyStep(site, m, msg, write, refusal)
    case Identity(command, lost) => IdentityStep(site, m, command, lost)
    case PowerCycle => Rebooted(site, m)
  }

  function Run(site: Site, inputs: seq<Input>): Machine
  {
    if inputs == [] then PowerOn(site)
    else Step(site, Run(site, inputs[..|inputs| - 1]), inputs[|inputs| - 1])
  }

  predicate AllPossible(inputs: seq<Input>) { forall i :: 0 <= i < |inputs| ==> inputs[i].Possible() }
}
