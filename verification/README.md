# Dafny model of the ECU flash store and the protocols on top of it

The STM32F4 target keeps three calibration pages and five small records in two flash
sectors. Every change rewrites the older sector as a whole: erase, program half-word by
half-word, and clear a 16-bit marker last. Readers pick the newer sector by a wrapping
16-bit sequence number. On top of that store run the identity provisioning protocol
(arm, rotate, revoke, identity command, restart) and the retained diagnostic history.
This project models that code, the RP2040 flash adapter with its CRC-16, and the
fixed-capacity observability traces, and proves what they are meant to guarantee.

The main results are statements about all runs:

- A rewrite is atomic under power loss and reported faults after any half-word, with any
  bits of that half-word torn, and stays so over unboundedly many rewrites and sequence
  wraps (`FlashStore`, `StoreViews`, `BootIntegrity`). The in-place driver refines the
  specification for every sequence of reactions of the part (`FlashDevice`). It succeeds if
  and only if none of its steps is interrupted, and then the new contents are read.
- Every store operation changes only the regions it names, whatever becomes of it, and what
  it answers is known for every ending (`KvOps`, `KvStore`).
- The byte formats are relations between images and records. Every decoder accepts exactly
  the images of its format, and the encoders produce them (`RecordFormats`, `SnapshotFormat`,
  `Records`, `SnapshotCodec`).
- In every run of the provisioning protocol, accepted generations increase, revocation is
  final, nonces within a generation increase, and an authorised command consumes its own
  arm (`Provisioning`, `ProvisioningRuns`). Each step is stated of the bytes and records
  themselves, and every confirmation goes back to a message that was authenticated under
  the key of the moment (`ProvisioningSteps`). The object with the flash store inside performs
  exactly steps of that protocol (`ProvisioningEcu`): its invariant says that its state is
  the state of a run, so the laws of all runs are laws of the object.
- The retained history stands for the first three distinct codes and the first event since
  the last clear (`HistoryModel`, `HistoryLaws`, `RetainedHistory`), and what an observation
  adds to that past, and in which order, is stated of the live state (`HistoryIngest`). In every
  run of observing, clearing, saving and restarting, a restart comes back to a history that
  stands for the past of the last one that reached the store (`HistoryPersistence`,
  `HistoryRuns`), and the object with the store inside performs exactly such runs
  (`HistoryKeeper`).
- The CRC-16 is the polynomial remainder, and detects every burst of up to 16 bits and every
  odd number of flipped bits, for every initial value and message length (`Crc`,
  `CrcPolynomial`, `TableItems`).

Modelling decisions:

- Flash cells follow NOR rules: erasing sets 0xFF, programming is a bitwise AND. The
  reactions of the part (completed, failed, power lost, which bits of a half-word were not
  yet cleared, whether a failed erase blanked the sector) are an arbitrary function of the
  step number, so a theorem about every such function covers every fault.
- Erasing a sector is one step. A failed erase leaves the sector unchanged or blank.
- A power loss is an outcome of the step it hits. The handlers then rebuild their memory
  from the store, as at boot. A plain restart between messages is a step of its own.
- The page lengths and offsets are those of `boards/common/src/kv/layout.rs`: a header of 64
  bytes, pages of 512, 512 and 68 bytes, and records of 100, 52, 20, 50 and 22 bytes behind them.
- Staging a history that holds anything but sensor data stops the processor in the source.
  The model lets such a rewrite end as a power loss before its marker is written, and proves
  that no run that observes sensor data only gets there (`KvOps.StagingFailsExactly`,
  `HistoryRuns.SavesAreStaged`).
- What an adapter has observed before it restores the stored history, while booting, is
  arbitrary; it may differ from boot to boot.
- A 32-bit address below the RP2040 region wraps around when the region's base is
  subtracted, and is then refused.
- The two message tags are checked by functions that are parameters of the protocol. They
  stand for HMAC (section 2 of RFC 2104); nothing is assumed of them.
- 32-bit generations and nonces are compared as the numbers they stand for.
- Buffers that the source borrows mutably are distinct; the model states that as
  preconditions of the methods that take two of them.

Four properties that one might expect do not hold of the code as it is. Each is stated
with the exact condition under which it does:

- Observing the same live state twice equals observing it once if and only if the last
  code seen is stored or the table is full (`HistoryLaws.ObservingTwiceExactly`). Every history
  that grew by observing and clearing meets the condition; a snapshot restored
  from elsewhere may not.
- `persist_if_changed` answering that nothing changed means that the next boot brings the
  history back if and only if (`HistoryRuns.AnswersOverRuns`): with a history in the store, the
  last save that landed since boot, if there was one, was also reported as saved; with none
  in the store, the next boot starts with the history this one started with.
  `HistoryRuns.UnchangedCanBeStale` and `HistoryRuns.UnchangedForThisBootOnly` are runs where it
  is wrong. An answer of saved always means it.
- An accepted identity is reported if and only if the unit has booted since, or had that very
  record installed before (`ProvisioningEcu.Ecu.ReportsProvisioned`,
  `Identity.ProvisionedFieldsAreReported`): the record to report is installed at boot only.
  `Identity.AcceptedNotYetReported` is a case where it is not.
- A refused key command leaves the stored key record alone if and only if its own write did
  not land or the refusal put the previous record back
  (`ProvisioningRuns.RefusalKeepsKeyExactly`). `ProvisioningRuns.RefusedKeyComesUp` is a run where
  a unit boots under a key whose command was answered as refused.

Nothing here was executed; the claims are those that Dafny verifies:
`dafny verify dfyconfig.toml`.

## Model

| member | source | states |
|---|---|---|
| `StoreViews.ChoicesAgree` | boards/stm32f4/src/store_support.rs:360-381 | for every two headers, valid or not, the rewrite's own choice of a sector from the two sequence numbers is the one `target_sector_for_next_write` makes, and it is never the newest sector |
| `StoreViews.SeqOfNewest` | boards/stm32f4/src/store_support.rs:1111-1135 | the sequence number the rewrite continues from is that of the newest sector; with no valid sector it continues from 0, in sector A |
| `StoreViews.AdjacentOrder` | boards/stm32f4/src/store_support.rs:360-373 | a sequence number and its successor are ordered the right way round, also across the wrap from 0xFFFF to 0 |
| `StoreViews.TargetIsNotNewest` | boards/stm32f4/src/store_support.rs:1111-1135 | the rewritten sector is the sibling of the newest one, and the number it gets follows the newest one |
| `StoreViews.UncommittedKeepsCurrent` | boards/stm32f4/src/store_support.rs:360-373 | a rewrite that leaves its sector unchanged or unreadable changes nothing any reader sees |
| `StoreViews.CommittedIsNewest` | boards/stm32f4/src/store_support.rs:360-373 | a sector committed with the next sequence number is the newest sector, and the two sectors stay exactly one commit apart |
| `StoreViews.RewriteIsAtomic` | boards/stm32f4/src/store_support.rs:1094-1262 | however a rewrite ends, the invariant is kept and readers see exactly the complete old or exactly the complete new contents, new if and only if the sector carries the complete commit, and always new after success |
| `SectorImage.HeaderFields` | boards/stm32f4/src/store_support.rs:967-998 | a header holds magic number, sequence number, the three page lengths and the three page checks at the offsets where they are read |
| `SectorImage.ImageHeader` | boards/stm32f4/src/store_support.rs:851-871 | the committed image has a readable header with the given sequence number, and lengths and checks that agree with its pages |
| `SectorImage.ImageLayout` | boards/stm32f4/src/store_support.rs:1153-1262 | every page and record of the committed image by its byte offsets, absent records as erased cells, and erased cells behind them |
| `SectorImage.ReadSeq` | boards/stm32f4/src/store_support.rs:955-964 | the sequence number is readable exactly when the header is, and is the same one |
| `SectorImage.NormalIsIdentity` | boards/stm32f4/src/store_support.rs:1094-1262 | contents come back from a rewrite unchanged if and only if identity lengths, code count and audit lengths are representable; whatever comes back is representable |
| `SectorImage.ReadIsRepresentable` | boards/stm32f4/src/store_support.rs:404-740 | whatever any sector reads as, committed or not, can be written back without change |
| `SectorImage.ImageReadsBack` | boards/stm32f4/src/store_support.rs:1153-1262 | the complete image of a rewrite reads as committed, with valid page checks, and all eight regions read back, absent records as absent |
| `FlashStore.RunDone` | boards/stm32f4/src/store_support.rs:1139-1262 | a list of half-word steps that is never interrupted programs all of them |
| `FlashStore.ProgramRegion` | boards/stm32f4/src/store_support.rs:1165-1189 | programming a byte string half-word by half-word over erased cells splices it in |
| `FlashStore.RunSparesMarker` | boards/stm32f4/src/store_support.rs:1153-1250 | no step before the last can clear a bit of the commit marker, torn or not |
| `FlashStore.ProgrammingIsAtomic` | boards/stm32f4/src/store_support.rs:1153-1262 | stopped after any half-word, with any bits of it torn, an erased sector reads as uncommitted or is the complete image |
| `FlashStore.RewriteIsStep` | boards/stm32f4/src/store_support.rs:1094-1262 | every run of preflight, erase and program steps, with any faults and power losses, touches only the target sector and leaves it unchanged, unreadable or committed |
| `FlashStore.ProgrammedInOrder` | boards/stm32f4/src/store_support.rs:1153-1250 | a rewrite programs the half-words of its data in strictly ascending order inside the first 1400 bytes, each at most once, and the marker after all of them |
| `FlashStore.RewriteSucceedsExactly` | boards/stm32f4/src/store_support.rs:1094-1262 | contents that can be staged are rewritten successfully if and only if the readiness check, the erase and each of the counted half-words complete; otherwise the rewrite ends at the first step that does not, as that step calls for; a failed readiness check changes no cell |
| `FlashStore.UninterruptedCommits` | boards/stm32f4/src/store_support.rs:1094-1262 | a rewrite of such contents that is not interrupted reports success, and what is read then is the new contents, in the form in which they read back |
| `FlashDevice.Device.EraseSector` | boards/stm32f4/src/store_support.rs:1149-1157 | an erase blanks the sector, or fails and leaves it blank or as it was |
| `FlashDevice.Device.ProgramHalf` | boards/stm32f4/src/store_support.rs:1159-1163 | one half-word ANDs its bits into the cells; an interrupted one clears only some of them |
| `FlashDevice.Device.ProgramBytes` | boards/stm32f4/src/store_support.rs:1165-1189 | the in-place half-word loop performs exactly the steps of the specification and stops at the first interrupted one |
| `FlashDevice.Device.ProgramEverything` | boards/stm32f4/src/store_support.rs:1165-1262 | header, pages and present records in order and the marker last, for every sequence of reactions: the same cells, outcome and number of steps as the specified run, whose outcome `FlashStore.RewriteSucceedsExactly` states |
| `FlashDevice.Device.RewriteSector` | boards/stm32f4/src/store_support.rs:1094-1262 | the in-place driver refines the specified rewrite for every sequence of reactions of the part, outcome and number of steps included; the other sector is untouched |
| `KvStore.ReadsHeldPage` | boards/stm32f4/src/store_support.rs:1640-1661 | on a reachable store a page never fails its check: every reader gets the committed page, and the error is NotFound exactly when nothing is held |
| `KvStore.PagesReadExactly` | boards/stm32f4/src/store_support.rs:1640-1661 | for any header and page, sound or not: the page is handed over exactly when the stored length is right and the buffer can take it, and reported as read exactly when its own check value fits |
| `KvStore.ReadRefuses` | boards/stm32f4/src/store_support.rs:1640-1661 | an unknown key is an I/O error on a store that holds something and not found otherwise; a buffer shorter than the page is not found; both leave the buffer alone |
| `KvStore.ReadsByName` | boards/stm32f4/src/store_support.rs:1640-1661 | on a store that holds contents the three names read the three pages |
| `KvStore.FaultlessSucceeds` | boards/stm32f4/src/store_support.rs:1360-1673 | an operation that is prepared and meets no interruption answers success and holds what it was given, if and only if it is not an audit with three lengths of 0xFF or a history that cannot be staged |
| `KvStore.RewriteLands` | boards/stm32f4/src/store_support.rs:1094-1262 | from the invariant on, a rewrite leaves a store that holds all of the new contents or what it held before |
| `KvStore.FlashKv.constructor` | boards/stm32f4/src/store_support.rs:1269-1271 | a factory-fresh part holds nothing |
| `KvStore.FlashKv.LoadSnapshot` | boards/stm32f4/src/store_support.rs:1286-1299 | returns the history of the contents held |
| `KvStore.FlashKv.LoadIdentity` | boards/stm32f4/src/store_support.rs:1302-1313 | returns the identity of the contents held |
| `KvStore.FlashKv.LoadCommandAudit` | boards/stm32f4/src/store_support.rs:1316-1327 | returns the command audit of the contents held |
| `KvStore.FlashKv.LoadKey` | boards/stm32f4/src/store_support.rs:1330-1343 | returns the key record of the contents held |
| `KvStore.FlashKv.LoadKeyAudit` | boards/stm32f4/src/store_support.rs:1346-1357 | returns the key audit of the contents held |
| `KvStore.FlashKv.Read` | boards/stm32f4/src/store_support.rs:1640-1661 | result and buffer for every key, buffer size and store, the buffer filled before the check value is compared |
| `KvStore.FlashKv.LoadPages` | boards/stm32f4/src/store_support.rs:1275-1284 | the three pages held, or zero pages when nothing is held |
| `KvStore.FlashKv.HeldIsRepresentable` | boards/stm32f4/src/store_support.rs:1286-1357 | what is held can always be written back unchanged |
| `KvStore.FlashKv.Commit` | boards/stm32f4/src/store_support.rs:1360-1399 | one rewrite keeps the store invariant; afterwards all of the prepared contents are held or all of the old ones; it succeeds if and only if no step of it is interrupted, and success means the former |
| `KvStore.FlashKv.WritePage` | boards/stm32f4/src/store_support.rs:1663-1673 | replaces the named page; an unknown key or wrong length answers an error and changes no cell |
| `KvStore.FlashKv.SaveSnapshot` | boards/stm32f4/src/store_support.rs:1402-1412 | replaces the history only |
| `KvStore.FlashKv.WriteIdentity` | boards/stm32f4/src/store_support.rs:1415-1446 | replaces the identity only and confirms it; lengths out of range change no cell |
| `KvStore.FlashKv.WriteCommandAudit` | boards/stm32f4/src/store_support.rs:1449-1482 | replaces the command audit only and confirms it |
| `KvStore.FlashKv.WriteKey` | boards/stm32f4/src/store_support.rs:1485-1520 | replaces the key record only and confirms it |
| `KvStore.FlashKv.WriteKeyAudit` | boards/stm32f4/src/store_support.rs:1523-1531 | replaces the key audit and keeps the key record beside it |
| `KvStore.FlashKv.WriteKeyAuditWithKey` | boards/stm32f4/src/store_support.rs:1534-1613 | replaces key record, possibly by none, and key audit in one rewrite and confirms both |
| `KvStore.FlashKv.WriteArmNonce` | boards/stm32f4/src/store_support.rs:1616-1627 | records a nonce under the current key; a stored key that is revoked or another one refuses it and changes no cell |
| `KvOps.ReadBackFails` | boards/stm32f4/src/store_support.rs:1415-1627 | a committed write fails its own read-back check if and only if it is a command audit whose three lengths are 0xFF |
| `KvOps.RefusedExactly` | boards/stm32f4/src/store_support.rs:1415-1673 | an operation is refused up front if and only if it is a page with an unknown key or another length, an identity with lengths out of range, or a nonce under a key that is not the stored active one |
| `KvOps.PagePrepared` | boards/common/src/transport_service.rs:511-528 | a page of the right length under each of the three names is always prepared, and replaces that page of the contents held and nothing else |
| `KvOps.ResultExactly` | boards/stm32f4/src/store_support.rs:1360-1673 | the answer of every operation for every ending: an error if refused or failed, power loss as such, and success when done, the one audit above aside; a refusal changes nothing |
| `KvOps.SuccessStores` | boards/stm32f4/src/store_support.rs:1415-1673 | an operation that answers success has put what it was given into the regions it names, a history with its count clamped and one that cannot be encoded as absent; a nonce keeps key and generation of the record it goes into |
| `KvOps.StagingFailsExactly` | boards/stm32f4/src/store_support.rs:1192-1206 | on a reachable store an operation prepares contents that cannot be staged if and only if it saves a history that holds anything but sensor data |
| `KvOps.ApplyFrame` | boards/stm32f4/src/store_support.rs:1360-1627 | on an initialised store an operation, successful or not, changes only the regions it names |
| `KvOps.FrameOverRuns` | boards/stm32f4/src/store_support.rs:1360-1673 | over any sequence of operations with any endings, every region that none of them names reads back unchanged, absent ones included |
| `BootIntegrity.HeaderIsBlank` | boards/stm32f4/src/store_support.rs:900-910 | the scan loop answers whether all 64 header bytes are erased |
| `BootIntegrity.ClassifySector` | boards/stm32f4/src/store_support.rs:912-936 | blank, corrupt or valid as specified on the cells |
| `BootIntegrity.BootStoreIntegrity` | boards/stm32f4/src/store_support.rs:1693-1697 | the status of the store from both sectors |
| `BootIntegrity.ClassifyExactly` | boards/stm32f4/src/store_support.rs:912-936 | each status of a sector by its cells: 64 erased header bytes, or magic number, marker, lengths and check values in place, or neither |
| `BootIntegrity.IntegrityByCells` | boards/stm32f4/src/store_support.rs:938-952 | each of the four statuses of the store, if and only if its two sectors are as they should be, cell by cell |
| `BootIntegrity.IntegrityIsExact` | boards/stm32f4/src/store_support.rs:900-952 | on every reachable store the status is Valid or ValidWithCorruptSibling if and only if there is something to read, and the pages of the newest sector pass their checks |
| `BootIntegrity.RunsKeepGood` | boards/stm32f4/src/store_support.rs:1094-1262 | any number of rewrites with any faults and restarts keeps the invariant, so across any number of sequence wraps |
| `BootIntegrity.RunsReadWritten` | boards/stm32f4/src/store_support.rs:1094-1262 | after any run what is read is what was there at its start or exactly one of the contents written |
| `BootIntegrity.UsableAfterFirstCommit` | boards/stm32f4/src/store_support.rs:912-952 | from blank flash, once a rewrite has succeeded the boot status is usable in every later crash state |
| `Records.KeyRecordRoundTrip` | boards/stm32f4/src/store_support.rs:559-614 | every key record survives its byte format, and is never all erased |
| `Records.KeyAuditRoundTrip` | boards/stm32f4/src/store_support.rs:626-682 | every key audit survives its byte format, and is never all erased |
| `Records.IdentityRoundTrip` | boards/stm32f4/src/store_support.rs:404-459 | what an identity reads back as for any lengths; unchanged if and only if they are in range |
| `Records.CommandAuditRoundTrip` | boards/stm32f4/src/store_support.rs:471-547 | what a command audit reads back as; unchanged if and only if its lengths are not all 0xFF |
| `RecordFormats.KeyRecordExactly` | boards/stm32f4/src/store_support.rs:559-614 | 50 bytes decode to a record if and only if they are its format, written down byte by byte; the encoder produces it |
| `RecordFormats.KeyAuditExactly` | boards/stm32f4/src/store_support.rs:626-682 | the same for the 22 bytes of a key audit |
| `RecordFormats.IdentityExactly` | boards/stm32f4/src/store_support.rs:404-459 | the same for the 52 bytes of an identity; the encoder clamps the lengths |
| `RecordFormats.CommandAuditExactly` | boards/stm32f4/src/store_support.rs:471-547 | the same for the 20 bytes of a command audit; the encoder cannot tell three lengths of 0xFF from none |
| `Records.DamagedRecordRejected` | boards/stm32f4/src/store_support.rs:404-682 | a sealed record of any of the four formats whose content is hit by a burst of at most 16 bits is not read |
| `SnapshotCodec.SensorRoundTrip` | boards/common/src/transport_service.rs:564-606 | sensor data survives its 12 bytes |
| `SnapshotCodec.EventRoundTrip` | boards/common/src/transport_service.rs:670-723 | every event, present or absent, survives its 20 bytes |
| `SnapshotCodec.SnapshotRoundTrip` | boards/common/src/transport_service.rs:725-840 | every snapshot that holds sensor data decodes to itself with its count clamped, hence to itself if and only if the count is at most 3 |
| `SnapshotCodec.SidecarRoundTrip` | boards/common/src/transport_service.rs:842-966 | the same through the framed 100 bytes, which are never all erased |
| `SnapshotCodec.ErasedSidecar` | boards/common/src/transport_service.rs:945-966 | erased cells decode to nothing |
| `SnapshotCodec.DecodedIsStable` | boards/common/src/transport_service.rs:842-966 | whatever any image decodes to is encodable and stays the same when encoded and decoded again |
| `SnapshotFormat.EventExactly` | boards/common/src/transport_service.rs:698-723 | 20 bytes decode to an event, or to none, if and only if they are its format |
| `SnapshotFormat.SnapshotExactly` | boards/common/src/transport_service.rs:774-840 | 92 bytes decode to a snapshot if and only if they are its format, field by field, the count clamped |
| `SnapshotFormat.SidecarExactly` | boards/common/src/transport_service.rs:842-966 | 100 bytes decode to a snapshot if and only if they are magic number, version, length and that format; the encoder produces it |
| `SnapshotCodec.EncodeSnapshotInto` | boards/common/src/transport_service.rs:725-772 | the cursor-driven encoder succeeds exactly for a long enough buffer and sensor data, writes exactly the specified bytes and nothing behind its budget |
| `ProvisioningRuns.GenerationsIncrease` | boards/stm32f4/src/identity_provisioning.rs:903-1006 | in every run with any messages, faults, power losses and restarts, of two accepted key commands the later has the greater generation |
| `ProvisioningRuns.AuditMatchesKey` | boards/stm32f4/src/identity_provisioning.rs:903-1006 | in every run a stored audit that says accepted sits beside a key record of the same generation |
| `ProvisioningRuns.StoredGenerationNeverFalls` | boards/stm32f4/src/identity_provisioning.rs:903-1006 | from message to message the stored generation never falls and a stored record never disappears, although a failed command writes the previous record back |
| `ProvisioningRuns.RefusalKeepsKeyExactly` | boards/stm32f4/src/identity_provisioning.rs:981-998 | a key command that is not accepted leaves the stored key record alone if and only if its own write did not land, or the refusal put the previous record back; otherwise its record and an audit that says accepted stay stored and the next boot comes up under it |
| `ProvisioningRuns.RefusedKeyComesUp` | boards/stm32f4/src/identity_provisioning.rs:981-998 | a run from blank flash where that happens: the answer is a refusal, the old key stays in use, and the next boot comes up under the refused key |
| `ProvisioningRuns.RevokedIsAbsorbing` | boards/stm32f4/src/identity_provisioning.rs:143-152 | once revoked, any step leaves the machine revoked and confirms nothing |
| `ProvisioningRuns.RevocationIsFinal` | boards/stm32f4/src/identity_provisioning.rs:903-1006 | in every run only restarts follow an accepted revocation: no arm, key or identity command succeeds again |
| `ProvisioningRuns.FreshNonce` | boards/stm32f4/src/store_support.rs:1616-1627 | a fresh nonce under the operator's key is beyond every nonce confirmed in that generation, and what is stored still covers them if the write lands but fails |
| `ProvisioningRuns.NoncesIncrease` | boards/stm32f4/src/identity_provisioning.rs:562-598 | in every run confirmed arms are ordered by generation and, within a generation, by strictly increasing nonce, failed nonce writes and restarts included |
| `ProvisioningRuns.AuthorisedConsumesArm` | boards/stm32f4/src/identity_provisioning.rs:233-260 | in every run an authorised identity command directly follows the arm it consumes, without a rotation, restart or other confirmation in between, and its request id and three fields are, byte for byte, the armed ones |
| `ProvisioningSteps.RestartExactly` | boards/stm32f4/src/identity_provisioning.rs:143-152 | a restart drops the arm and takes key and nonce from the stored record, no key if that is revoked, and the built-in key if there is none |
| `ProvisioningSteps.ArmExactly` | boards/stm32f4/src/identity_provisioning.rs:562-598 | for every message and ending: without a key, a tag valid under it, a nonce beyond the last one and a store that takes it, nothing happens; otherwise exactly the record with that nonce is written, and the arm is confirmed exactly when the write succeeds |
| `ProvisioningSteps.KeyRefusedExactly` | boards/stm32f4/src/identity_provisioning.rs:911-960 | a key command without a tag valid under the key held is refused as unauthorised, one that is not newer than the stored record as rollback; nothing but the audit changes |
| `ProvisioningSteps.KeyProceedsExactly` | boards/stm32f4/src/identity_provisioning.rs:962-1006 | any other key command takes effect exactly when its record and audit are written together, and is otherwise refused for the store or ends in a restart |
| `ProvisioningSteps.MatchesExactly` | boards/stm32f4/src/identity_provisioning.rs:249-261 | a command matches an arm if and only if request id and all three fields are, byte for byte, the armed ones |
| `ProvisioningSteps.CommandExactly` | boards/stm32f4/src/identity_provisioning.rs:498-528 | a message is a command if and only if its three lengths lie inside its buffers, and then carries their leading bytes |
| `ProvisioningSteps.AuthorisedExactly` | boards/stm32f4/src/identity_provisioning.rs:232-247 | a message is authorised if and only if a command with its request id and its three fields is armed |
| `ProvisioningSteps.IdentityExactly` | boards/stm32f4/src/identity_provisioning.rs:232-247 | an identity command uses up its own arm and changes nothing else of the operator; one that was not armed changes nothing |
| `ProvisioningSteps.ConfirmationsAreAuthentic` | boards/stm32f4/src/identity_provisioning.rs:562-598 | in every run each confirmed arm and each accepted key command goes back to a message of the run whose tag is valid under the key held when it came and whose write succeeded |
| `ProvisioningEcu.NonceWrite` | boards/stm32f4/src/store_support.rs:1616-1627 | what a nonce write does to the stored key record for every ending |
| `ProvisioningEcu.BothWrite` | boards/stm32f4/src/store_support.rs:1534-1613 | what a key and audit write does to both records for every ending |
| `ProvisioningEcu.OtherWrite` | boards/stm32f4/src/store_support.rs:1360-1412 | page and history writes leave key record, key audit and identity alone |
| `ProvisioningEcu.Ecu.constructor` | boards/stm32f4/src/main.rs:251-257 | a unit with blank flash is where the protocol starts |
| `ProvisioningEcu.Ecu.ObeysTheLaws` | boards/stm32f4/src/main.rs:394-431 | after any calls with any faults the object satisfies the generation, revocation, nonce and pending-arm invariants |
| `ProvisioningEcu.Ecu.Restart` | boards/stm32f4/src/main.rs:251-257 | memory is rebuilt from the stored record, which overrides the built-in key even when revoked: no arm, its key unless revoked, its nonce; this is the restart step of the protocol |
| `ProvisioningEcu.Ecu.HandleArm` | boards/stm32f4/src/identity_provisioning.rs:562-598 | one arm step of the protocol; armed is answered if and only if a key is held, the tag is valid under it, the nonce is beyond the last one, the store takes it and its write succeeds, which it does if no step is interrupted; otherwise the whole operator is rolled back; the stored identity is left alone |
| `ProvisioningEcu.Ecu.HandleKey` | boards/stm32f4/src/identity_provisioning.rs:903-1006 | one key step of the protocol, with the answer for every message and ending: accepted if and only if the tag is valid under the key held, the generation is newer and record and audit are written together, and then both are stored and the operator holds the new key; otherwise the refusal and reason that the first failing guard calls for; without interruptions the write succeeds; the stored identity is left alone |
| `ProvisioningEcu.KeyReplyExactly` | boards/stm32f4/src/identity_provisioning.rs:903-1006 | the reply to a key command is the one that tag, generation and the endings of its writes call for, and it proceeds to its write if and only if tag and generation are right |
| `ProvisioningEcu.StatusExactly` | boards/stm32f4/src/identity_provisioning.rs:414-465 | the status of a command: accepted with the lengths stored, failed in the store, or refused with the first field that is too long or else the first that is empty |
| `ProvisioningEcu.Ecu.StoreRecord` | boards/stm32f4/src/identity_provisioning.rs:414-465 | the status of an authorised command, and that accepted means the parsed record is stored |
| `ProvisioningEcu.Ecu.RunCommand` | boards/stm32f4/src/identity_provisioning.rs:467-495 | authorises, parses, stores and audits one command; the audit answered is the one stored, and a command that was not armed changes no identity |
| `ProvisioningEcu.Ecu.HandleIdentity` | boards/stm32f4/src/identity_provisioning.rs:863-889 | one identity step of the protocol; a message whose lengths do not fit is ignored; the stored identity changes only to the fields of the message, and only if exactly this message was armed; every answer is the stored audit, says authorised if and only if it was armed, and names the refused field; accepted means the fields are stored; without interruptions an armed message is accepted if and only if its fields are acceptable |
| `ProvisioningEcu.Ecu.ReportsProvisioned` | boards/stm32f4/src/main.rs:238-243 | from an accepted answer until another command is authorised, through any messages, faults and restarts, the unit reports exactly the normalised fields if and only if it has booted since, or the boot before had already installed that very record |
| `ProvisioningEcu.Ecu.Report` | boards/common/src/transport_service.rs:1364-1367 | a query is answered from what the last boot found stored, or the built-in record, over the identity of the calibration; storing a record changes nothing of that |
| `ProvisioningEcu.Ecu.SavePage` | boards/stm32f4/src/store_support.rs:1663-1673 | writes the page as the store specifies, is no protocol step unless power is lost, and leaves the identity alone |
| `ProvisioningEcu.Ecu.SaveHistory` | boards/stm32f4/src/store_support.rs:1402-1412 | writes the history as the store specifies, is no protocol step unless power is lost, and leaves the identity alone |
| `Identity.NormalizeAscii` | boards/common/src/transport_service.rs:268-284 | the loop yields the letters and digits in upper case, cut at 17 and zero-padded, and their number |
| `Identity.NormalizedIsStable` | boards/common/src/transport_service.rs:268-284 | normalising is idempotent and yields only upper-case letters and digits |
| `Identity.KeptExactly` | boards/common/src/transport_service.rs:268-284 | each of the 26 letters of either case becomes its upper case, each digit stays, every other byte is dropped |
| `Identity.KeptOfConcat` | boards/common/src/transport_service.rs:268-284 | what is kept of a text is what is kept of its parts, in order |
| `Identity.RefusalNamesField` | boards/stm32f4/src/identity_provisioning.rs:355-391 | which field a refusal names and why: the first that is too long, or else the first that is empty after normalising |
| `Identity.ParseIsExact` | boards/stm32f4/src/identity_provisioning.rs:355-391 | fields are accepted if and only if each is short enough and not empty after normalising, and the record then holds exactly the normalised fields, zero-padded |
| `Identity.AcceptedInRange` | boards/stm32f4/src/store_support.rs:732-740 | an accepted record always passes the store's length check and has no empty field |
| `Identity.RecordIsReported` | boards/common/src/transport_service.rs:128-148 | a record with three non-empty fields hides the whole fallback identity |
| `Identity.EachFieldFallsBack` | boards/common/src/transport_service.rs:128-148 | each of the three fields is the record's if it is not empty there, and otherwise the fallback's |
| `Identity.ReportedIffInstalled` | boards/common/src/transport_service.rs:128-148 | accepted fields are reported over every calibration identity if and only if their record is the one installed |
| `Identity.ProvisionedFieldsAreReported` | boards/common/src/adapter.rs:1446-1459 | after accepted fields are stored and any later operations on other regions, with any faults and restarts, they are reported if and only if there was a boot since, or their record was installed before |
| `Identity.AcceptedNotYetReported` | boards/stm32f4/src/main.rs:238-243 | a unit booted on blank flash stores an accepted identity and does not report it, unless it is the built-in one, until the next boot, and then does |
| `HistoryModel.ObservedStandsFor` | boards/common/src/transport_service.rs:1199-1213 | one observed event, dropped as a repetition or not, keeps: stored codes are the first three distinct codes ever ingested, the freeze frame is the first event with its sensor data |
| `HistoryModel.LiveStandsFor` | boards/common/src/transport_service.rs:1012-1045 | a whole observation extends that by exactly the events it ingests; which those are is `HistoryIngest.IngestedGrows` |
| `HistoryModel.FaultEventExact` | boards/common/src/transport_service.rs:1216-1300 | every fault but none stands for an event, different faults for different codes, at the time of the sensor data |
| `HistoryIngest.FaultDescribed` | boards/common/src/transport_service.rs:1216-1300 | the event of each fault: its code, source, context and time |
| `HistoryIngest.PresentInOrder` | boards/common/src/transport_service.rs:1026-1033 | the events observed from a list of slots are the filled ones, each once, an earlier slot before a later one |
| `HistoryIngest.IngestedGrows` | boards/common/src/transport_service.rs:1012-1045 | one observation ingests the filled slots of the log and then of the recent events, in slot order; if none is filled, the one event of a fault that is not the last one; otherwise nothing; all with the sensor data of the moment |
| `HistoryIngest.ObservedLiveExactly` | boards/common/src/transport_service.rs:1012-1045 | afterwards the history stands for its past and those events, and shows the live event or else the fault's, the live data and the live fault |
| `HistoryIngest.DistinctExactly` | boards/common/src/transport_service.rs:1188-1197 | the codes a history is said to stand for are the codes of its past without repetitions, in the order in which they first occur |
| `HistoryLaws.ObservingTwice` | boards/common/src/transport_service.rs:1012-1045 | observing the same live state twice is observing it once, if the last code seen is stored or the table is full |
| `HistoryLaws.ObservingTwiceDiffers` | boards/common/src/transport_service.rs:1199-1213 | otherwise some live state tells once and twice apart |
| `HistoryLaws.ObservingTwiceExactly` | boards/common/src/transport_service.rs:1012-1045 | idempotence for all live states holds if and only if the last code seen is stored or the table is full |
| `HistoryLaws.ReachableIsSettled` | boards/common/src/transport_service.rs:1012-1045 | every history built by observing and clearing meets that condition |
| `HistoryLaws.LiveKeepsSensors` | boards/common/src/transport_service.rs:1012-1045 | observing sensor data keeps a history of sensor data; `HistoryRuns.PastsOverRuns` covers clearing, saving and restoring |
| `HistoryLaws.HistorySurvivesEncoding` | boards/common/src/transport_service.rs:1143-1175 | such a history is encodable and is the same history after encoding, decoding and restoring |
| `HistoryLaws.CountsExactly` | boards/common/src/transport_service.rs:1164-1175 | a restored count is the stored byte, clamped at 3 |
| `RetainedHistory.DiagnosticHistory.constructor` | boards/common/src/transport_service.rs:997-1010 | a new history stands for nothing |
| `RetainedHistory.DiagnosticHistory.PushStored` | boards/common/src/transport_service.rs:1188-1197 | the in-place search and append stores a code once, while there is room |
| `RetainedHistory.DiagnosticHistory.ObserveEvent` | boards/common/src/transport_service.rs:1199-1213 | updates the fields as specified |
| `RetainedHistory.DiagnosticHistory.TakeIn` | boards/common/src/transport_service.rs:1012-1045 | the two passes over the slots and the fault, in place, do to the fields what is specified |
| `RetainedHistory.DiagnosticHistory.ObserveLive` | boards/common/src/transport_service.rs:1012-1045 | from any state, what the history stands for grows by the filled slots of the log and then of the recent events in order, or else by the event of a new fault, each with the live sensor data; current event, data and fault are the live ones; the tie to everything ingested since the last clear is kept |
| `RetainedHistory.DiagnosticHistory.Clear` | boards/common/src/transport_service.rs:1177-1186 | afterwards the history stands for nothing |
| `RetainedHistory.DiagnosticHistory.TakeSnapshot` | boards/common/src/transport_service.rs:1143-1156 | exports every field |
| `RetainedHistory.DiagnosticHistory.Restore` | boards/common/src/transport_service.rs:1164-1175 | takes over any snapshot, the count clamped, and with it what that snapshot stood for |
| `HistoryPersistence.SyncIsKeptExactly` | boards/common/src/transport_service.rs:464-477 | the memory of what is saved stays right if and only if no write that landed was reported as failed; a successful save puts it right |
| `HistoryPersistence.AnswersMeanExactly` | boards/common/src/transport_service.rs:464-477 | saved always means that a restart brings back this very history; unchanged means it if and only if the memory of what is saved was right |
| `HistoryPersistence.PersistenceState.RestoreFromStore` | boards/common/src/transport_service.rs:451-462 | the owner gets the stored history and the past that history stood for, or keeps its own history and past, and the memory of what is saved is right |
| `HistoryPersistence.PersistenceState.PersistIfChanged` | boards/common/src/transport_service.rs:464-477 | writes only a changed snapshot, remembers it only after success; a history of sensor data can always be staged, and without interruptions the answer is unchanged or saved according to whether it changed |
| `HistoryRuns.OtherKeepsSnapshot` | boards/stm32f4/src/store_support.rs:1360-1673 | every operation but saving a history leaves the stored history alone, whatever becomes of it |
| `HistoryRuns.PastsOverRuns` | boards/common/src/transport_service.rs:446-477 | in every run of observing, clearing, saving, other store operations and restarts, with any faults, the history stands for everything ingested since the last clear, and the one a restart comes back to stands for the past of the last history that reached the store; both hold sensor data only |
| `HistoryRuns.ObservationGrowsPast` | boards/common/src/transport_service.rs:1012-1045 | an observing move of a run adds exactly the events of the observation to the past, in order |
| `HistoryRuns.SavesAreStaged` | boards/stm32f4/src/store_support.rs:1192-1206 | in every run a save has a complete image to program, so the failure of staging that would stop the processor cannot happen |
| `HistoryRuns.SyncOverRunsExactly` | boards/common/src/transport_service.rs:451-477 | in every run, and for every history the next boot may start with, what is remembered as saved is what that boot comes up with if and only if: with a history stored, the last save that landed since boot was not left unreported; with none stored, the next boot starts with the history this one started with |
| `HistoryRuns.AnswersOverRuns` | boards/common/src/transport_service.rs:464-477 | in every run and for every next boot, saved means that it comes up with this very history, and unchanged means so if and only if that condition holds |
| `HistoryRuns.UnchangedCanBeStale` | boards/common/src/transport_service.rs:464-477 | a run from blank flash where unchanged is wrong: a sensor fault is observed, its save lands but is reported as failed, the history is cleared, the answer is unchanged, and every next boot brings the cleared code back |
| `HistoryRuns.UnchangedForThisBootOnly` | boards/common/src/adapter.rs:1525-1544 | another: nothing is stored, the answer is unchanged, and a next boot that finds a corrupt sector comes up with the code of that |
| `HistoryKeeper.Keeper.constructor` | boards/stm32f4/src/main.rs:260-264 | a unit with blank flash, its history restored or started, is where a run starts |
| `HistoryKeeper.Keeper.ObeysTheLaws` | boards/common/src/transport_service.rs:446-477 | after any calls with any faults the object satisfies the laws of all runs, and its history stands for its past |
| `HistoryKeeper.Keeper.Observe` | boards/common/src/transport_service.rs:1012-1045 | one observing move of the run |
| `HistoryKeeper.Keeper.Clear` | boards/common/src/transport_service.rs:1177-1186 | one clearing move of the run |
| `HistoryKeeper.Keeper.Restart` | boards/common/src/transport_service.rs:451-462 | one restart of the run: a fresh adapter, possibly with an observation of its own, restores what is stored |
| `HistoryKeeper.Keeper.Persist` | boards/common/src/transport_service.rs:464-477 | one saving move of the run; what its answer is worth for every next boot |
| `HistoryKeeper.Keeper.SavePage` | boards/stm32f4/src/store_support.rs:1663-1673 | one other move of the run |
| `RpFlash.ValidateRegionAccess` | boards/rp2040-pico/src/seq_kv.rs:34-42 | accepts exactly the accesses inside the region |
| `RpFlash.BlockInRegionExactly` | boards/rp2040-pico/src/seq_kv.rs:74-90 | a block at any 32-bit address is accepted if and only if it lies in the reserved region |
| `RpFlash.ValidateEraseRange` | boards/rp2040-pico/src/seq_kv.rs:44-53 | accepts exactly ordered, aligned ranges inside the region, and tells misaligned from out of range |
| `RpFlash.SectorBytesExact` | boards/rp2040-pico/src/seq_kv.rs:92-106 | the number of bytes the erase loop covers is the length asked for if and only if that is a multiple of the sector size |
| `RpFlash.Chip.RomErase` | boards/rp2040-pico/src/seq_kv.rs:92-106 | the erase loop blanks exactly its sectors |
| `RpFlash.Chip.RomProgram` | boards/rp2040-pico/src/seq_kv.rs:108-121 | the chunk loop ANDs exactly the data into the cells, whatever they held, and touches nothing else |
| `NorCells.ProgrammedOverErased` | boards/rp2040-pico/src/seq_kv.rs:108-121 | over erased cells that reproduces the data |
| `RpFlash.Chip.ReadBlock` | boards/rp2040-pico/src/seq_kv.rs:79-90 | copies a block inside the region and refuses any other, leaving the buffer alone |
| `RpFlash.Chip.Read` | boards/rp2040-pico/src/seq_kv.rs:126-131 | copies a span inside the region and refuses any other |
| `RpFlash.Chip.Erase` | boards/rp2040-pico/src/seq_kv.rs:141-145 | blanks exactly the range, or refuses and changes nothing |
| `RpFlash.Chip.Write` | boards/rp2040-pico/src/seq_kv.rs:147-177 | for every offset and length the page loop equals splicing the bytes into the region, or refuses and changes nothing |
| `TableItems.SerializeInto` | boards/rp2040-pico/src/seq_kv.rs:202-218 | fills exactly the front of the buffer with header and payload, or refuses a short buffer |
| `TableItems.DeserializeSound` | boards/rp2040-pico/src/seq_kv.rs:220-243 | whatever is read back is what the buffer starts with, the reserved byte aside |
| `TableItems.DeserializeComplete` | boards/rp2040-pico/src/seq_kv.rs:202-243 | every buffer that starts with an item reads back as that item, whatever follows |
| `TableItems.RefusedExactly` | boards/rp2040-pico/src/seq_kv.rs:220-243 | which buffers are refused as too small and which as a bad header, byte by byte |
| `TableItems.BurstRejected` | boards/rp2040-pico/src/seq_kv.rs:220-243 | a serialized item whose payload is hit by any burst of at most 16 bits is rejected |
| `TableItems.OddRejected` | boards/rp2040-pico/src/seq_kv.rs:220-243 | so is one with any odd number of flipped payload bits |
| `Crc.Crc16Ccitt` | boards/rp2040-pico/src/seq_kv.rs:250-262 | the two loops compute the specified check value from any initial value |
| `Crc.CrcIsFeedAll` | crates/ts/src/proto.rs:26-39 | the word algorithm feeds the message bit by bit through a 16-bit feedback register |
| `CrcPolynomial.CrcIsRemainder` | crates/ts/src/proto.rs:26-39 | the check value, and nothing else, is the remainder of the message times x^16, with the initial value in front, on division by x^16+x^12+x^5+1 |
| `CrcPolynomial.GeneratorExactly` | crates/ts/src/proto.rs:26-39 | the generator has exactly the coefficients of x^16, x^12, x^5 and 1 |
| `Crc.Superposition` | crates/ts/src/proto.rs:26-39 | the difference of two check values is the check value of the difference |
| `Crc.BurstDetected` | boards/rp2040-pico/src/seq_kv.rs:250-262 | for every initial value and length, messages that differ only inside 16 consecutive bits have different check values |
| `CrcPolynomial.OddDetected` | boards/rp2040-pico/src/seq_kv.rs:250-262 | so do messages of equal length that differ in any odd number of bits |
| `Crc.AdjacentBytesDetected` | boards/rp2040-pico/src/seq_kv.rs:250-262 | so do messages that differ only in two adjacent bytes |
| `Traces.FixedTrace.constructor` | boards/common/src/adapter.rs:470-476 | an empty trace of the given capacity, zero included |
| `Traces.FixedTrace.Get` | boards/common/src/adapter.rs:513-519 | the queued item, or none |
| `Traces.FixedTrace.Push` | boards/common/src/adapter.rs:521-533 | appends while there is room; attempts are accepted or counted, and the count saturates at 32 bits |
| `Traces.FixedTrace.DrainInto` | boards/common/src/adapter.rs:535-560 | hands over the oldest items in order, each exactly once, clears the rest of the buffer, and an empty buffer takes nothing |
| `Traces.FixedTrace.TakeOverflowCount` | boards/common/src/adapter.rs:494-498 | the refusals since the last time, saturated |
| `Traces.FixedTrace.Clear` | boards/common/src/adapter.rs:584-586 | drops what is queued and keeps the count |
| `Traces.FixedTrace.DrainCycle` | boards/common/src/adapter.rs:571-582 | takes the refusals since the last cycle, drains, and reports both with the length, capacity and free slots that are left |
| `Traces.TracePair.PushPair` | boards/common/src/adapter.rs:3045-3060 | the record goes first, and each overflow is answered if and only if that trace is full, a record staying behind when only the sample overflows; with equal capacities in step, both are accepted or neither, and they stay in step |
| `Traces.TracePair.DrainPair` | boards/common/src/adapter.rs:735-749 | one cycle of both traces; with buffers of equal size the traces stay in step |
| `Traces.TracePair.DrainCycle` | boards/common/src/adapter.rs:426-452 | what is drained goes to the front of the caller's arrays and the rest of them stays; with arrays of equal size, sample i is record i's sample |

## Left out

- Register access, unlock keys, interrupt masking and busy loops around the flash steps: only the sequence of erase and program steps matters here.
- The flash write fault record and its status reporting (`boards/stm32f4/src/store_support.rs`): diagnostics beside the protocol.
- Build features: the model is the firmware with CAN transport, the flash store and CAN provisioning enabled; without the last, every arm is refused.
- HMAC-SHA-256 and the parsing of the hexadecimal built-in key: parameters of the protocol.
- The key command path over an abstract key store (`boards/stm32f4/src/identity_provisioning.rs:669-738`): the firmware uses the flash-backed path, which is modelled.
- The key lifecycle status shown to the tester and the mapping of audits to messages: one-branch functions.
- CAN and USB transport, OBD-II dispatch, and the order in which the main loop pumps them, beyond the order of the three provisioning handlers.
- `DiagLog` and the adapter's sensor, fault and clear handling: their results enter the history as parameters.
- Fault transition events: they enter an observation as recent events, which are arbitrary here.
- The `sequential-storage` map of the RP2040 target and its `flash_kv.rs`: the first is foreign code, and the second programs its sidecar after the pages without a check value, so the atomicity theorem is not claimed for it.
- The identity derived from a signature or a calibration package: it is the arbitrary base identity of `Identity.WithProvisioned`.
- Range-recovery latches, telemetry tables, pin maps, capability metadata, watchdog arithmetic, Python tools and build scripts.
- KvStore.FlashKv.Read: page keys are strings of characters where the source takes byte slices; only equality with three names is used.
