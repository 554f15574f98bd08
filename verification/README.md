# VoCat control plane: a verified model

VoCat drives cellular modems and removable eUICCs. This project models the parts of its modem and eUICC
control plane in which several goroutines, an unreliable modem or an unreliable card meet, and proves in
Dafny 4.11 what those parts promise. `dafny verify dfyconfig.toml` checks everything.

The environment (card, modem, DHCP client, kernel, `ip` commands, receivers of notifications, contexts that
are cancelled) answers arbitrarily: each answer is an unconstrained value, and a command that fails may or
may not have taken effect. What happened is kept in a log, and the properties are statements about every log.

## The parts

**Profile-switch gate** (`ProfileSwitchGate`, `GateAnswers`, `SwitchProtocol`, `SwitchInvariant`, `SwitchSafety`,
`SwitchProgress`, `SwitchGateObject`, `ThreadsOnGate`). A transition system over any number of threads: fresh switches, starters of detached recoveries, recovery
goroutines and readers. A step is one critical section of `esimRecoveryMu`, one TryLock, TryRLock or unlock,
or one move of the eSIM lock. `ProfileSwitchGate` says once what each critical section does; the class
`SwitchGateObject.Gate` is the imperative form of the same sections, and every sequence of calls on it is a run
of the protocol. The inductive invariant counts, for each
role a thread can play, who plays it, and ties those counts to `refs`, the writer bit, the reservation and the
recovery entry. `GateAnswers` states what each section answers by the gate's fields alone, and `SwitchProgress` that a
thread which meets a free gate gets through.

**EnableProfile transaction** (`EnableTransaction`). The transaction inside the gate, with its retries and
uncertain commits, emits effects; a discipline over effect logs is kept by every path. DisableProfile is held
against the same discipline, with the exact condition under which it keeps it.

**BER-TLV, packages, STORE DATA** (`Bytes`, `BerTlv`, `TlvForest`, `PositiveInteger`, `BoundPackage`,
`StoreData`). The encoder, the two decoders, a grammar taken from sections 8.1.2 and 8.1.3 of ITU-T X.690
that neither decoder is written from, and the two stacked chunkers of a profile download.

**Cellular data path** (`DataPath`, `AtSession`, `AtSessionRuns`, `HookRecords`, `HookLaws`, `RoutingRule`,
`RoutingTable`, `ProtectedRoute`, `RoutingLaws`). Which backend owns the host interface; the DHCP session with its reader,
its process watcher and concurrent closers; the records its hook writes; and the protected `ip rule`.

**Call recorder** (`RecorderTape`, `Recorder`). Two streams paired into stereo frames: a functional
specification with its conservation law, and the class that updates buffers and file in place.

**Notifications** (`NotificationDelivery`, `NotificationOrder`), **network registration**
(`NasRegistration`, `NasGuarantees`) and the **registration recovery tracker** (`RecoveryTracker`,
`RecoveryEpisodes`), with `Results` and `Text` shared by the others.

## What came out

- `ESIMDisableProfile` drops the outcome of its fallback commit by AID when that answer cannot be read, and
  reports the first refusal. The card may have disabled the profile with no recovery behind it.
  `EnableTransaction.DisableKeepsDisciplineIff` proves that this is the only way the discipline is broken.
- Segmenting a package gives slices that join to the whole package exactly when every element tiles its
  parent; a child may overrun its parent because overrun is checked against the whole buffer
  (`BoundPackage.SegmentsReassembleIff`).
- A failed host cleanup or WDS Stop keeps the QMI owner for a retry exactly in the calls of the AT backend. The
  QMI backend's disable and rollback drop it (`DataPath.OwnerKeptIff`, `DataPath.QmiDisableDropsOwner`).
- Deleting an address of the session spares every other address exactly when none of them shares a subnet with it,
  because Linux drops secondaries with their primary (`AtSession.RemovalSparesIff`).
- The registration loop raises the radio again exactly when the modem acknowledged that it went down. A command that
  took effect and was not answered leaves the radio down, with no further cycle (`NasGuarantees.MayStayLoweredIff`).
- A not-ready reading of another card ends a recovery episode, so that the first card can be rebooted a second time
  (`RecoveryEpisodes.UnreadyCardKeepsIff`, `RecoveryEpisodes.OtherCardRearms`).
- The two readers of hook records differ on streams whose last record is not closed by a terminated blank line
  (`HookRecords.ReadersAgreeIff`).
- An interface that is named like a keyword of `ip rule` can put the listing parser out of step, so that a rule of
  somebody else with the same identity goes unseen. A teardown then takes it away if it stands before our own.
  `ProtectedRoute.TeardownSparesForeignIff` gives the exact condition for every table.

## Model

| member | source | states |
|---|---|---|
| SwitchInvariant.StartHolds | internal/device/esim.go:1195-1204 | The gate as created satisfies the invariant that balances leases, writer, readers, reservation and recoveries against the threads' roles. |
| SwitchInvariant.StepKeeps | internal/device/esim.go:1206-1402 | Every step of every thread, on success, refusal, cancellation or a vanished device, keeps that invariant. |
| SwitchInvariant.ReserveKeeps | internal/device/esim.go:1211-1244 | The reservation section, whether it joins a lease, refuses, waits or reserves, keeps the invariant. |
| SwitchInvariant.PublishKeeps | internal/device/esim.go:1267-1282 | Publishing a lease, or refusing to when another switch or recovery came first, keeps the invariant. |
| SwitchInvariant.ReleaseKeeps | internal/device/esim.go:1283-1300 | Giving a lease back keeps the invariant; the last holder unlocks the writer. |
| SwitchInvariant.StartRecoveryKeeps | internal/device/esim.go:1356-1372 | Registering a recovery and spawning its goroutine, with the published lease or without one, keeps the invariant. |
| SwitchInvariant.FinishKeeps | internal/device/esim.go:1393-1402 | The closing section of a recovery (result, lease, entry, broadcast) keeps the invariant. |
| SwitchInvariant.ReadKeeps | internal/device/esim.go:1323-1347 | The check, the try, the recheck and the unlock of a reader keep the invariant. |
| GateAnswers.FreshReservation | internal/device/esim.go:1215-1236 | A fresh switch gets the reservation if and only if lease, reservation and recovery are all absent, and then nothing else changes; otherwise it is refused and nothing changes. |
| GateAnswers.DetachedReservation | internal/device/esim.go:1215-1236 | A recovery joins exactly the published lease, counting itself; without a lease it gets the reservation if that is free, and waits otherwise. |
| GateAnswers.Publication | internal/device/esim.go:1267-1282 | Publication fails if and only if another lease is published, or a recovery is recorded against a fresh switch; otherwise the new lease starts with one holder and a fresh one forgets the earlier recovery. |
| GateAnswers.ReleaseAnswers | internal/device/esim.go:1283-1300 | Giving a lease back takes one holder away; the last one withdraws the lease and unlocks the writer, an earlier one does neither. |
| GateAnswers.ReadAnswers | internal/device/esim.go:1323-1335 | A reader passes by the published lease, is turned away by any reservation, lease or recovery, and may try in every other case. |
| GateAnswers.RegistrationAnswers | internal/device/esim.go:1356-1372 | A registration finds the recorded recovery, or records a new one that counts itself into the published lease if there is one. |
| SwitchSafety.ReachableIsSound | internal/device/esim.go:1206-1402 | In every reachable state the books balance, and nothing unlocked what was not locked or closed a recovery twice. |
| SwitchSafety.OneLease | internal/device/esim.go:1206-1300 | Any live holder holds the published lease; its refs is the number of holders, at least one; the writer is locked and not yet unlocked for it; no two leases coexist. |
| SwitchSafety.WriterAccounted | internal/device/esim.go:1228-1281 | The writer is locked exactly while a lease is published or one reserver is between TryLock and publication; there is at most one reserver, and the reservation is set exactly while there is one. |
| SwitchSafety.UnlocksOnce | internal/device/esim.go:1289-1300 | Each lease has unlocked the writer once if nobody holds it any more, and never while somebody does. |
| SwitchSafety.NothingLeaks | internal/device/esim.go:1206-1402 | Once every thread has returned by whatever path, reservation, writer, readers, lease, recovery and eSIM lock are clear, field by field, and every recovery has published its result. |
| SwitchSafety.SwitchExcludesReaders | internal/device/esim.go:1319-1347 | While a switch transaction or a recovery's hardware phase is under way, no ordinary reader section is open. |
| SwitchSafety.AdmissionNeedsClearGate | internal/device/esim.go:1323-1347 | A section opens only when reservation, lease and recovery are all clear; the bypass opens only for the published lease. |
| SwitchSafety.NoLateBypass | internal/device/esim.go:1319-1333 | However execution continues, a context retained from a finished transaction never passes the gate by its lease. |
| SwitchSafety.FreshYieldsOrIsJoined | internal/device/esim.go:1216-1273 | When a fresh switch and a recovery both hold, they hold the same lease. |
| SwitchSafety.StarterOwnsRecovery | internal/device/esim.go:1356-1372 | A starter, having waited out earlier recoveries under the eSIM lock, never finds another one: the registered recovery is its own. |
| SwitchSafety.ClosedGateDrains | internal/device/esim.go:1331-1346 | While a reservation, lease or recovery is recorded, admitted and in-flight readers weigh less with each of their steps, and no step of any thread adds weight. |
| SwitchSafety.DrainedTrySucceeds | internal/device/esim.go:1250-1258 | Once they are drained, the reserver's next TryLock succeeds. |
| SwitchProgress.FreshSwitchEnters | internal/device/esim.go:1206-1282 | In every reachable state with a free gate, a fresh switch gets from its call into its transaction by its own steps, as the one holder of the lease it published. |
| SwitchProgress.FreshSwitchLeaves | internal/device/esim.go:1283-1300 | Its release then leaves the gate free again, with the lease withdrawn and the writer unlocked. |
| SwitchProgress.RecoveryRuns | internal/device/esim.go:1373-1402 | A registered recovery that meets an otherwise free gate runs through to its published result and leaves the gate free. |
| SwitchProgress.RecoveryJoins | internal/device/esim.go:1216-1220 | A recovery that meets a published lease is in its hardware phase after one step, counted in that lease. |
| SwitchProgress.ReaderEnters | internal/device/esim.go:1323-1347 | On a gate with nothing recorded and no writer, a reader is in its section after its own steps. |
| SwitchProgress.ReaderLeaves | internal/device/esim.go:1323-1347 | Closing the section counts it out. |
| SwitchProgress.OwnerBypasses | internal/device/esim.go:1319-1330 | A caller with the published lease passes whatever else is recorded. |
| SwitchProgress.StarterAnswers | internal/device/esim.go:1303-1372 | The eSIM lock goes to whoever finds it free; its holder waits exactly for a recorded recovery, wakes exactly at its result, and starts a goroutine that owns the published lease or begins without one. |
| SwitchGateObject.Gate.Reserve | internal/device/esim.go:1215-1236 | The section on the manager's maps does exactly what the protocol's step does. |
| SwitchGateObject.Gate.Publish | internal/device/esim.go:1267-1281 | As above, for publication. |
| SwitchGateObject.Gate.Release | internal/device/esim.go:1289-1300 | As above, for giving a lease back. |
| SwitchGateObject.Gate.CheckRead | internal/device/esim.go:1324-1335 | As above, for a reader's first check; nothing changes. |
| SwitchGateObject.Gate.Register | internal/device/esim.go:1356-1372 | As above, for the registration of a recovery. |
| SwitchGateObject.Gate.Finish | internal/device/esim.go:1393-1402 | As above, for the end of a recovery. |
| ThreadsOnGate.Manager.Perform | internal/device/esim.go:1206-1402 | Any sequence of steps of any threads that calls the gate's methods is a run of the protocol and leaves the gate in its state, so from a new gate on every such state is reachable and everything above holds of it. |
| EnableTransaction.Transaction.Switch | internal/device/esim.go:953-1191 | For every card and transport answer the discipline holds and the lock is given back. At most 11 retries of a busy card and 2 of a lost answer, none given up early; success if and only if the last attempt opened, was accepted and was confirmed; at most 2 * (11 + 2 + 1) commits. |
| EnableTransaction.Transaction.CommitProfile | internal/device/esim.go:1044-1145 | The reply is that of the commit by identifier, or of the one fallback commit by AID where the first answer permits it. |
| EnableTransaction.Transaction.VerifyAttempts | internal/device/esim.go:1719-1798 | Success exactly when one of the permitted rounds reads the target before a cancellation, and then the last effect is that live read. |
| EnableTransaction.UncertainCommitIsCovered | internal/device/esim.go:1094-1127 | The effect right after a commit whose outcome is unknown registers a recovery, or is the soft reset of the +CME ERROR 0 path. |
| EnableTransaction.RefusalStartsNothing | internal/device/esim.go:1044-1145 | After a refusal comes the unlock, or the one fallback commit that the answer permits; never a recovery. |
| EnableTransaction.StartsOnlyItsOwn | internal/device/esim.go:966-972 | A transaction starts at most one recovery, after waiting out an earlier one under the same hold of the lock, and afterwards only unlocks and reads. |
| EnableTransaction.DisableCallMeans | internal/device/esim_disable.go:102-155 | What a DisableProfile call sends: no commit before the channel is open, a second one only after one of the three refusals that permit it with the AID known; a recovery is started exactly for an accepted or unreadable deciding answer. |
| EnableTransaction.SuccessIsWitnessed | internal/device/esim.go:1150-1191 | A verified log holds a live read of the target after the accepted commit, with no later commit and no later read. |
| EnableTransaction.DisableKeepsDisciplineIff | internal/device/esim_disable.go:102-155 | DisableProfile keeps the discipline if and only if no fallback commit ends without a readable result. |
| EnableTransaction.DisableLosesAnUncertainCommit | internal/device/esim_disable.go:117-152 | The failing case, spelled out. |
| BerTlv.DerEncodeTag | internal/device/esim_der.go:13-28 | The loop computes the tag octets that the specification names. |
| BerTlv.DerElementAt | internal/device/esim_der.go:76-117 | The offset decoder computes the specification of one element. |
| BerTlv.DerParse | internal/device/esim.go:685-697 | The tree decoder computes the specification of a sequence. |
| BerTlv.DerDecodeOne | internal/device/esim.go:699-745 | One node, recursively, terminating because a value is shorter than what holds it. |
| BerTlv.DecodedIsElement | internal/device/esim_der.go:76-117 | Whatever the offset decoder accepts is an element by the grammar, within the buffer and at least two octets long. |
| BerTlv.ElementIsDecoded | internal/device/esim_der.go:76-117 | Every element of the grammar is accepted with its tag, header length and total length. |
| BerTlv.DecodersAgree | internal/device/esim.go:699-745 | Both decoders accept the same inputs with the same tag, value and next offset; each success consumes at least two octets and its value is shorter than the rest. |
| BerTlv.DecodeOneIffElement | internal/device/esim.go:699-745 | The tree decoder stops at an offset if and only if an element of the grammar ends there. |
| TlvForest.TagRoundTripIff | internal/device/esim_der.go:13-28 | An encoded tag is an identifier for that tag if and only if the tag is valid. |
| TlvForest.LengthRoundTrip | internal/device/esim_der.go:30-42 | Every length below 2^24 is read back from its octets. |
| TlvForest.ElementReadBack | internal/device/esim_der.go:44-61 | An encoded tree inside any surrounding octets is decoded to its tag, content and children, and the next offset is its end. |
| TlvForest.ParseEncode | internal/device/esim.go:685-697 | Parsing the encoding of a forest with valid tags of up to four octets and contents below 2^24 octets returns that forest. |
| TlvForest.EncodingIsUnambiguous | internal/device/esim_der.go:44-61 | Two such forests with the same encoding are equal. |
| TlvForest.ChildrenByBit | internal/device/esim.go:699-745 | For every class and number: an element whose first octet has the bit 0x20 has the parse of its value as children, and one without it has none. |
| TlvForest.LengthIsShortest | internal/device/esim_der.go:30-42 | A length takes the fewest octets, in the short form below 128. |
| TlvForest.ParseFollowsGrammar | internal/device/esim.go:685-697 | A parse is empty if and only if no element of the grammar starts at the offset; otherwise it is that element, then the parse from its end. |
| TlvForest.DerFindAll | internal/device/esim.go:759-768 | The loop finds every node with the tag, in order. |
| TlvForest.FindsInOrder | internal/device/esim.go:747-768 | For every content: a value inside a universal SEQUENCE is found, before a later one with the same tag; a missing tag gives none. |
| PositiveInteger.EncodePositiveInteger | internal/device/esim_notifications.go:25-41 | The in-place fill of the eight-octet buffer computes the specified encoding. |
| PositiveInteger.DecodeEncode | internal/device/esim_notifications.go:25-58 | Decoding returns every encoded 64-bit value, from at most nine octets. |
| PositiveInteger.EncodeDecodeIff | internal/device/esim_notifications.go:43-58 | Encoding a decoded value gives the same octets if and only if they were the shortest, as section 8.3 of ITU-T X.690 asks. |
| PositiveInteger.RequestsCarrySequence | internal/device/esim_notifications.go:60-74 | Searching a built retrieve or remove request for tag 0x80 gives octets that decode to the sequence number, for every 64-bit value. |
| PositiveInteger.RequestOctets | internal/device/esim_notifications.go:60-74 | The three requests octet by octet, tags and lengths included, for every 64-bit value. |
| BoundPackage.SegmentBoundProfilePackage | internal/device/esim_lpa.go:458-514 | The nested walk computes the specified slices, or fails exactly where they do not exist. |
| BoundPackage.SegmentsReassembleIff | internal/device/esim_lpa.go:458-514 | Segmentation succeeds with slices that join to the BF36 element if and only if its elements tile their parents. |
| BoundPackage.OverrunIsSegmented | internal/device/esim_lpa.go:480-508 | The failing case: a package of nine octets whose child claims more is cut into slices of twelve. |
| BoundPackage.EncodedPackageSlices | internal/device/esim_lpa.go:458-514 | For an encoded package, behind any other elements and ahead of any octets, the slices are the header with the first child, then those of each further child. |
| BoundPackage.SlicesByTag | internal/device/esim_lpa.go:494-507 | A child tagged A1 or A3 gives its header and then each of its children; one with any other tag gives exactly one slice. |
| BoundPackage.FullPackageSlices | internal/device/esim_lpa.go:458-514 | The package of section 2.5.5 of GSMA SGP.22, BF23, A0, A1, A2, A3: its slices, written out. |
| StoreData.BlocksOfRequest | internal/device/esim_lpa.go:33-63 | The data fields join to the request; each is 1 to 120 octets, full except the last; only the last has P1 = 0x91; P2 counts modulo 256. |
| StoreData.AssembleAll | internal/device/esim_lpa.go:432-454 | From the stream of blocks alone the card recovers every segment. |
| StoreData.PackageReachesCard | internal/device/esim_lpa.go:432-514 | For every tiling package the data fields of all blocks of all segments are the BF36 element, octet for octet. |
| StoreData.Channel.Transmit | internal/device/esim.go:646-665 | One command, then GET RESPONSE with the announced length while the status is 61xx, at most 24 times. The answer is the payloads joined with the status of the last exchange; none if and only if an exchange went unanswered. |
| StoreData.Channel.StoreDataChained | internal/device/esim_lpa.go:33-63 | Whatever the card answers: a response if and only if every block was answered and each final status is 0x9000 or 0x9100 to 0x91FF, and it is everything received; the blocks go in order, and nothing follows the first other status or missing answer. |
| StoreData.Channel.LoadBoundProfilePackage | internal/device/esim_lpa.go:432-454 | A result means that the blocks of all segments were sent, in order, and is the last response with content; short of the last segment only an unanswered or refused command stops it. |
| DataPath.Device.SetNetwork | internal/device/data.go:304-344 | Success if and only if each thing that the path needs succeeded, as listed; it leaves exactly the requested owner, or none when disabling, and the backend is recorded. An AT owner that could not be cleaned up stops the QMI backend; after a failed Stop or host cleanup the QMI owner is kept if and only if the AT backend was asked. |
| DataPath.Device.EnableAT | internal/device/data.go:424-514 | Success if and only if interface and link are known, the earlier owners could be released and activation and DHCP succeeded; a session starts only with the interface free; a failure keeps an owner whose cleanup failed. |
| DataPath.Device.DisableAT | internal/device/data.go:399-423 | The AT owner goes first, then the QMI owner; whichever cannot be cleaned up remains and makes the call fail. |
| DataPath.Device.CloseATHost | internal/device/data.go:517-533 | The owner is cleared if and only if its cleanup succeeded. |
| DataPath.Device.StopOwnedQMI | internal/device/data_transition_linux.go:15-52 | The owner is given up only after its host path is gone and WDS Stop succeeded. |
| DataPath.Device.EnableQMI | internal/device/data_linux.go:575-672 | Success if and only if addressing is known, the host path could be configured and the old session is still connected or a new one was dialled; failure owns none, or the old one untouched; a rollback with a failed Stop or cleanup owns none. |
| DataPath.Device.DisableQMI | internal/device/data_linux.go:546-609 | Whatever is answered, the exact effects: the host path is cleared as far as it goes, the session is stopped and closed, and only the Stop decides the result, so that a failed one loses the owner. |
| DataPath.OwnerKeptIff | internal/device/data_linux.go:524-609 | Over every run: a call that finds a QMI owner and meets a failed host cleanup or Stop returns with that owner if and only if it is a call of the AT backend. |
| DataPath.AtOwnerKept | internal/device/data.go:517-552 | Over every run: a call whose cleanup of the AT session fails does nothing more, and the owner stays. |
| DataPath.QmiDisableDropsOwner | internal/device/data_linux.go:546-558 | The failing case: a disable that meets a failed Stop leaves nobody to retry it. |
| DataPath.Device.Invalidate | internal/device/data.go:535-552 | Before a reset the QMI owner is forgotten, the AT owner only once clean. |
| DataPath.NeverBoth | internal/device/data.go:304-552 | After no sequence of calls do both backends own a session. |
| DataPath.StartsOnFreeInterface | internal/device/data.go:434-506 | Every session that was ever started, by either backend, started while none was owned. |
| DataPath.HandoverIsReleased | internal/device/data_transition_linux.go:15-52 | Every handover to AT follows a successful WDS Stop, and before it the removal of the host path or the finding that the device has no interface; neither is undone before the handover. |
| AtSession.AppliesAccounted | internal/device/data_at_linux.go:527-611 | Applying any record keeps: a lease is exactly the owned address and is on the interface, what the session installed and is still there is owned, and foreign addresses outside the session's subnets are intact. |
| AtSession.RemovalSparesIff | internal/device/data_at_linux.go:374-388 | Deleting owned addresses leaves every other one in place, whatever the kernel takes along, if and only if none shares a subnet with one that is deleted from the interface. |
| AtSession.InstallingFirstCanLoseLease | internal/device/data_at_linux.go:560-567 | Why old addresses go first: in the other order, deleting one can take the new lease's address along. |
| AtSession.Session.RemoveOwnedAddress | internal/device/data_at_linux.go:374-388 | An address leaves the books only when it is gone, and nothing disappears but it and secondaries of its subnet. |
| AtSession.Session.Bind | internal/device/data_at_linux.go:547-611 | The lease is recorded if and only if no other address is owned any more and address and routes were configured. |
| AtSession.BoundCanBeReported | internal/device/data_at_linux.go:547-611 | From every state a bound record has an application that leaves its address owned, installed and reported. |
| AtSession.SubnetMeans | internal/device/data_at_linux.go:374-388 | Sharing a subnet, for the prefix lengths 0, 8, 24, 25 and 32: equal leading bits of the two addresses. |
| AtSession.Session.HandleLeaseEvent | internal/device/data_at_linux.go:468-475 | Nothing once events are stopped, otherwise one of the specified changes. |
| AtSessionRuns.NextKeeps | internal/device/data_at_linux.go:296-500 | Every step of reader, watcher, process and closers keeps the invariant of the session. |
| AtSessionRuns.LeaseDescribesHost | internal/device/data_at_linux.go:527-611 | In every state of every interleaving, a present lease is exactly the owned address, and is on the interface; foreign addresses outside the session's subnets are still there. |
| AtSessionRuns.CloseNilLeavesNothing | internal/device/data_at_linux.go:296-343 | A nil result means that every address ever attempted is gone, that only foreign addresses are left, and that all of those outside the session's subnets are. |
| AtSessionRuns.SessionCanReport | internal/device/data_at_linux.go:527-611 | From any host a new session has a run to a reported lease with its address installed, in a state from which a first Close can succeed. |
| AtSessionRuns.CloseCanSucceed | internal/device/data_at_linux.go:296-343 | A first Close of any running session whose commands all obey goes through and returns nil, after one stop. |
| AtSessionRuns.AttemptsAreShared | internal/device/data_at_linux.go:296-343 | At most one attempt is at work, DHCP is told to stop at most once, and all callers of one attempt return the same result. |
| AtSessionRuns.FailedAttemptCanBeRetried | internal/device/data_at_linux.go:296-343 | After a failed attempt the next call begins another one, without a second stop of the process. |
| AtSessionRuns.DeletesOnlyOwned | internal/device/data_at_linux.go:348-388 | No step takes an address beyond the reach of deleting the owned ones. |
| AtSessionRuns.StepsAreIrrevocable | internal/device/data_at_linux.go:481-485 | Once events are stopped no record changes the session and a dropped lease stays dropped. |
| AtSessionRuns.EndsAreForGood | internal/device/data_at_linux.go:487-499 | After the exit cleanup the lease stays nil for ever; after a successful Close nothing is ever touched again. |
| HookRecords.PipeReader.Receive | internal/device/data_at_linux.go:409-438 | After any pieces, the records delivered, the open record and the leftover are those of the whole stream received. |
| HookRecords.PiecesDoNotMatter | internal/device/data_at_linux.go:409-438 | Reading on from the leftover of any prefix is reading the whole stream. |
| HookRecords.DeliveredRecordsStay | internal/device/data_at_linux.go:418-438 | What was delivered is never changed by later bytes. |
| HookRecords.HandleEventLines | internal/device/data_at_linux.go:503-525 | The line reader computes its specification, carriage returns included. |
| HookRecords.ReadersAgreeIff | internal/device/data_at_linux.go:503-525 | Both readers deliver the same records if and only if every assignment is followed by a terminated blank line. |
| HookRecords.ReadersAgreeOnEndedStreams | internal/device/data_at_linux.go:409-525 | They agree on every stream that ends with an empty line. |
| HookLaws.PutMeans | internal/device/data_at_linux.go:515-520 | The key is what stands before the first equals sign, the value what follows it, both trimmed; a line without one is passed over. |
| HookLaws.TrimTakesWhite | internal/device/data_at_linux.go:510-520 | Trimming takes characters 9 to 13 and 32 from both ends, all of them and nothing else. |
| HookLaws.WrittenRecordIsRead | internal/device/data_at_linux.go:71-85 | Any record written as the hook writes it is read back as exactly its fields. |
| RoutingRule.ParseExportProxyRule | internal/device/data_linux.go:1097-1162 | The field walk computes its specification. |
| RoutingRule.MatchingExportProxyRules | internal/device/data_linux.go:1074-1092 | The owned rules in order, and whether some other rule shares their identity. |
| RoutingRule.NumbersRoundTrip | internal/device/data_linux.go:1164-1171 | Every 32-bit number is read back from its hexadecimal and its decimal form. |
| RoutingTable.ListedRuleReadBack | internal/device/data_linux.go:1097-1162 | What the parser makes of any rule of the kernel, in the words and the order iproute2 prints, whatever its interfaces are called: every field, and what a keyword among the names costs. |
| RoutingTable.RecognisedIff | internal/device/data_linux.go:1074-1092 | A rule with the identity is recognised if and only if its interface names keep the parser in step; nothing else is ever taken for one, and then it is exact if and only if nothing narrows it. |
| RoutingTable.RecognisesExactly | internal/device/data_linux.go:1074-1092 | From the listing of any table: one owned entry for each rule that is wholly ours, and a conflict if and only if a narrowed rule shares the identity and is in step. |
| RoutingTable.NetIsEverythingIff | internal/device/data_linux.go:1115-1123 | A printed source or destination is one of the two texts for everything if and only if the rule has no prefix there. |
| RoutingTable.OwnedIsForEveryPacket | internal/device/data_linux.go:1074-1092 | An owned rule matches every source and destination; with a source or destination prefix a rule is never exact and never owned, and some packet does not match it. |
| RoutingLaws.FieldAnswers | internal/device/data_linux.go:1108-1160 | What each keyword with its value does to the rule read so far, and how far the parser moves on. |
| RoutingLaws.MarkExactIff | internal/device/data_linux.go:1125-1147 | A mark is exact if and only if it is the first, is a number, and any mask behind it is one without a second slash. |
| RoutingLaws.LineAnswers | internal/device/data_linux.go:1097-1162 | A line is a rule if and only if it starts with a decimal priority and a colon; it is exact only with source, mark and table given. |
| RoutingLaws.InstalledLine | internal/device/data_linux.go:1044-1064 | The rule of an installation, as it is listed, word for word. |
| RoutingLaws.DeleteCompares | internal/device/data_linux.go:997-1006 | A delete compares priority, mark, table and a given protocol, and nothing else. |
| RoutingLaws.PrefixRuleSurvives | internal/device/data_linux.go:988-1008 | A rule for a source or destination prefix survives every teardown of a table that exposes no rule. |
| ProtectedRoute.RuleTable.Teardown | internal/device/data_linux.go:988-1008 | On every table and for every answer of the commands: success if and only if the table could be listed, no conflict shows, and each delete took effect and was answered so; a conflict changes nothing; one delete is issued for each owned rule, whose omitted selectors are wildcards. |
| ProtectedRoute.RuleTable.EnsureRule | internal/device/data_linux.go:1047-1064 | On every table: success if and only if the table could be listed, no conflict shows and our rule is there or its addition took effect and was answered so; a conflict changes nothing; at most our rule is added. |
| ProtectedRoute.DeletesSpareForeignIff | internal/device/data_linux.go:997-1006 | The deletes of a teardown leave every foreign rule in place, whichever take effect, if and only if no foreign rule with the identity stands before an owned one whose delete matches it. |
| ProtectedRoute.TeardownSparesForeign | internal/device/data_linux.go:988-1008 | On a table without an exposed rule, every foreign rule stays in order, and success leaves exactly those. |
| ProtectedRoute.TeardownSparesForeignIff | internal/device/data_linux.go:988-1008 | Every teardown of a table spares the foreign rules if and only if none is exposed: in danger, and no conflict shows. |
| ProtectedRoute.InStepIsNotExposed | internal/device/data_linux.go:1074-1092 | If no rule is out of step, none is exposed, and every conflict shows. |
| ProtectedRoute.EnsureSparesForeign | internal/device/data_linux.go:1044-1064 | Installing leaves every foreign rule of every table in place. |
| ProtectedRoute.DeleteTakesFirstOwned | internal/device/data_linux.go:996-1006 | Out of danger, the delete with the first owned rule's protocol removes that rule and no other. |
| ProtectedRoute.EnsureIsIdempotent | internal/device/data_linux.go:1044-1064 | A second install after a success changes nothing. |
| ProtectedRoute.TeardownUndoesEnsure | internal/device/data_linux.go:988-1064 | Install, then a successful teardown that exposes no rule, restores a table that did not have the rule. |
| ProtectedRoute.StrangersStay | internal/device/data_linux.go:988-1064 | Over any history of installs and teardowns by any interfaces, none meeting an exposed rule, every other rule stays, in order. |
| ProtectedRoute.KeywordNameExposesIff | internal/device/data_linux.go:1108-1160 | For every identity and name: a foreign rule for the interface of that name, ahead of our own, is exposed if and only if the name is a keyword. |
| ProtectedRoute.KeywordNameTakesForeignRule | internal/device/data_linux.go:988-1008 | The failing case: a teardown of that table succeeds, removes the foreign rule and leaves our own. |
| RecorderTape.RunConserves | internal/audiowav/recorder.go:81-151 | Over any calls: frames plus buffer are samples accepted plus silence, for both channels; each channel without silence, then its buffer, is the input in order; at most one buffer is non-empty and both stay within 240000. |
| RecorderTape.SilenceIffLeadExceeded | internal/audiowav/recorder.go:81-124 | Silence is written if and only if some side once led by more than 240000 samples. |
| RecorderTape.FramesPairByPosition | internal/audiowav/recorder.go:126-151 | Within that lead, frame n holds sample n of both sides. |
| RecorderTape.FlushedIsComplete | internal/audiowav/recorder.go:153-201 | A closed recording holds everything both sides handed in. |
| Recorder.SizesFitIff | internal/audiowav/recorder.go:185-199 | The header sizes are 4 * frames and 36 + 4 * frames if and only if these fit in 32 bits. |
| Recorder.HeaderOctets | internal/audiowav/recorder.go:44-56 | The placeholder header, all 44 octets. |
| Recorder.ImageReadBack | internal/audiowav/recorder.go:105-151 | Reading frame n back from the octets gives its two samples, silence as zero. |
| Recorder.Recorder.Append | internal/audiowav/recorder.go:81-103 | Without a write failure, buffers and file change as the specification says; after one, nothing is kept; on a healthy disk there is none. |
| Recorder.Recorder.Close | internal/audiowav/recorder.go:153-201 | A nil result means that the file is the finished recording; on a healthy disk an open one is always finished; a second call changes nothing. |
| NotificationDelivery.ArrangeSorts | internal/device/esim_notifications.go:153-158 | The list is a permutation ordered by receiver and then sequence number, receivers being compared octet by octet. |
| NotificationDelivery.LessMeans | internal/device/esim_notifications.go:153-158 | Receivers compare by their first different character, and a shorter name goes before its continuations. |
| NotificationDelivery.Channel.Retrieve | internal/device/esim_notifications.go:240-266 | The older request is sent only after the card's explicit undefinedError, and at most once. |
| NotificationDelivery.Channel.Deliver | internal/device/esim_notifications.go:301-328 | Every listed item has one outcome: missing, rejected, retained or delivered, each with the exact effects that led to it; skipped exactly when an earlier one to its receiver failed; nil exactly when all were delivered; the card loses only what was sent, and everything confirmed. |
| NotificationOrder.GroupsAreIndependent | internal/device/esim_notifications.go:298-328 | A delivery of the list is, and is nothing but, a delivery of each receiver's group on its own. |
| NotificationOrder.ReceiverSeesPrefix | internal/device/esim_notifications.go:298-328 | For each receiver: a delivered prefix in sequence order, at most one more tried, nothing after it. |
| NotificationOrder.NothingRemovedBeforeAcknowledged | internal/device/esim_notifications.go:284-296 | Every removal directly follows the acknowledgement of that sequence number, which was listed. |
| NasRegistration.Session.EnsureRegistration | internal/device/registration_native_qmi.go:422-554 | Against any modem: success if and only if the last reading is complete; all budgets hold; nothing that a reading calls for is left undone before the next wait; a failure has used up 45 readings or ends in a refusal; no acknowledged lowering of the radio is left without the command to raise it. |
| NasRegistration.Session.TriggerManual | internal/device/registration_native_qmi.go:378-404 | One search; after an unsupported one a registration with the technology of the request or of the serving cell, and a failure without a request where neither is known; each answer decides the result as stated. |
| NasRegistration.Session.Prepare | internal/device/registration_native_qmi.go:436-466 | Success if and only if the modem reads as up, or was powered, waited for and reads as up again, up being none of low power, offline, shutdown and reset, and a restored preference was not refused; the log says so, and any failure ends in a refusal. |
| NasGuarantees.SuccessIsWitnessed | internal/device/registration_native_qmi.go:485-489 | Success ends with a reading registered or roaming, on the target, with packet service attached. |
| NasGuarantees.GoalMeans | internal/device/registration_native_qmi.go:485-489 | The goal is reached exactly by registered or roaming service on the requested country and network code; complete is that with packet service attached. |
| NasGuarantees.DutiesMean | internal/device/registration_native_qmi.go:490-551 | What a reading calls for, in numbers: the attach, the first registration, the one search, the one radio cycle. |
| NasGuarantees.NothingIsLeftUndone | internal/device/registration_native_qmi.go:469-554 | In every run nothing is owed to the latest reading when the loop waits, and every reading but the first follows a wait. |
| NasGuarantees.BudgetsHold | internal/device/registration_native_qmi.go:469-553 | At most 45 readings, two registrations, two searches, one radio cycle, counted in the log. |
| NasGuarantees.NoEarlyCycle | internal/device/registration_native_qmi.go:540-548 | The radio is lowered only after 30 readings, or 3 once a search was refused as unsupported. |
| NasGuarantees.NoEarlySearch | internal/device/registration_native_qmi.go:526-539 | A network search waits for the second reading, unless the network was named in manual mode. |
| NasGuarantees.RefusalIsLast | internal/device/registration_native_qmi.go:436-553 | Over every run: a failed attach, registration, search or preference, an unreadable mode and a cancelled wait end it, the wait inside a radio cycle excepted. |
| NasGuarantees.ManualSearchesFirst | internal/device/registration_native_qmi.go:378-404 | For a network named in manual mode, a registration only ever directly follows a search that was refused as unsupported, and names a technology. |
| NasGuarantees.RaisedIffAcknowledged | internal/device/registration_native_qmi.go:541-548 | A command to lower the radio is followed by a wait and the command to raise it if and only if the modem acknowledged it. |
| NasGuarantees.MayStayLoweredIff | internal/device/registration_native_qmi.go:541-548 | Over every run: the radio was asked down and not asked up again if and only if a lowering was not acknowledged, whether or not it took effect. |
| NasGuarantees.UnansweredLoweringIsLeft | internal/device/registration_native_qmi.go:540-551 | The failing case, as a log that keeps every rule. |
| NasGuarantees.DisturbsOnlyAwayFromGoal | internal/device/registration_native_qmi.go:485-548 | Registration, search and radio cycle only ever answer a latest reading that is not on the requested network. |
| RecoveryTracker.Tracker.ObserveDevice | cmd/vocat/main.go:104-152 | The map of episodes changes for this device only, as the specification says. |
| RecoveryTracker.Tracker.CompleteAction | cmd/vocat/main.go:154-173 | Likewise for a completion. |
| RecoveryEpisodes.SnapshotMeans | cmd/vocat/main.go:104-137 | Recovered is flight mode, or status 1 or 5; stuck is a ready, readable card in an EC20 with status 0 or 2. |
| RecoveryEpisodes.OffersWhenDue | cmd/vocat/main.go:131-151 | A stuck modem begins an episode; in one it is offered exactly what is due. |
| RecoveryEpisodes.CompletionCounts | cmd/vocat/main.go:154-173 | A completion of the pending action clears it, and counts with its time if and only if the action was issued. |
| RecoveryEpisodes.AtMostTwoAttempts | cmd/vocat/main.go:104-173 | In any history, the attempts issued in one episode are a prefix of: registration, reboot. |
| RecoveryEpisodes.OnePendingAction | cmd/vocat/main.go:138-150 | Between two offers of one episode the first was completed. |
| RecoveryEpisodes.RegistrationWaitsForGrace | cmd/vocat/main.go:141-145 | A registration is offered no earlier than the grace period after the episode began, and before any attempt. |
| RecoveryEpisodes.RebootWaitsForEscalation | cmd/vocat/main.go:146-150 | A reboot is offered only after exactly one issued registration, and no earlier than the escalation delay after it. |
| RecoveryEpisodes.EpisodeEndsForCause | cmd/vocat/main.go:115-124 | An episode ends if and only if flight mode, registration or another card is observed. |
| RecoveryEpisodes.UnreadyCardKeepsIff | cmd/vocat/main.go:115-133 | An unreadable or not-ready card asks for nothing, and keeps the episode if and only if it reads no ICCID or the same; another ICCID ends it. |
| RecoveryEpisodes.OtherCardRearms | cmd/vocat/main.go:119-137 | The failing case: one not-ready reading of another card in between, and the first card is rebooted twice. |
| RecoveryEpisodes.StrayCompletionChangesNothing | cmd/vocat/main.go:163-166 | A completion for another card or another action changes nothing. |

## Left out

- SwitchInvariant.StepKeeps: one device per gate, because the maps are keyed by device and a device's record is never replaced; the eSIM lock is shared by all devices and is taken as one lock.
- SwitchSafety.ClosedGateDrains: proves that draining makes progress, not that the scheduler lets readers proceed; timeouts and cancellations are steps that may happen at any point.
- EnableTransaction.Transaction.Switch: the effects of draining card toolkit commands, cached lists, snapshots and the modem configuration step after success are not modelled, as they decide nothing here.
- EnableTransaction.Transaction.VerifyAttempts: an ICCID is an abstract text, so its BCD encoding and the extraction from AT answers are not modelled.
- BerTlv.DerElementAt: the 64-bit platform's integers are assumed, as the decoders' tags and lengths would overflow 32-bit ones.
- StoreData.Channel.LoadBoundProfilePackage: progress callbacks and the interpretation of the installation result are not modelled.
- DataPath.Device.EnableQMI: one control path per device; opening a session while one with another path is recorded is not modelled, and neither are APNs, IP families and reported addresses.
- DataPath.OwnerKeptIff: speaks of removing the QMI host path and stopping its session; routes that cannot be cleared while a new generation is being prepared are ignored by the code and are no effect here.
- AtSessionRuns.CloseNilLeavesNothing: routes and rules of the lease are covered by one failing or succeeding step; only addresses are followed one by one.
- AtSession.Session.HandleLeaseEvent: how the texts of a record give an address and a prefix length is not modelled; a record is classed as bound to an address, as deconfigured or as anything else.
- HookRecords.HandleEventLines: the line scanner's limit on line length is not modelled, and trimming knows the ASCII white space only.
- AtSession.RemovalSparesIff: an address that shares a subnet with a deleted one may or may not go with it; which of them is the primary is not tracked.
- RoutingRule.NumbersRoundTrip: digits separated by underscores, which the library accepts after 0x, and numbers that are both out of range and malformed are not modelled; splitting a line into fields is taken as given.
- RoutingTable.ListedRuleReadBack: the words are those of iproute2's `rule show` with numeric output; a rule of an action that iproute2 has no word for is not modelled.
- ProtectedRoute.RuleTable.Teardown: nothing else edits the table between the listing and the last delete; the DNS file and the flush of the interface's routes are not modelled.
- Recorder.Recorder.Append: seeking and creating the file are reduced to writes that may fail part way.
- NotificationDelivery.Channel.Deliver: a receiver is the address in the card's list; a card that returns another address with the notification itself would have it delivered there. Sequence numbers removed by others are not modelled.
- NasRegistration.Session.EnsureRegistration: modes, networks and technologies are abstract values; elapsed time is not modelled.
- RecoveryEpisodes.AtMostTwoAttempts: stated per episode; a completion that outlives its episode may be counted for the next one of the same card, and callers complete only an action they were offered.
- RecoveryTracker.Tracker.ObserveDevice: the actions themselves (revalidation, reboot, waiting for the modem) are not modelled.
- ES9+ over HTTPS, JSON, X.509, confirmation codes, QMI and serial transports, PC/SC and sysfs are represented by their answers only.
- Carrier tables, phone numbers, USSD, configuration, web interface, command line and installers are not part of this model.
