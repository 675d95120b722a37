# Agent coordination, proved

A Dafny model of the file- and SQLite-backed coordination layer of the
`codeagent` package: the mailbox and its claim protocol, sending and replaying
messages, the request ledger, the gateway's commands, role leases and event
log, the stream poll, and the two trimming algorithms of the oracle. Directories
are maps from file name to contents, tables are maps or sequences of rows, and
a completed rename or link, a section under one lock, or one SQL transaction is
one step.

| component | files |
|---|---|
| mailbox claims | `MailboxFs` (directories, constants), `ClaimProtocol` (interleavings, conservation), `ClaimSafety` (claim invariant, lease safety), `ClaimRuns` (runs that mark the limits), `MailboxStore` (the store's loops as methods), `StoreRefinement` (the methods are runs of the protocol), `ServiceRead` (parking) |
| sending | `Protocol` (message schema), `SendReplay` (send as a method that may die between writes), `SendRuns` (crash and replay), `Receipts` (READ receipts) |
| ledger | `Ledger` |
| gateway | `Commands`, `CommandSend`, `RuntimeEvents`, `RoleClaims`, `EventStore`, `EventRuns`, `EventPaging` |
| streaming | `StreamPoll` |
| oracle | `Trim`, `Truncate` |

Operations that change state are methods of a class with the source's fields;
each is proved against a function of the old state, and the theorems are
lemmas about that function over all runs, and lemmas that say in other words
when each operation succeeds and what it leaves. Check everything with
`dafny verify dfyconfig.toml`.

## Where the code and the obvious claim differ

- Leases. The cutoff is `now - 3600 + 30`, so a claim can be taken after
  3570 s, and claim files are per (message, owner).
- Claims. `ClaimInvariant` needs three conditions that the code does not
  enforce. A claim is published only while no reaper or renewal is committed to
  act on that claim file: this one is exact for a message still in the inbox
  (`PublishSafeExactly`), and a run from the empty mailbox breaks the invariant
  without it (`PublishUnderLockReachable`). A read finishes or dies within 30 s
  of its stamp: the condition is sufficient, and a published read that is late
  can be broken by one sweep (`LateReadBreaks`). `finalize` and `release` run
  without another step between their check and their renames: also sufficient,
  and an interrupted finalize can archive another reader's message
  (`InterruptedFinalizeBreaks`). A recycled fresh claim needs no undisciplined
  step at all (`FreshClaimRecycledReachable`), which is why `LeaseKept` asks
  that nobody is already on the way.
- A targeted read of a message under a fresh claim of the same owner retries
  without pause until that claim is more than 3570 s old, then reaps it and
  obtains the message (`SpinsWhileFresh`, and `MailboxStore.Read` on a clock
  that gets there).
- `send` writes each envelope twice: a read in between duplicates the message
  (`ReadBetweenPassesDuplicates` says when), a replay after consumption
  delivers again (`ReplayRedeliversConsumed` says to whom), and a send that
  died between the passes and was replayed leaves envelopes without a stream
  cursor (`ReplayKeepsStampWhen` says which). A conflicting replay to other
  recipients is refused only once one of those recipients, or history, has a
  copy (`DifferentPayloadRefusedWhen`).
- `_attachments_eq` is documented as "the same refs in any order"; it compares
  sets and lengths, which is the same only without repeats
  (`AttachmentsEqIsAnyOrder`).
- A message may demand an ack without naming a run or request; it is claimed,
  but its READ receipt fails the schema check every time (`ReceiptSendable`).
- `session_claim` reads the clock before it takes the lock, so exclusion can
  fail when a later sample gets the lock first (`LateLockBreaksExclusion` says
  exactly when).
- `runtime_send` writes states outside the transition table: an
  acknowledgement, even a terminal one, is overwritten by each write its call
  still has to make (`SendOverwritesAck` says when, `OverwriteHappens` gives a
  run). It does not compare the payload of the loser of an insert race
  (`RaceLoserUnchecked` says exactly which calls are checked).
- `TURN_TRIGGERED` is not among the event kinds (`gateway/model.py:19-23`), so
  `append_local` rejects such an event before `runtime_event` gets to its
  command branch: no event ever moves a command (`EventsNeverMoveCommands`).
- A sweep can delete the newest rows of a source, whose numbers are then given
  out again (`SweepFreesNumber` and `SweptNumberReused` say exactly when).
- `int(n * 0.7)` in `_truncate_result` is binary floating point: it can be one
  below the exact value (`int(90 * 0.7)` is 62). `Share` allows both.
- The agent id and path patterns end in `$` and are used with `match`, which
  accepts one final newline; the message id check uses `fullmatch`. `Chomp`
  models this.

## Model

| member | source | states |
|---|---|---|
| ClaimProtocol.Conservation | src/codeagent/mailbox/store.py:797-1289 | in every interleaving of readers, finalizers, direct finalizers, releasers, renewers and reapers, with a crash possible between any two steps, a delivered message is in exactly one of inbox, processing, archive and `_corrupt`; it was obtained (read, or finalized from the inbox) once more than it came back exactly while it is in processing or archive, else equally often; and it is never obtained twice without a return in between |
| ClaimProtocol.StepEffect | src/codeagent/mailbox/store.py:880-957 | obtaining a message logs it and makes it held, which it was not; a return logs it and frees it; no other step changes the log or which messages are held |
| ClaimProtocol.StepChanges | src/codeagent/mailbox/store.py:797-1289 | every step moves at most one file, along one of the six renames, and logs exactly that |
| ClaimProtocol.StepKeepsPlaces | src/codeagent/mailbox/store.py:1032-1058 | no step puts a message in two directories or loses it |
| ClaimSafety.ClaimInvariant | src/codeagent/mailbox/store.py:880-957 | in every disciplined run, a message in processing has a claim file of its latest successful reader; a finalize that passed its check was called by that reader; a reader that lost the move removes only a claim it published itself |
| ClaimSafety.StepSafe | src/codeagent/mailbox/store.py:1226-1278 | the inductive invariant behind it, kept by every single step of every thread |
| ClaimSafety.LeaseKept | src/codeagent/mailbox/store.py:1142-1289 | with any number of reapers, renewers, readers, finalizers and crashes interleaved step by step: while whatever claims the message has are at most 3570 s old, its owner does not start to give it up and nobody was already on the way to take the message or drop the claim, the message stays in processing and the owner's claim file stays |
| ClaimSafety.LeaseStep | src/codeagent/mailbox/store.py:150-182 | the step behind it: no single step takes the message or the claim, and no thread gets on the way to either, because of the second look under the lock |
| ClaimRuns.VanishedClaimRecyclesFreshOne | src/codeagent/mailbox/store.py:1259-1278 | with one reaper and a disciplined run, a reader whose sole claim is brand new loses the message when the reaper still remembers an old claim that vanished |
| ClaimRuns.PublishUnderLockBreaks | src/codeagent/mailbox/store.py:880-930 | from every state where a read publishes while another thread holding the lock is about to unlink, the message ends in processing without its reader's claim |
| ClaimRuns.FreshClaimRecycledReachable | src/codeagent/mailbox/store.py:1259-1278 | that happens from the empty mailbox, in a disciplined run with one reaper |
| ClaimRuns.PublishUnderLockReachable | src/codeagent/mailbox/store.py:1242-1278 | from the empty mailbox, a run whose one undisciplined step is a publication under a committed reaper leaves a message in processing without its reader's claim |
| ClaimRuns.PublishSafeExactly | src/codeagent/mailbox/store.py:880-930 | from every state of the invariant, all disciplined ways to go on after a publication keep claims sound if and only if no other thread is committed to act on that claim |
| ClaimRuns.InterruptedFinalizeBreaks | src/codeagent/mailbox/store.py:1038-1054 | from every quiet state with an expired sole claim, a finalize interrupted between its check and its rename archives the message another owner has read since |
| ClaimRuns.LateReadBreaks | src/codeagent/mailbox/store.py:1226-1273 | a read slower than the 30 s orphan gate can end without a claim file |
| MailboxStore.ListMessages | src/codeagent/mailbox/store.py:223-231 | every inbox file once, oldest first |
| MailboxStore.MailboxStore.TryClaim | src/codeagent/mailbox/store.py:849-957 | one attempt of the read loop: quarantine, temporary-claim collision, publish and move, or contest and reap |
| MailboxStore.MailboxStore.ReapExpiredClaim | src/codeagent/mailbox/store.py:959-1019 | an expired claim is removed and its message goes back; a fresh one changes nothing |
| MailboxStore.MailboxStore.Read | src/codeagent/mailbox/store.py:797-957 | on any clock that never goes back, sampled once per attempt: terminates (a targeted read that meets a fresh claim of its own owner, once the clock passes the lease), obtains a message that is valid, roster-sent, not skipped and not freshly claimed, at least as old as every such message at its start, quarantines every unacceptable older one, and says there is none only if there was none; a targeted read obtains or quarantines its target and moves nothing else |
| MailboxStore.TryShrinks | src/codeagent/mailbox/store.py:809-957 | every attempt that does not end the loop lowers (claims and temporary claims, inbox size, files not set aside); reaping never grows the inbox |
| MailboxStore.SpinsWhileFresh | src/codeagent/mailbox/store.py:820-957 | while a targeted read spins, an attempt at any later time changes nothing if and only if the claim is still at most 3570 s old; the first attempt after that drops the claim and the next one obtains the message |
| MailboxStore.MailboxStore.Finalize | src/codeagent/mailbox/store.py:1032-1058 | archives and unlinks for the sole claimant; every error case changes nothing |
| MailboxStore.MailboxStore.FinalizeFromInbox | src/codeagent/mailbox/store.py:1060-1112 | archives from the inbox, or from processing when no claim is foreign; error cases change nothing |
| MailboxStore.DirectOutcome | src/codeagent/mailbox/store.py:1060-1112 | it fails if and only if the message is gone or another owner claims it in processing, and moves nothing but its message |
| MailboxStore.MailboxStore.Release | src/codeagent/mailbox/store.py:1114-1140 | gives the message back for its claimant or when there is no claim; error cases change nothing |
| MailboxStore.MailboxStore.RenewClaim | src/codeagent/mailbox/store.py:1142-1206 | restamps the sole claim of the caller on a message in processing, else false and no change |
| MailboxStore.MailboxStore.RecoverStale | src/codeagent/mailbox/store.py:1208-1289 | the sweep over all claim files equals the fold over some listing of them, and counts what it returned |
| MailboxStore.SweepReturns | src/codeagent/mailbox/store.py:1208-1289 | whatever the listing order, a sweep returns exactly the messages in processing that have a claim older than 3570 s, unchanged |
| MailboxStore.SweepKeepsClaims | src/codeagent/mailbox/store.py:1226-1278 | exactly which claim files survive a sweep: those at most 30 s old, and those at most 3570 s old whose message is in processing and was not recycled before |
| MailboxStore.FinalizeOutcome | src/codeagent/mailbox/store.py:1032-1058 | finalize succeeds if and only if the message is in processing and the caller is the one owner with a claim on it, whatever else is claimed; then the message is archived and that claim removed; the exact condition of each error, which changes nothing |
| MailboxStore.ReleaseOutcome | src/codeagent/mailbox/store.py:1114-1140 | release succeeds if and only if the message is in processing and nobody but the caller has a claim on it; then it is back in the inbox and the caller's claim gone; the exact condition of each error |
| MailboxStore.RenewOutcome | src/codeagent/mailbox/store.py:1142-1206 | renewal succeeds if and only if the message is in processing and the caller is the one owner with a claim; it changes that stamp alone |
| MailboxStore.ReapOutcome | src/codeagent/mailbox/store.py:959-1019 | reaping gives back the message if it is in processing and drops that claim alone |
| MailboxStore.ReadHandsOut | src/codeagent/mailbox/store.py:849-957 | what a read hands out is well-formed, addressed to the agent, named after its id and from the roster; it hands out something as old as any such message that is free; it quarantines only ill-formed or foreign ones |
| MailboxStore.TargetHandedOut | src/codeagent/mailbox/store.py:820-957 | the same, exactly, for a targeted read |
| StoreRefinement.FinalizeSimulated | src/codeagent/mailbox/store.py:1032-1058 | a successful finalize is an uninterrupted run of the claim protocol |
| StoreRefinement.DirectSimulated | src/codeagent/mailbox/store.py:1060-1112 | so is a successful finalize_from_inbox |
| StoreRefinement.ReleaseSimulated | src/codeagent/mailbox/store.py:1114-1140 | so is a successful release, with or without a claim file |
| StoreRefinement.RenewSimulated | src/codeagent/mailbox/store.py:1142-1206 | so is a successful renewal |
| StoreRefinement.ReadSimulated | src/codeagent/mailbox/store.py:849-957 | so is an attempt of read that obtains or quarantines a message |
| StoreRefinement.ReapSimulated | src/codeagent/mailbox/store.py:959-1019 | so are one claim file of the sweep and one reaped claim |
| ServiceRead.MailboxService.Read | src/codeagent/mailbox/service.py:189-308 | inspects the requested or the oldest unparked file, parks it if its ack has no route, and otherwise claims or quarantines that very file |
| ServiceRead.MailboxService.UnparkResolvable | src/codeagent/mailbox/service.py:238-246 | removes exactly the markers whose sender is now in the roster |
| ServiceRead.ReadAnswers | src/codeagent/mailbox/service.py:268-308 | the exact condition and effect of each answer: parked if it asks for a receipt its sender cannot get, claimed if well-formed and from the roster, with a receipt due exactly if it asks for one, else quarantined |
| ServiceRead.ReceiptHasRoute | src/codeagent/mailbox/service.py:268-290 | a claimed message comes from a roster member and has left the inbox; a parked one has not moved |
| ServiceRead.ReadsClassify | src/codeagent/mailbox/service.py:232-308 | n reads of an inbox with n unparked messages claim exactly the acceptable ones, park exactly the non-receipt require_ack ones from outside the roster and quarantine the rest, oldest first, each with its own answer; other claims, the archive and parked messages are untouched, and nothing is left to read |
| ServiceRead.ReadsNeverSpin | src/codeagent/mailbox/store.py:820-836 | an owner without claims on the inbox never meets the retrying case during such reads |
| ServiceRead.ParkedUntilSenderJoins | src/codeagent/mailbox/service.py:238-246 | a parked message stays in the inbox while its sender is outside the roster, and is claimed (or quarantined if unacceptable) by the reads after its sender joins |
| Protocol.AttachmentsEqIsAnyOrder | src/codeagent/mailbox/store.py:84-98 | the comparison means "the same in any order" for every other list if and only if the list repeats nothing or consists of repeats of one reference |
| Protocol.ValidWhen | src/codeagent/mailbox/protocol.py:263-335 | the schema check in terms of what each kind of message needs |
| Protocol.PatternsExactly | src/codeagent/mailbox/protocol.py:33-40 | which agent ids, path components and message ids pass, including the final newline |
| Protocol.SafePathStays | src/codeagent/mailbox/protocol.py:324-335 | a safe path component is no directory name and holds no separator, colon or glob character |
| Protocol.Utf8LengthIsEncoded | src/codeagent/mailbox/store.py:434-436 | the length the body limit is about is that of the UTF-8 encoding |
| SendReplay.SessionStore.AdvanceCursor | src/codeagent/mailbox/store.py:594-657 | the next cursor: sequence plus one within the same millisecond, else zero |
| SendRuns.CursorsRiseWithClock | src/codeagent/mailbox/store.py:594-657 | the cursors of serial calls increase strictly, epoch first, if and only if the sampled clock never goes back |
| SendRuns.LaterStampsAfter | src/codeagent/mailbox/store.py:594-657 | on such a clock any later stamp comes after any earlier one |
| SendReplay.SessionStore.AppendHistory | src/codeagent/mailbox/store.py:685-720 | records a valid message under its own id, once; otherwise an error and no change |
| SendReplay.SessionStore.SendFresh | src/codeagent/mailbox/store.py:552-586 | the two passes, the cursor bump between them and the history record, cut off anywhere |
| SendReplay.SessionStore.Replay | src/codeagent/mailbox/store.py:493-518 | backfills missing inboxes and then history, cut off anywhere |
| SendReplay.SessionStore.Send | src/codeagent/mailbox/store.py:374-590 | every check in order, then exactly the planned writes up to the point of death, and the reply |
| SendRuns.RecipientsAreAddressed | src/codeagent/mailbox/store.py:420-431 | a message goes to the addressed agent, or for a broadcast to every roster member but the sender |
| SendRuns.SentWhen | src/codeagent/mailbox/store.py:389-550 | a message with a new id is sent if and only if session, roster, sender, every addressed agent, kind, body size, id and fields are in order; otherwise it is refused and nothing is written |
| SendRuns.RefusedFor | src/codeagent/mailbox/store.py:389-440 | which check refuses a call, in their order |
| SendRuns.SentLeaves | src/codeagent/mailbox/store.py:552-586 | a message sent in one go is, with its fields, attachments and new cursor, in history and in the inboxes of exactly the agents it goes to; nothing else changes |
| SendRuns.HistoryTakes | src/codeagent/mailbox/store.py:685-720 | a record enters history if and only if it is valid, of this session and new, and is stored unchanged |
| SendRuns.CrashedSendsConverge | src/codeagent/mailbox/store.py:438-586 | after any number of identical calls that died anywhere, with other activity (even consumption) in between, one call that ends succeeds and leaves a copy with exactly the agents the message is addressed to, and in history; it touches no other file |
| SendRuns.SettledStays | src/codeagent/mailbox/store.py:454-518 | after that no call with this id changes anything: an identical one answers "backfilled 0", a different one is refused |
| SendRuns.DifferentPayloadRefusedWhen | src/codeagent/mailbox/store.py:451-492 | before that, a different payload is refused if and only if one of its own recipients or history has a copy, and is otherwise delivered as new |
| SendRuns.ReplayRedeliversConsumed | src/codeagent/mailbox/store.py:499-512 | a replay after some recipients consumed the message puts it back for exactly those |
| SendRuns.ReadBetweenPassesDuplicates | src/codeagent/mailbox/store.py:557-581 | a recipient that takes the message after k writes finds it again if and only if the second pass had not reached it |
| SendRuns.ReplayKeepsStampWhen | src/codeagent/mailbox/store.py:557-581 | after a death at write k and a replay, the i-th recipient's envelope carries a stream cursor if and only if nothing or its second write had landed |
| Receipts.ReceiptSender.EmitReadReceipt | src/codeagent/mailbox/service.py:393-462 | sends the receipt with the deterministic id through the store, cut off anywhere |
| Receipts.ReceiptSendable | src/codeagent/mailbox/protocol.py:297-335 | a receipt passes the schema check if and only if the message it answers has an id, a run and a request that are safe path components |
| Receipts.ReceiptNameInjective | src/codeagent/mailbox/service.py:404-405 | the name of a receipt tells session, message and reader apart, for every message id and for the session and reader ids that pass validation |
| Receipts.AtMostOneReceipt | src/codeagent/mailbox/service.py:393-462 | over any sequence of reads and re-reads, each possibly dying anywhere, history holds at most one receipt per message and reader |
| Receipts.ReadLeavesOneReceipt | src/codeagent/mailbox/service.py:393-462 | a receipt that passes the checks is never refused as a conflict and leaves exactly one record, under the id made from session, message and reader; it answers the message field by field and lies in the inbox of the message's sender |
| Ledger.RequestLedger.RecordEvent | src/codeagent/mailbox/store.py:1626-1657 | appends the event, or a conflict naming it and the winner when the run already ended; says which |
| Ledger.RequestLedger.GetTerminal | src/codeagent/mailbox/store.py:1659-1664 | the first terminal event of the run |
| Ledger.RequestLedger.ApplyMessage | src/codeagent/mailbox/store.py:1666-1741 | what each kind of message records; an applied report ends its run |
| Ledger.RequestLedger.RecordArtifactVerdict | src/codeagent/mailbox/store.py:1756-1780 | the terminal now in force, and whether this call set it |
| Ledger.RequestLedger.FindStale | src/codeagent/mailbox/store.py:1782-1811 | exactly the pairs with an ACKED older than the SLA and no terminal, each once, with its first overdue timestamp |
| Ledger.FirstTerminalWins | src/codeagent/mailbox/store.py:1626-1664 | over any calls on any requests and runs, a run's terminal is the event of the first call that ends it, for ever, and its log holds exactly one terminal event |
| Ledger.RejectedNamesWinner | src/codeagent/mailbox/store.py:1641-1650 | a call is rejected if and only if it is terminal and the run has a winner, and then leaves one conflict naming itself and the winner |
| Ledger.TerminalAfter | src/codeagent/mailbox/store.py:1626-1657 | one call sets the terminal of its own run if free, and changes no other run's |
| Ledger.EventLeaves | src/codeagent/mailbox/store.py:1626-1657 | an accepted event is added to its run exactly as given, a refused one leaves a conflict, and other runs gain nothing |
| Ledger.WhatEndsARun | src/codeagent/mailbox/store.py:1590-1591 | exactly five events end a run |
| Ledger.AckedBecomesStale | src/codeagent/mailbox/store.py:1792-1806 | the first READ receipt of an open run makes it stale, with the time of the receipt, if and only if it is older than the limit |
| Ledger.RunningIsSeen | src/codeagent/mailbox/store.py:1701-1715 | once a PROGRESS is recorded the run shows RUNNING, so that a second one records nothing |
| Ledger.StaleExactly | src/codeagent/mailbox/store.py:1782-1811 | over any calls, a pair is reported with time t if and only if no call has ended it and t is the time of the first of its acknowledgements older than the limit |
| Ledger.TerminalNeverStale | src/codeagent/mailbox/store.py:1792-1806 | a run with a terminal event is never reported stale |
| Commands.AdvanceAckChain | src/codeagent/gateway/service.py:138-163 | the skipped states between two positions of the chain, none backwards or off it |
| Commands.BetweenIsPath | src/codeagent/gateway/service.py:89-98 | filling in skipped states is always a path of the transition table |
| Commands.CommandTable.EnqueueCommand | src/codeagent/gateway/control_store.py:292-315 | inserts unless the request id exists, and says which |
| Commands.CommandTable.UpdateCommand | src/codeagent/gateway/control_store.py:327-364 | changes the given fields of an existing row only |
| Commands.CommandTable.CommandAck | src/codeagent/gateway/service.py:1432-1505 | the reply and the new table for every acknowledgement |
| RuntimeEvents.Gateway.RuntimeEvent | src/codeagent/gateway/service.py:1114-1188 | registration and generation checks, then the append, then the command branch; a TURN_TRIGGERED event is refused with log and commands unchanged |
| RuntimeEvents.EventsNeverMoveCommands | src/codeagent/gateway/service.py:1114-1188 | over any events and acknowledgements in any order, the command table is what the acknowledgements alone make of it, and the log what the appends make of it |
| Commands.AdvanceIsPath | src/codeagent/gateway/service.py:1478-1505 | an accepted change follows a path of the transition table through exactly the recorded intermediates and lowers the number of changes to come |
| Commands.AckAdvances | src/codeagent/gateway/service.py:1478-1505 | an acknowledgement keeps every row's identity, and a row that changes makes an accepted change |
| Commands.AcceptedWhen | src/codeagent/gateway/service.py:89-98 | which acknowledgement each state accepts: later chain states, a safe failure until triggering begins, an ambiguous one until the end, an unknown trigger only while triggering |
| Commands.UnknownAnswers | src/codeagent/gateway/service.py:1450-1460 | an incomplete acknowledgement or one of no known command is answered so; only an acceptance changes anything |
| Commands.KnownRowAnswers | src/codeagent/gateway/service.py:1461-1492 | for a known command: refused for its runtime, then its generation, then its state, else accepted |
| Commands.AckRecords | src/codeagent/gateway/service.py:1493-1505 | an accepted acknowledgement records its state and the turn it names, or else keeps the known one, and leaves the rest and all other rows |
| Commands.SkippedAreAllBetween | src/codeagent/gateway/service.py:138-163 | the states recorded as skipped are all those of the chain in between |
| Commands.UpdateSetsGiven | src/codeagent/gateway/control_store.py:327-364 | an update sets the fields it is given and keeps the others |
| Commands.AtMostFourChanges | src/codeagent/gateway/service.py:1478-1505 | over any sequence of acknowledgements a command accepts at most four changes |
| Commands.TerminalNeverLeft | src/codeagent/gateway/service.py:89-98 | a terminal state is never left |
| Commands.TurnTriggeredReachable | src/codeagent/gateway/service.py:1450-1505 | a TURN_TRIGGERED acknowledgement is accepted if and only if its command exists, neither runtime nor generation speaks against it, and the command is in an earlier state of the chain; otherwise nothing changes |
| CommandSend.SendOnce | src/codeagent/gateway/service.py:1225-1430 | over every interleaving of calls to their end, acknowledgements and crashes: at most one mailbox write per request, every mailed command id has its row, command, hash, runtime and generation of a row never change, and all replies for a request name its command |
| CommandSend.StepKeepsRows | src/codeagent/gateway/control_store.py:292-364 | no step removes a row or changes what identifies it |
| CommandSend.CallAlone | src/codeagent/gateway/service.py:1225-1430 | a new call that runs alone, whatever it meets: its row names the fresh command and the call's identity, the state it ends in, whether and under which id the message is in the mailbox, and the reply |
| CommandSend.LaterCallsReplayOrConflict | src/codeagent/gateway/service.py:1225-1240 | once a row exists, a call with another payload is refused and one with the same payload gets the row's command, neither with any effect |
| CommandSend.RaceLoserUnchecked | src/codeagent/gateway/service.py:1225-1251 | over every run, a call is refused for its payload if and only if the row existed as it began and holds another hash; a call that began earlier and lost the insert is answered with the winner's command, whatever its payload |
| CommandSend.LoserExists | src/codeagent/gateway/service.py:1243-1251 | any two calls for a new request can race to that outcome |
| CommandSend.WriteOverwrites | src/codeagent/gateway/service.py:1300-1420 | a step of a call changes a row in a state runtime_send never writes if and only if the call is about to write that row, and then sets its own state |
| CommandSend.AcksAloneDecide | src/codeagent/gateway/service.py:1300-1420 | once no call has a write to make, a row is in every interleaving what the acknowledgements alone make of it |
| CommandSend.RowChangesBounded | src/codeagent/gateway/service.py:1300-1505 | in every interleaving a row changes at most five times per write its call may still make (at most three) plus the ranks its state has left: at most four times once the call is done, never when it is terminal |
| CommandSend.SendOverwritesAck | src/codeagent/gateway/service.py:1300-1420 | after any run, a row in TURN_TRIGGERED, AMBIGUOUS or TRIGGER_UNKNOWN can still change if and only if the call that inserted it has a write to make |
| CommandSend.OverwriteHappens | src/codeagent/gateway/service.py:1278-1303 | a TURN_TRIGGERED acknowledgement between the mailbox write and the fill-in is overwritten with QUEUED |
| RoleClaims.RoleRegistry.SessionClaim | src/codeagent/gateway/service.py:2014-2053 | grant, refusal in the holder's name, or bad request |
| RoleClaims.RoleRegistry.SessionRelease | src/codeagent/gateway/service.py:2055-2067 | frees a role for its owner or an anonymous caller |
| RoleClaims.RoleRegistry.PruneExpired | src/codeagent/gateway/service.py:520-525 | drops exactly the expired claims |
| RoleClaims.ClaimGrantedWhen | src/codeagent/gateway/service.py:2014-2053 | a valid claim is granted for its full time if and only if the role is free, the caller's own, or expired at the sampled time; otherwise it is refused in the holder's name and nothing changes |
| RoleClaims.OwnClaimRestamps | src/codeagent/gateway/service.py:2014-2053 | an owner's own claim is always granted and starts its lease anew |
| RoleClaims.ReleaseFreesWhen | src/codeagent/gateway/service.py:2055-2067 | a release succeeds if and only if the role is claimed and the caller is its owner or anonymous; it then removes that claim alone |
| RoleClaims.ReleasedRoleIsFree | src/codeagent/gateway/service.py:2014-2067 | after a release anybody's valid claim is granted at once |
| RoleClaims.RoleAfter | src/codeagent/gateway/service.py:2014-2067 | every operation leaves a role claimed anew, free, or as it was, and when which |
| RoleClaims.PrunedAreExpired | src/codeagent/gateway/service.py:520-525 | a prune keeps exactly the claims that have not expired at its time, unchanged |
| RoleClaims.Exclusive | src/codeagent/gateway/service.py:2014-2067 | after a claim granted until X, every other owner's claim sampled before X is refused in the holder's name, whatever else runs, unless the owner releases or re-claims |
| RoleClaims.PruningInvisible | src/codeagent/gateway/service.py:520-525 | pruning at any moments leaves the outcome of every claim as in the run without pruning |
| RoleClaims.HoldsExactly | src/codeagent/gateway/service.py:2014-2067 | for clock samples in any order, a lease its owner does not give up is still the entry if and only if no prune and no other owner's valid claim was sampled at its expiry or later |
| RoleClaims.LateLockBreaksExclusion | src/codeagent/gateway/service.py:2014-2067 | another owner's claim sampled before the lease runs out is refused in the holder's name if and only if none of those got the lock first |
| EventStore.EventStore.AppendLocal | src/codeagent/gateway/events.py:137-175 | a listed kind gets the next number of its source and the next id; others are rejected |
| EventStore.EventStore.IngestRemote | src/codeagent/gateway/events.py:194-291 | a new 4-tuple is inserted, a known one answers the id of its row, an invalid event changes nothing |
| EventStore.EventStore.ListAfter | src/codeagent/gateway/events.py:295-336 | the first matching rows after the cursor, and the next cursor |
| EventStore.EventStore.Sweep | src/codeagent/gateway/events.py:414-459 | deletes by the two retention cutoffs and counts |
| EventRuns.AppendLeaves | src/codeagent/gateway/events.py:137-175 | when an append is accepted, and the row it adds: the draft's fields, a new id, and the number after the highest of its source |
| EventRuns.IngestLeaves | src/codeagent/gateway/events.py:194-291 | when an ingest is invalid, skipped, answered with a known row or stored, and the row it adds |
| EventRuns.SweepKeeps | src/codeagent/gateway/events.py:414-459 | a sweep keeps exactly the rows not expired by their kind's cutoff that are among the newest 100000 of those |
| EventRuns.SourcesStayUnique | src/codeagent/gateway/events.py:137-291 | over every run, sweeps included, a 4-tuple names at most one row and ids only grow |
| EventRuns.LocalNumbersGapless | src/codeagent/gateway/events.py:150-175 | without sweeps and with foreign remote hosts, a local source's numbers are exactly 1..n in event_id order |
| EventRuns.SweepFreesNumber | src/codeagent/gateway/events.py:153-158 | for every table and sweep, the next number of a source is at most one already given out if and only if the sweep deleted every row with the highest number |
| EventRuns.SweptNumberReused | src/codeagent/gateway/events.py:150-175 | for a source numbered 1..n, the next append then carries a number another event had |
| EventRuns.IngestIdempotent | src/codeagent/gateway/events.py:194-291 | any list of remote events with any duplication leaves one row per 4-tuple with the first payload, and answers that row's id every time |
| EventPaging.PagingExactlyOnce | src/codeagent/gateway/events.py:295-336 | polling with fixed filters and any limits, among appends, ingests and sweeps, delivers the matching rows up to the cursor once each and in order, missing only rows deleted before they were reached |
| EventPaging.NothingLostWithoutSweeps | src/codeagent/gateway/events.py:414-459 | without sweeps none is missing |
| EventPaging.DeliveredExactly | src/codeagent/gateway/events.py:295-336 | delivered are exactly the rows of a kind, session and runtime asked for, up to the cursor, but for those swept before their turn |
| EventPaging.PollFetches | src/codeagent/gateway/events.py:295-336 | a poll fetches the oldest waiting rows, as many as its limit of 1 to 1000 allows, and leaves the others waiting |
| EventPaging.PollsDrain | src/codeagent/gateway/events.py:295-336 | of a table at rest, as many polls as rows are waiting, with any limits, fetch them all in order |
| StreamPoll.StreamSubscription.ScanInbox | src/codeagent/remote_exec.py:613-668 | one inbox: the events sent and the new cache |
| StreamPoll.StreamSubscription.PollMailbox | src/codeagent/remote_exec.py:590-675 | all inboxes: the events sent, the new cache and the new cursor |
| StreamPoll.CacheAgreesWithScan | src/codeagent/remote_exec.py:590-675 | over every run of polls on any listings, a poll sends what a scan without a cache sends, in order, minus what was already sent from a file listed unchanged ever since; whatever it leaves out was sent before |
| StreamPoll.FullScanExactly | src/codeagent/remote_exec.py:629-641 | the uncached scan sends exactly the listed messages whose cursor is after the subscription's |
| StreamPoll.AfterIsSessionOrder | src/codeagent/remote_exec.py:537-553 | the cursor order is that of the session's stamps: by millisecond, then by number within it |
| StreamPoll.ScanSendsLaterStamps | src/codeagent/remote_exec.py:629-641 | a scan from one stamp of a session sends exactly the listed messages stamped later |
| StreamPoll.UnstampedNeverSent | src/codeagent/remote_exec.py:629-638 | an unreadable file or one without a stamp is never sent |
| StreamPoll.FullScanInOrder | src/codeagent/remote_exec.py:605-668 | the uncached scan sends in the order of the listings |
| StreamPoll.PollEndsAtLastSent | src/codeagent/remote_exec.py:669-675 | after a poll the subscription stands at the stamp of the last message sent |
| StreamPoll.CacheIsTheListing | src/codeagent/remote_exec.py:659-668 | after a poll the cache of a scanned inbox holds exactly its listed files in their listed versions |
| StreamPoll.CursorNeverGoesBack | src/codeagent/remote_exec.py:537-553 | the cursor never goes back over a run |
| Trim.OpencodeDb.TurnStarts | src/codeagent/oracle.py:3485-3500 | the indices at which turns start |
| Trim.OpencodeDb.StripRunningSession | src/codeagent/oracle.py:3439-3560 | deletes exactly the rows before the last turns asked for, and only of this session |
| Trim.TurnStartsWhere | src/codeagent/oracle.py:3485-3500 | a row starts a turn if and only if it is the first or switches agent or model more than three sequence numbers after the switch before it |
| Trim.StripKeeps | src/codeagent/oracle.py:3501-3522 | strip keeps all rows if there are few enough turns, else everything from the turn start on that leaves exactly as many as asked for |
| Trim.TrimConfluent | src/codeagent/oracle.py:3485-3522 | stripping early and again after any later batch leaves the same rows as stripping once |
| Trim.TrimIdempotent | src/codeagent/oracle.py:3485-3522 | stripping twice changes nothing more |
| Trim.TrimKeepsRecentTurns | src/codeagent/oracle.py:3461-3522 | what is left is a suffix with as many turns as asked for, or all of them, and the last turn is whole |
| Trim.EarlierTurnCompleted | src/codeagent/oracle.py:3424-3436 | the completed-turn gate holds for everything before the kept turns |
| Truncate.TruncateResult | src/codeagent/oracle.py:2532-2555 | the cut text, the flag and both byte counts, exactly |
| Truncate.DecodeCut | src/codeagent/oracle.py:2541-2543 | decoding a cut encoding while ignoring errors gives the longest prefix of whole characters that fits (section 3 of RFC 3629) |
| Truncate.RoundTrip | src/codeagent/oracle.py:2541-2543 | decoding undoes encoding |
| Truncate.EncodedByTable | src/codeagent/oracle.py:2539-2543 | the encoding follows the table of section 3 of RFC 3629: lengths, leading bytes, continuation bytes and bits |
| Truncate.LongestFitUnique | src/codeagent/oracle.py:2541-2543 | there is only one longest fitting prefix |
| Truncate.CutKeepsShare | src/codeagent/oracle.py:2544-2555 | a cut is a proper prefix within the limit that keeps more than the searched share of what fits; it gives up anything exactly if a line end or a blank lies beyond that share, and then ends before the last line end there, or failing that the last blank |

## Left out

- File I/O, fsync, permissions, symlink checks, JSON text and temporary names of message files: a completed rename or link is one step. A leftover temporary history file after a crash, which makes the next append fail, is therefore not modelled.
- Claim file names as text: claims are keyed by (message, owner), and the glob for one message is exact.
- Timestamp text: whole seconds that always parse; times in the role claims are reals.
- `clear`, `purge` and the retention clean-up delete messages on purpose, so after them a delivered message is in no directory; `peek`, the status file and the park lease check move none. The legacy `check` makes the renames of finalize_from_inbox and of a refusal, one message at a time; its list of answers is not modelled.
- In the claim protocol `send` is one atomic delivery; its two passes are modelled in `SendReplay`. The reaper's lock and second look, and the renewal's check under the lock, are one step each, and claim files can always be read.
- MailboxStore.MailboxStore.Read: runs alone, on a clock that never goes back; the stamp and the expiry check of one attempt share a sample.
- SendReplay.SessionStore.Send: a caller-chosen id only; a generated id is the fresh branch with an id nobody has. The checks of attachment fields are left out, and `created_at` and the protocol version, which no comparison looks at.
- Concurrent sends of one id, and concurrent `advance_cursor`, which samples the clock before its lock.
- Receipts.ReceiptSender.EmitReadReceipt: the local store path only; a delivery sink is not part of this model. A caller-chosen message id is taken never to equal a UUIDv5.
- The empty sender and an unparseable session file count as a sender outside the roster.
- Ledger.RequestLedger.Append: a line that is torn by a crash is a line readers skip; merging with the next append is not modelled.
- Commands.CommandTable.EnqueueCommand: rows without timestamps, binding epoch and backend session id.
- CommandSend.SendOnce: an acknowledgement's look at its row and its write are one step, so overlapping acknowledgements are serialised; what the hot gate and the revival find is arbitrary, and a failing table write is not modelled.
- EventStore.EventStore.IngestRemote: for a duplicate only the returned event's id is modelled; `created_at` is an integer.
- StreamPoll.StreamSubscription.PollMailbox: no read or stat failures, and the plain mailbox stream; composite cursors depend on the wire module, which is not part of this model. Inbox listing is an input.
- Trim.OpencodeDb.StripRunningSession: one database with its rows per session in sequence order; SQL errors are left out.
- Truncate.TruncateResult: lone surrogates, which Python cannot encode, are not texts here.
- Sockets, threads, SSH, tmux, command lines, the swarm kernel, the delivery engine, the park registry and the runtime registry: plumbing.
