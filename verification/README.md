# GeDefense control plane: a verified model

This project models the stateful cores of the GeDefense control plane in Dafny and proves what they keep
over every input, every interruption and every run:

- **Evidence ledger with rotation** (`Evidence*.dfy`, `ArchiveRetention.dfy`): the hash-chained log, its
  checkpoint, its verification watermark, the archives with their retention and the rotation marker. Every durable write
  is one step; a crash or a reported write error may fall between or inside any two. Hashes are a free datatype that
  contains the whole payload, so equal digests mean equal payloads; signatures and the storage cipher are ideal.
- **Chronos** (`Chronos*.dfy`): the Merkle root over a path-to-digest map, what a scan holds of the files, and its resumption
  over several roots.
- **Case engine** (`Case*.dfy`): merging duplicate fingerprints, ingest and status changes with rollback, reload with
  repair, the sizes of the stored document and of its sealed file, and whether a restart can read what was written.
- **Block expiry** (`BlockExpiry.dfy`): the transaction over block table, kernel rules and signed policy.
- **Desktop admission** (`DesktopAdmission.dfy`, `DesktopEviction.dfy`): the token bucket and connection cap per identity,
  and what forgetting idle identities does to the rate limit.
- **CMS leases** (`CmsLeases.dfy`, `CmsTenure.dfy`, `CmsHosts.dfy`): granting, revoking and trusting bridge leases across
  restarts, how long a lease lives, and the host normalisation behind their keys.
- **Core protocol** (`CoreIpc.dfy`, with `DecimalText.dfy` and `SeparatedText.dfy`): the quarantine identity
  token and the authenticated field list.
- **Behaviour model** (`Behavior*.dfy`): running statistics, the exec window and bounded eviction.

Code that works by updating state appears as classes and loops that are proved against specification
functions; the theorems are about those functions and the runs they generate. `dafny verify dfyconfig.toml`
checks the whole project. Proofs use `hide` to keep definitions they do not need out of the solver's way.

## Where the code does less than one would expect

Each of these is a theorem with the exact condition, beside a lemma that reaches the situation at a concrete input:

- **Acknowledged records can be lost**, in three ways. Recovery adopts a complete record whose newline is missing
  without rewriting it, and the next `Append` continues that line. A `Rotate` that fails after its marker was written
  leaves the ledger running, and the next start swaps in an empty chain whatever was appended meanwhile. And retention
  orders archives by name, which begins with the time: with 24 complete archives of newer names, after the clock was set
  back, a rotation removes the archive it has just sealed and then empties the live log. A run, whatever the names of
  its archives, keeps everything it holds and acknowledges exactly when none of the three happens
  (`RunIsLosslessExactlyWhen`); a given acknowledged record, with all before it, survives a run exactly when its own
  `Append` reached a terminated log and it was settled, archived by a rotation that got to its marker, before each later
  step that loses records (`AcknowledgedSurvivesExactlyWhen`). All three are reachable from a first installation
  (`TornNewlineIsReachable`, `PendingMarkerIsReachable`, `BackdatedRotation`). While fewer than 24 archives are
  complete the third cannot happen (`FewArchivesStay`).
- **Retention can strand the marker.** If such a rotation stops between writing its marker and clearing it, the marker
  names an archive that is gone, the state that the comment at control/evidence_rotation.go:127-131 says retention must
  not create (`StrandsExactlyWhen`, `StrandedMarkerIsReachable`), and once no healthy ledger is running every start
  refuses for ever (`StuckForEver`).
- **The first record has no recovery.** A crash during the very first `Append` of a chain, after bytes reached the
  log and before the checkpoint did, leads to quarantine (`AppendCrashRecovers`, `FirstAppendCrashQuarantines`).
- **Incremental passes.** The comment at control/evidence_ledger.go:1122-1123 has the lock held while checkpoint and watermark
  are read; the code reads both after releasing it. A pass quarantines a healthy ledger exactly when there is no checkpoint
  yet, or a rotation falls between its reads and its walk (`PassFailsExactlyWhen`, `FirstPassQuarantines`,
  `RotationBeforeWalkQuarantines`). A pass that a rotation overtakes after the walk stores a watermark that names nothing
  of the new chain; later passes then report that chain as fully verified until it is longer than the watermark, and
  quarantine it afterwards (`PassAcrossRotationIsUnsound`, `OvertakenPassMisleads`, `OvertakenPassIsReachable`).
- **Blank lines.** The bounded check skips them and the full walk counts them, so the two agree exactly on logs
  without any (`FullScopeMatchesFullWalk`, `BlankLineDivides`).
- **The checkpoint carries everything.** Comments in the source call it authenticated, but `readEvidenceCheckpoint`
  also accepts a legacy plaintext one. The model follows the code: a checkpoint is whatever content was read, and a
  log cut short verifies under a checkpoint of the shorter part (`ShorterLogNeedsOnlyItsCheckpoint`).
- **Resumed scans.** A scan resumed when the last visited path is not in the current root adds nothing more
  (`ResumeIsFaithfulExactlyWhen`, `UnanchoredResumeLosesFiles`).
- **Case repair.** A repair that cannot be written back leaves memory and store different until the next write or
  reload (`RunKeeps`, `UnwrittenRepairIsReachable`). Merged observations are newest first while appended ones are
  oldest first, so after a repair the bound can drop newer entries than it keeps
  (`AppendAfterRepairDropsNewerExactlyWhen`).
- **Merged lists.** A merged list lacks an entry of a member only when it is full, if the members' lists are as the engine
  leaves them, or if together they fit the bound (`FoldKeepsEntries`, `FoldGathers`). With an entry that differs from another
  only by spaces a list may refuse an entry, then shrink, and end with room and without it (`LaterRoomIsNotUsed`).
- **Readable case stores.** The engine does not validate a known case it updates, and the settings
  (control/forensics_fabric.go:108-116) admit 100000 cases and 4096 observations or evidence references where the
  decoder accepts 4096, 256 and 256. The document is bounded at 16 MiB before sealing when it is written, and after sealing,
  four thirds as long, when it is read: a document from about 12.6 to 16 MiB is written, acknowledged and refused at the
  next start. A write leaves a readable store exactly when the incident fits the decoder's bounds and the document
  the smaller of the two (`CountedIncidentReloadsExactlyWhen`, `ChangedStatusReloadsExactlyWhen`,
  `TameRunsReloadExactlyWhenSmall`, `SealedFitsExactlyWhen`); `OutgrownCase` and the run of `WrittenButUnreadable` do not.
- **Block expiry** breaks agreement exactly when a failed policy write is followed by a failed kernel restore
  (`PassAgreesExactlyWhen`, `StrandedRule`).
- **Desktop clients.** Forgetting an idle client forgets what it has spent. Every identity is admitted at most burst +
  rate * length times in every window of every run exactly when one hour of refill covers the burst
  (`RateLimitHoldsExactlyWhen`); otherwise a full table and a newcomer let an identity spend its burst twice
  (`BurstSpentTwice`).
- **Leases.** Check and grant are two locked sections; a revocation between them misses the lease exactly when the
  event is stamped no later than the revocation and is granted (`RevocationDuringGrant`, `LeaseOutlivesRevocation`).
  A revocation at t holds for ever, over every continuation and restart, exactly when a watermark of at least t is on
  file and no unseen login stamped up to t is between check and grant (`RevocationIsForeverExactlyWhen`).
  A grant files its lease under the host normalised twice, logout and lookup use it normalised once; they meet
  exactly when the normalised host has no space at an edge and is not itself of the form host:port
  (`KeysAgreeExactlyWhen`, `LogoutEndsTheLogin`, `GrantIsFoundExactlyWhen`); "[a:80]" is a host for which they do
  not (`BracketedHostIsNotSettled`).
- **Quarantine tokens.** The parser reads more texts than the printer writes
  (`ParsedTextIsTheTokenExactlyWhenPlain`, `LeadingZeroParses`).
- **Exec bursts.** A threshold above 256 never fires (`BurstIsExact`, `ThresholdAboveTheCap`).

## Model

| member | source | states |
|---|---|---|
| `EvidenceChain.VerifyLines` | control/evidence_ledger.go:374-444 | The reading loop accepts exactly when every line from the start position verifies against its predecessor and the range exists, and returns the last hash, count and newest 4096 records. |
| `EvidenceChain.CheckpointDeterminesLog` | control/evidence_ledger.go:312-468 | Two logs that the full verification accepts under one checkpoint hold the same records: no edit, reorder, truncation or insertion passes. |
| `EvidenceChain.ShorterLogNeedsOnlyItsCheckpoint` | control/evidence_ledger.go:450-502 | A log that verifies also verifies cut short at any record, under a checkpoint that seals just that part: everything rests on the checkpoint that was read. |
| `EvidenceChain.LinkedSplit` | control/evidence_ledger.go:374-444 | Verifying a range is the same as verifying its two halves, the second starting from the last hash of the first. |
| `EvidenceChain.WindowIsGenuine` | control/evidence_ledger.go:312-336 | A linked window that ends on the head of a genuine chain repeats that chain's payloads. |
| `EvidenceWatermark.PassExtends` | control/evidence_ledger.go:1046-1184 | One incremental pass advances by min(chunk, remaining), names a verified prefix, and fails only if that prefix does not verify. |
| `EvidenceWatermark.PassesAcceptExactlyTheWalk` | control/evidence_ledger.go:1124-1184 | Passes over a log that grows by appends accept if and only if one walk from the first record to their end accepts; the stored watermark stays sound. |
| `EvidenceWatermark.EnoughPassesReachTheCheckpoint` | control/evidence_ledger.go:1124-1184 | Enough passes of any positive chunk reach every sealed record. |
| `EvidenceInvariant.BytesHarmless` | control/evidence_ledger.go:903-912 | Any number of bytes of the new line leaves the sealed history alone, and the file size tells how many were written. |
| `EvidenceInvariant.RecordSealed` | control/evidence_ledger.go:903-920 | The two writes of Append extend the sealed history by exactly its record. |
| `EvidenceInvariant.RecordAppended` | control/evidence_ledger.go:852-929 | Memory follows the files: sequence, head, size and the cache of the newest 4096 records describe the new chain. |
| `EvidenceInvariant.RecordCarriesTheDraft` | control/evidence_ledger.go:858-870 | What an Append records has the caller's texts, identifier and time, with fresh ones only where the caller gave none, the next sequence number and the previous head. |
| `EvidenceInvariant.TextsAreRefusedExactlyWhen` | control/evidence_ledger.go:338-355 | A draft's texts are refused exactly when one of its own required texts is empty, one is longer than its bound, or one holds a zero byte. |
| `EvidenceInvariant.VerifiesExactlyWhenAppended` | control/evidence_ledger.go:312-336 | A record verifies at a place in the chain exactly when an Append there of allowed texts makes it, but for the case of its hash text. |
| `EvidenceInvariant.SealingExtends` | control/evidence_ledger.go:647-674 | Sealing one unsealed record that verifies against the head extends the history by it. |
| `EvidenceRotation.RotationReaches` | control/evidence_rotation.go:78-105 | The eleven durable writes of a rotation, retention among them, and the files after each. |
| `EvidenceRotation.PruningKeeps` | control/evidence_rotation.go:114-169 | Retention turns archived parts of the past into removed ones and changes nothing else recorded, whatever the names of the archives. |
| `EvidenceRotation.NewArchiveStaysExactlyWhen` | control/evidence_rotation.go:174-241 | The new archive survives its own retention if and only if it is protected or fewer than 24 complete archives are preferred to it, for names in any order. |
| `EvidenceRotation.MarkerCommits` | control/evidence_rotation.go:174-252 | Until the marker is written nothing recorded changes; writing it files the whole live chain, complete with manifest, with the settled past, also over an earlier pending rotation, unless retention removed the new archive: then it files nothing and every start refuses. |
| `EvidenceRotation.RotationStopped` | control/evidence_rotation.go:78-105 | A rotation of any new name, interrupted in any write, while copying the log or while removing archives, keeps the invariant and exactly the same history, except that from the replaced log on only the settled past is left when its own archive was removed. |
| `EvidenceStart.RecoveryAgrees` | control/evidence_ledger.go:647-674 | Recovery ends with log and checkpoint in agreement, keeps all sealed records and adds the unsealed one if and only if it verifies against the sealed head. |
| `EvidenceStart.AgreeingChainAccepted` | control/evidence_ledger.go:763-803 | A chain whose log and checkpoint agree passes the bounded check, with the right head, count, window and scope. |
| `EvidenceStart.StartIsHealthy` | control/evidence_ledger.go:128-219 | A start is healthy exactly under the stated condition on files and budget; then memory describes the chain and nothing recorded is lost but what only the live chain of a pending rotation held; a marker without its archive is refused and nothing changes. |
| `EvidenceStart.StartReports` | control/evidence_ledger.go:195-219 | A healthy start reports everything verified, and stores the watermark at the head, exactly for 1 to 4096 records; over more only the tail, over none nothing. |
| `EvidenceStart.StartStopped` | control/evidence_ledger.go:696-803 | A start that crashes after any of its own writes keeps the invariant and the same part of the history. |
| `EvidenceRuns.EveryStepIsGood` | control/evidence_ledger.go:852-1184 | Every modelled event, successful, failed or crashed, with archive names in any order, keeps the invariant over files and memory and never shortens or reorders the history, unless it is an Append onto an unterminated line, a start over a pending rotation with unarchived records, or a rotation that empties the log after its archive was removed; watermarks stay sound unless a rotation overtakes a pass. |
| `EvidenceRuns.DestroyingLoses` | control/evidence_ledger.go:903-929 | An Append that reaches an unterminated line leaves nothing of the live chain that verifies: exactly the settled past. |
| `EvidenceRuns.DroppingLoses` | control/evidence_rotation.go:318-352 | A start that finishes a rotation over records no archive holds leaves exactly the settled past. |
| `EvidenceRuns.StrippingLoses` | control/evidence_rotation.go:78-105 | A rotation that empties the log after retention removed its archive leaves exactly the settled past. |
| `EvidenceRuns.WalkIsSound` | control/evidence_ledger.go:1137-1172 | A walk from what the pass read never fails on a live chain that no rotation replaced, and its mark names a verified prefix. |
| `EvidenceRuns.StepIsLosslessExactlyWhen` | control/evidence_ledger.go:852-929 | A step keeps the history, adds an acknowledged record and leaves a live chain that verifies if and only if it neither appends to an unterminated log, nor finishes a rotation over records no archive holds, nor empties the log while 24 archives are preferred to its own. |
| `EvidenceRuns.AcknowledgedIsNeverLost` | control/evidence_ledger.go:852-929 | In every run from a first installation without such a step, the record of an Append that returned success holds what the caller passed, next in the chain, and stays, at its place, in the live log or a complete archive until retention removes that archive. |
| `EvidenceRuns.WatermarksStaySound` | control/evidence_ledger.go:1046-1184 | On those runs, with no rotation overtaking a pass, every stored or pending watermark names a verified prefix of what is sealed. |
| `EvidenceRuns.RunIsLosslessExactlyWhen` | control/evidence_rotation.go:78-105 | Over every run from a first installation, archive names in any order: each step keeps what was recorded and adds what was acknowledged if and only if none of its steps is one of those three. |
| `EvidenceSurvival.HistorySurvivesExactlyWhen` | control/evidence_ledger.go:647-674 | Over every run from a consistent state: records stay in the history throughout if and only if they had been settled before each step that loses records. |
| `EvidenceSurvival.AcknowledgedSurvivesExactlyWhen` | control/evidence_ledger.go:852-929 | An acknowledged record survives a run, with all before it, if and only if its Append reached a terminated log and each later step that loses records found all of it settled. |
| `EvidenceSurvival.StepSettles` | control/evidence_rotation.go:174-241 | No step, whatever state the live chain is in, takes a record out of the settled past or moves it there. |
| `ArchiveRetention.RemovedExactlyWhen` | control/evidence_rotation.go:132-169 | Retention removes a complete archive if and only if it is unprotected and at least as many others as are kept are newer or protected. |
| `EvidenceRetention.RetentionTakesAPrefix` | control/evidence_rotation.go:233-239 | While names increase, a rotation's retention takes a prefix of the past, exactly the archives to which 24 others are preferred, and with them the oldest records on disk; the order then goes on. |
| `EvidenceRetention.ArchiveLeavesExactlyWhen` | control/evidence_rotation.go:114-169 | In any step an archive leaves the disk or is damaged if and only if a rotation's retention reaches it while 24 complete archives, the new one counted, are preferred to it; otherwise it is unchanged. |
| `EvidenceRetention.ArchiveStaysExactlyUntil` | control/evidence_rotation.go:114-169 | Over every run an archive stays, untouched, exactly as long as no rotation retires it. |
| `EvidenceRetention.FewArchivesStay` | control/evidence_rotation.go:132-169 | While fewer than 24 archives are complete every rotation, whatever its name, keeps its own archive and retires none. |
| `EvidenceRetention.StrandsExactlyWhen` | control/evidence_rotation.go:318-352 | A step leaves a marker without its archive if and only if a rotation stops between writing and clearing its marker after retention removed its archive. |
| `EvidenceRetention.StuckForEver` | control/evidence_rotation.go:318-352 | From then on, once no healthy ledger is running, every later start of every run refuses and log, checkpoint and archives stay as they are. |
| `EvidenceRestarts.AppendCrashRecovers` | control/evidence_ledger.go:696-761 | After a crash anywhere in any Append the restart is healthy exactly under the stated condition; after one on a safe log it holds the sealed records plus the interrupted one exactly when its whole line was written; over a pending rotation it finishes that instead, or refuses when its archive is gone. |
| `EvidenceRestarts.FinishingIsIdempotent` | control/evidence_rotation.go:318-352 | Finishing an interrupted rotation from any of its intermediate states ends in the same files, which verify as empty and healthy. |
| `EvidenceRestarts.RotationCrashRestarts` | control/evidence_rotation.go:266-352 | A crash anywhere in Rotate, whatever the new name and with an earlier rotation pending or not, restarts exactly as if there had been no rotation, but for the archives, or with an empty healthy chain, the whole old chain archived and nothing lost; with its archive removed it is refused until the marker is cleared, and from the replaced log on only the settled past is left. |
| `EvidenceRestarts.FailedAppendIsNoticed` | control/evidence_ledger.go:903-917 | After a failed checkpoint the ledger is quarantined; after a failed line it goes on, and the next Append quarantines it exactly when a byte had reached the log. |
| `EvidenceRestarts.FailedRotationIsNoticed` | control/evidence_rotation.go:78-105 | After a failed write of a rotation the files look unchanged to the running ledger exactly before the log is replaced and again once its fields are reset. |
| `EvidencePasses.PassFailsExactlyWhen` | control/evidence_ledger.go:1137-1172 | A pass over a live chain within budget quarantines if and only if there is no checkpoint, or a rotation fell between its reads and its walk while what it had read as sealed was not all verified. |
| `EvidencePasses.PassReportsItsCoverage` | control/evidence_ledger.go:1137-1184 | An undisturbed pass moves the watermark by min(chunk, remaining) over a verified prefix, and reports full coverage exactly when it has reached everything sealed at its beginning, otherwise its position and that count. |
| `EvidencePasses.CommitReports` | control/evidence_ledger.go:1167-1184 | Whatever happens between the beginning of a pass and its commit, the scope it leaves compares the stored watermark with what was sealed at its beginning. |
| `EvidencePasses.FullVerificationExactlyWhen` | control/evidence_ledger.go:993-1020 | The full verification quarantines a healthy ledger exactly when the files do not look as it left them or exceed the budget; otherwise it stores a sound watermark at the head and reports the whole chain. |
| `EvidencePasses.PassTrustsItsWatermark` | control/evidence_ledger.go:1137-1160 | Over a sound chain a pass is caught up exactly while the watermark is not behind the checkpoint, whatever it names, and once it is behind fails if and only if the watermark names no prefix of the chain. |
| `EvidencePasses.PassAcrossRotationIsUnsound` | control/evidence_ledger.go:1137-1184 | The watermark stored by a pass that a rotation overtook names no prefix of the new chain. |
| `EvidencePasses.OvertakenPassMisleads` | control/evidence_ledger.go:1137-1184 | The next pass then reports the new chain as fully verified as long as it is not longer than the watermark, and quarantines it afterwards. |
| `EvidenceWitnesses.TornNewlineIsReachable` | control/evidence_ledger.go:647-674 | A run from a first installation in which one record is acknowledged in a safe state and a later acknowledged Append destroys a line of the history. |
| `EvidenceWitnesses.PendingMarkerIsReachable` | control/evidence_rotation.go:98-100 | A run from a first installation in which a record acknowledged while a finished rotation still has its marker is dropped by the next start. |
| `EvidenceWitnesses.OvertakenPassIsReachable` | control/evidence_ledger.go:1137-1184 | Start, one record, a pass, a rotation before its commit, another record: the next pass reports the new chain as fully verified without reading its record. |
| `EvidenceWitnesses.RotationBeforeWalkQuarantines` | control/evidence_ledger.go:1137-1172 | One record and a rotation between the reads and the walk of a pass: the healthy ledger is quarantined. |
| `EvidenceWitnesses.BackdatedRotation` | control/evidence_rotation.go:132-169 | A run from a first installation: 24 records and rotations with increasing names, one more acknowledged record, and a rotation with an older name, which loses it. |
| `EvidenceWitnesses.StrandedMarkerIsReachable` | control/evidence_rotation.go:132-169 | The same run with a crash right after the marker: nothing is lost yet, and every start refuses from then on. |
| `EvidenceWitnesses.FirstAppendCrashQuarantines` | control/evidence_ledger.go:719-734 | A crash one byte into the first Append makes the next start quarantine the ledger. |
| `EvidenceWitnesses.FirstPassQuarantines` | control/evidence_ledger.go:1137-1142 | An incremental pass on a new installation quarantines the ledger. |
| `EvidenceWitnesses.BlankLineDivides` | control/evidence_ledger.go:516-523 | A log of a blank line and one genuine record is accepted as complete by the bounded check and refused by the full one. |
| `EvidenceTail.BoundedAcceptsOnlyTheGenuineTail` | control/evidence_ledger.go:696-803 | If the checkpoint seals a genuine chain and the bounded check accepts, the log holds exactly the sealed number of records and the window repeats the genuine payloads, plus at most one adopted record. |
| `EvidenceTail.FullScopeMatchesFullWalk` | control/evidence_ledger.go:763-803 | When the window reaches record 1 the full verification accepts the same files if and only if no line is blank. |
| `EvidenceTail.EvidenceLineWindow` | control/evidence_ledger.go:504-550 | The ring buffer returns exactly the last min(limit, sealed, lines) lines of the sealed prefix, in order, and the true line count. |
| `EvidenceTail.WindowIsWhatIsChecked` | control/evidence_ledger.go:763-803 | The lines the ring buffer returns are the lines the bounded check verifies, and it accepts if and only if they verify one after the other and end on the sealed head. |
| `EvidenceTail.Recent` | control/evidence_ledger.go:1213-1230 | The page is the newest-first view of the cache within the page bounds. |
| `EvidenceLedger.Ledger.constructor` | control/evidence_ledger.go:128-219 | Opening any files ends in the specified files and fields; from consistent files it loses nothing but what only the live chain of a pending rotation held, is unquarantined exactly when the start is healthy, and reports full coverage exactly for 1 to 4096 records. |
| `EvidenceLedger.Ledger.Refuses` | control/evidence_ledger.go:852-902 | The checks before writing refuse exactly the drafts that must not proceed, and change only the flags they should. |
| `EvidenceLedger.Ledger.Commit` | control/evidence_ledger.go:903-929 | The record carries the draft and continues the chain; record, checkpoint, then the fields follow it. |
| `EvidenceLedger.Ledger.Append` | control/evidence_ledger.go:852-929 | Append succeeds exactly on a healthy unchanged ledger, with allowed texts and room; the returned record carries the caller's texts next in the chain; on a terminated log the history grows by exactly it, on any other only the settled past stays; a refusal leaves the files and sets just the flag of its reason. |
| `EvidenceLedger.Ledger.Rotate` | control/evidence_rotation.go:78-105 | A rotation within the archive bound leaves an empty chain, reset fields, an archive with the old log, checkpoint, watermark and a manifest that names its count and head, and all of the history settled, for any new name, or, with its archive removed by retention, only the settled past; over the bound it leaves only a new directory. |
| `EvidenceLedger.Ledger.Recent` | control/evidence_ledger.go:1213-1230 | The page is the newest-first view of the cache, and on a healthy ledger with unchanged files of the sealed records of the live log. |
| `ArchiveRetention.PruneCompleteArchives` | control/evidence_rotation.go:132-169 | Exactly the surplus of complete archives goes, oldest first; the protected one and incomplete ones stay; this determines what is removed. |
| `ChronosMerkle.ComputeMerkleRoot` | control/chronos_fim.go:115-161 | The level-building loop terminates with the top of the tree over the sorted leaves. |
| `ChronosMerkle.LevelIsInjective` | control/chronos_fim.go:135-158 | Although an odd node is duplicated, a level of distinct nodes can be read back from the next one. |
| `ChronosMerkle.RootIdentifiesMap` | control/chronos_fim.go:115-161 | With fixed-length digests two maps have the same root if and only if they are equal. |
| `ChronosMerkle.NodesAreInOrder` | control/chronos_fim.go:135-158 | In the tree over any nodes number i is found by the binary digits of i, and an odd last node again as its own neighbour. |
| `ChronosMerkle.RootOfTwoFiles` | control/chronos_fim.go:115-161 | The root of two files has the leaf of the smaller path, path and digest with a colon between, on the left. |
| `ChronosMerkle.TwoAndThree` | control/chronos_fim.go:135-158 | The tops over one, two and three nodes. |
| `ChronosMerkle.FixedLengthIsNeeded` | control/chronos_fim.go:128-134 | Two different maps with digests of other lengths share a root. |
| `ChronosScan.AnchoredResumeIsTheScan` | control/chronos_fim.go:227-354 | A scan interrupted anywhere and resumed from a path in the current root, within budget, is the uninterrupted scan. |
| `ChronosScan.ResumeIsFaithfulExactlyWhen` | control/chronos_fim.go:227-354 | For every interruption point: resuming gives the uninterrupted digest map and counters if and only if the last path lies in the current root (or nothing was hashed), the budget was exhausted, or nothing was left. |
| `ChronosScan.UnanchoredResumeLosesFiles` | control/chronos_fim.go:301-308 | Two roots of one file each, interrupted on entering the second: the resumed scan ends without its file. |
| `ChronosContents.WalkAdds` | control/chronos_fim.go:280-326 | A walk adds exactly the readable files it meets, in order, until a budget is used up and no sooner. |
| `ChronosContents.StoppedScanHolds` | control/chronos_fim.go:227-354 | Stopped at any entry, a scan's map, counters and last path are those of the shortest run of the files before it that uses up a budget, or of all of them. |
| `ChronosContents.FullScanHolds` | control/chronos_fim.go:227-354 | The same for the uninterrupted scan over all roots; unless it is cut short the run is all files. |
| `ChronosContents.WholeScanHoldsTheTree` | control/chronos_fim.go:311-316 | A scan that is not cut short sends a path to a digest if and only if some root delivers that readable file with that digest, and counts those files and their bytes. |
| `ChronosContents.ScanIsBoundedExactlyWhen` | control/chronos_fim.go:270-300 | A scan is cut short exactly when a budget is used up before some root or before some file, readable or not. |
| `ChronosScanner.WalkRoot` | control/chronos_fim.go:280-326 | The walk of one root, stopped by cancellation or budget anywhere, equals the specification over the entries it visited; once past its resume point it adds exactly the readable files among them. |
| `ChronosScanner.Scanner.Scan` | control/chronos_fim.go:227-354 | A new scan ends complete, with exactly the readable files of the tree, their digests and counts, or bounded, exactly when a budget ran out before some root or file, with the shortest run of files that uses it up; a cancelled one holds the files before the entry it stopped at; a resumed one is the specified continuation. |
| `ChronosScanner.CancelledThenResumed` | control/chronos_fim.go:227-354 | A cancelled first scan, resumed from the checkpoint it left, matches the uninterrupted scan exactly under the condition above. |
| `ChronosScanner.ResumedScanHolds` | control/chronos_fim.go:227-354 | Under that condition the resumed scan holds the shortest run of the files of the tree. |
| `ChronosScanner.ManyTimesCancelledThenResumed` | control/chronos_fim.go:227-354 | After any number of cancelled resumes of anchored checkpoints the last checkpoint is one of the uninterrupted scan, and finishing from it matches that scan exactly under the same condition. |
| `CaseRepair.AppendUniqueBounded` | control/cases.go:634-654 | Existing entries stay first, the bound holds, and every value is present, trimmed and cut, unless the list is full. |
| `CaseRepair.MergedObservations` | control/cases.go:290-301 | The newest observations of both records survive, newest first, within the bound. |
| `CaseRepair.MergeIsValid` | control/cases.go:247-301 | Merging two valid records gives a record that validation accepts. |
| `CaseRepair.FoldSummarizes` | control/cases.go:247-288 | Folding a group in any order gives its newest identity, highest severity, earliest creation, total count, and an open status if any member was open. |
| `CaseGathering.FoldGathers` | control/cases.go:247-301 | A merged record holds min(256, all) observations of its members, newest first, none left out newer than one kept; every entry of every list if together they fit the bound, and no other entry; an open leader's status and resolution, or an open member's status without resolution, or the leader's with the first resolution there is. |
| `CaseGathering.FoldKeepsEntries` | control/cases.go:265-270 | With lists as the engine leaves them, a merged list lacks an entry of a member only when it is full. |
| `CaseGathering.LaterRoomIsNotUsed` | control/cases.go:634-654 | Lists with entries that differ only by a space, for which a merged list lacks an entry and has room. |
| `CaseGathering.TruncatedIsTheMiddle` | control/cases.go:656-665 | Trimming and cutting gives what is between the spaces at the edges, or its first 160 characters. |
| `CaseGathering.GraverSeverity` | control/cases.go:611-617 | The graver of two severities, in the order warning, high, critical. |
| `CaseStoreRepair.RepairDuplicates` | control/cases.go:203-243 | The repair loop succeeds exactly on repairable stores, yields one folded record per fingerprint and the number removed; the result passes the decoder, keeps the total, and each record summarizes and gathers its group. |
| `CaseStoreRepair.RepairIsLossless` | control/cases.go:161-301 | A repaired store passes the strict decoder, keeps the total occurrence count and every fingerprint, and each record summarizes its group and gathers its observations, lists, status and resolution. |
| `CaseStoreRepair.RepairIgnoresOrder` | control/cases.go:203-301 | Kept ID, count, severity, creation and update time do not depend on the order of the records. |
| `CaseEngine.LiveEngine.Persist` | control/cases.go:355-383 | A persist within 16 MiB of text stores the cases under the next revision; a larger or failed one changes nothing. |
| `CaseEngine.LiveEngine.IngestIncident` | control/cases.go:385-463 | Ingest with its in-place update and rollback is the specified transition, and reports success exactly when ignored or counted. |
| `CaseEngine.LiveEngine.SetStatus` | control/cases.go:465-505 | A status change is the specified transition, rolled back when the store cannot be written. |
| `CaseEngine.IngestKeeps` | control/cases.go:385-463 | A counted incident adds one to the total and leaves memory equal to the store; anything else leaves cases and store as they were. |
| `CaseEngine.StatusKeeps` | control/cases.go:465-505 | A status change keeps the counts, the index and the agreement of memory and store. |
| `CaseEngine.ReloadKeeps` | control/cases.go:108-153 | Reloading, repairing if needed, keeps every counted incident and a sound index; memory equals the store if and only if no repair was needed or it was written back. |
| `CaseEngine.StepKeeps` | control/cases.go:108-505 | Memory equals the store after a written call and after a reload whose repair, if any, was written, and otherwise exactly if it did before. |
| `CaseEngine.RunKeeps` | control/cases.go:108-505 | Over every run of ingest, status change, failed persist and reload: occurrence counts add up to the incidents counted, every index entry points to a case with that fingerprint, and memory equals the store exactly unless a repair could not be written and nothing was written or reloaded since. |
| `CaseOutcomes.IncidentCountsExactlyWhen` | control/cases.go:385-404 | An incident that can be filed changes the engine exactly when its severity is known, automatic creation is on and its score reaches the minimum. |
| `CaseOutcomes.CaseIsOpenedExactlyWhen` | control/cases.go:429-463 | An incident without a known case opens one exactly when its fields are within their bounds and the table has room; otherwise the cases stay. |
| `CaseOutcomes.CountedIncidentIsTold` | control/cases.go:405-463 | A counted incident's observation, identifier, rules, categories and severity are in the one case its fingerprint points to, in memory and store; no other case or index entry changes. |
| `CaseOutcomes.NewCaseTells` | control/cases.go:432-450 | A new case holds just its incident: title, severity, confidence, one observation, its rules and categories, and the recommendations as they are. |
| `CaseOutcomes.ReloadIndexesEveryCase` | control/cases.go:108-153 | After a reload every case is found by its fingerprint. |
| `CaseOutcomes.StatusIsTakenExactlyWhen` | control/cases.go:465-505 | Which status and resolution a call accepts, the stored case afterwards with nothing else changed, and what a refused or failed call leaves. |
| `CaseDurability.TouchedIsValidExactlyWhen` | control/cases.go:412-426 | A known case updated by an incident still passes validation if and only if the incident fits: valid observation, clock not before creation, and limits within the decoder's bounds or room left. |
| `CaseDurability.TouchedRemembers` | control/cases.go:412-426 | One more incident keeps identity and creation, takes the higher severity, reopens the case, and only adds to the lists. |
| `CaseDurability.AppendAfterRepairDropsNewerExactlyWhen` | control/cases.go:619-632 | For every limit: one more incident on a repaired case drops an observation newer than one it keeps if and only if the bound is reached, leaves room for more than the new entry, and the old ones are not all of one time. |
| `CaseWitnesses.OutgrownCase` | control/forensics_fabric.go:114-116 | A full case and a published limit above 256: one more incident makes it unreadable. |
| `CaseWitnesses.UnwrittenRepairIsReachable` | control/cases.go:405-411 | A recurrence after the correlation window, then a reload that cannot write its repair: memory and store differ. |
| `CaseWitnesses.WrittenButUnreadable` | control/cases.go:355-383 | A run from an empty engine of 11520 valid incidents within every limit, 256 for each of 45 fingerprints, each written and acknowledged: the sealed file is over the bound on reading. |
| `CaseBytes.SealedFitsExactlyWhen` | control/storage_crypto.go:90-120 | The sealed file is within 16 MiB if and only if the text is within a bound a quarter lower. |
| `CaseBytes.RecordsBytesUpdate` | control/cases.go:355-383 | Storing a case changes the size of the document by the difference of the two records, whatever order they are written in. |
| `CaseDurability.LoadsExactlyWhenRestorable` | control/cases.go:108-159 | A start reads a stored document if and only if its cases pass validation, fit the count, and the text is within that bound. |
| `CaseDurability.CountedIncidentReloadsExactlyWhen` | control/cases.go:385-463 | A counted incident leaves a document the next start can read if and only if it fits the case it touches, or the store has fewer than 4096 cases when it opens one, and the new size stays within the bound on reading. |
| `CaseDurability.ChangedStatusReloadsExactlyWhen` | control/cases.go:465-505 | A status change leaves a document the next start can read if and only if the clock is not before the case's creation and the new size stays within the bound on reading. |
| `CaseDurability.UnreadableStoreIsLost` | control/cases.go:108-243 | A document that is too large, has one unreadable case or too many cases is refused by the next start, and repair does not help. |
| `CaseDurability.TameRunsReloadExactlyWhenSmall` | control/cases.go:108-159 | On every run with valid observations, a monotone clock and limits within the decoder's bounds, a restart can read what is stored if and only if the text is within the bound on reading. |
| `BlockExpiry.Reconciler.TakeExpired` | control/state.go:357-370 | Exactly the expired entries leave the table and are returned, each once. |
| `BlockExpiry.Reconciler.DeleteRules` | control/block_expiry.go:45-73 | The candidates whose rule could be deleted leave table and kernel; the others go back into the table. |
| `BlockExpiry.Reconciler.Rollback` | control/block_expiry.go:79-92 | The table is restored completely, the kernel as far as the core allows; the branch for a missing core is unreachable. |
| `BlockExpiry.Reconciler.RecordExpiry` | control/block_expiry.go:112-151 | Kinetic blocks are counted exactly and an evidence failure is reported exactly when one occurred. |
| `BlockExpiry.Reconciler.Reconcile` | control/block_expiry.go:28-153 | The whole transaction, for every combination of failing calls, ends in the specified host and reports exactly the removed blocks. |
| `BlockExpiry.PassAgreesExactlyWhen` | control/block_expiry.go:79-110 | State, kernel and policy agree afterwards if and only if no rule had to be restored in vain; with a release controller that case raises the fail-safe. |
| `BlockExpiry.AlarmExactlyWhen` | control/block_expiry.go:79-151 | The fail-safe is raised, once, exactly when there is a release controller and a deleted rule could not be put back or the removal of a kinetic block could not be recorded. |
| `BlockExpiry.KineticIsCounted` | control/block_expiry.go:112-140 | The counter of expired kinetic blocks grows by exactly those reported as removed. |
| `BlockExpiry.StrandedRule` | control/block_expiry.go:79-110 | A kernel that does not take a rule back and a policy that cannot be written leave the table with a rule the kernel does not have. |
| `BlockExpiry.EveryBlockIsAccountedFor` | control/block_expiry.go:45-73 | Deferred and unexpired blocks stay in all three, removed ones leave all three. |
| `BlockExpiry.BlocksAreConserved` | control/block_expiry.go:28-153 | Over every run of passes without a fail-safe the three agree and each block is in all three or was reported removed exactly once. |
| `DesktopAdmission.Server.Admit` | control/desktop_status_linux.go:228-268 | Admission with eviction, cap and bucket is the specified transition. |
| `DesktopAdmission.Server.Release` | control/desktop_status_linux.go:271-279 | Releasing lowers the connections of a tracked identity, never below zero. |
| `DesktopAdmission.Server.EvictStale` | control/desktop_status_linux.go:281-287 | Exactly the idle clients without connections leave the table. |
| `DesktopAdmission.Server.LogRefusal` | control/desktop_status_linux.go:289-309 | Logging a refusal is the specified transition; a new identity starts with an empty bucket. |
| `DesktopAdmission.RefusalsAreSpaced` | control/desktop_status_linux.go:289-309 | On every run two logged refusals of an identity that stays tracked are at least a minute apart. |
| `DesktopAdmission.RefusalIsLoggedExactlyWhen` | control/desktop_status_linux.go:289-309 | On every run a refusal is logged exactly when no refusal of the identity, tracked since, was logged less than a minute before. |
| `DesktopAdmission.RefusalSpendsTheBucket` | control/desktop_status_linux.go:289-302 | A refusal of an identity that is not tracked yet leaves it without a token and nobody else's credit changed. |
| `DesktopAdmission.AdmittedExactlyWhen` | control/desktop_status_linux.go:228-268 | An identity is admitted if and only if it is known or there is room, it is below its cap, and its credit is a whole token. |
| `DesktopEviction.RateLimitHoldsExactlyWhen` | control/desktop_status_linux.go:185-309 | Every identity is admitted at most burst + rate * length times in every window of every run in which refusals are logged as the server logs them, if and only if one hour of refill covers the burst. |
| `DesktopEviction.LimitsInNumbers` | control/desktop_status_linux.go:229-241 | In the configured numbers, with 10, 60 and 2 for those that are not positive: the rate limit holds over every run exactly when burst is at most 60 * perMinute, then 60 * admissions is at most 60 * burst + perMinute * seconds, and connections stay within their cap. |
| `DesktopEviction.BurstSpentTwice` | control/desktop_status_linux.go:245-247 | Whenever it does not, a run of admissions and releases alone, from an empty server to a full table, in which one identity spends its burst twice and exceeds that bound. |
| `DesktopAdmission.ConnectionsBalance` | control/desktop_status_linux.go:228-309 | On every run: open connections are admissions minus releases and within the cap, tokens within [0, burst], at most 4096 clients. |
| `DesktopAdmission.AdmissionsAreBounded` | control/desktop_status_linux.go:228-309 | In any window of any run, evictions included, an identity is admitted at most burst + rate * length times. |
| `CmsLeases.GrantKeepsExactlyWhen` | control/cms.go:794-835 | Storing a lease keeps the lease invariant if and only if the event is newer than the watermark at that moment. |
| `CmsLeases.RevocationDuringGrant` | control/cms.go:768-835 | A revocation between check and grant is honoured if and only if the event is stamped after it or is not granted. |
| `CmsLeases.OrderlyLeasesAreCurrent` | control/cms.go:752-927 | On every run whose revocations are written and split no older login, all leases are newer than the watermark and within their bounds in every state. |
| `CmsLeases.SwitchingOffEndsTrust` | control/cms.go:221-241 | Once a switch was turned off and the revocation followed, nothing is trusted until after it, and then only leases stored since, whenever the switch is turned on again. |
| `CmsLeases.RevocationIsForeverExactlyWhen` | control/cms.go:911-927 | Over every continuation, restarts included: no lease issued at or before a revocation is ever held again if and only if a watermark that late is on file and no unseen login that old is between its check and its grant. |
| `CmsLeases.OrderlyRevocationsHold` | control/cms.go:911-927 | When revocations are written and do not fall between the check and the grant of an older login, every one of them holds for ever. |
| `CmsLeases.LeaseOutlivesRevocation` | control/cms.go:768-835 | A login checked before and granted after a revocation leaves a lease issued before it. |
| `CmsLeases.TrustIsEarned` | control/cms.go:407-460 | On every run from a fresh installation Trusted holds exactly for an unexpired lease under the key of address and host while both switches are on; such a lease ends within 7200 s of its grant, at most 4096 exist, and on orderly runs it is newer than the watermark. |
| `CmsTenure.LoginIsGrantedExactlyWhen` | control/cms.go:752-927 | A well-formed login is on the table afterwards exactly when its stamps fit, it was not seen and there is room; its lease ends when it says and within the configured time. |
| `CmsTenure.LogoutIsTakenExactlyWhen` | control/cms.go:774-783 | A well-formed logout removes the lease under its key, and nothing else, exactly when its stamps fit. |
| `CmsTenure.LeaseStaysExactlyWhen` | control/cms.go:407-460 | A lease stays through a step exactly when the step is not a revocation, a restart, a logout for its key, a login that replaces it, or a prune at or after its expiry. |
| `CmsTenure.LeaseLivesExactlyUntil` | control/cms.go:752-835 | Over every run a lease is there, unchanged, exactly until one of those steps. |
| `CmsTenure.LoginIsTrustedUntilItExpires` | control/cms.go:407-420 | From its grant, until such a step and with both switches on, a login for a settled host is trusted exactly before the earlier of its own end and the configured time after the grant. |
| `CmsTenure.ReplayIsIgnored` | control/cms.go:794-806 | A login that comes again under its identifier changes nothing until what was seen is forgotten. |
| `CmsTenure.SeenStaysExactlyWhen` | control/cms.go:794-806 | A seen identifier is forgotten exactly by a restart or by a new login when 8192 are remembered. |
| `CmsTenure.LeasesAreNotFromTheFuture` | control/cms.go:892-898 | On every run no lease was issued more than an hour after it was stored. |
| `CmsLeases.UnwrittenRevocation` | control/cms.go:161-189 | A revocation that was not written is forgotten by a restart unless it did not move the watermark. |
| `CmsHosts.NormalizedTwiceExactlyWhen` | control/cms.go:466-472 | Normalising a host twice is the same as once if and only if the result has no space at an edge and is not of the form host:port. |
| `CmsHosts.KeysAgreeExactlyWhen` | control/cms.go:462-472 | The key a grant files under and the key of a lookup agree for every address exactly on such hosts. |
| `CmsHosts.UnbracketedHostsAreSettled` | control/cms.go:466-472 | Hosts written without brackets and spaces, with or without a port, are such hosts. |
| `CmsHosts.PortIsDropped` | control/cms.go:466-472 | A plain name is put into small letters, and a port after it is dropped. |
| `CmsHosts.LettersBecomeSmall` | control/cms.go:466-468 | Lower-casing changes just the letters from A to Z, each to its small form. |
| `CmsHosts.BracketedHostIsNotSettled` | control/cms.go:466-472 | "[a:80]" is normalised to "a:80" and then to "a". |
| `CmsLeases.GrantIsFoundExactlyWhen` | control/cms.go:407-420 | The lease of a login is found for the same address and host if and only if the host is such a host, or an older lease answers. |
| `CmsLeases.LogoutEndsTheLogin` | control/cms.go:774-835 | The logout for the same address and host ends the lease of the login if and only if the host is such a host. |
| `CmsLeases.SanitizedIsBounded` | control/cms.go:191-213 | Whatever is stored or posted, the effective TTL and skew are within their bounds. |
| `CmsTenure.SettingsAreKeptWithinBounds` | control/cms.go:191-213 | Valid settings are kept as they are; a value out of its bounds, and only that, is replaced by its default. |
| `CmsLeases.CmsEngine.PruneLeases` | control/cms.go:454-460 | Exactly the expired leases leave the table. |
| `CmsLeases.CmsEngine.Trusted` | control/cms.go:407-420 | The answer and the pruned table are as specified. |
| `CmsLeases.CmsEngine.RevokeLeases` | control/cms.go:911-927 | All leases go, the watermark moves to now, and the count is returned. |
| `CmsLeases.CmsEngine.UpdateSettings` | control/cms.go:221-241 | Settings are sanitized and stored; switching either switch off revokes all leases. |
| `CmsLeases.CmsEngine.Grant` | control/cms.go:794-835 | The granting section is the specified transition: replay check, clamped expiry, capacity after pruning. |
| `CmsLeases.CmsEngine.Consume` | control/cms.go:752-835 | Without interleaving, an event that is not accepted, is covered by the watermark or is a hello changes nothing, a logout removes just its key, and a login is granted as specified. |
| `DecimalText.PrintsBackExactlyWhenPlain` | control/coreipc.go:816-832 | A numeral is what printing its value gives if and only if it has no superfluous leading zero. |
| `DecimalText.DigitsInOrder` | control/coreipc.go:816-832 | Numbers are written in decimal, most significant digit first, with a minus sign where negative. |
| `CoreIpc.TokenRoundTrip` | control/coreipc.go:816-878 | Parsing the token of any valid identity returns it, negative timestamps included. |
| `CoreIpc.TokenText` | control/coreipc.go:816-832 | The text of a token: version and fields in order with colons between them. |
| `CoreIpc.TokenIsInjective` | control/coreipc.go:816-832 | Valid identities have the same token if and only if they are equal. |
| `CoreIpc.ResponseCheckComparesIdentities` | control/coreipc.go:1086-1106 | The response check accepts exactly the texts that parse to the expected identity. |
| `CoreIpc.ParsedTextIsTheTokenExactlyWhenPlain` | control/coreipc.go:833-878 | A parsed text is the token of its identity if and only if its numbers carry no leading zero, plus sign or negative zero. |
| `CoreIpc.LeadingZeroParses` | control/coreipc.go:833-878 | A token whose size is written "00" parses and prints back differently. |
| `CoreIpc.CoreMac` | control/coreipc.go:179-188 | The loop authenticates the fields joined by the unit separator. |
| `CoreIpc.MacIdentifiesTheFields` | control/coreipc.go:167-188 | Valid field lists carry the same tag if and only if they are the same list. |
| `BehaviorStats.StatisticsAreExact` | control/behavior.go:27-39 | After any samples the mean is the arithmetic mean and M2 the sum of squared deviations from it, never negative, zero exactly for constant samples. |
| `BehaviorStats.OrderDoesNotMatter` | control/behavior.go:27-32 | The statistics depend on which samples were seen, not on their order. |
| `BehaviorStats.RunningStat.Update` | control/behavior.go:27-32 | The in-place update keeps the fields equal to the statistics of everything seen. |
| `BehaviorWindow.ExecStamps.ObserveExec` | control/behavior.go:138-153 | Filtering in place, appending and cutting to 256 gives the specified window, and the rule fires on its length. |
| `BehaviorWindow.WindowIsTheLastMinute` | control/behavior.go:138-147 | With a monotone clock the window is exactly the starts of the last minute, the newest 256 of them, over the whole history. |
| `BehaviorWindow.BurstIsExact` | control/behavior.go:138-153 | The burst rule fires if and only if the starts of the last minute reach a threshold of at most 256. |
| `BehaviorWindow.ThresholdAboveTheCap` | control/behavior.go:146-152 | 257 starts at one moment do not reach a threshold of 257. |
| `BehaviorCapacity.EvictProfiles` | control/behavior.go:393-406 | Exactly the surplus of profiles goes, least recently seen first, and the drop counter is exact. |
| `BehaviorCapacity.EvictPorts` | control/behavior.go:407-423 | Exactly the surplus of ports goes, least used first, and the drop counter is exact. |
| `BehaviorCapacity.LearnPorts` | control/behavior.go:198-204 | Every observed port is counted once or dropped once; known ports are always counted, new ones dropped only when the table is full. |

## Left out

- EvidenceRuns.AcknowledgedIsNeverLost: runs with one of the three losing steps are excluded by its `Lossless` hypothesis; `RunIsLosslessExactlyWhen` shows that it is exact.
- EvidenceRuns.EveryStepIsGood: the steps of a pass interleave with whole appends and rotations, not with their single writes; a retention that cannot remove a directory, after which the rotation goes on, and the time of the last full verification are not modelled.
- EvidenceRestarts.RotationCrashRestarts: before the marker, a new name equal to the one a pending marker holds, which random names do not repeat, keeps the live files and the settled past, and the start is not compared.
- CaseEngine.RunKeeps: new case IDs do not collide (`LiveEngine.IngestIncident` covers collisions), reloads are of stores that decode or repair, and the total count fits 64 bits; the correlation window and the effective policy are inputs.
- BlockExpiry.Reconciler.Reconcile: monotonic deadlines, events and log texts are not modelled; whether an entry is expired is an input, and the kinetic counter does not wrap.
- DesktopAdmission.AdmissionsAreBounded: tokens and times are real numbers, the clock is monotone in lock order and settings are fixed during a run.
- CmsLeases.OrderlyLeasesAreCurrent: a revocation and the write of its file are one step; two concurrent revocations writing out of order are not modelled.
- BehaviorStats.StatisticsAreExact: real numbers instead of floating point, and the sample counter does not wrap.
- BehaviorCapacity.EvictProfiles: a profile with an empty name, which the engine never creates, may end the loop early; then only the drop counter is promised.
- CaseBytes.SealedFitsExactlyWhen: sizes are those of ASCII text, one byte for each character that needs no escape.
- Byte-level encodings of the ledger (JSON, base64, hex) and the 4 MB line limit of the scanner: a log line is blank, garbage, or a record under its sequence number.
- 64-bit wrap-around of ledger sequence numbers and revisions.
- Key files, node identity, file modes, ownership and symbolic-link checks; replacing a file is atomic.
- Partial copies of checkpoint and watermark inside an archive that never got its marker: only the log copy is cut short.
- Chronos checkpoint encryption and storage, and hashing of file contents: a digest is given for each file.
- CmsHosts.NormalizedTwiceExactlyWhen: lower-casing is that of ASCII letters.
- CMS detection and profile bookkeeping, and the parsing of addresses.
- Anomaly scoring of ObserveNetwork beyond the statistics and port tables, and persistence of behaviour profiles.
- Airlock, boot trust, cells, deception, configuration tables and HTTP handlers: shallow decisions or runtimes outside this model.
