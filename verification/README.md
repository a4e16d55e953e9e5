# Models of the simulator's host tooling

This project models the parts of the host-side tooling that hold state, follow
protocols or do byte-level arithmetic, and proves what those parts are for.
`dafny verify dfyconfig.toml` checks all of it.

* **Cross-repository transaction** (`Git`, `Transaction`, `RootAllowlist`,
  `Provenance`, `Acceptance`, `Coordinator`, `Retirement`, `RetirementCalls`). The
  commands are functions of the journals and of whatever the repositories contain
  when a command runs; nothing relates the repositories of two commands, so a run
  allows arbitrary git edits in between. A tree is a map from paths to mode and
  object, and a commit is its parent and its tree. `Provenance` says where
  everything in a journal came from, and `Acceptance` when each command is
  accepted. `Coordinator` holds the commands as they loop and assign, proved
  against the functions. `Retirement` takes the last part of `finalize` apart into
  system calls on directories with a live and a durable view.
* **Live registry** (`RegistryDocument`, `PosixPath`, `LiveRegistry`,
  `GroupSession`). One publisher replaces the registry, truncates the lease and
  writes it piece by piece; a read is four looks at four later instants of such
  a run. `GroupSession` is the supervisor that drives the publisher.
* **Owned process** (`OwnedProcess`). A process is its boot, PID and start time.
  Between any two steps of `start` and `stop` processes may exit, be reaped and
  appear, and PIDs are handed out again.
* **Wire tape** (`Crc32c`, `CrcDivision`, `BridgeTape`, `WireLayout`). The
  table-driven and the bitwise CRC-32C and the polynomial division that defines it
  (section 12.1 of RFC 3720), the framed-record iterator, the summary.
* **Failure capsule** (`KmtRegistry`, `MemoryView`, `AqlQueue`, `AqlPacket`,
  `AqlLayout`, and the modules named `Capsule…`). Allocation lookup from a trace
  that shows no frees, ring frontiers, packets and descriptors (section 2.9 of the
  HSA Platform System Architecture Specification), and the pair `capture` and
  `verify`. `CapsulePicture` and `CapsuleReferences` say what a committed capsule
  shows, `CapsuleChecks` what an accepted one says.
* **Closures and encodings** (`BundleClosure`, `BundleObstacles`,
  `BundleReference`, `CacheTree`, `Descendants`, `DeviceRecord`, with `Bytes` and `Wrappers` below them).

SHA-256 is an injective constructor (`Sha256(of)`) in the capsule and any
function with 32-byte results in the device record. Clocks, process tables,
memory contents and file contents are parameters.

## What the proofs found

Where the code does less than one would expect, the code is kept and the exact
condition is proved.

* A `finalize` that crashes after marking the journal committed can be repeated
  exactly when its timestamp was not empty (`Transaction.StoppedFinalizeCanBeRepeated`).
* `prepare-root` compares the allowlist with the names that git lists for the index
  against HEAD: not against the previous root, and without the sources of staged
  renames. So the allowlist equals the changes of the finalized commit exactly when
  no rename source was in the previous root and the index overwrote every other
  path in which HEAD had left the previous root (`RootAllowlist.AllowlistBinds`).
  `RootAllowlist.StrayFileIsCommitted` is a run that commits a file which the
  allowlist does not name, `RootAllowlist.RenamedFileIsDeleted` one that deletes
  such a file.
* Retiring survives power losses and process deaths at every step, thanks to the
  fsync order of `retire_journal` and to the `syncfs` before it. Another command
  that runs after a death between the rename and the fsync of `committed/` fsyncs
  `txn/` first, and then the journal's name can be lost
  (`Retirement.RetirementIsCrashSafe`, `Retirement.ExposedExactly`). Otherwise
  any history of crashed and repeated attempts leaves what one command of the
  modelled runs leaves (`Retirement.HistoriesAreCommands`).
* Only ".." is refused by the absolute-path check; "//" and "/./" pass
  (`PosixPath.AbsoluteNormalMeans`, `PosixPath.RedundantSpellingPasses`).
* A READY document is refused exactly when a daemon reported the zero UUID
  (`GroupSession.BuiltDocumentsAreValid`). `refresh` runs before `abort` in a
  poll, so READY may still be published in the poll that sees a rank fail.
* A start leaves a live server without a record exactly when the process lives on
  and the wrapper was killed before the write, or the pidfd, identity check,
  binary or record write failed and the cleanup's five seconds were not enough
  (`OwnedProcess.AbandonedExactly`); a later start does not see such a server
  (`OwnedProcess.AbandonedServerIsNotSeen`).
* The record iterator merges the wire header into an entry, and both have a member
  `flags`. So the flags of the tape are lost for every record of 80 bytes or more
  whose wire flags differ (`BridgeTape.TapeRoundTrip`,
  `BridgeTape.WireHeaderHidesFlags`).
* `Registry.resolve` still answers for a freed mapping; it answers with the live
  owner exactly when there is one (`KmtRegistry.ResolvedIsLiveExactly`).
* The two overflow and range checks on the published frontier can never fail
  (`AqlQueue.AcceptedExactlyInWindow`).
* Whatever memory does from one reading of a capture to the next, `verify`
  accepts the committed capsule exactly when the pass that copied the code found
  the descriptor bytes that had been read (`CapsuleMemory.CaptureMemory`).
* The device publisher checks slot and rank only; the reader also needs a world
  of at most 16, an endpoint below 112 bytes and a job id of 16 bytes
  (`DeviceRecord.PublishedIsShownExactly`).

## Model

| member | source | states |
|---|---|---|
| Transaction.CommittedMeans | scripts/transaction.py:803-876 | in every run with arbitrary git edits between commands, a committed journal names a commit whose parent is the previous root, whose gitlinks are the recorded heads, each changed, and which leaves every other entry under projects/ alone |
| Provenance.CommittedHistory | scripts/transaction.py:415-876 | in every run with arbitrary git edits, a committed journal was begun on an accepted root without changes with each participant as that root has it; later each participant was recorded at the path, and at the target if any, that this begin was given, with its repository clean there; later prepare-root and then finalize found them all clean there again; the commit is a child of the first root with the tree that was prepared |
| Transaction.RunsAreSound | scripts/transaction.py:415-876 | every command, and every crash inside finalize, keeps the journal invariants: locked participants, distinct child paths, records at declared paths that equal any target, prepared trees that bind them |
| Retirement.CrashesAreCommands | scripts/transaction.py:838-876 | wherever one finalize of a durable directory is cut off, by process death or by a power loss, the directory is left unchanged or as one of the modelled commands leaves it |
| Retirement.HistoriesAreCommands | scripts/transaction.py:777-876 | after any history of attempts that complete, die or lose power at any step, each after passing its checks on what it finds, the next command finds what a single modelled command leaves of the directory before the first attempt, unless another command ran while the journal was exposed; so the run theorems cover these crashes |
| Transaction.ActiveJournals | scripts/transaction.py:448-503 | at most one journal is active, its records agree with its declarations, and a prepared one has recorded exactly the declared participants |
| Transaction.RunsEvolve | scripts/transaction.py:507-744 | while a journal is active its previous root and declared ids and paths never change, a target is set at most once, a recorded identity is never replaced and the phase never goes back |
| Transaction.ExecuteEvolves | scripts/transaction.py:803-876 | no command loses an active journal: it stays active and has only evolved, or is retired in an evolved state |
| Transaction.FinalizeExactly | scripts/transaction.py:803-876 | with the prepared tree committed on the previous root, finalize succeeds if and only if a recorded timestamp is not empty and no other retired journal has the name, and then no journal is active and one is retired as committed |
| Transaction.StoppedFinalizeCanBeRepeated | scripts/transaction.py:838-870 | a finalize stopped after marking the journal can be repeated if and only if its timestamp was not empty |
| RootAllowlist.AllowlistBinds | scripts/transaction.py:715-744 | in every run with arbitrary git edits, a committed journal's commit changes exactly the allowed paths if and only if, at its prepare-root, no source of a staged rename was in the previous root and the index overwrote every other path in which HEAD had left the previous root |
| RootAllowlist.SameChanges | scripts/transaction.py:715-731 | the changes from HEAD, without some deleted paths, are the changes from the previous root if and only if those paths are not in the previous root and the index differs from both trees wherever else they differ |
| RootAllowlist.PlannedAt | scripts/transaction.py:671-744 | every journal past prepare has its tree from a successful prepare-root of the run, and its allowlist is the list of staged names there, without rename sources |
| RootAllowlist.HonestAllowlist | scripts/transaction.py:715-731 | when prepare-root succeeds, the allowlist is the set of changes from the previous root exactly under that condition, so otherwise the allowlist of all changes is refused |
| RootAllowlist.StrayFileIsCommitted | scripts/transaction.py:715-744 | on any previous root without projects, a run with one new participant in which HEAD gains an entry between begin and prepare-root: finalize succeeds and commits that entry, which the allowlist does not name |
| RootAllowlist.RenamedFileIsDeleted | scripts/transaction.py:701-744 | on any previous root without projects, HEAD unchanged, a run with one new participant and a staged move of a file that git lists as a rename: finalize succeeds and deletes the file, which the allowlist does not name |
| RootAllowlist.EveryPlanOccurs | scripts/transaction.py:415-744 | every previous root, HEAD, set of rename sources and index that publishes one new or changed participant occurs in a run, which commits the index; its changes are the allowed ones exactly under the condition |
| Provenance.BegunAt | scripts/transaction.py:415-504 | every journal of every run was begun by a command whose participants are its participants, each with its path and with its target unless a later one filled it in |
| Provenance.TargetedAt | scripts/transaction.py:420-556 | every target in a journal was given to its begin, or later to a declare-child for this participant |
| Provenance.RecordedAt | scripts/transaction.py:576-617 | every record in a journal was given to a record-child that found the repository clean at it |
| Provenance.ReadsAll | scripts/transaction.py:420-447 | the declarations that are read from a participant list are exactly one for each participant, with its path and its target |
| Acceptance.BeginExactly | scripts/transaction.py:415-504 | begin is accepted exactly for readable participants and roots, each participant in place in HEAD or nowhere, on an accepted root without changes, for the next checkpoint, while no journal is active |
| Acceptance.DeclareChildExactly | scripts/transaction.py:507-556 | declare-child is accepted exactly when it changes neither an earlier target nor a record, and then the target is in the journal |
| Acceptance.DeclareRootExactly | scripts/transaction.py:559-573 | declare-root is accepted exactly in a draft without another allowlist, and then the named paths are the allowlist |
| Acceptance.RecordChildExactly | scripts/transaction.py:576-617 | record-child is accepted exactly when the repository is clean at the identity, which no target and no record contradicts, and then the record is in the journal |
| Acceptance.PrepareRootExactly | scripts/transaction.py:671-744 | prepare-root is accepted exactly when every participant is recorded and clean, the index publishes the records and no other project changes, the staged names are the allowlist and nothing else is pending; the plan is the index |
| Acceptance.FinalizeAccepted | scripts/transaction.py:803-876 | finalize succeeds exactly for a prepared or marked journal whose prepared tree is the clean commit on the previous root for this checkpoint, with every participant clean at its record, unless a mark has no timestamp or another retired journal has the name; the journal is then retired with its mark |
| Transaction.BeginKeepsSound | scripts/transaction.py:415-504 | a new journal starts sound: distinct child paths, initial identities from the previous root |
| Transaction.DeclareChildKeepsSound | scripts/transaction.py:507-556 | a target that is declared late never contradicts a recorded identity |
| Transaction.RecordChildKeepsSound | scripts/transaction.py:576-617 | a recorded child sits at its declared path and equals any declared target |
| Transaction.PrepareRootKeepsSound | scripts/transaction.py:671-744 | what prepare-root checks of the index makes the prepared tree bind the recorded heads |
| Transaction.ReadParticipants | scripts/transaction.py:420-447 | an accepted participant list has distinct child paths under projects/ and is not empty; `Provenance.ReadsAll` says what is read |
| Transaction.WithInitialChildren | scripts/transaction.py:317-342 | filling in initial identities keeps the declared ids and changes nothing in a journal that has them |
| Coordinator.ParseParticipants | scripts/transaction.py:420-447 | the loop accepts and returns what the reading of the list means, which `Provenance.ReadsAll` ties to each participant's path and target |
| Coordinator.ParseRootPaths | scripts/transaction.py:559-563 | the loop accepts exactly repetition-free safe paths and returns their set |
| Coordinator.VerifyInitialChildren | scripts/transaction.py:317-342 | the loop accepts exactly when every declared child starts where the previous root says |
| Coordinator.VerifyStagedRecords | scripts/transaction.py:680-714 | the loop accepts exactly when every recorded child matches its repository and is staged |
| Coordinator.VerifyCommittedRecords | scripts/transaction.py:818-836 | the loop accepts exactly when HEAD carries every recorded head and every child matches |
| Coordinator.VerifyGitlinks | scripts/verify_workspace.py:457-515 | walking the raw diff accepts exactly when the changed projects are the participants and each change publishes a gitlink, whatever the order of the records |
| Coordinator.Coordinator.Begin | scripts/transaction.py:415-504 | the command changes the control directory as the specification says or not at all; and a sound control directory stays sound and loses or changes nothing that was fixed |
| Coordinator.Coordinator.DeclareChild | scripts/transaction.py:507-556 | as above for declare-child |
| Coordinator.Coordinator.DeclareRoot | scripts/transaction.py:559-573 | as above for declare-root |
| Coordinator.Coordinator.RecordChild | scripts/transaction.py:576-617 | as above for record-child |
| Coordinator.Coordinator.PrepareRoot | scripts/transaction.py:671-744 | as above for prepare-root, with the raw diff as git prints it |
| Coordinator.Coordinator.CheckFinalize | scripts/transaction.py:803-837 | every check of finalize, including the journal branch of the root-state check, passes exactly when the specification's does |
| Coordinator.Coordinator.Finalize | scripts/transaction.py:803-876 | finalize writes and retires the journal as the specification says, or leaves everything; and a sound control directory stays sound and loses or changes nothing that was fixed |
| Retirement.RetirementIsCrashSafe | scripts/transaction.py:777-876 | over any sequence of attempts that complete, lose power or die at any step, with other commands in between, the journal always keeps a durable name if and only if no other command runs while it is exposed; and an attempt that finds the active name and completes leaves, for good, no active journal and one retired copy in phase committed |
| Retirement.EveryCrashPoint | scripts/transaction.py:838-876 | at every single step, and during the write-back of the filesystem in any order, the journal can be recovered |
| Retirement.OtherRetiredJournalIsKept | scripts/transaction.py:777-800 | a different retired journal of the same name stops the retirement and is kept |
| Retirement.ExposedExactly | scripts/transaction.py:777-800 | the journal is exposed to another command's fsync of txn/ at exactly one step, between the rename and the fsync of committed/, from a prepared as from a committed start |
| Retirement.ExposedOverAHistory | scripts/transaction.py:777-876 | over a history, the journal is exposed exactly when an attempt died at that step and there has been no power loss since |
| RetirementCalls.MarkAndRetireByCalls | scripts/transaction.py:777-876 | the states that the crash proofs quantify over follow each other by one system call each, told as what it does to the two views of the two directories |
| Retirement.ControlDirectory.RetireJournal | scripts/transaction.py:777-800 | the method passes through exactly the states of the trace that the crash proofs quantify over |
| Retirement.ControlDirectory.SyncRepositoryFilesystems | scripts/transaction.py:202-215 | the write-back passes through exactly the states of the trace and ends with both directories durable |
| Retirement.ControlDirectory.FinishFinalize | scripts/transaction.py:838-876 | the durability barrier, the mark and the retirement together pass through exactly that trace |
| PosixPath.AbsoluteNormalMeans | scripts/gemsim_live_registry.py:78-84 | the check accepts exactly absolute paths without a ".." component |
| PosixPath.RedundantSpellingPasses | scripts/gemsim_live_registry.py:78-84 | paths with empty and "." components pass it |
| PosixPath.AppendKeepsNormal | scripts/gemsim_live_registry.py:494-515 | a plain name below an accepted path is accepted |
| LiveRegistry.ReadsAreLinearizable | scripts/gemsim_live_registry.py:561-585 | a successful read returns a valid published document that was the registry and the one the lease named, completely, at one instant within the read |
| LiveRegistry.ReadsNeverGoBack | scripts/gemsim_live_registry.py:561-585 | a read after another never returns a lower generation, and the same generation is the same document |
| LiveRegistry.OnMeansHeldAndReady | scripts/gemsim_live_registry.py:434-440 | effective status is ON exactly when, at one instant within the read, the publisher held the lock and the registry was the returned READY document |
| LiveRegistry.OffAfterTheEnd | scripts/gemsim_live_registry.py:517-558 | once the publisher has closed or died no later read says ON |
| LiveRegistry.QuietReadsSucceed | scripts/gemsim_live_registry.py:561-585 | an attempt during which no publish is in progress succeeds and returns the current document |
| LiveRegistry.RunIsConsistent | scripts/gemsim_live_registry.py:464-492 | every instant of every run has the lease and registry in one of the few relations publish leaves |
| LiveRegistry.EveryGenerationWasShown | scripts/gemsim_live_registry.py:443-492 | in a run from the opening of the lease, every generation from 1 to the current one has been in the registry, valid and with the session's lease path |
| LiveRegistry.ReadLiveSnapshot | scripts/gemsim_live_registry.py:561-585 | the retry loop returns the first successful attempt, or the last error |
| LiveRegistry.LiveRegistryPublisher.Publish | scripts/gemsim_live_registry.py:464-492 | either nothing happens or the next valid document replaces the last and the lease names it, and every state in between is a step of the modelled run |
| LiveRegistry.LiveRegistryPublisher.RewriteLease | scripts/gemsim_live_registry.py:464-492 | truncating and writing in pieces ends with the complete lease of the new document |
| LiveRegistry.LiveRegistryPublisher.CloseSession | scripts/gemsim_live_registry.py:517-522 | closing only drops the lock and may be repeated |
| GroupSession.BuiltDocumentsAreValid | scripts/gemsim_live_registry.py:315-402 | a document the session builds passes validation, and a READY one exactly when no daemon reported the zero UUID |
| RegistryDocument.ValidExactly | scripts/gemsim_live_registry.py:315-402 | a document is valid exactly when it lists the ranks in order, all in its state and world, with real process ids, UUIDs and absolute paths, and a READY one lists every process |
| GroupSession.GroupRegistrySession.Publish | scripts/run_gemsim_instances.py:232-244 | a state is published once, through the publisher, with the next number and the entries of the current runs, or nothing changes |
| GroupSession.GroupRegistrySession.Refresh | scripts/run_gemsim_instances.py:246-271 | READY is published exactly when every rank reports its own single identity while STARTING |
| GroupSession.GroupRegistrySession.Abort | scripts/run_gemsim_instances.py:308-311 | the first reason is kept and the state ends OFF |
| GroupSession.GroupRegistrySession.RunPhase | scripts/run_gemsim_instances.py:665-737 | the documents are valid, numbered 1 to n, their states a subsequence of STARTING, READY, OFF that ends in OFF, and a READY document was seen ready in some poll |
| OwnedProcess.StopHitsOnlyTheOwnedServer | tools/agentenv_service.py:1111-1238 | under any exits and PID reuse every signal of stop goes to the recorded process, and the record is removed only when that process has ended |
| OwnedProcess.StopExactly | tools/agentenv_service.py:1111-1238 | under any exits and PID reuse, stop sends SIGTERM exactly to a server that is there and is checked again behind an open pidfd, and SIGKILL after it exactly when the option is set and the server outlived the wait; each result is given exactly in its own case |
| OwnedProcess.PidfdIsBoundToRecorded | tools/agentenv_service.py:1077-1096 | a pidfd opened before a successful ownership check belongs to the recorded process |
| OwnedProcess.MatchMeans | tools/agentenv_service.py:779-804 | a mismatch means the recorded process has been reaped, a match that it is there |
| OwnedProcess.RunsAreSafe | tools/agentenv_service.py:876-1238 | in every run a running launched server is the recorded one unless its launch was abandoned |
| OwnedProcess.AtMostOneServer | tools/agentenv_service.py:876-1005 | in every run in which no start is killed before its record or fails in one of four ways and outlives its cleanup, at most one launched server runs, and it is the recorded one |
| OwnedProcess.AbandonedExactly | tools/agentenv_service.py:938-1005 | a start ends with a running process and no record if and only if the process still runs and the wrapper was killed, or the pidfd, identity, binary or record write failed |
| OwnedProcess.AbandonedOverARun | tools/agentenv_service.py:876-1238 | over a run the abandoned processes are exactly those of the starts that meet this condition |
| OwnedProcess.AbandonedServerIsNotSeen | tools/agentenv_service.py:876-947 | an abandoned server does not stop a second start |
| OwnedProcess.AgentEnvService.StopService | tools/agentenv_service.py:1111-1238 | the method's branches give the specified result, record and signals, whose order and cases `OwnedProcess.StopExactly` gives |
| OwnedProcess.AgentEnvService.StartService | tools/agentenv_service.py:876-1005 | the method leaves the specified record, and reports success only with one |
| OwnedProcess.AgentEnvService.Signal | tools/agentenv_service.py:1077-1096 | a signal is sent exactly when the record matched and the bound process was still there |
| OwnedProcess.AgentEnvService.RemoveRecord | tools/agentenv_service.py:1008-1012 | the record moves to the last-stop file with its result |
| Crc32c.TableCrc | tools/bridge_tape_decode.py:130-135 | with the built table the byte-wise loop computes the same checksum as the bitwise one, on every byte string |
| Crc32c.BitwiseCrc | tools/aql_failure_capsule.py:152-158 | the bit-wise loop computes that checksum |
| Crc32c.BuildTable | tools/bridge_tape_decode.py:115-127 | entry b of the table is eight register steps of byte b |
| Crc32c.TableStep | tools/bridge_tape_decode.py:130-135 | for every linear register step, one lookup and a byte shift make eight steps |
| Crc32c.BurstDetected | tools/bridge_tape_decode.py:130-135 | changing any of at most four consecutive bytes of any string changes its checksum |
| CrcDivision.CrcIsRemainder | tools/bridge_tape_decode.py:115-135 | the checksum of any byte string is the complement of the remainder of long division of its polynomial, lowest bit of each byte first and its first 32 bits complemented, by the generator that section 12.1 of RFC 3720 names by its exponents |
| CrcDivision.PolynomialIsReflected | tools/bridge_tape_decode.py:120 | the constant of the table is that generator with its bits reversed |
| BridgeTape.BurstBreaksCrc | tools/bridge_tape_decode.py:169-192 | a change confined to four consecutive bytes wholly inside or wholly outside the checksum field of a record of at least 80 bytes turns crc_ok false |
| BridgeTape.TapeRoundTrip | tools/bridge_tape_decode.py:204-247 | any encoded records followed by a strict prefix of another read back in order with every field but the tape flags, which read back if and only if the record is shorter than a wire header or its wire flags are the same; truncated is set exactly when the prefix is not empty |
| BridgeTape.WireHeaderHidesFlags | tools/bridge_tape_decode.py:229-245 | records of 80 bytes or more that differ in their tape flags alone give the same entry |
| BridgeTape.IterRecords | tools/bridge_tape_decode.py:204-247 | the stream loop yields the complete records of the tape, with the wire header's members merged over those of the tape, and its trailer |
| BridgeTape.FramingIsLossless | tools/bridge_tape_decode.py:204-247 | every tape is its complete records followed by its leftover |
| BridgeTape.FramesOfWritten | tools/bridge_tape_decode.py:204-247 | records that were written are framed again exactly |
| BridgeTape.EncodedFields | tools/bridge_tape_decode.py:169-247 | every header field of an encoded record decodes to its value |
| WireLayout.WrittenHeaderIsDecoded | tools/bridge_tape_decode.py:169-201 | whatever a writer packs into a wire header is what is decoded, each field from its own place, and crc_ok says whether the stored checksum is that of the record with zeros in its place |
| BridgeTape.Summarize | tools/bridge_tape_decode.py:250-290 | the counters agree with the records they were counted from |
| BridgeTape.SummaryConserves | tools/bridge_tape_decode.py:250-290 | the direction, message and connection counts each sum to the records, and record bytes plus 48 per record plus the leftover are the tape |
| BridgeTape.SummarizeTape | tools/bridge_tape_decode.py:320-326 | summing up what the iterator yields conserves the records and bytes of any tape and says whether it was truncated |
| KmtRegistry.ResolveFindsTheLiveOwner | tools/aql_failure_capsule.py:234-245 | for every history whose live mappings never overlap, if a live allocation contains the range then resolve, which sees no frees, returns that one |
| KmtRegistry.ResolvedIsLiveExactly | tools/aql_failure_capsule.py:234-245 | the answer is the live owner if and only if there is a live owner |
| KmtRegistry.FreedMappingIsStillResolved | tools/aql_failure_capsule.py:234-245 | a mapping that is gone is still resolved |
| KmtRegistry.Newest | tools/aql_failure_capsule.py:234-245 | the result contains the range and no newer allocation does |
| KmtRegistry.ParseRegistry | tools/aql_failure_capsule.py:248-361 | parsing succeeds exactly with an allocation, a queue and one process, and returns the allocations in order and every queue in its last state, by id |
| KmtRegistry.AllocationsAreLogged | tools/aql_failure_capsule.py:260-281 | every allocation is its line of the trace, numbered in order |
| KmtRegistry.EveryAllocationIsListed | tools/aql_failure_capsule.py:260-281 | no allocation line of the process is missed |
| KmtRegistry.QueueIsLogged | tools/aql_failure_capsule.py:282-330 | a queue has the pointers and doorbell of the line that last created it, and is active exactly when no later line destroys it |
| KmtRegistry.RingIsLogged | tools/aql_failure_capsule.py:282-317 | its ring is that of the last line that created or updated it |
| KmtRegistry.ProgressIsLogged | tools/aql_failure_capsule.py:330-350 | its progress is what has been reported since its creation, in order |
| MemoryView.ReadExactly | tools/aql_failure_capsule.py:493-545 | a read returns exactly the bytes that the newest allocation holding the whole range has at this place in the file that backs it |
| AqlQueue.AcceptedExactlyInWindow | tools/aql_failure_capsule.py:920-947 | the checks accept exactly read <= completion <= published <= reserved within the ring depth |
| AqlQueue.PendingSlotsAreDistinct | tools/aql_failure_capsule.py:1051-1065 | all reserved packets, so the head and the next packet, lie in pairwise disjoint 64-byte slots inside the ring |
| AqlQueue.FrontierAliasesHeadExactlyWhenFull | tools/aql_failure_capsule.py:920-947 | the published index shares the head's slot exactly when the ring is full |
| MemoryView.FrontiersExactly | tools/aql_failure_capsule.py:920-947 | the frontiers that are accepted are exactly those of the four words in memory at the read and write pointers, the doorbell and the completion word, when they fit the ring |
| AqlQueue.SelectQueue | tools/aql_failure_capsule.py:950-971 | selection succeeds exactly when every considered queue is sound and exactly one has a pending packet, and returns it |
| AqlPacket.FieldsDetermineDispatch | tools/aql_failure_capsule.py:669-718 | header and decoded fields of a dispatch packet determine all 64 bytes; which field lies where is `AqlLayout.WrittenDispatchIsDecoded` |
| AqlLayout.WrittenDispatchIsDecoded | tools/aql_failure_capsule.py:669-718 | whatever a writer packs, one field after the other, into a dispatch packet is what is decoded, and it is accepted exactly when its fields are sound |
| AqlLayout.WrittenDescriptorIsDecoded | tools/aql_failure_capsule.py:737-784 | the same for the 64 bytes of a code object V3 descriptor, accepted exactly when its entries are addresses |
| AqlLayout.WrittenLegacyIsDecoded | tools/aql_failure_capsule.py:721-767 | the same for the 256 bytes of a code object V2 descriptor |
| AqlPacket.DescriptorSound | tools/aql_failure_capsule.py:737-784 | an accepted descriptor has both entries in range, a size that tells its kind and a kernarg read size that follows from its fields |
| CapsuleProcess.CaptureProcess | tools/aql_failure_capsule.py:980-1399 | from the trace on, over memory that is static from the first packet to the last copy, verify accepts every capsule that capture commits |
| CapsuleMemory.CaptureMemory | tools/aql_failure_capsule.py:1051-1385 | with other memory at every reading, capture commits exactly when its reads and budgets allow, and verify accepts the capsule if and only if the pass that copied the code found the descriptor bytes that had been read |
| CapsuleReadings.ObservedExactly | tools/aql_failure_capsule.py:1051-1176 | capture gets through its readings exactly when the packets can be read and decoded, the descriptor is there as long as its first bytes say with its entry in its allocation, the kernarg fits the budget, the signal is there, and the queue state agrees with the queue, its frontiers and what it points to |
| CapsulePicture.CommittedIsPicture | tools/aql_failure_capsule.py:1051-1385 | a committed capsule shows memory as it was at each reading: the packet at the completion frontier and the one behind it, the descriptor at the packet's kernel object, as much kernarg at its kernarg address as the descriptor says, its completion signal, the queue state, the whole code allocation, and the worker's files and trace; its pointers are exactly the kernarg words that point into an allocation |
| CapsuleReferences.ReferencesExactly | tools/aql_failure_capsule.py:1133-1215 | it references exactly the allocations that play a role in what was read, each once and with exactly its roles |
| CapsuleChecks.AcceptedMeans | tools/aql_failure_capsule.py:1410-2011 | of an accepted capsule the bytes themselves agree: the packet file is the dispatch at the completion frontier, its kernel object is where the one copied allocation holds the descriptor file, and frontiers, queue state, registry, sizes and limits fit them |
| CapsuleChecks.ManifestBindsFiles | tools/aql_failure_capsule.py:1538-1567 | one manifest is accepted with one set of file contents only |
| CapsuleMemory.VerifiesExactly | tools/aql_failure_capsule.py:1947-1962 | a cross-linked capsule is accepted if and only if its copied code holds the descriptor |
| CapsuleVerify.Verify | tools/aql_failure_capsule.py:1410-2011 | with its loops, verify accepts exactly the capsules the agreement theorems call verified, which `CapsuleChecks.AcceptedMeans` spells out |
| CapsuleVerify.CheckTable | tools/aql_failure_capsule.py:1538-1567 | the loop over the artifact table accepts exactly when it lists every file once, with its size and digest |
| CapsuleVerify.CheckSnapshot | tools/aql_failure_capsule.py:1772-1913 | the checks of the registry file accept exactly a sound one with a single resident code, and find that code |
| CapsuleVerify.CheckReferenced | tools/aql_failure_capsule.py:1823-1870 | the loop accepts exactly when every referenced allocation was observed and hashed whole, and gathers the byte total, the roles and the resident code |
| CapsuleVerify.CheckQueue | tools/aql_failure_capsule.py:1914-1932 | filtering the queues by id accepts exactly when one has it and says what the selection says |
| CapsuleVerify.CheckLogs | tools/aql_failure_capsule.py:1987-2000 | the sums over the log artifacts agree with the captured byte count and each fits |
| CapsuleMemory.PartOfWhole | tools/aql_failure_capsule.py:522-562 | a part of an allocation reads as that part of the whole |
| CapsuleRun.Capture | tools/aql_failure_capsule.py:1051-1385 | the capsule that is committed passes every check of verify but the last look into the code |
| CapsuleRun.RegistryIsSound | tools/aql_failure_capsule.py:1772-1882 | the registry file's identities, hash ranges, role sets, counts and byte totals agree with the manifest |
| CapsuleRun.CodeIsSound | tools/aql_failure_capsule.py:1883-1913 | exactly one referenced allocation is the resident code, copied whole, with the digest and size of its copy |
| CapsuleRun.QueueIsSound | tools/aql_failure_capsule.py:1914-1932 | exactly one observed queue has the selected id and says what the selection says |
| CapsuleRun.SelectionIsSound | tools/aql_failure_capsule.py:1568-1635 | frontier order, head address, counts and next-packet index agree |
| CapsuleRun.FilesAreSound | tools/aql_failure_capsule.py:1672-1770 | every required file is there and decodes to what the manifest says |
| CapsuleRun.LogsAreSound | tools/aql_failure_capsule.py:1987-2000 | the sizes of the log artifacts add up to the captured log bytes and fit the limits |
| CapsuleRoles.ScanPointers | tools/aql_failure_capsule.py:1151-1167 | the loop lists every kernarg word that points into an allocation, with its newest owner, and gives those their role |
| CapsuleRoles.HashBytes | tools/aql_failure_capsule.py:1178 | the bytes of the referenced allocations are summed once each, in any order |
| CapsuleRoles.RecordAll | tools/aql_failure_capsule.py:1201-1215 | one record for each referenced allocation, with the sizes adding up, unless one cannot be read |
| CapsuleRoles.WithPointersKeeps | tools/aql_failure_capsule.py:974-977 | scanning pointers takes no role away and never makes another allocation the resident code |
| CapsuleFiles.TableIsSound | tools/aql_failure_capsule.py:566-620 | a directory whose names are distinct has a table that lists every file once with its size and digest |
| CapsuleAgreement.AddLogs | tools/aql_failure_capsule.py:1297-1309 | the loop accepts exactly distinct unreserved roles within both budgets, and its running count is the sum |
| CapsuleFiles.CapsuleDirectory.Add | tools/aql_failure_capsule.py:588-605 | a file is added once, after all others |
| BundleClosure.Build | tools/agentenv_bundle.py:201-420 | building ends, and a finished archive is closed under children of directories, existing link targets and manifest references, holds what was selected, and holds only what some closed set must, each source under its guest path below the first root that has it; it is refused only for an obstacle in such a set, and finishes only if some set of paths that is closed, but for references of manifests that may be overridden in it, has no obstacle, but for such manifests and for conflicts below a lower root; of different files with one guest path it has the one of the lowest root |
| BundleObstacles.UnarchivableExactly | tools/agentenv_bundle.py:215-275 | a walked path is an obstacle exactly when it has no guest path, is neither file, directory nor link, or is a link out of the allowed roots |
| BundleObstacles.ConflictExactly | tools/agentenv_bundle.py:277-310 | two paths are in conflict exactly when they lie in the same first root, share a guest path and lead to different files |
| BundleObstacles.BadManifestExactly | tools/agentenv_bundle.py:348-400 | a control manifest is an obstacle exactly when it is longer than 64 MiB, cannot be read or holds a refused value |
| BundleClosure.BundleBuilder.Walk | tools/agentenv_bundle.py:215-275 | walking terminates, archives what it walks and keeps everything already walked closed |
| BundleClosure.BundleBuilder.MergeEntry | tools/agentenv_bundle.py:277-310 | a lower root wins, the same file is no conflict, two files of one root are, and no other entry changes |
| BundleClosure.BundleBuilder.Parse | tools/agentenv_bundle.py:373-420 | after a manifest has been parsed everything it refers to has been walked |
| BundleClosure.BundleBuilder.AddManifestClosure | tools/agentenv_bundle.py:348-420 | the fixed point terminates with every archived control manifest followed |
| BundleClosure.ArchiveName | tools/agentenv_bundle.py:187-196 | a path has a guest name exactly when it lies in a source root; `BundleClosure.GuestPathExactly` gives the name |
| BundleClosure.GuestPathExactly | tools/agentenv_bundle.py:187-196 | the guest name of a path in the first source root that contains it is the path below this root, put below the root's guest path |
| BundleClosure.Reference | tools/agentenv_bundle.py:330-346 | a followed reference exists |
| BundleReference.ReferenceExactly | tools/agentenv_bundle.py:330-450 | a plainly spelled value is followed exactly to the path that it names, or that the first root standing for the guest root has below it, when that is allowed, part of the runtime and, if a directory, a dependency as a whole |
| BundleReference.RefusedExactly | tools/agentenv_bundle.py:373-420 | such a value stops the builder exactly when it is missing below the environment prefix in strict mode, or allowed without a guest path |
| BundleReference.TwoSlashesAreRefused | tools/agentenv_bundle.py:187-196 | a value that begins with two slashes is never followed, and stops the builder where the plain value would be allowed |
| CacheTree.StreamDeterminesTree | scripts/run_gemsim_instances.py:935-981 | two read-only trees feed the same bytes to the digest only if they are the same tree |
| CacheTree.StreamDeterminesItems | scripts/run_gemsim_instances.py:935-981 | equal streams list the same paths, kinds, modes, owners, sizes and contents |
| CacheTree.ItemSplits | scripts/run_gemsim_instances.py:944-978 | an item can be split off a stream in one way only |
| CacheTree.OwnerIsText | scripts/run_gemsim_instances.py:944-953 | the owner part of an item is the mode in octal, then user and group in decimal, without leading zeros |
| CacheTree.WritableBits | scripts/run_gemsim_instances.py:939-948 | an entry counts as writable exactly when an octal digit of its mode has the write bit |
| CacheTree.CacheDigest.AddDirectory | scripts/run_gemsim_instances.py:939-978 | the recursion feeds exactly the items of the tree, and refuses exactly trees with writable or special entries |
| Descendants.FrontierSearch | scripts/run_gemsim_ccl_live_allreduce.py:256-264 | on any parent table, cycles included, the search ends with exactly the processes reachable by one or more child edges |
| Descendants.StackSearch | scripts/run_gemsim_instances.py:359-368 | so does the stack search over child lists, hence the two agree |
| DeviceRecord.DecodeInvertsEncode | scripts/gemsim_smi.py:86-159 | whatever the publisher builds, short job ids and long endpoints included, is accepted exactly when it is valid for the device and decodes to what was published |
| DeviceRecord.EncodeInvertsDecode | scripts/gemsim_smi.py:86-159 | every accepted payload is the encoding of its decoded fields, so no byte of it is free |
| DeviceRecord.EncodedLayout | tools/gemsim_smi_publish.py:42-68 | each field of a published record lies at the offset where every reader of the format looks for it |
| DeviceRecord.PublishedIsShownExactly | tools/gemsim_smi_publish.py:42-68 | what the publisher must be given, beyond what it checks, for its record to be shown |

## Left out

- Transaction.Begin: staged manifest digests, time stamps and intents of a journal, and the object hardening and fsync of repositories before `prepare-root`, are not part of the journal here.
- Transaction.PrepareRoot: git runs with its default diff settings, and which deleted paths it takes for rename sources is an input, any set of them; a path stands for the name git prints for it, quoting included, and white space at the ends of git's output is not stripped; unmerged index stages are not modelled; `git ls-files` of a path is the path itself, or whatever lies below it.
- Coordinator.Coordinator.RecordChild: the duplicate-path check compares the unnormalised path, as the source does; the proofs do not depend on it, because declared paths are already distinct.
- Retirement.HistoriesAreCommands: another command is only its fsync of `txn/`; the journals that it changes are not part of a history.
- Retirement.RetirementIsCrashSafe: the control directory lies on the filesystem of the git directory, which the durability barrier flushes; spontaneous write-back by the kernel outside that barrier is not modelled.
- LiveRegistry.ReadLiveSnapshot: which attempt sees which instants is an input; a lease that lacks only its final newline decodes to the same value and counts as complete.
- GroupSession.GroupRegistrySession.RunPhase: starting, auditing and terminating the worker processes, and closing the publisher after the final OFF.
- `make_rank_launch` and `validate_rank_launch_group`: their results are the precondition `WellFormed` of the session; path distinctness across ranks is not part of it.
- OwnedProcess.AgentEnvService.StopService: the ownership match before the lock is taken and the one under it are one instant.
- OwnedProcess.AgentEnvService.StartService: the dry-run and prerequisite reports before the lock, and the text of errors.
- KmtRegistry.ParseRegistry: the regular expressions; a line is already decoded, and queue percentage, priority and type are dropped.
- AqlPacket.DecodePacket: the packet document's crc32c member, which like its digest is a function of the bytes.
- CapsuleProcess.CaptureProcess: process states, freezing, file modes, the order of the artifact table and of the allocation records, artifact role names, and the trace summary, none of which another check reads.
- CapsuleVerify.Verify: file modes, owners and symlinks, key and type checks of the JSON objects, the manifest's own digest, and the sorting of paths and roles; the checks that remain run in a slightly different order, with one result.
- BundleClosure.Build: whether a manifest that a lower root overrides is parsed depends on which of the two is met first, so between the two conditions for a refusal lie the obstacles in overridden manifests; the order in which candidates, manifests and values are visited is arbitrary, so no confluence of overrides is claimed; ".." in a manifest value is resolved lexically; labels and the lists of missing, skipped and unresolved items are dropped.
- CacheTree.StreamDeterminesTree: sorting the directory listing; a directory's entries are already in order, and a file's size is the length of its content.
- Descendants.StackSearch: the ascending order of the returned list.
- DeviceRecord.DecodeInvertsEncode: reading the record under its lock and the liveness of the two processes it names.
- Subprocess launch, sockets, real `/proc` reads, real git, archive writing, JSON and TOML text, and the native broker: their effects are parameters or are absent.
