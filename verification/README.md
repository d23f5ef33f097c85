# DARM Guard's broker: a Dafny model of its effects, its books and its evidence

The broker executes admitted requests on a governed directory tree, records every request in a
hash-chained log before and after its effect, attests what it writes, keeps single-use intents and
idempotency keys, and repairs what a crash leaves behind. This project models those steps and
proves what they keep, over every schedule of steps, crashes, restarts and foreign changes.

`dafny verify dfyconfig.toml` checks everything.

## How it is built

1. **Effects.** `Files` is the tree: one slot per name, a file being its content digest and its
   attestation. `Effects` gives writes, deletes, renames and the recovery of a rename as small-step
   programs in which one step is at most one file-system primitive. `Disk` is the same code as
   methods on a mutable tree, each shown to be the undisturbed run of its small-step program. `Cas`
   and `Rename` then prove the programs under crashes and interference.
2. **Evidence.** `Attest` has the signed messages and the key ring, `Record` the log entries and the
   two readers that compare log and tree. `System` interleaves any number of requests with crashes,
   recoveries, key rotations and foreign processes that may do anything to the tree except sign under
   the broker's keys; `Verdicts` says what a recorded verdict was based on.
   `Sequential` takes requests one after the other, crashing anywhere, and shows that the tree stays
   what the log says; `Overlap` shows the same of requests under way at once on names of their own,
   by way of `Locality`.
3. **Books.** `Intents` and `Bookkeeping` specify the log, the key table and the intents as one
   state with events; `KeyRuns` and `IntentRuns` prove what every run of them keeps; `Answers` states
   what answers and settlements mean, by proposal, log and files alone; `Executions` ties the key
   table to the tree; `Broker` is the object whose methods implement them.
4. **Chain and checkpoints.** `AuditLog` is the log file, its independent check and signed heads;
   `Checkpointer` is the publishing schedule.
5. **Strings and graphs.** `Paths`, `IntentText`, `Urls` and `Cone`, over `Strings`.

Contents are represented by their digests, so two contents are equal exactly when their digests are.
A signature is a symbol that only the holder of the key can make. Time, the network, the decision
kernel and the verdicts of observations are parameters: each is arbitrary in every theorem.

## Where the code and its documentation part

* `_cas_replace` and `_cas_delete` say a foreign change is restored. `Cas.RefusalRestoresIff` says
  exactly when, over every schedule of foreign changes. It fails for a write if the last foreign
  change to the target put another file there between the exchange and the undo, which is then
  exchanged out and unlinked (`Cas.AChangeInTheWindowIsLost`), or if what the write displaced cannot
  be read as a file, which then stays under the private name (`Cas.AnUnreadableTargetIsNotGivenBack`).
  It fails for a delete if the name was emptied in between (`Cas.ARemovalInTheWindowIsUndone`).
* A write to a target that already has the intended content, caught by a crash before its swap, is
  confirmed as a success although the file keeps its older attestation (`Sequential.AlreadyThereExists`).
  `Sequential.ConsistentIffNotAlreadyThere` shows that this is the only request, crashed anywhere or
  not, that leaves tree and log in disagreement.
* Recovery of a rename is described as re-runnable. `Rename.RecoveryIsIdempotentUnless` gives the
  exact condition, `Rename.LookalikeExists` a tree that fails it.
* A frozen broker is said never to write the intents file again. A settlement still does:
  `IntentRuns.SettlementSparesTheFileIff`; nothing else does:
  `IntentRuns.OnlySettlementsWriteAFrozenFile`.
* Settling is said to be idempotent across a crash. A crash between the two files it replaces breaks
  the books exactly if it cuts a reservation or a return short (`IntentRuns.TornPersistBalancesIff`):
  the reservation is then nowhere, the returned intent twice, and stays so
  (`IntentRuns.TornPersistExcess`, `IntentRuns.TornReturnStaysDuplicated`).
* Fewer than `every` records are said to be unprotected. Unless a publication asked for at a start or
  a stop has failed, that holds exactly while nothing has failed since the last success
  (`Checkpointer.TailWithinIntervalIff`); a failed one of that kind leaves it open
  (`Checkpointer.AForcedFailureLeavesItOpen`). `Checkpointer.UnprotectedTail` and
  `Checkpointer.TheBoundIsAttained` give the exact bound in any case.
* A signature is said to name the request that wrote a file. What the broker signs determines its
  three fields exactly if the target has no bar (`Attest.UnambiguousIff`), and a normal-form path may
  have one. The read verdict holds regardless, since it takes the request from the log. The check on
  a rename's source does not look there, and accepts the signature for `u|v` on a file at `v`
  (`System.ABarInTheTargetLendsItsSignature`, after `System.AWriteSigns`). So the lineage of a
  signature is tied by content always, and by path wherever the path has no bar.

## Model

| member | source | states |
|---|---|---|
| Attest.MessageDeterminesDigest | darm_guard/attest.py:27-28 | equal signed messages have equal digests, whatever bars the request ids and targets contain |
| Attest.MessageDetermines | darm_guard/attest.py:27-28 | the message signed for bar-free request id and digest determines all three fields, if its target has no bar, whatever fields it is presented with, or if the request id and digest it is presented with have none |
| Attest.ABarInTheTargetMoves | darm_guard/attest.py:27-28 | for every request id, the message for a target u-bar-v is also the one for another request id and the target v |
| Attest.UnambiguousIff | darm_guard/attest.py:66-76 | what is signed can be presented under no fields but its own, if and only if the signed target has no bar |
| Attest.CheckpointMessageDetermines | darm_guard/attest.py:24-25 | a checkpoint message determines genesis, count and head |
| Attest.DomainsAreSeparate | darm_guard/attest.py:83-90 | no attestation message is a checkpoint message, so neither signature can be replayed as the other |
| Attest.KeyRing.Rotate | darm_guard/attest.py:45-50 | a new signing key; every attestation that verified still does |
| Attest.KeyRing.Sign | darm_guard/attest.py:59-64 | a ring with a private key signs under the active key, what it signs verifies; a public ring signs nothing |
| Effects.Step | darm_guard/broker.py:405-524 | every step of an effect brings it closer to its end, and a finished one stays finished |
| Effects.Recover | darm_guard/broker.py:1341-1400 | recovery always reaches a verdict |
| Disk.Workspace.CasReplace | darm_guard/broker.py:405-437 | the routine is the undisturbed run of the compare-and-swap program, in every branch |
| Disk.Workspace.CasDelete | darm_guard/broker.py:440-469 | the routine is the undisturbed run of the compare-and-delete program |
| Disk.Workspace.RenameProtocol | darm_guard/broker.py:487-524 | the routine is the undisturbed run of the four-step rename program |
| Disk.Workspace.Execute | darm_guard/broker.py:806-882 | a write, delete or rename from its first check to its result is the undisturbed run of its program |
| Disk.Workspace.RecoverRename | darm_guard/broker.py:1341-1400 | the routine is the undisturbed run of the recovery program, with its verdict |
| Cas.Linearises | darm_guard/broker.py:405-469 | after every schedule of own steps and foreign changes, the routine has not begun, has refused, or its state is tied to an atomic step at its first own step |
| Cas.SuccessIsAtomic | darm_guard/broker.py:405-469 | a success displaced exactly the recorded state, and the final tree is the atomic effect at the first own step with all foreign changes before and after it |
| Cas.WriteGetsReady | darm_guard/broker.py:831-850 | a write that reaches its swap has its whole new file, signed for its own content, at the private name, and signs nothing else |
| Cas.ReplacesWhateverIsThere | darm_guard/broker.py:412-414 | with no recorded state a write replaces whatever is at the target in one step, unless that is a directory |
| Cas.LinksAreRefused | darm_guard/broker.py:816-817 | a link at the source or at a rename's destination ends the request before it begins |
| Cas.TakenNamesAreLeftAlone | darm_guard/broker.py:832-833 | a write creates its private name only if nothing is there |
| Cas.NothingIsLeftBehind | darm_guard/broker.py:405-469 | whatever foreign processes do, a success, or a refusal with the target recorded as absent, ends with the private name free |
| Cas.RefusalRestoresIff | darm_guard/broker.py:405-469 | after any schedule that ends in a refusal, every name is as the foreign changes alone would have left it, if and only if the last foreign change to the target is not one the routine undoes: for a write, another file put there in the window, or an unreadable object displaced; for a delete, a removal in the window |
| Cas.RefusalRestores | darm_guard/broker.py:423-427 | so in particular if nothing foreign touches the target in the window, and what the foreign changes leave there, if anything, is a file |
| Cas.AChangeInTheWindowIsLost | darm_guard/broker.py:423-427 | a schedule in which the window is not quiet and a foreign file is lost |
| Cas.AnUnreadableTargetIsNotGivenBack | darm_guard/broker.py:399-402 | a schedule in which what a write displaced stays under the private name although the write reports an error |
| Cas.ARemovalInTheWindowIsUndone | darm_guard/broker.py:462-466 | a schedule in which a refused delete gives back a file whose name was emptied meanwhile |
| Cas.DeleteLosesNothingElse | darm_guard/broker.py:450-469 | a delete unlinks only a file with the recorded digest; every other own step keeps the files of target and side name |
| Rename.CrashedRenameIsAllOrNothing | darm_guard/broker.py:487-524 | after a crash at any step, any number of recoveries cut short anywhere and one that completes, with keys rotated in between: exactly the starting tree and a confirmed failure, or exactly the atomic re-attested move and a confirmed success; the private name is free |
| Rename.LiveRename | darm_guard/broker.py:487-524 | undisturbed, a rename succeeds exactly if signing works, the names differ and the destination is free; otherwise the tree is restored; the verdict says which |
| Rename.RecoverUnfolds | darm_guard/broker.py:1356-1400 | what one undisturbed recovery makes of any tree whatever, and its verdict |
| Rename.RollsForwardIff | darm_guard/broker.py:1358-1371 | with the destination free, recovery moves there what it finds at the private name if and only if that is a file signed under a key of the ring for this request and this destination |
| Rename.RecoveryFreesThePrivateName | darm_guard/broker.py:1356-1391 | the private name stays occupied exactly if the source name is occupied and roll-forward is impossible, and then nothing changes |
| Rename.RecoveryIsIdempotentUnless | darm_guard/broker.py:1381-1387 | recovering twice is recovering once if and only if no roll-forward leaves a foreign file at the source with the recorded digest and another attestation |
| Rename.LookalikeExists | darm_guard/broker.py:1381-1387 | a tree in which the second recovery gives a foreign file the original attestation |
| Rename.ContentsAreConserved | darm_guard/broker.py:487-524 | over every schedule of steps, crashes, recoveries and foreign changes, the contents of the three names are the initial ones plus the foreign balance |
| Rename.SignsWhatItHolds | darm_guard/broker.py:502-508 | whatever interferes, the digest a rename signs is that of the file it signs for |
| Record.LatestComesFrom | darm_guard/broker.py:581-599 | every entry of the latest-entry table comes from a logged effect that took place on that path |
| Record.LatestIff | darm_guard/broker.py:593-598 | a path's table entry is that of the last log record saying that a write, delete or rename of it took effect, a rename deleting its source |
| Record.LatestEntries | darm_guard/broker.py:581-599 | the loop computes the latest effective entry per path and the set of logged requests |
| Record.LoggedIff | darm_guard/broker.py:588-592 | a request counts as logged if any record is about it, whatever its kind |
| Record.VerifyWorld | darm_guard/broker.py:1675-1727 | reports exactly the files that disagree with the log and the logged writes whose file is gone |
| Record.MarkedIff | darm_guard/broker.py:1692-1692 | a name is passed over exactly if the mark stands in its last component |
| Record.PrivateNamesAreMarked | darm_guard/broker.py:830-830 | every private name the broker makes is |
| Record.SilentAboutIff | darm_guard/broker.py:1694-1726 | the world check says nothing about a governed path exactly if, where the log has a write, something is there and a file there carries that write's own valid attestation for this path and this content; where it has a deletion, no file is there; and elsewhere a file carries none or a valid one by a logged request |
| Record.CleanIff | darm_guard/broker.py:1675-1727 | it finds nothing at all exactly if that is so of every governed path, and what was last written at a private name exists |
| Record.FindingsMean | darm_guard/broker.py:1697-1726 | what each kind of finding implies |
| Record.ReadersAgree | darm_guard/broker.py:656-676 | for an attested file that is not a private name, the read is attributed if and only if the world check finds nothing and the path is in the table |
| Record.ReadReasonsMean | darm_guard/broker.py:656-676 | a read is attributed exactly to the request of a verifying attestation for the path and the content that is the path's latest write, and otherwise told the first thing wrong |
| System.NextKeeps | darm_guard/broker.py:1165-1202 | every action keeps the invariant that ties attestations, signatures and running requests to prepared records |
| System.EvidenceBeforeEffect | darm_guard/broker.py:1185-1202 | whatever is executing has a prepared record fixing exactly its job, with states, and no outcome; after a crash that record is pending |
| Verdicts.OutcomesAreFair | darm_guard/broker.py:1223-1243 | in every run, an outcome's effect is what the program came to, and its verdict is success exactly on sight of what was asked for, with a rename's source gone, failure exactly on sight of the recorded state and not of what was asked for, and unresolved otherwise |
| Verdicts.SettlementsAreFair | darm_guard/broker.py:1317-1328 | the same of the record that closes a write or a delete at a restart |
| Verdicts.RecoveriesAreFair | darm_guard/broker.py:1394-1400 | the same of a rename's recovery, for the source as seen at one moment of the run and the destination as seen at a later one, or the verdict is unresolved |
| System.AttributedReadsAreIntended | darm_guard/broker.py:656-676 | under all tampering, deleting, moving and replaying, with any signature the broker ever made for a file or a checkpoint and any under another's key, a read is attributed only if its content is what the path's latest successful logged request asked to be there; file and log may be read at different moments |
| System.NoLaundering | darm_guard/broker.py:1165-1181 | every signature ever made traces through a finite chain of recorded renames of attested files to a write request for exactly that digest, and every rename in it moved the file from the very path the request before signed for, wherever that path has no bar |
| System.ABarInTheTargetLendsItsSignature | darm_guard/broker.py:1165-1181 | a state in which the check on a rename's source accepts a file at a path no request was for, with the signature of a request for a path with a bar |
| System.AWriteSigns | darm_guard/broker.py:831-845 | from any initial state, any write alone comes to sign, so such a state is reached |
| System.TwoWritesTakeEffect | darm_guard/broker.py:1199-1248 | from any initial state two writes to one free path come to be done and not concluded, the later one's file being there |
| System.ConcludedInTheOtherOrder | darm_guard/broker.py:1199-1248 | if such writes are then concluded in the other order, the log's latest write is not the file that is there, and reading it is not attributed |
| System.LogOnlyGrows | darm_guard/broker.py:342-352 | the log at any earlier point of a run is a prefix of the log now |
| System.SecondRestartMovesNothing | darm_guard/broker.py:1316-1330 | once every prepared request is closed, any number of restarts, cut short or not, changes neither tree nor log nor signatures |
| Sequential.RequestIsAtomic | darm_guard/broker.py:806-891 | a request, finished or crashed anywhere and reconciled, changes the governed names by one atomic step if its closing record reports the effect, and not at all otherwise |
| Sequential.RequestKeepsConsistency | tests/b8_correspondence.py:55-78 | a request, wherever it crashes, keeps every governed path matching its latest successful log entry |
| Sequential.ConsistentIffNotAlreadyThere | darm_guard/broker.py:219-227 | whatever the request and wherever it crashes, tree and log stay in agreement if and only if it is not a write crashed before its swap on a target that already had the content |
| Sequential.AlreadyThereExists | darm_guard/broker.py:219-227 | such a write: to a file the broker never wrote, confirmed by the restart, unattested |
| Sequential.ConsistentIsClean | darm_guard/broker.py:1675-1727 | if tree and log agree, the world check finds nothing about any governed name |
| Sequential.RunsStayConsistent | darm_guard/broker.py:1296-1339 | over every run of requests, each crashing anywhere, with keys rotated in between: agreement, no finding about a governed name and none at all if no request was for a private one, and the governed names are the replay of the logged effects as atomic steps |
| Locality.StepsAreLocal | darm_guard/broker.py:806-891 | what a request does to its own names depends on nothing else in the tree, and it does nothing to others |
| Locality.CrashesAreLocal | darm_guard/broker.py:1341-1400 | nor does any number of recoveries |
| Overlap.OverlappingRunsStayConsistent | darm_guard/broker.py:1199-1248 | with any number of requests under way at once on names of their own, interleaved step by step and crashing anywhere, every governed path no open request names matches its latest successful log entry, and with none open the world check finds nothing about governed paths, and nothing at all if no request was for a private one |
| Overlap.OverlappingRequestsAreAtomic | darm_guard/broker.py:1199-1248 | such requests are atomic steps in the order of their closing records: the tree is the replay of the log's effects |
| Overlap.ClosingAgreesIff | darm_guard/broker.py:219-227 | the closing record of any of them keeps tree and log in agreement if and only if it is not a write crashed before its swap on a target that already had the content |
| Intents.OrderSorts | darm_guard/broker.py:1623-1626 | the load order sorts by number of constraints, keeps every intent, and leaves an ordered list as it is |
| Intents.OrderIsStable | darm_guard/broker.py:1623-1626 | intents with equally many constraints keep the order of the file |
| Intents.FirstUsableIsBroadest | darm_guard/broker.py:1048-1049 | in an ordered list the first usable intent has the fewest constraints of all usable ones |
| Intents.FitsIff | darm_guard/broker.py:1629-1644 | an intent fits exactly if the tool is the same and, for every constraint that is not a premise, some argument has its name and every argument of that name its value, or the hash it gives |
| Intents.FindsTheFirst | darm_guard/broker.py:1048-1049 | the usable intent found is the first in the list |
| Intents.RemovesTheFirst | darm_guard/broker.py:1194-1194 | one occurrence is removed, the first, and all else stays where it is |
| Intents.ApplyRevocations | darm_guard/broker.py:1510-1525 | the loop leaves exactly the intents no line revokes, and none if a line is unreadable |
| Intents.SurvivesIff | darm_guard/broker.py:1518-1525 | an intent is left, as often as it was there, exactly if no line is unreadable, a star line for its tool or its own line |
| Intents.RevocationIsPointwise | darm_guard/broker.py:1518-1523 | and the others stay in their order |
| Intents.RevocationAbsorbs | darm_guard/broker.py:1510-1528 | re-applying the file, or a longer one, to what is left is applying the longer one; longer files leave fewer intents |
| KeyRuns.RunKeeps | darm_guard/broker.py:1084-1265 | in every reachable state the log is well formed and the key table says what the log says, except for requests under way |
| KeyRuns.AtMostOnce | darm_guard/broker.py:1108-1131 | over all runs with crashes and restarts at most one request is ever prepared under a key |
| KeyRuns.AlreadyAppliedIffApplied | darm_guard/broker.py:1112-1117 | "already applied" is answered if and only if this very invocation was prepared under the key, is over, and its closing record says succeeded or confirmed success; answering performs nothing |
| KeyRuns.DuplicatesAreAnswered | darm_guard/broker.py:1108-1131 | under a used key every answer is given exactly when the log has it so: another invocation, already applied, failed earlier, or in doubt, the last while the request is under way or its record says neither |
| Answers.AdmittedIff | darm_guard/broker.py:1042-1070 | in every reachable state a proposal is admitted if and only if it is well formed, the kernel admits it, a rename's source passed its check, its key was never used, and, with intents in force, the file is unedited and some available intent fits, has its premises met and is mentioned by no revocation |
| Answers.PreparedIsAdmissible | darm_guard/broker.py:1185-1189 | a prepared record is written only for such a proposal, and is that proposal's |
| Answers.AdmissionReserves | darm_guard/broker.py:1190-1197 | an admission puts the request under way, takes its key in doubt, and moves one such intent, none being broader, from the available to the reserved ones in memory and on disk |
| Answers.RefusalPerformsNothing | darm_guard/broker.py:1107-1142 | whatever is not admitted leaves a note and takes nothing but what is revoked; it is a duplicate's answer exactly if the key was used |
| Answers.LinesTakeTheirOwn | darm_guard/broker.py:1518-1525 | in every reachable state no intent is reserved whose tool has a star line or which has its own, and an intent no line mentions stays available unless it is the one reserved |
| Answers.SettlementGoesByTheRecord | darm_guard/broker.py:1439-1489 | in every reachable state, live or at a start, settling spends the reserved intent exactly if the closing record says so by its verdict, or by its effect where there is no path, returns it exactly if it says the opposite, and otherwise leaves it reserved |
| Answers.OutcomeIsRecorded | darm_guard/broker.py:1245-1248 | an outcome is recorded for the job of the prepared record, with what came of it |
| Answers.StartAppends | darm_guard/broker.py:1314-1330 | a start appends only records for prepared requests that were open, each with what was seen of its path, or unresolved |
| Executions.AtWorkSincePrepared | darm_guard/broker.py:1185-1202 | whoever is at work on the tree was put to work by one prepare step and has not crashed or concluded since |
| Executions.OneExecutionPerKey | darm_guard/broker.py:1108-1131 | over any run on the tree whose log is that of a run of the key table, at most one step puts a request with a given key to work |
| Executions.OnePassPerKey | darm_guard/broker.py:1108-1131 | so all running work on the tree under one key, at any moments of the run, is one request's single pass through its program |
| Executions.OneRequestPerKey | darm_guard/broker.py:1108-1131 | and all work under one key, recovery included, is by one request and one prepared record |
| Executions.AReadIsInBoth | darm_guard/broker.py:1199-1248 | the log of a read that was answered is the log of a run on the tree |
| Executions.AReadIsBooked | darm_guard/broker.py:1199-1248 | and the same log is that of a run of the key table |
| KeyRuns.ReconciledIsClosed | darm_guard/broker.py:1316-1330 | after reconciliation every prepared request is closed, and the log is still well formed |
| KeyRuns.MissingFits | darm_guard/broker.py:1316-1330 | reconciliation cut short anywhere leaves a well-formed log with exactly its own closings added |
| KeyRuns.ReconciliationKeepsOutcomes | darm_guard/broker.py:1314-1330 | reconciliation changes nothing about a request that has an outcome |
| KeyRuns.RestartRebuildsKeys | darm_guard/broker.py:1331-1338 | restart rebuilds, for every request whose outcome is recorded, the key state the live broker has or was about to set |
| KeyRuns.StartupSettlesLikeLive | darm_guard/broker.py:1474-1485 | once an outcome is recorded, startup settles by the verdict of the live settlement, at every later restart and whatever became of the live one |
| KeyRuns.SecondRestartIsIdle | darm_guard/broker.py:1296-1339 | after a restart nothing prepared is open; a second restart appends nothing and rebuilds the same keys |
| IntentRuns.IntentsAreConserved | darm_guard/broker.py:1439-1486 | available, reserved, spent and revoked intents are exactly the initial ones in every reachable state, on disk and in memory, where they are in order |
| IntentRuns.ReservesTheBroadest | darm_guard/broker.py:1048-1049 | a reserved intent fits with its premises met, is not revoked, and no other such intent has fewer constraints, after any run |
| IntentRuns.RevocationIsForever | darm_guard/broker.py:1042-1053 | once a line is in the file, no later decision reserves an intent it revokes, even one reserved before and returned since; an unreadable line blocks all |
| IntentRuns.GatedNeedsAnIntent | darm_guard/broker.py:1042-1053 | with intents configured, nothing is admitted without one |
| IntentRuns.FrozenStaysFrozen | darm_guard/broker.py:1507-1509 | once frozen and until a restart, nothing that needs an intent is admitted |
| IntentRuns.NoticedEditsFreeze | darm_guard/broker.py:1500-1509 | a well-formed proposal asked while the intents file is not what the broker last wrote is refused, and so is, until a restart, everything after it that needs an intent, even if the edit is taken back |
| IntentRuns.SettlementSparesTheFileIff | darm_guard/broker.py:1456-1460 | a settlement leaves every possible content of the intents file alone if and only if there is nothing reserved or the verdict is unresolved, frozen or not |
| IntentRuns.OnlySettlementsWriteAFrozenFile | darm_guard/broker.py:1491-1509 | no other event of the broker writes the file while it is frozen |
| IntentRuns.RunWithin | darm_guard/broker.py:1439-1545 | whatever holds of every intent that enters the files from outside holds of every intent, available or reserved, in every reachable state |
| IntentRuns.TornPersistExcess | darm_guard/broker.py:1530-1545 | a crash between the two files leaves exactly one too few of a reserved intent, one too many of a returned one, and otherwise the right number of every intent |
| IntentRuns.TornPersistBalancesIff | darm_guard/broker.py:1530-1545 | such a crash keeps the books balanced if and only if it cuts short neither a reservation nor a return |
| IntentRuns.TornSpendingIsHealed | darm_guard/broker.py:1469-1489 | a spending cut short is completed by the restart, which finds the recorded success in the log |
| IntentRuns.TornReturnStaysDuplicated | darm_guard/broker.py:1469-1489 | a return cut short becomes two available intents at the restart, which finds the recorded failure in the log |
| Broker.Broker.RefreshIntents | darm_guard/broker.py:1491-1528 | freezes on a foreign edit and refuses; otherwise applies the revocations and persists if they took something |
| Broker.Broker.Match | darm_guard/broker.py:1048-1049 | finds the first intent that fits with its premises met |
| Broker.Broker.DecideUnderLock | darm_guard/broker.py:1026-1071 | the decision, its intent and the new state are the specified ones, for an arbitrary kernel reply |
| Broker.Broker.Handle | darm_guard/broker.py:1093-1197 | the locked section, from decision to reservation, is the one atomic event of the run theorems, in every branch |
| Broker.Broker.SettleAndRecord | darm_guard/broker.py:1439-1467 | success spends, failure returns, anything else keeps the reserved intent |
| Broker.ReadClosed | darm_guard/broker.py:1303-1313 | the pass over the log maps exactly the closed requests to what closed them last |
| Broker.Broker.ReconcilePending | darm_guard/broker.py:1296-1339 | the loop appends exactly the missing records and rebuilds exactly the key table of the new log |
| Broker.Broker.SettleReserved | darm_guard/broker.py:1469-1489 | of all reserved requests exactly those without a verdict in the log stay reserved, and the whole is a run of single settlement events, to which the run theorems apply |
| Broker.SettledAllLeaves | darm_guard/broker.py:1486-1488 | settling a list leaves reserved exactly what is not on it or has no verdict, each with its own intent |
| Broker.SettledAllIsARun | darm_guard/broker.py:1486-1488 | each settlement goes by the verdict the log holds at that moment, though the verdicts were read beforehand |
| AuditLog.Log.Load | darm_guard/broker.py:317-340 | a file is accepted exactly if its chain is intact, and then head, count and genesis are those its writer had |
| AuditLog.Log.Append | darm_guard/broker.py:342-360 | one line is added that keeps the chain intact |
| AuditLog.ChainProblems | darm_guard/evidence.py:19-29 | reports exactly the broken links and wrong hashes, and nothing exactly for the files the broker opens |
| AuditLog.CheckLog | darm_guard/checkpoint.py:43-64 | reports exactly the checkpoints that do not agree, each with its reason; `covered` is the largest agreeing count |
| AuditLog.ReasonsMean | darm_guard/checkpoint.py:50-62 | when exactly each reason is given |
| AuditLog.EqualBackwards | darm_guard/evidence.py:19-29 | two intact chains with equal hashes at one position are equal at every position before it |
| AuditLog.AgreementIsIdentity | darm_guard/checkpoint.py:43-64 | an intact log that agrees with a checkpoint signed over the original is the original up to the checkpoint |
| AuditLog.HeadAgreesIffExtended | darm_guard/checkpoint.py:43-64 | a checkpoint of a log agrees with exactly the intact logs that extend it |
| AuditLog.ExtensionsAgree | darm_guard/checkpoint.py:56-62 | and, assuming nothing of the hash, with every extension |
| AuditLog.CoveredPrefixIsOriginal | darm_guard/checkpoint.py:43-64 | the first `covered` entries of an intact log are the original's |
| Checkpointer.Checkpointer.Maybe | darm_guard/checkpoint.py:83-97 | one consultation moves the clock as specified, and counts and reports exactly the due publications that failed |
| Checkpointer.ConsultMeans | darm_guard/checkpoint.py:83-97 | what is due, forced or not, and what an attempt leaves behind |
| Checkpointer.UnprotectedTail | darm_guard/checkpoint.py:67-97 | after any run the unprotected tail is at most every + f * max(every, 2) - 1 after f failures in a row, and below every after none |
| Checkpointer.TailWithinIntervalIff | darm_guard/checkpoint.py:67-72 | if no publication asked for at a start or stop has failed, fewer than `every` records are unprotected if and only if nothing has failed since the last success |
| Checkpointer.AForcedFailureLeavesItOpen | darm_guard/broker.py:372-379 | after one such failure and no other the tail can be shorter than `every`, and can be as long |
| Checkpointer.TheBoundIsAttained | darm_guard/broker.py:362-370 | for every interval and every f some run attains that bound |
| Paths.SlashPrefixIsComponentPrefix | darm_guard/broker.py:106-124 | for a prefix that starts and ends with a slash, string prefix is proper prefix of components |
| Paths.OtherPrefixesAdmitSiblings | darm_guard/broker.py:106-124 | every other normal-form prefix admits a normal-form sibling as a string but not by components |
| Paths.AcceptedIffReadingsAgree | darm_guard/broker.py:106-124 | a prefix that is empty, a normal-form path or a directory with its slash is accepted if and only if, read as a string and by its components, it admits the same normal-form paths |
| Paths.ResolutionAcceptsNormalForm | darm_guard/broker.py:720-731 | below the root, resolution accepts exactly the normal-form paths, and its components are single names that join back to the path |
| Paths.AcceptedIffOnlyDown | darm_guard/broker.py:726-731 | below the root, resolution accepts a path exactly if walking its components never stays and never goes up, and then ends where they say |
| Paths.NormalFormIffOnlyDown | darm_guard/broker.py:247-255 | normal form is the root or an absolute path whose walk only goes down |
| IntentText.PrintThenParse | darm_guard/broker.py:1591-1649 | an intent survives printing and parsing if and only if it is well formed |
| IntentText.ParsesIff | darm_guard/broker.py:1591-1620 | a line parses exactly if there is a tool, every further word is a name and a value sensible for it, and no name comes twice; then the words are the intent's tool and constraints in order |
| IntentText.ParsedIsWellFormed | darm_guard/broker.py:1591-1620 | whatever parses is well formed |
| IntentText.ParsePrintParse | darm_guard/broker.py:1647-1649 | printing a parsed line gives a line that parses to the same intent |
| IntentText.LoadingWhatWasWritten | darm_guard/broker.py:1671-1672 | loading the persisted file gives exactly the ordered list that was written |
| IntentText.RunsCanReload | darm_guard/broker.py:1530-1545 | in every reachable state, what a restart would read from the files is exactly the intents the broker holds, if outsiders only ever wrote readable files |
| IntentText.RevocationLines | darm_guard/broker.py:1514-1523 | an intent's own printed line revokes exactly that intent, and a tool with a star revokes the tool |
| IntentText.StarLines | darm_guard/broker.py:1514-1523 | a line is a star line for a tool exactly if it is the tool and a star; with anything after the star it revokes everything |
| Urls.AcceptedIsNormal | darm_guard/http_get.py:47-89 | on every accepted URL the normalisation of section 6.2.2 of RFC 3986, with section 5.2.4, is the identity |
| Urls.EquivalentAcceptedAreEqual | darm_guard/http_get.py:34-89 | two accepted URLs equivalent under it are equal strings |
| Urls.PrefixFixesAuthority | darm_guard/broker.py:115-120 | an accepted URL that starts with an accepted prefix has the prefix's authority |
| Urls.CredentialFor | darm_guard/http_get.py:108-118 | the first credential of longest matching prefix, and none exactly if none matches |
| Urls.CredentialStaysWithItsAuthority | darm_guard/http_get.py:108-118 | a matching credential's prefix has the URL's host and port |
| Urls.PortIff | darm_guard/http_get.py:68-70 | a port is left out, or is the decimal of a number from 1 to 65535 other than 443 |
| Urls.NumericHostsAreCanonical | darm_guard/http_get.py:71-76 | a host of numeric parts, or whose last part is a number, is four bytes in decimal |
| Urls.PctOkIff | darm_guard/http_get.py:34-44 | at no position does a triplet start that is lower-case or stands for an unreserved character, a slash, a backslash or a dot |
| Urls.SegmentsGoDown | darm_guard/http_get.py:78-82 | of the segments of an accepted path none is one or two dots, and none but the last is empty |
| Cone.CallersOf | scripts/effect_inventory.py:184-190 | the loops build exactly the calls that the names allow |
| Cone.ShortIs | scripts/effect_inventory.py:184-185 | a short name is what follows the last dot |
| Cone.Turned | scripts/effect_inventory.py:192-195 | the loops build exactly the opposite edges |
| Cone.Closure | scripts/effect_inventory.py:197-203 | terminates on every finite graph with exactly the nodes reachable from the start |
| Cone.ConeOf | scripts/effect_inventory.py:205-213 | exactly what the functions that can come to call this one can come to call, with their modules' own code, without the function itself |
| Cone.ConeIsClosed | scripts/effect_inventory.py:205-213 | with the function itself the cone holds everything that can come to call it and is closed under what those can call |

## Left out

- The decision kernel and its pipe: its reply is an arbitrary bit, taken after the check that its invocation is the broker's own.
- Ed25519, SHA-256, JSON and attribute encodings: symbolic signatures, digests as contents, attestations as values.
- Legacy attestations, `reattest_legacy` and the vouched manifest: they add verdicts for files of other origins.
- The fallbacks without `renameat2` and file systems without attributes: every write here gets its attestation.
- I/O errors half-way through a step, so also an outcome that cannot be recorded, and durability below "a rename or an append is atomic and durable".
- Directories on the path, hard links, devices and pipes: a name is absent, a regular file, a directory or a link.
- Creating the temporary file is one step; a crash that leaves it half-written leaves only a private name.
- A `write_file` without content, which has no intended state, and a broker without a signing key.
- Cas.SuccessIsAtomic: the private name is the routine's own; foreign processes touch every other name.
- Sequential.RunsStayConsistent: the case of `Sequential.AlreadyThereExists` is left out of the run; requests do not overlap, but see `Overlap`, and `System.ConcludedInTheOtherOrder` for requests on one path.
- Overlap.OverlappingRunsStayConsistent: one set of keys throughout, where `Sequential` has rotations; and the one case of `Overlap.ClosingAgreesIff` is left out of the run.
- System.AttributedReadsAreIntended: the initial tree carries no signature under the broker's keys, present or future.
- IntentRuns.IntentsAreConserved: the two files of a persist are replaced in one step and nobody else writes the intents file; what a crash between the two does is stated separately.
- IntentRuns.FrozenStaysFrozen: the freeze lives in memory, so a restart ends it.
- Rename.RecoverUnfolds: the kind of one name and its content, or its attestation, are read in one step; reads of two names are two steps.
- Premises are a set given with the request, as observed under the lock.
- The clock check, credential expiry and malformed idempotency keys: rejections that touch no state but a log note.
- AuditLog.CheckLog: counts are natural numbers.
- AuditLog.AgreementIsIdentity: the hash has no collisions and prints without bars.
- Checkpointer.UnprotectedTail: one thread appends.
- Disk.Workspace.Execute: reads, listings and remote calls, which change no governed name.
- Urls.AcceptedIsNormal: section 6.2.3 of RFC 3986, since an empty port is accepted; brackets in the authority are refused outright, which is what the host comparison comes to.
- Cone.ConeOf: a set, where the script returns its sorted list; building the call tables from syntax trees is not modelled.
- `http_get.fetch`, addresses, the socket server, signals and file locks.
- `guard.py`, `session.py`, `checker.py`, `types.py`, `verify.py`, `coverage.py`, the adapters, the dashboard, installation and the other scripts: easy members or plumbing.
- `_basis`, proposal summaries and the texts of errors: reporting only.
