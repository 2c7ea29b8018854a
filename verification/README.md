# Verification of the differential harness

This project models the parts of the client-parity harness whose answers everything else rests
on, and proves what they promise for all inputs and all runs. The system compares two TiKV
clients: a runner plays a scenario once with client-go and once with client-rust, each run under
a key prefix of its own, and reports where the observations differ. Around that sit an evaluation
gate for a transactional metadata store, a locator for Raft regions, a broker that leases whole
clusters, and a wait for the cluster to split.

Byte strings are sequences of 0..255 under the lexicographic order (`ByteStrings.dfy`), and text
is ordered by its code points (`Texts.dfy`). Everything else is one file per concern, and
`dafny verify dfyconfig.toml` checks them all.

**The metadata store** (`Batches`, `Mvcc`, `TwoPhase`, `TwoPhaseInvariant`, `TwoPhaseSteps`,
`Serializability`, `WriteSkew`, `TransactionStore`, `TransactionRuns`, `Conflicts`, `PrefixScan`,
`SnapshotScans`). A state machine lets any number of batches commit at once, in any mix of lock
modes, against an explicit server: versioned records, a lock table and a timestamp clock. A step is
one server action or one client reaction; prewrites, the commit of the primary key and of each
secondary key, lost answers, failures and rollbacks are separate steps. The rules of that server are
the ones the repository states: only keys in a transaction's buffer are conflict-checked
(crates/parity-gate/src/lib.rs:46-49), a locking read pins its key and reads the newest committed
value (lines 241-245), a plain read stays at the start timestamp (lines 246-252) and waits only for
locks that are about to change a value, and a commit whose answer is lost may have landed (lines
183-189), while one that was answered with any other error has not. The main result is that in every
reachable state the committed history equals a serial replay of whole batches in commit order, and
that each batch committed in a safe mode finds its preconditions true at its own place in that
order. A concrete run shows that the unsafe mode breaks this, and others that each safe mode does
commit. `TransactionStore` is `commit` and `stage` themselves, as methods on a transaction object.
`TransactionRuns` joins the two: the answers of a call of `commit` make it a run of its
transaction's steps, so the main result holds of what the method returns, and whatever a transaction
does on the server some call does. `Conflicts` adds what `Conflict` says of the preconditions, and
`SnapshotScans` that the paged scan returns the serial execution at its timestamp whatever commits
between its pages.

**Namespacing, projection and diff** (`Replacing`, `Namespacing`, `PrefixIsolation`, `Base64`,
`Classes`, `ErrorMapping`, `Observations`, `Retries`, `Projection`, `ProjectionFacts`, `Diffing`).
Redaction undoes namespacing exactly when no literal piece of an argument contains the run prefix;
every generated prefix allows this because it has no border. Two runs share no key exactly unless
their prefixes overlap, which those of one scenario never do. The diff of two projected runs is
empty exactly when the projections are equal, although the sentinel for an absent step would hide
differences on arbitrary facts.

**Lock paging, keys and regions** (`LockPaging`, `SortedKeys`, `MemComparable`, `Regions`).
**The lease broker** (`LeasePorts`, `LeaseDecisions`, `LeaseBroker`): decisions run under a lock
while teardowns and unlinks fall anywhere between a section's reads and writes.
**The split wait** (`SplitWait`), on a clock that only awaits move.
**Scenarios and the runner** (`Commands`, `Scenarios`, `Runner`): what acceptance of a scenario
guarantees for the runs and for the comparison.

## Where the code and its documentation differ

- crates/parity-proto/src/command.rs:260-261 says that every key lands under the run's prefix. A
  text key with the token in the middle does not: `Namespacing.MiddleTokenLeavesThePrefix` gives one
  for every prefix, and `Namespacing.KeyIsUnderPrefixIff` says exactly which keys start with it.
  What the sentence is for does hold: no key of one run is a key of the other
  (`PrefixIsolation.RunsOfOneScenarioAreIsolated`), as long as no argument spells a run prefix.
- crates/parity-runner/src/run.rs:254-256 says that range bounds must bracket their run's prefix.
  Nothing enforces it: `PrefixIsolation.ScanIsBracketedIff` says exactly which bounds do, and
  `PrefixIsolation.MiddleTokenScansSeeEveryRun` gives two that let a scan see every run's keys.
- crates/harness/src/lib.rs:37-49 gives every run of every scenario a prefix of its own. Across
  scenarios that separates the keys of two runs exactly unless one scenario's name ends in `gate`
  and that run's time, in digits, is the other's name: then some key belongs to both
  (`PrefixIsolation.RunsAreIsolatedIff`, `PrefixIsolation.OverlappingRunsCollide`).
- crates/parity-proto/src/trace.rs:84-88 says that a run spoiled by the cluster is run again and
  that every other inadmissible cause stays fatal. The code asks whether any step has the class
  `region_error`. It decides as documented exactly when no such step stands beside another cause
  and every region error inside a mixed class stands beside such a step or beside another cause
  (`Retries.RetryIsAsDocumentedIff`). So a region error masks a failed driver
  (`Retries.RegionErrorMasksAHarnessFailure`), and an error set of a lost race and a region error
  is fatal (`Retries.LostRaceBesideARegionError`, `Retries.MixedErrorTreesAreFatal`).
- scripts/cluster-broker:91 gives `0` as the way to ask for no expiry. A TTL of zero seconds, such
  as `0s`, never expires either (`LeaseDecisions.ExpiryAt`).
- crates/rust-driver/src/mapping.rs:41-47 says that the class with the error count tells one conflict
  from three. That holds of flat sets. A set within a set counts as one error however much it holds
  (`ErrorMapping.ManyCanLookLikeOne`, with the exact condition in `ErrorMapping.CountIsExactIff`),
  and two different errors look like two copies of the set of both
  (`ErrorMapping.SetOfSetsLooksLikeASet`, with the exact condition in
  `ErrorMapping.TellsItsMembersIff`). Whether the client nests sets is not part of this model.
- crates/parity-gate/src/traits.rs:57-58 says that `Conflict` means a precondition that did not hold.
  That is so of a mismatch (`Conflicts.ConflictMeansFalseOrLostRace`), but a lost race is told as
  `Conflict` too, and needs no false precondition (`Conflicts.LostRaceNeedsNoFalsePrecondition`).
- The two judges of a lost race, the store's test and the class vocabulary, disagree on a write
  conflict inside a set of region errors (`ErrorMapping.RegionSetCanHideAConflict`), and on nothing
  else (`ErrorMapping.LostRaceIsWriteConflict`). The client never builds such a set.

## Model

| member | source | states |
|---|---|---|
| Serializability.CommittedBatchesAreSerial | crates/parity-gate/src/traits.rs:45-49 | in every reachable state, a batch committed in a safe mode has one point where all its preconditions hold of the serial execution so far and all its puts then deletes take effect |
| Serializability.HistoryIsReplay | crates/parity-gate/src/lib.rs:172-229 | the committed versions of every key at every timestamp are those of a serial replay of whole batches in commit order |
| Serializability.StoreIsReplay | crates/parity-gate/src/lib.rs:172-229 | what the server stores on a key with no commit pending is the replayed value |
| Serializability.SnapshotsReadTheReplay | crates/parity-gate/src/lib.rs:118-139 | a snapshot read returns the serial execution at its timestamp, and no later commit changes what that is |
| Serializability.ReportedCommitIsInTheLog | crates/parity-gate/src/lib.rs:179-181 | `Committed` is reported only for a batch in the serial execution, at a timestamp after its start; with nothing to send the batch is the identity and required nothing |
| Serializability.FailedBatchesChangeNothing | crates/parity-gate/src/traits.rs:45-46 | of a batch that ended in `Conflict`, or failed before its commit point, nothing changes: it never has a record or a commit timestamp, then or later |
| Serializability.UndeterminedIsAllOrNothing | crates/parity-gate/src/lib.rs:182-189 | a commit whose answer was lost lands wholly or not at all and is never rolled back: each key stays locked for it until written |
| Serializability.CommitOrderFollowsRealTime | crates/parity-gate/src/lib.rs:172-229 | a batch submitted after another was reported committed commits after it |
| Serializability.OneWinnerPerValue | crates/parity-gate/tests/gate.rs:450-498 | of two committed batches that require one value of a key, the first leaving another, the second needs a commit in between that gives the value back |
| Serializability.WinnerIsStored | crates/parity-gate/tests/gate.rs:490-496 | the winner's write is the stored value until a later commit writes the key |
| Serializability.TakesTheValueAgain | crates/parity-gate/tests/gate.rs:471-497 | a value that returns was put back by a commit in between |
| Serializability.RunExtends | crates/parity-gate/src/lib.rs:177-227 | along every run, identities, failures, reports and logged commits are final |
| TwoPhaseInvariant.CommitPointIsGuarded | crates/parity-gate/src/lib.rs:239-252 | at the moment of commit, each precondition of a safe batch holds just below its commit timestamp |
| TwoPhaseInvariant.DecidedKeeps | crates/parity-gate/src/lib.rs:178-181 | the commit point keeps the whole invariant, however many other commits are in flight |
| TwoPhaseInvariant.OlderCommitIsSafe | crates/parity-gate/src/lib.rs:248-252 | a commit that lands late never slips under an earlier batch's precondition |
| TwoPhaseInvariant.InFlightAreDisjoint | crates/parity-gate/src/lib.rs:46-49 | two transactions past their commit timestamp never share a key |
| TwoPhaseInvariant.WithTxnKeeps | crates/parity-gate/src/lib.rs:234-274 | what one transaction may claim about itself without breaking the invariant |
| TwoPhaseInvariant.WithLockKeeps | crates/parity-gate/src/lib.rs:241-252 | when a lock may be taken, strengthened or released |
| TwoPhaseInvariant.WrittenKeeps | crates/parity-gate/src/lib.rs:183-189 | writing out a decided record keeps the invariant |
| TwoPhaseSteps.LockingReadIsCurrent | crates/parity-gate/src/lib.rs:241-245 | the locking read returns the newest committed value, whatever its own timestamp |
| TwoPhaseSteps.SnapshotReadIsStable | crates/parity-gate/src/lib.rs:246-252 | an unblocked read at a timestamp sees the committed history, and nothing can still commit at or below that timestamp on the key |
| TwoPhaseSteps.LockingReadKeeps | crates/parity-gate/src/lib.rs:245-265 | a checked precondition is pinned from its read on |
| TwoPhaseSteps.SnapshotReadKeeps | crates/parity-gate/src/lib.rs:249-265 | a precondition checked at the start timestamp stays guarded until prewrite |
| TwoPhaseSteps.PrewriteKeeps | crates/parity-gate/src/lib.rs:190-199 | prewrites, also those that arrive after a failure, keep the invariant |
| TwoPhaseSteps.CommitPrimaryKeeps | crates/parity-gate/src/lib.rs:183-189 | the landing of a commit, reported or not, keeps the invariant |
| TwoPhaseSteps.StepKeeps | crates/parity-gate/src/lib.rs:172-274 | every step of every transaction in any mode keeps the invariant |
| TwoPhaseSteps.ReachableKeeps | crates/parity-gate/src/lib.rs:172-274 | every reachable state satisfies the invariant |
| WriteSkew.UnsafeModeBreaksSerializability | crates/parity-gate/tests/gate.rs:553-617 | a run in the unsafe mode reports two batches committed, the only commits; the second finds its precondition false of the serial execution before it, and neither order of the two would do |
| WriteSkew.SafeModesCommit | crates/parity-gate/src/lib.rs:44-63 | in each safe mode a batch that requires one key and puts another runs to `Committed`, leaving a lock record on the required key |
| Batches.BufferMeansBatch | crates/parity-gate/src/lib.rs:267-272 | the buffered mutations do what the batch says: puts, then deletes, locks changing nothing |
| Batches.RequiredKeysAreBuffered | crates/parity-gate/src/lib.rs:44-63 | in the safe modes every required key takes part in the conflict check |
| TransactionStore.Transaction.ReadUnder | crates/parity-gate/src/lib.rs:240-255 | one precondition read under the mode's discipline, and what it buffers |
| TransactionStore.Transaction.CheckAll | crates/parity-gate/src/lib.rs:239-266 | preconditions are checked in order up to the first mismatch, and a full pass buffers exactly the lock set |
| TransactionStore.Transaction.BufferAllPuts | crates/parity-gate/src/lib.rs:267-269 | every put is buffered, in order |
| TransactionStore.Transaction.BufferAllDeletes | crates/parity-gate/src/lib.rs:270-272 | every delete is buffered, in order |
| TransactionStore.Transaction.Stage | crates/parity-gate/src/lib.rs:234-274 | `true` means that every read matched and the whole batch is buffered, `false` that the first mismatch was met, and an error is that of the first read not to succeed or, all reads having matched, of a buffering call |
| TransactionStore.Commit | crates/parity-gate/src/lib.rs:172-229 | `Committed` exactly on an acknowledged commit of the whole buffer, `Conflict` exactly on a protocol failure that is one, and a rollback exactly when the transaction failed before its commit point; only a staged batch is sent to commit |
| TransactionRuns.PlayAgrees | crates/parity-gate/src/lib.rs:172-274 | along every run in step with a call, the phase of the transaction is the one that the answers so far stand for |
| TransactionRuns.AnswersFixThePhase | crates/parity-gate/src/lib.rs:178-227 | once the transaction is through, it is committed, failed for this reason or of unknown outcome exactly as the answers say |
| TransactionRuns.CommittedMeansItTookEffect | crates/parity-gate/src/traits.rs:45-60 | told `Committed`, the caller's batch took effect at one instant between the call and the answer, its preconditions holding there in the safe modes |
| TransactionRuns.FailureMeansNothingIsWritten | crates/parity-gate/src/lib.rs:190-227 | told `Conflict`, or of any error but a lost answer, nothing of the batch is ever written |
| TransactionRuns.LostAnswerMeansAllOrNothing | crates/parity-gate/src/lib.rs:182-189 | told that the answer was lost, the batch at any later time has taken effect wholly at its one instant, or not at all |
| TransactionRuns.EveryTransactionIsACalls | crates/parity-gate/src/lib.rs:172-274 | whatever a batch's transaction does on the server until it is through, some answers make a call do just that |
| Conflicts.LockingMismatchIsReal | crates/parity-gate/src/lib.rs:241-264 | what a locking read finds false is false of the serial execution at the instant of the read, for good |
| Conflicts.SnapshotMismatchIsReal | crates/parity-gate/src/lib.rs:246-264 | what a plain read finds false is false of the serial execution at the start timestamp, for good |
| Conflicts.ConflictMeansFalseOrLostRace | crates/parity-gate/src/traits.rs:52-60 | told `Conflict`, some precondition was false of the serial execution at an instant between the call and the answer, or the call lost a race |
| Conflicts.LostRaceNeedsNoFalsePrecondition | crates/parity-gate/src/lib.rs:202-205 | a call that lost a race is told `Conflict` although all its preconditions may hold at every instant |
| PrefixScan.PrefixUpperBound | crates/parity-gate/src/lib.rs:341-352 | the loop computes the bound |
| PrefixScan.RangeIsExactlyThePrefix | crates/parity-gate/src/lib.rs:338-352 | a key is in the scan range exactly when it starts with the prefix |
| PrefixScan.BoundIsLeast | crates/parity-gate/src/lib.rs:338-340 | the bound is the least key above every key with the prefix, and there is none exactly when no key is |
| PrefixScan.TakePage | crates/parity-gate/src/lib.rs:152-161 | one page extends the result by its pairs, and a short page is the last |
| PrefixScan.Scan | crates/parity-gate/src/lib.rs:141-170 | asking page by page, each time just above the last key, the loop returns every pair under the prefix once, in order, in one page more than the full ones |
| PrefixScan.ScanPage | crates/parity-gate/src/lib.rs:145-168 | one request of the loop extends the result and moves the cursor to where the rest begins |
| SnapshotScans.ServedIsThePage | crates/parity-gate/src/lib.rs:118-139 | a page that the server returns at a timestamp is the page of the serial execution there, whatever commits later |
| SnapshotScans.ScanWhileCommitting | crates/parity-gate/src/lib.rs:141-170 | whatever commits between its pages, a scan returns exactly the pairs under the prefix that the serial execution holds at its timestamp |
| ErrorMapping.InadmissibleIffLeafReached | crates/rust-driver/src/mapping.rs:65-282 | a nested error is inadmissible exactly when classification reaches an unmapped error, a region error or an empty set |
| ErrorMapping.OccursIffLeafReached | crates/rust-driver/src/mapping.rs:65-206 | a class occurs in that of an error tree exactly when classification reaches a leaf of it: nothing is lost and nothing made up |
| ErrorMapping.EveryClassIsItsLeaves | crates/rust-driver/src/mapping.rs:65-282 | class by class, a class occurs in that of an error tree exactly when a leaf is reached whose shape is in its row of the table |
| ErrorMapping.NoArmsDiffer | crates/rust-driver/src/mapping.rs:171-180 | errors without an arm are told apart by their names |
| ErrorMapping.BareRegionErrorIff | crates/rust-driver/src/mapping.rs:190-206 | an error tree is classified as a bare region error exactly when it holds region errors and nothing else |
| ErrorMapping.ClusterCausesAreLeaves | crates/rust-driver/src/mapping.rs:65-206 | a region error is part of the class exactly when one is reached |
| ErrorMapping.OtherCausesAreLeaves | crates/rust-driver/src/mapping.rs:65-206 | another cause of inadmissibility is part of the class exactly when an unmapped error or an empty set is reached |
| ErrorMapping.NeverOkOrNotFound | crates/rust-driver/src/mapping.rs:65-185 | no error is classified as a success or an absent key, at the top or as a part |
| ErrorMapping.CollapseAdmissible | crates/rust-driver/src/mapping.rs:190-206 | collapsing a set of errors neither hides nor invents inadmissibility |
| ErrorMapping.CollapseWithCountIsLossless | crates/rust-driver/src/mapping.rs:41-62 | among sets with no mixed member, the class with the error count determines how every member was classified |
| ErrorMapping.TellsItsMembersIff | crates/rust-driver/src/mapping.rs:187-206 | among all sets, class and count determine that exactly unless the class is a mix of just as many parts as there are members |
| ErrorMapping.SetOfSetsLooksLikeASet | crates/rust-driver/src/mapping.rs:187-206 | two different errors and two copies of the set of both have one class and one count |
| ErrorMapping.LeavesAreReached | crates/rust-driver/src/mapping.rs:65-206 | the listed leaves are those that classification reaches |
| ErrorMapping.SetsAreCounted | crates/rust-driver/src/mapping.rs:54-62 | there is a count exactly for sets, in wrappers or not, and it is the number of members |
| ErrorMapping.CountIsExactIff | crates/rust-driver/src/mapping.rs:54-62 | the error count is the number of leaves exactly when the set has members and each of them holds one leaf |
| ErrorMapping.ManyCanLookLikeOne | crates/rust-driver/src/mapping.rs:41-47 | any number of conflicts in a set within a set have the class and the count of one conflict in a set |
| ErrorMapping.LostRaceIsWriteConflict | crates/parity-gate/src/lib.rs:303-320 | a write conflict occurs in the class exactly when the store sees a lost race or a region-error set reaches a key error with a conflict |
| ErrorMapping.LostRaceSeesReachedConflicts | crates/parity-gate/src/lib.rs:303-320 | the lost-race test sees every conflict that is reached but those in region-error sets |
| ErrorMapping.LostRaceAgreesOnClientErrors | crates/parity-gate/src/lib.rs:293-320 | for the errors the client builds, the two judges agree |
| ErrorMapping.RegionSetCanHideAConflict | crates/parity-gate/src/lib.rs:317-318 | a conflict inside a region-error set is classified and not seen as a lost race |
| Classes.AdmissibleMeansNoReason | crates/parity-proto/src/class.rs:111-136 | an observation is admissible exactly when there is no reason against it |
| Classes.TheFirstReasonIsGiven | crates/parity-proto/src/class.rs:119-136 | the reason given is that of the first part, at any depth, which cannot be evidence |
| Classes.TaintSpreads | crates/parity-proto/src/class.rs:111-117 | one inadmissible part at any depth taints a mixed class |
| Classes.InadmissibleHasACause | crates/parity-proto/src/class.rs:111-136 | a class is inadmissible exactly for a region error, or for an unmapped error or a driver failure, at some depth |
| Classes.TagsTellVariantsApart | crates/parity-proto/src/class.rs:139-162 | two classes have one tag exactly when they are one variant |
| Classes.TagsAreWireNames | crates/parity-proto/src/class.rs:139-162 | a class is shown by the name under which it travels |
| Observations.EvidenceMeansEveryStepAdmissible | crates/parity-proto/src/trace.rs:69-79 | a trace may settle a claim exactly when every step of it may |
| Observations.EachBadStepIsListed | crates/parity-proto/src/trace.rs:69-79 | exactly the steps that cannot be evidence are listed, in order, each with the reason of its first part that cannot |
| Observations.BlobsHoldTheirBytes | crates/parity-proto/src/observation.rs:200-203 | a blob stands for the bytes that its text encodes, and a malformed one for none |
| Retries.TransientTracesAreInadmissible | crates/parity-proto/src/trace.rs:81-93 | a trace that is run again was never evidence |
| Retries.RetryIsAsDocumentedIff | crates/parity-proto/src/trace.rs:81-93 | for every trace, exactly when the retry test says what the documentation does: that the cluster alone spoiled it |
| Retries.RetryOfErrorTrees | crates/parity-proto/src/trace.rs:89-93 | the same for the error trees behind the steps: a run is retried exactly when one of them holds region errors and nothing else |
| Retries.MixedErrorTreesAreFatal | crates/parity-proto/src/trace.rs:89-93 | a run spoiled by one error tree with a region error among admissible faults is spoiled by the cluster alone and not retried |
| Retries.LostRaceBesideARegionError | crates/parity-proto/src/trace.rs:89-93 | there is such a tree: a lost race beside a region error |
| Retries.RegionErrorMasksAHarnessFailure | crates/parity-proto/src/trace.rs:84-88 | a bare region error gets a run with a failed driver retried |
| Base64.B64Encode | crates/parity-proto/src/observation.rs:267-290 | the loop computes the chunked encoding |
| Base64.QuartetIsBase64Digits | crates/parity-proto/src/observation.rs:270-287 | each quartet holds the base-64 digits of its chunk and the padding it needs |
| Base64.B64DecodePermissive | crates/parity-proto/src/observation.rs:314-331 | the loop with its wrapping 32-bit accumulator delivers the right bytes on inputs of any length |
| Base64.B64Decode | crates/parity-proto/src/observation.rs:306-312 | strict decoding is permissive decoding checked by re-encoding |
| Base64.RoundTrip | crates/parity-proto/src/observation.rs:267-331 | decoding an encoding returns the original bytes |
| Base64.DecodeInvertsEncode | crates/parity-proto/src/observation.rs:292-312 | strict decoding gives `x` exactly for the encoding of `x` |
| Base64.StrictMeansCanonical | crates/parity-proto/src/observation.rs:292-305 | strict decoding accepts exactly the canonical strings of section 3.5 of RFC 4648: quartets, padding only at the end, zero residual bits |
| Replacing.ReplaceBytes | crates/parity-proto/src/project.rs:263-279 | the loop replaces every leftmost, non-overlapping occurrence |
| Replacing.SubstitutedIsSplitJoin | crates/parity-proto/src/project.rs:262-279 | replacing is splitting at the needle and joining with the replacement |
| Replacing.JoinInvertsSplit | crates/parity-proto/src/project.rs:262-279 | joining with the separator undoes splitting |
| Replacing.ShrinksIffContains | crates/parity-proto/src/project.rs:262-279 | with a shorter replacement the text is unchanged exactly when the needle is not in it |
| Replacing.NoStraddling | crates/parity-proto/src/project.rs:239-253 | no occurrence of a borderless prefix straddles the place where one was put |
| Replacing.ReplaceSplitsAtNeedle | crates/parity-proto/src/project.rs:252-279 | replacing a borderless prefix acts on the two sides of an occurrence separately |
| Replacing.ReplaceUndoesJoin | crates/parity-proto/src/project.rs:252-279 | replacing takes out exactly the joints, when and only when no piece contains the prefix |
| Namespacing.ValidArgumentsAreExact | crates/parity-proto/src/command.rs:233-256 | an argument is accepted exactly when it is text or the encoding of some bytes, and then stands for those bytes |
| Namespacing.NamespacingKeepsTheForm | crates/parity-proto/src/command.rs:286-322 | text stays text, binary stays binary and well formed, and a binary value is untouched |
| Namespacing.TokenSpells | crates/parity-proto/src/command.rs:276 | the token is spelled `{P}` |
| Namespacing.KeyIsPiecesJoined | crates/parity-proto/src/command.rs:286-303 | a namespaced key is its literal pieces joined by the prefix, which always goes in |
| Namespacing.ValueIsPiecesJoined | crates/parity-proto/src/command.rs:315-322 | a namespaced value is its literal pieces joined by the prefix, and a binary one is untouched |
| Namespacing.RedactionUndoesKeyNamespacing | crates/parity-proto/src/project.rs:239-260 | a redacted key is its template exactly when no literal piece contains the prefix |
| Namespacing.RedactionUndoesValueNamespacing | crates/parity-proto/src/project.rs:239-260 | a redacted value is the value as written exactly when no literal piece contains the prefix |
| Namespacing.GeneratedPrefixIsAdmissible | crates/harness/src/lib.rs:37-49 | every prefix generated from a plain name and a time is longer than the token and has no border |
| Namespacing.PrefixSpells | crates/harness/src/lib.rs:37-49 | a generated prefix is `gate/`, the name, the time, each followed by a slash |
| Namespacing.GeneratedPrefixesRoundTripKeys | crates/parity-proto/src/command.rs:258-322 | under a generated prefix keys come back with their tokens, one prepended if there was none, and binary keys as a token and their bytes |
| Namespacing.GeneratedPrefixesAreDisjoint | crates/harness/src/lib.rs:37-49 | no key starts with two different generated prefixes |
| Namespacing.RunsDoNotShareKeys | crates/parity-proto/src/command.rs:258-266 | one and the same key argument gives different keys under different prefixes |
| Namespacing.KeyIsUnderPrefixIff | crates/parity-proto/src/command.rs:268-279 | exactly which keys start with the run prefix |
| Namespacing.MiddleTokenLeavesThePrefix | crates/parity-proto/src/command.rs:268-279 | a token in the middle of a key puts it outside the prefix, for every prefix |
| PrefixIsolation.NoneInJoin | crates/parity-proto/src/command.rs:258-266 | joining clean pieces with one of two prefixes that cannot overlap makes no occurrence of the other |
| PrefixIsolation.RunsAreIsolatedIff | crates/parity-proto/src/command.rs:258-266 | two runs share no key, whatever clean arguments either uses, exactly unless the end of one prefix is the start of the other |
| PrefixIsolation.RunsOfOneScenarioAreIsolated | crates/parity-proto/src/command.rs:258-284 | so the two runs of a comparison never share a key |
| PrefixIsolation.OverlappingRunsCollide | crates/harness/src/lib.rs:37-49 | overlapping prefixes give two clean arguments with one key |
| PrefixIsolation.RangeStaysUnderPrefix | crates/parity-runner/src/run.rs:254-256 | a range between two keys with a prefix holds keys with that prefix only |
| PrefixIsolation.BracketedIff | crates/parity-runner/src/run.rs:254-256 | a range that holds a key holds only keys with a prefix exactly when it starts with the prefix and ends no higher than its keys |
| PrefixIsolation.ScanIsBracketedIff | crates/parity-runner/src/run.rs:248-257 | exactly which bounds bracket their run, read off the start's first piece and the end |
| PrefixIsolation.MiddleTokenScansSeeEveryRun | crates/parity-runner/src/run.rs:254-256 | two bounds with a token in the middle let a scan see every key of every run |
| PrefixIsolation.ScansBracketTheirRun | crates/parity-runner/src/run.rs:248-257 | a scan whose bounds lead with the token, or have none, sees keys of its own run only |
| Commands.SubstitutionReachesEveryArgument | crates/parity-runner/src/run.rs:229-292 | every argument of every command is namespaced by its position, and no key argument comes out the same in two runs |
| Commands.SubstitutionIsDetermined | crates/parity-runner/src/run.rs:229-292 | the command sent is the one with the same variant and the same other fields, and these arguments |
| Commands.SubstitutionKeepsTheRest | crates/parity-runner/src/run.rs:288-291 | no session, client, name, mode or batch size changes, and a command without byte strings is sent as it is |
| Texts.SortedIsASort | crates/parity-proto/src/project.rs:168 | sorting keeps the texts and puts them in order |
| Texts.SortForgetsOrder | crates/parity-proto/src/project.rs:138-168 | the sorted result does not depend on the order of the input |
| Texts.ChainedKeysAreTheUnion | crates/parity-proto/src/project.rs:328-330 | chaining, sorting and deduplicating two key lists lists the union once, in order |
| Texts.DecimalIsInjective | crates/parity-proto/src/project.rs:169 | different counts are shown differently |
| Texts.DecimalReadsBack | crates/parity-proto/src/project.rs:169 | a count is shown by the digits that read back as it |
| Texts.JoinedOfTwo | crates/parity-proto/src/project.rs:141 | joining puts one separator between any two neighbours and none elsewhere |
| Texts.JoinedWordsAreInjective | crates/parity-proto/src/project.rs:141 | joined words can be told apart |
| Projection.Spec.Validate | crates/parity-proto/src/project.rs:85-97 | accepts exactly the specs that name only known opt-in paths, and otherwise names an unknown one |
| Projection.ProjectObs | crates/parity-proto/src/project.rs:129-237 | the insertions build the default fields and then the opted-in ones |
| Projection.Project | crates/parity-proto/src/project.rs:119-127 | the loop files each step's fields under its id |
| ProjectionFacts.PathsEmitted | crates/parity-proto/src/project.rs:55-72 | an observation shows its default paths and the opted-in ones, and nothing outside the two lists |
| ProjectionFacts.DefaultsIgnoreTheSpec | crates/parity-proto/src/project.rs:188-217 | opting in never changes what a default path shows |
| ProjectionFacts.ObsFieldsEqual | crates/parity-proto/src/project.rs:129-237 | two observations are shown alike exactly when they agree on each compared fact |
| ProjectionFacts.OptInsAreCompared | crates/parity-proto/src/project.rs:178-237 | with a faithful JSON printer, two observations are shown alike exactly when they agree on the default facts and on every fact that the spec opts into |
| ProjectionFacts.MixedShowsItsParts | crates/parity-proto/src/project.rs:135-142 | a mixed class shows exactly which classes it is a mix of, each as often as it occurs |
| ProjectionFacts.ProtoTypesTellMessages | crates/parity-proto/src/project.rs:291-320 | the type of a proto tells malformed, empty, bare and named messages apart |
| ProjectionFacts.ProjectionSeesOnlyEvidence | crates/parity-proto/src/project.rs:13-20 | lock order, order of mixed parts, timestamps, native text, checksums and TTLs inside a bucket never show |
| ProjectionFacts.ProtoTypeIgnoresThePayload | crates/parity-proto/src/project.rs:291-320 | the type of a proto is its container and message, whatever the payload |
| ProjectionFacts.SameTemplateRedactsAlike | crates/parity-proto/src/project.rs:239-260 | one template under two admissible prefixes redacts to the same bytes |
| ProjectionFacts.PrefixDoesNotShow | crates/parity-proto/src/project.rs:239-260 | an observation made under two prefixes is shown alike, in values, lock keys and primaries |
| ProjectionFacts.RunsProjectAlike | crates/parity-proto/src/project.rs:119-127 | two runs with the same observations under two prefixes project alike |
| ProjectionFacts.ArgumentsShareATemplate | crates/parity-proto/src/command.rs:286-303 | a key argument of a scenario has one template in both runs |
| ProjectionFacts.ValuesShareATemplate | crates/parity-proto/src/command.rs:315-322 | so has a value argument |
| Diffing.Diff | crates/parity-proto/src/project.rs:326-355 | the nested loops compute the step-by-step, path-by-path comparison |
| Diffing.DiffIsExact | crates/parity-proto/src/project.rs:341-352 | the diff lists exactly the places where the two sides read differently, with both readings |
| Diffing.DiffIsSorted | crates/parity-proto/src/project.rs:328-340 | the report is strictly ordered by step and path, so each disagreement appears once |
| Diffing.OrderedReportIsUnique | crates/parity-proto/src/project.rs:102-105 | there is only one such report |
| Diffing.EmptyMeansReadAlike | crates/parity-proto/src/project.rs:342-344 | on arbitrary facts, an empty diff means reading alike at every step and path |
| Diffing.SentinelCanHideADifference | crates/parity-proto/src/project.rs:342-343 | on arbitrary facts that is weaker than equality |
| Diffing.EmptyDiffMeansEqualProjections | crates/parity-proto/src/project.rs:322-355 | on projections under one known spec, an empty diff means equal projections: the sentinel hides nothing |
| Diffing.ProjectedHoldsLast | crates/parity-proto/src/project.rs:121-125 | a projection holds, under each id, the last observation recorded under it |
| Diffing.SameRunsDoNotDiverge | crates/parity-proto/src/project.rs:239-260 | the same observations under two admissible prefixes have an empty diff |
| Diffing.WideningKeepsDefaultDivergences | crates/parity-proto/src/project.rs:188-217 | widening a spec leaves the divergences on the default paths exactly as they were |
| Diffing.DefaultSpecDivergesOnDefaults | crates/parity-proto/src/project.rs:57-72 | without opt-ins every divergence is on a default path |
| SortedKeys.WithinAfter | crates/rust-driver/src/exec.rs:403-409 | a cursor just above a record sees exactly the records after it |
| SortedKeys.AscendingIsCanonical | crates/rust-driver/src/exec.rs:260-262 | ascending listings of the same records are equal |
| LockPaging.PageIsCompleteUpToCut | crates/rust-driver/src/exec.rs:385-395 | whatever the region layout, a page holds every lock up to its cut, and a page without a cut holds all |
| LockPaging.LowestAreReturned | crates/rust-driver/src/exec.rs:387-392 | no region's truncation reaches the lowest locks of the range |
| LockPaging.ScanPage | crates/rust-driver/src/exec.rs:250-274 | one pass keeps exactly the locks up to the cut and moves the cursor past them |
| LockPaging.ScanLocks | crates/rust-driver/src/exec.rs:245-277 | the loop collects exactly the locks of the range, each once and ascending, within n / batch + 1 scans, the layout changing freely |
| ByteStrings.ZeroByteIsSuccessor | crates/rust-driver/src/exec.rs:403-409 | nothing sorts between a key and the key with a zero byte appended |
| MemComparable.EncodeKey | crates/harness/src/cluster.rs:38-54 | the chunk loop computes the group encoding |
| MemComparable.EncodedLength | crates/harness/src/cluster.rs:38-54 | the length is 9 * (len / 8 + 1) |
| MemComparable.EncodedByPosition | crates/harness/src/cluster.rs:38-54 | byte by byte: groups of nine, in each the next eight bytes of the key or zeros, then 255 less the number of bytes the group lacks |
| MemComparable.EncodingPreservesOrder | crates/harness/src/cluster.rs:37-54 | the encoding preserves and reflects the order of all byte strings |
| MemComparable.EncodingIsInjective | crates/harness/src/cluster.rs:37-54 | different keys have different encodings |
| Regions.LocateIsTotalAndExact | crates/harness/src/cluster.rs:188-192 | in a snapshot that tiles the key space exactly one region holds a key, and the search finds it |
| Regions.CrossRegionMeans | crates/harness/src/cluster.rs:219-222 | two keys are cross-region exactly when both are located, in regions with different ids |
| Regions.CrossRegionIffBoundaryBetween | crates/harness/src/cluster.rs:219-222 | two keys are in different regions exactly when a boundary lies between their encodings |
| Regions.BoundaryAtSplitSeparates | crates/harness/src/cluster.rs:255-260 | a boundary at the split key separates the two keys it was asked to separate |
| Regions.SplitTiles | crates/harness/src/cluster.rs:239-253 | splitting a region at a key keeps the snapshot a tiling |
| Regions.OneRegionTiles | crates/harness/src/cluster.rs:239-253 | one region over all keys is a tiling |
| Regions.AcceptedSplitMeetsPrecondition | crates/harness/src/cluster.rs:280-329 | an accepted split makes the precondition hold |
| Regions.EnsureCrossRegion | crates/harness/src/cluster.rs:280-329 | the loop returns only on a snapshot that separates the keys, asks for a split, at the split key, of the region that holds the lower one, and otherwise fails on the first pass at its deadline or later |
| LeasePorts.Ports | scripts/cluster-broker:101-111 | the dictionary holds the ports of the block and no others |
| LeasePorts.SlotsHaveDisjointPorts | scripts/cluster-broker:17-22 | clusters on different slots share no port, on any slot number |
| LeasePorts.BlockHasDistinctPorts | scripts/cluster-broker:101-111 | one cluster uses each of its ports once |
| LeasePorts.StoresOfProfiles | scripts/cluster-broker:56-60 | one store for the single profile, three for the others |
| LeaseDecisions.Decide | scripts/cluster-broker:187-216 | a plan is one the records allow; a refusal means that none is, and says what is in the way |
| LeaseDecisions.ExpiryAt | scripts/cluster-broker:90-98 | an expiry is a whole second at most one second before its time, and there is none exactly without a TTL or with one of zero |
| LeaseDecisions.FirstFree | scripts/cluster-broker:212-214 | the lowest slot of 1..max that is not taken and whose ports can be bound |
| LeaseDecisions.SlotFits | scripts/cluster-broker:213-214 | a slot fits exactly when every port of its block can be bound |
| LeaseDecisions.BelowTheCapASlotIsFree | scripts/cluster-broker:210-212 | below the cap some slot of 1..max is not taken |
| LeaseDecisions.ClassicLeasesDoNotCount | scripts/cluster-broker:210-211 | a lease counts against the cap exactly when it is not on the classic slot |
| LeaseBroker.SlotsStayDistinct | scripts/cluster-broker:187-254 | in every run of leases, releases, renewals and collections, unlinks falling anywhere, recorded leases hold different slots |
| LeaseBroker.RecordedLeasesShareNoPort | scripts/cluster-broker:17-22 | so their clusters share no port |
| LeaseBroker.AutomaticLeaseGetsAFreeSlot | scripts/cluster-broker:203-228 | a lease placed by the broker gets a slot of 1..max that no other record holds |
| LeaseBroker.StepKeepsSlots | scripts/cluster-broker:126-135 | each step of a locked section keeps the slots apart although files may vanish meanwhile |
| LeaseBroker.MarkedLeasesAreRefused | scripts/cluster-broker:272-284 | along every run, with any number of `gc` runs, a marked lease stays marked and refuses every renewal and re-lease until its record is gone |
| LeaseBroker.ClaimedLeasesAreRefused | scripts/cluster-broker:321-333 | so does a lease that `gc` has claimed, from the claim on: before its teardown, after one that failed, and after a `gc` that died in between |
| LeaseBroker.ClaimsStay | scripts/cluster-broker:325-333 | along every run with one `gc` at a time, and no release of what it has in hand, claimed leases are claimed once and their records say so |
| LeaseBroker.FailedTeardownIsRetried | scripts/cluster-broker:246-254 | a failed teardown keeps the record, and the next `gc` claims it again, whatever else is leased, renewed, released or collected meanwhile |
| LeaseBroker.AbandonedClaimIsRetried | scripts/cluster-broker:325-333 | a `gc` that dies between a claim and the teardown leaves the record marked, and the next `gc` claims it again |
| LeaseBroker.LiveLeasesAreNotCollected | scripts/cluster-broker:321-333 | until its expiry, a live lease that nobody releases is never collected, by any number of `gc` runs |
| LeaseBroker.ExpiredLeasesAreCollected | scripts/cluster-broker:148-150 | a lease that was given some time, and neither renewed nor leased again nor removed since, is in hand after every `gc` that reads the records when that time is over, and from then on no request for its id gets a plan |
| LeaseBroker.RenewalBeatsCollection | scripts/cluster-broker:272-284 | a renewal that comes before the claim protects the lease until its new expiry |
| LeaseBroker.Broker.Lease | scripts/cluster-broker:187-228 | a refusal changes nothing and no plan was allowed; otherwise the command is the one write of the plan, as a run of the step system that keeps slots distinct |
| LeaseBroker.Broker.Renew | scripts/cluster-broker:272-284 | refused exactly without a record or on a marked one; the command is a run of the step system whose only write is the renewal |
| LeaseBroker.Broker.ClaimExpired | scripts/cluster-broker:325-333 | exactly the expired and already marked records get marked and are to be torn down, by a run of the step system's claims |
| LeaseBroker.Broker.Release | scripts/cluster-broker:246-254 | the record goes only when the teardown worked, by a lookup and an unlink of the step system; a missing record is an error only for callers that say so |
| SplitWait.Clock.LimitedCommit | crates/harness/src/split_wait.rs:85-106 | a commit succeeds exactly when it returns before the deadline, and one that fails ends at the deadline or later |
| SplitWait.WaitForSplit | crates/harness/src/split_wait.rs:34-83 | ends for every outside; everything awaited comes at its time; a split is the last probe's, with all re-writes inside the limit; no probe or count follows a commit limit; regions are counted only on no split; results are late by at most a sleep, a probe and, on no split, a count |
| SplitWait.RewriteIfDue | crates/harness/src/split_wait.rs:76-80 | a re-write is made exactly when its interval has passed, costs it, and sets the next one; one that fails ends the wait at the deadline or later |
| SplitWait.RewritesAreMadeWhenDue | crates/harness/src/split_wait.rs:63-82 | in every log on schedule, what follows a probe without a split before the deadline is a re-write if the interval since the last commit has passed, and a sleep if not |
| SplitWait.ProbeAndJudge | crates/harness/src/split_wait.rs:64-75 | a split ends the wait, and the deadline is judged after the probe and before anything else |
| SplitWait.Seed | crates/harness/src/split_wait.rs:59-62 | the seed commit comes first, and the first re-write is due an interval after it |
| SplitWait.OnePollLess | crates/harness/src/split_wait.rs:63-82 | every pass that goes on uses up one poll before the deadline |
| Scenarios.Validate | crates/parity-runner/src/scenario.rs:125-358 | accepts exactly the acceptable scenarios, and refuses for a rule that is broken |
| Scenarios.CheckStep | crates/parity-runner/src/scenario.rs:250-319 | passes exactly when the step breaks none of the rules for steps, and otherwise names one it breaks |
| Scenarios.CheckSteps | crates/parity-runner/src/scenario.rs:245-320 | passes exactly when step ids are distinct and no step breaks a rule |
| Scenarios.RunnableMeans | crates/parity-runner/src/scenario.rs:250-319 | an accepted step names a declared role, parses, has exact arguments and is not the handshake; an accepted lock scan can make progress; an accepted sleep says for how long and why |
| Scenarios.PlainNamesAre | crates/parity-runner/src/scenario.rs:362-368 | plain names are one or more lower-case letters, digits and dashes, not starting with a dash |
| Scenarios.SpacesAre | crates/parity-runner/src/scenario.rs:293-295 | the white space that a blank reason consists of is that of Unicode |
| Scenarios.ExampleIsAcceptable | crates/parity-runner/src/scenario.rs:125-358 | the rules can all be met: a scenario with a command, a sleep and a lock scan is acceptable |
| Scenarios.AcceptedScenariosExerciseTheSubject | crates/parity-runner/src/scenario.rs:176-233 | some command goes to client-go in the oracle run and to client-rust in the subject run, and none the other way round |
| Scenarios.PlainNamesMakeAdmissiblePrefixes | crates/parity-runner/src/run.rs:78-87 | the prefixes of an accepted scenario can be redacted exactly |
| Runner.RunStep | crates/parity-runner/src/run.rs:130-169 | a recorded step is what the bound driver answered to the namespaced command, with its precondition met; every other end is tied to the step or to the missing answer |
| Runner.AssertReadsTheProjection | crates/parity-runner/src/scenario.rs:86-111 | a precondition holds exactly when the comparison shows the asserted class and lock count |
| Runner.Execute | crates/parity-runner/src/run.rs:72-196 | a trace records exactly the executing steps and is evidence throughout; a failure, a failed precondition or evidence of nothing is one that the attempt's drivers and answers give |
| Runner.RunUntilSettled | crates/parity-runner/src/main.rs:136-169 | at most three attempts, each repeated only after an attempt that gave just the listed evidence of a moving cluster; the last one decides |
| Runner.RunAll | crates/parity-runner/src/main.rs:129-171 | every run has its settled trace, or the first run that has none is named with its retries and its end |
| Runner.AcceptedRunsFailOutside | crates/parity-runner/src/run.rs:72-196 | of an accepted scenario no lookup of a role, binding, driver, command or duration fails in any attempt |
| Runner.SettledIsNotSpoiled | crates/parity-runner/src/run.rs:130-196 | an attempt that gives a trace to compare gives no evidence of nothing: what an attempt comes to is determined |
| Runner.RunScenario | crates/parity-runner/src/main.rs:105-225 | a report compares a settled oracle trace with a settled subject trace; no report names the run and the attempt that was evidence of nothing; an accepted scenario fails only as some attempt did, for an outside reason |
| Runner.EveryStepIsCompared | crates/parity-runner/src/main.rs:181-193 | the two traces hold exactly the executing steps in order, and no divergence means that every one was observed alike |
| Runner.AgreeingRunsReportNothing | crates/parity-runner/src/main.rs:181-193 | the same observations under the two generated prefixes report no divergence |

## Left out

- The clients, PD and TiKV themselves: in the metadata store the server is the rules listed above,
  and elsewhere its answers are arbitrary inputs.
- Lock TTLs, lock resolution by other clients, deadlock detection and orphaned-lock healing: a
  blocked request waits or fails.
- One-phase and asynchronous commit: the store uses plain two-phase commit.
- The client library between `commit` and the server: which of a transaction's steps goes with which
  answer is stated by `TransactionRuns.Takes`, and the library's own retries are not modelled.
- Network and process I/O, files, environment variables, command lines and log lines.
- JSON and TOML parsing, JSON printing and UTF-8 decoding: the last two are function parameters of
  the projection, and text keys are given by their UTF-8 bytes.
- The proto half of the error mapping, the Go driver, the lock-kind names and message wording: a
  class's detail is shortened.
- Injectivity of joined lock lines: different lock lists may print alike.
- The clock behind a run prefix, which is an arbitrary number here, and the width of counters;
  base64's 32-bit accumulator is modelled.
- What an empty `end` of a lock range means to the client, which is not part of this model: a range
  is half-open here. A namespaced end key always contains the run prefix, so it is never empty.
- The broker's env files, orphan report and compose projects; the cap does not bind explicit slots.
- LeaseBroker.ClaimsStay: a second `gc` at the same time, and a release, or a lease that fails, of an
  id that `gc` has in hand, may claim a lease twice; the result holds for runs without these, as
  `Quiet` says, and the other results of the broker hold beyond them.
- LeaseBroker.StepKeepsSlots: a record that does not parse is skipped when the records are loaded, so
  its slot counts as free; the model has no such record.
- LeaseBroker.MarkedLeasesAreRefused: an id that the broker makes up is taken to be no recorded one.
- SplitWait.WaitForSplit: the bound on a late commit limit is the timer's lag, stated by
  `LimitedCommit`, and clock reads take no time.
- Runner.Execute: driver sessions are not modelled; a driver's answer is an arbitrary function of
  the attempt, the position and the command.
