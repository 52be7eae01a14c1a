# Verified models of the desktop shell

Dafny models of the parts of the desktop shell that are hardest to get right, with proofs that hold for every input,
every interleaving and every reachable state. `dafny verify dfyconfig.toml` checks the whole project.

**Research memory.** A nested value (artifact, decision snapshot, context, bundle, review) is stored as one row per part
plus links between rows. `MemoryDatabase` is the store with its two tables as maps, `MemoryCatalog` says what the tables
mean: a catalog from hash to whole value. The digest is an arbitrary function and may collide; the store compares kind,
identity, metadata and links before it accepts an existing row, and that alone carries the round trip. `DecisionMerge`
proves the merge of two snapshots to be a join on a chain, `ReviewHistory` the append-only review histories,
`MemoryPrune` the reachability garbage collection, `MemoryRuns` what holds over runs of saving, appending, pruning and
clearing, `MemoryRules` what it takes for a value to be saved, told from its times, hashes and fields, and
`NumericReviews` the hash-chained numeric reviews.

**Ownership and cleanup.** `RegistryModel` is the single-slot run registry as a state machine: one event is one critical
section of one thread, so a sequence of events is one interleaving of any number of threads. `AnalysisExecution` has the
run and registry objects as the program has them, updated in place, and proves each method to be one step of that
machine; its `Cleanup` is the retry loop among everything other threads do. `RegistryTraces` tells from the events of a
whole run which processes were stopped and which readers failed. `SupervisorModel` is the bounded pool as a state machine,
in which every owner has a registry of its own; `SupervisorTraces` tells who may work on an owner at a time and what a
successful command has behind it. `JsonOwner`, `JsonPool` and `JsonCommand` are the pool as
the program has it: owner objects that point to a registry and a run, a map from identities to owners, and the loops
that finish a lease, retry pending owners and clean up everything, proved to keep the laws of the pool whatever other
threads do between their steps. `CommandOutput` is what a command's reader threads bring back. `OwnedProcess` is the staged
teardown of a process tree under arbitrary answers of the system; it is safe as long as nobody looks at the child of a
failed spawn, which no caller does (`TeardownIsSafe`, and `LookingAtASoleLeaderIsUnsafe` for the reason).

**Smaller cores.** `Calendar` and `TimeStamps` (two readers of dates and UTC stamps), `IdentifierRelation` (how a saved
selector relates to an identifier), `RequestTargets` (symbol normalisation), `TargetRules` (what every request is turned
into, text by text), `ByteSearch` (streaming search),
`JsonMerge` (two JSON merge patches against section 2 of RFC 7396), `SurrogateRepair` (surrogate pairs as in section 2.1
of RFC 2781). Policy tables are parameters.

## What turned out false, and the exact condition

- A cleanup does not report success exactly when its run is finished: a call that meets the run's lock taken at its
  deadline reports failure although the run may be finished (`ContendedCleanupMissesTheEnd`). A section of its own goes
  on to release exactly if it leaves the run finished (`CleanupAnswers`).
- The relation of identifiers does not survive a change of notation merely because no proxy names a venue code
  (`DigitsInCodesBreakIt`). It does exactly if, in addition, no venue code with two notations can be read as a pair
  (`ReplaceableIff`), which codes without digits guarantee (`DigitFreeCodesSuffice`).
- "Consistent" is the equivalence of notations exactly if no declared proxy relates two notations of one code
  (`ConsistentIsSameListing`).
- Deriving a request symbol is not a normal form for all tables of fixed targets and alphabetic codes
  (`LongBaseBreaksIt`). It is exactly if alias targets are fixed, no rewriting arrives at an alias that leads elsewhere,
  and crypto bases are stable (`NormalFormIff`); `LettersSuffice` is the table check.
- The two time stamp readers accept different texts: they differ exactly in a plus sign in the hour, minute or second
  (`StampsAgree`, `ReadersDiffer`).
- The snapshots of one run that were ever saved need not be mergeable: a snapshot that was saved and pruned away because
  nothing refers to it can be followed by one that contradicts it (`LostSnapshotCanBeContradicted`). Over any run of
  operations they are mergeable, and a run's bundles equal, if between the two saves no clear comes and no prune at which
  the earlier value is part of no task's, version's or review's value (`SavedSnapshotsMerge`, `SavedBundlesAreOne`); and a snapshot that contradicts a saved one
  becomes storable exactly if such a prune or clear comes (`ContradictionOnceLost`, and `StorableOnceLost` for values of
  every kind).

## Model

| member | source | states |
|---|---|---|
| `DecisionMerge.MergeDecision` | src-tauri/src/research_memory.rs:717-744 | filling in a clone field by field and artifact by artifact computes `Merge`, including every failure |
| `DecisionMerge.MergeIsLarger` | src-tauri/src/research_memory.rs:717-744 | the merge succeeds exactly when one snapshot contains the other, and returns the containing one unchanged, hash included |
| `DecisionMerge.SameStageSameSnapshot` | src-tauri/src/research_memory.rs:618-711 | two valid compatible snapshots at the same stage (pending, outcome, reflection) are equal, because a snapshot carries exactly the artifacts it refers to |
| `DecisionMerge.CompatibleIsNested` | src-tauri/src/research_memory.rs:618-711 | of two valid compatible snapshots one lies within the other |
| `DecisionMerge.MergeCommutes` | src-tauri/src/research_memory.rs:717-744 | both orders succeed or fail together and give the same snapshot |
| `DecisionMerge.MergeIdempotent` | src-tauri/src/research_memory.rs:717-744 | a valid snapshot merged with itself is itself |
| `DecisionMerge.MergeAssociates` | src-tauri/src/research_memory.rs:717-744 | both groupings of three snapshots succeed or fail together and agree |
| `DecisionMerge.AtMostThreeSnapshots` | src-tauri/src/research_memory.rs:618-744 | a set of pairwise mergeable snapshots has at most three members |
| `MemoryCatalog.SameRowSameValue` | src-tauri/src/research_memory_storage.rs:148-166 | equal row and equal links mean the equal value, so comparing them is comparing values |
| `MemoryCatalog.RowTellsValue` | src-tauri/src/research_memory_storage.rs:155-167 | the row and links found at a value's hash are that value's own exactly if that value is saved there |
| `MemoryCatalog.StoreKeepsEverything` | src-tauri/src/research_memory_storage.rs:71-176 | a successful store makes every part loadable at its hash and leaves every saved value as it was, with no assumption on collisions |
| `MemoryCatalog.StoreTwiceIsOnce` | src-tauri/src/research_memory_storage.rs:155-174 | storing a saved value again succeeds and changes nothing |
| `MemoryCatalog.StoreOrderFree` | src-tauri/src/research_memory_storage.rs:71-176 | whether two values can both be stored, and the result, do not depend on the order |
| `MemoryCatalog.CoexistExactly` | src-tauri/src/research_memory_storage.rs:74-167 | two valid values can be saved side by side exactly if they are one, or have different hashes and are no contradicting snapshots and no two bundles of one run |
| `MemoryCatalog.SavedRunIsChain` | src-tauri/src/research_memory_storage.rs:74-140 | the snapshots of a run that are in one catalog together form a chain of at most three, and its bundles are one |
| `MemoryDatabase.Database.Load` | src-tauri/src/research_memory_storage.rs:184-186 | on a sound database loading succeeds exactly for saved hashes of that kind and gives the saved value; on any tables a loaded value is valid and has the hash and kind asked for |
| `MemoryDatabase.Database.LoadInner` | src-tauri/src/research_memory_storage.rs:187-253 | the same for the recursion with its set of hashes under way, which never rejects an acyclic value |
| `MemoryDatabase.Database.PutRow` | src-tauri/src/research_memory_storage.rs:148-175 | an existing row is accepted exactly if it is this value; a new one is inserted with all its links; failure changes nothing |
| `MemoryDatabase.Database.StoreArtifact` | src-tauri/src/research_memory_storage.rs:71-176 | succeeds exactly if storable, adds exactly its own row |
| `MemoryDatabase.Database.StoreDecision` | src-tauri/src/research_memory_storage.rs:118-141 | succeeds exactly if valid and mergeable with every saved snapshot of the run and with what is saved at its hashes; adds exactly its parts |
| `MemoryDatabase.Database.MergesWithSaved` | src-tauri/src/research_memory_storage.rs:132-140 | the loop over saved snapshots answers whether all of them merge with the new one |
| `MemoryDatabase.Database.StoreContext` | src-tauri/src/research_memory_storage.rs:97-117 | succeeds exactly if storable with all nested decisions; adds exactly its parts |
| `MemoryDatabase.Database.StoreBundle` | src-tauri/src/research_memory_storage.rs:74-96 | succeeds exactly if storable; in particular the run has no other bundle |
| `MemoryDatabase.Database.OnlyBundleOfRun` | src-tauri/src/research_memory_storage.rs:74-84 | the check answers whether every saved bundle of the run has this hash |
| `MemoryDatabase.Database.StoreReview` | src-tauri/src/research_memory_storage.rs:142-176 | succeeds exactly if storable; adds exactly its parts |
| `MemoryDatabase.Database.Store` | src-tauri/src/research_memory_storage.rs:71-176 | for every kind: success exactly if all parts are valid and agree with all saved values and each other; adds exactly the parts; a failed store leaves a sound database in which at most parts were added |
| `MemoryPrune.Prune` | src-tauri/src/research_memory_storage.rs:403-418 | an object stays exactly if its value is part of the bundle of some task or report version or of some review's attachment, which is where links lead from these rows; all of those keep their values whole; no link dangles; the database stays sound |
| `MemoryPrune.KeptIsNeeded` | src-tauri/src/research_memory_storage.rs:403-418 | what stays after a prune is exactly what some owner's bundle or some review needs, and each of those stays whole |
| `MemoryPrune.RetainedHashes` | src-tauri/src/research_memory_storage.rs:408-414 | the recursive query computes exactly the reachable hashes |
| `MemoryPrune.ReachableIsPart` | src-tauri/src/research_memory_storage.rs:403-418 | what is reached from the roots is exactly the parts of the roots' values |
| `MemoryPrune.RootsSurvive` | src-tauri/src/research_memory_storage.rs:403-418 | every root still loads to the value it had, with everything nested in it |
| `MemoryPrune.KeptWellFormed` | src-tauri/src/research_memory_storage.rs:403-418 | what pruning keeps is again a sound catalog |
| `MemoryRuns.Perform` | src-tauri/src/research_memory_storage.rs:71-418 | every operation on the tables, failed ones included, is a step of a run and leaves the tables sound |
| `MemoryRuns.ClearTables` | src-tauri/src/research_memory_storage.rs:400-402 | everything is gone and the tables are sound |
| `MemoryRuns.ForgetReviews` | src-tauri/src/research_memory_storage.rs:352-358 | exactly the reviews of the one owner are gone; every other history is as it was |
| `MemoryRuns.SavedAgree` | src-tauri/src/research_memory_storage.rs:71-176 | two values saved at any times of a run agree, unless a prune or clear in between takes the earlier one away |
| `MemoryRuns.SavedSnapshotsMerge` | src-tauri/src/research_memory_storage.rs:130-140 | all snapshots of one run ever saved merge, and one contains the other, unless the earlier one was taken away in between |
| `MemoryRuns.SavedBundlesAreOne` | src-tauri/src/research_memory_storage.rs:74-84 | likewise all bundles of one run ever saved are equal |
| `MemoryRuns.StorableOnceLost` | src-tauri/src/research_memory_storage.rs:71-176 | a value that contradicts a saved one and nothing else becomes storable exactly if a clear comes, or a prune at which the saved one is part of no owner's bundle and of no review |
| `MemoryRuns.ContradictionOnceLost` | src-tauri/src/research_memory_storage.rs:130-140 | the same for a snapshot that does not merge with a saved one of its run |
| `MemoryRuns.LostSnapshotCanBeContradicted` | src-tauri/src/research_memory_storage.rs:130-140 | a run that saves a snapshot, prunes it and saves one that contradicts it |
| `MemoryRules.DecisionExactly` | src-tauri/src/research_memory.rs:618-716 | which snapshots are valid: under the digests of their parts, times going forward, an outcome and a reflection only as the stages allow, and exactly the artifacts referred to, each in the form asked for; the bound of sixteen artifacts refuses none |
| `MemoryRules.ContextExactly` | src-tauri/src/research_memory.rs:848-880 | which contexts are valid: available from the earlier of selection and research cutoff, at most 128 decisions of different runs, and each of them recorded, observed and reflected by both times |
| `MemoryRules.BundleExactly` | src-tauri/src/research_memory.rs:958-975 | which bundles are valid: run, instrument, date, evidence and cutoff agree, the context was selected between start and recording and does not hold the decision itself |
| `MemoryRules.ReviewExactly` | src-tauri/src/research_memory.rs:1041-1064 | which reviews are valid: of this decision and not before anything they review |
| `MemoryRules.SavedDecisions` | src-tauri/src/research_memory_storage.rs:118-141 | every saved snapshot was recorded, observed and reflected in this order and carries exactly what it refers to |
| `MemoryRules.SavedContexts` | src-tauri/src/research_memory_storage.rs:97-117 | every saved context looks back: nothing in it is later than its selection or its research cutoff |
| `MemoryRules.SavedBundles` | src-tauri/src/research_memory_storage.rs:74-96 | every saved bundle belongs together |
| `MemoryRules.SavedReviews` | src-tauri/src/research_memory_storage.rs:142-176 | every saved review comes after all it reviews |
| `MemoryRules.SoundDatabaseIsWellFormed` | src-tauri/src/research_memory_storage.rs:184-253 | so this holds of everything that is ever loaded from a sound database |
| `MemoryRules.DecisionsSavedExactly` | src-tauri/src/research_memory.rs:634-687 | a world of decisions that can be saved exactly if their times are in order |
| `MemoryRules.ContextsSavedExactly` | src-tauri/src/research_memory.rs:852-880 | contexts that can be saved exactly if they are available from the earlier of selection and research cutoff and look back from there, whichever is earlier |
| `MemoryRules.EmptyContextsSavedExactly` | src-tauri/src/research_memory.rs:852-861 | contexts without decisions, which can be saved exactly if they are available from the earlier of the two times |
| `MemoryRules.BundlesSavedExactly` | src-tauri/src/research_memory.rs:958-975 | bundles that can be saved exactly if the context was selected between start and recording and the cutoffs agree |
| `MemoryRules.ReviewsSavedExactly` | src-tauri/src/research_memory.rs:1045-1054 | reviews that can be saved exactly if they come after all they review |
| `ReviewHistory.AcceptedIsGrowth` | src-tauri/src/research_memory.rs:1055-1063 | a valid review belongs to a completion exactly if its snapshot contains the completed one |
| `ReviewHistory.ExtendedExactly` | src-tauri/src/research_memory_storage.rs:359-398 | which history an append leaves: the saved reviews and the first of the incoming ones under each hash |
| `ReviewHistory.AppendTwiceIsOnce` | src-tauri/src/research_memory_storage.rs:359-398 | appending what is saved already changes nothing |
| `ReviewHistory.ProgressIsGrowth` | src-tauri/src/research_memory_storage.rs:316-335 | the progression check means that the later review's snapshot contains the earlier one's, with equality at equal times |
| `ReviewHistory.ProgressTransitive` | src-tauri/src/research_memory_storage.rs:316-335 | progression is transitive along review time |
| `ReviewHistory.NeighboursSuffice` | src-tauri/src/research_memory_storage.rs:275-335 | on a list sorted by review time the adjacent checks imply the check of every pair |
| `ReviewHistory.ChronicleByNeighbours` | src-tauri/src/research_memory_storage.rs:275-315 | the adjacent-pair check made on load holds exactly if the all-pairs check made on append does |
| `ReviewHistory.HistoryGrows` | src-tauri/src/research_memory_storage.rs:275-398 | a sound history sorted by time has strictly increasing times and snapshots that only grow above the completion's |
| `ReviewHistory.AtMostThreeReviews` | src-tauri/src/research_memory_storage.rs:359-398 | so it has at most three reviews |
| `MemoryPrune.PruneKeepsReviews` | src-tauri/src/research_memory_storage.rs:403-418 | pruning keeps every review row's value and snapshot |
| `ReviewHistory.NeighboursProgress` | src-tauri/src/research_memory_storage.rs:275-315 | the loop over neighbours answers whether each progresses to the next |
| `ReviewHistory.LoadReviews` | src-tauri/src/research_memory_storage.rs:275-315 | succeeds exactly on a sound history and returns it sorted by time |
| `ReviewHistory.AppendReviews` | src-tauri/src/research_memory_storage.rs:359-398 | succeeds exactly if the owner's row exists and every incoming review is accepted, fits the tables and progresses with every other one; on failure too nothing saved is lost, a sound history stays sound and no other owner is touched |
| `ReviewHistory.InsertReview` | src-tauri/src/research_memory_storage.rs:385-394 | a row is inserted exactly if the table with it still has its foreign keys met and no attachment or snapshot twice for an owner; then the review joins its owner's history and no other |
| `NumericReviews.ValidateReviews` | src-tauri/src/numeric_review.rs:375-406 | the loop accepts exactly the chained lists: distinct ids, each review naming its predecessor's hash, times not decreasing |
| `NumericReviews.ChainedExactly` | src-tauri/src/numeric_review.rs:375-406 | which review may come next, field by field, starting from the empty history |
| `NumericReviews.AllowedExactly` | src-tauri/src/numeric_review_storage.rs:122-127 | a receipt is allowed exactly if writing it changes no receipt and leaves the ids distinct |
| `NumericReviews.ChainedPrefix` | src-tauri/src/numeric_review.rs:375-406 | every prefix of a chained history is chained |
| `NumericReviews.LastHashDeterminesHistory` | src-tauri/src/numeric_review.rs:375-406 | if no two different reviews of two histories share a digest, equal last hashes mean equal histories |
| `NumericReviews.Database.StoreSnapshot` | src-tauri/src/numeric_review_storage.rs:25-47 | succeeds exactly if the snapshot is valid and neither its run nor its hash is taken by another; then it is saved, and no saved one changes |
| `NumericReviews.Database.LoadSnapshot` | src-tauri/src/numeric_review_storage.rs:49-61 | gives the saved snapshot exactly if there is one that is valid for the evidence |
| `NumericReviews.Database.LoadReviews` | src-tauri/src/numeric_review_storage.rs:63-99 | succeeds exactly if the saved list is chained and written for this snapshot, and returns it |
| `NumericReviews.Database.ReceiptAllows` | src-tauri/src/numeric_review_storage.rs:122-127 | the look-up by id or hash accepts exactly if every match is this very review |
| `NumericReviews.Database.AppendReviews` | src-tauri/src/numeric_review_storage.rs:100-138 | succeeds exactly if the incoming list is chained, extends the saved one and, where there is a new review, its snapshot and version are saved and its id and hash free or its own; then the history is the incoming list; other versions never change |
| `NumericReviews.Database.Prune` | src-tauri/src/numeric_review_storage.rs:140-146 | removes exactly the receipts in no history and the snapshots without a reference or receipt; every saved history loads as before |
| `RegistryModel.InvStep` | src-tauri/src/analysis_execution.rs:52-271 | every critical section keeps the invariant of the registry |
| `RegistryModel.ReserveExactly` | src-tauri/src/analysis_execution.rs:57-97 | a reservation is made exactly if the slot is empty or expired unclaimed, admission open and an identity left; what it then is |
| `RegistryModel.StartExactly` | src-tauri/src/analysis_execution.rs:99-128 | a start succeeds exactly for the named run in the slot that is not cancelled, not expired and never started; its whole effect |
| `RegistryModel.ReserveThenStart` | src-tauri/src/analysis_execution.rs:57-128 | a reservation left alone can be started exactly while its lease runs |
| `RegistryModel.CancelExactly` | src-tauri/src/analysis_execution.rs:143-156 | a cancel marks exactly the named unexpired run and releases nothing |
| `RegistryModel.CallbackExactly` | src-tauri/src/analysis_execution.rs:160-193 | when a delete or clear callback may run |
| `RegistryModel.SlotClearedOnlyWhenDone` | src-tauri/src/analysis_execution.rs:90-211 | the slot stops naming a run only if it was never claimed and has expired, or by the release of that very run when it is finished: process stopped, readers joined, worker retired |
| `RegistryModel.StartedRunsHoldTheSlot` | src-tauri/src/analysis_execution.rs:195-271 | in every interleaving a started run holds the slot until finished, and a cleanup that returned success left its run finished and clean |
| `RegistryModel.StaleRequestsTouchNothing` | src-tauri/src/analysis_execution.rs:203-211 | a guard or cleanup request of one run never alters or releases another |
| `RegistryModel.NeverRetainedAgain` | src-tauri/src/analysis_execution.rs:294-302 | an observation of one exact run that once says "released" says so for ever |
| `RegistryModel.RunsOnlyGrow` | src-tauri/src/analysis_execution.rs:70-87 | runs keep their identity for ever, so none is used twice; after closing none is added |
| `RegistryModel.NeverStartedAgain` | src-tauri/src/analysis_execution.rs:99-156 | a run once started, cancelled, expired, displaced or closed off is started in no continuation |
| `RegistryModel.EachRunStartsOnce` | src-tauri/src/analysis_execution.rs:57-128 | over any run of events each run is started at most once, exactly once if it is claimed, and no identity is used twice |
| `RegistryModel.StartNeedsOpenReservation` | src-tauri/src/analysis_execution.rs:99-128 | a start finds the run open and leaves it barred, so it happens at most once |
| `RegistryModel.CallbackExcludesAdmission` | src-tauri/src/analysis_execution.rs:158-193 | while a callback runs nothing is admitted, claimed, released or replaced and no conflicting owner exists |
| `RegistryModel.SweepConserves` | src-tauri/src/analysis_execution.rs:244-253 | the `swap_remove` loop joins exactly the ended readers, skips none and conserves the multiset |
| `RegistryModel.ReadersConserved` | src-tauri/src/analysis_execution.rs:341-348 | readers held or joined by a run change only by the one that is added |
| `RegistryModel.PanicStep` | src-tauri/src/analysis_execution.rs:246-249 | the panic flag stays exactly "some joined reader panicked" |
| `RegistryModel.FinishedJoinedAll` | src-tauri/src/analysis_execution.rs:254-258 | in every interleaving a finished run has joined every reader it was ever given and tells exactly whether one panicked |
| `RegistryModel.CleanupAnswers` | src-tauri/src/analysis_execution.rs:213-270 | a call goes on to release exactly if its section leaves the run finished, gives up only over a failed stop or past its deadline, and never goes on at the deadline |
| `RegistryModel.ContendedCleanupMissesTheEnd` | src-tauri/src/analysis_execution.rs:215-228 | a reachable state in which a contended cleanup reports failure although its run is finished |
| `RegistryModel.RetrySucceeds` | src-tauri/src/analysis_execution.rs:213-270 | once the worker has retired, the readers have ended and a stop succeeds, one section finishes the run |
| `RegistryTraces.FailedStopKeepsRun` | src-tauri/src/analysis_execution.rs:233-238 | a section whose stop fails leaves the run unfinished and failed, its process unstopped, everything else as it was, and the call failed |
| `RegistryTraces.GoodStopIsKept` | src-tauri/src/analysis_execution.rs:233-243 | a stop that succeeds in a section of an unfinished run is recorded |
| `RegistryTraces.StoppedOnlyByStop` | src-tauri/src/analysis_execution.rs:229-263 | over any run of events a process is stopped only by a section on that very run whose stop succeeded |
| `RegistryTraces.ReleasedOnlyAfterStop` | src-tauri/src/analysis_execution.rs:203-270 | in every interleaving a run with a process is finished, released or reported clean only after its process was attached and, later, a stop of it succeeded |
| `RegistryTraces.ProcessForEver` | src-tauri/src/analysis_execution.rs:332-340 | a run that was granted a process has it for ever |
| `RegistryTraces.NothingAfterClose` | src-tauri/src/analysis_execution.rs:70-140 | after admission was closed no run is ever created or started |
| `RegistryTraces.RetiredForGood` | src-tauri/src/analysis_execution.rs:361-364 | a worker that has retired from a started run is never active in it again |
| `RegistryTraces.EndedExactly` | src-tauri/src/analysis_execution.rs:244-249 | in every interleaving a reader has ended exactly if the event of its end has come |
| `RegistryTraces.FinishedTellsPanics` | src-tauri/src/analysis_execution.rs:244-258 | in every interleaving a finished run tells a failure exactly if the end of a reader it joined was told as a panic |
| `AnalysisExecution.Run.SweepReaders` | src-tauri/src/analysis_execution.rs:244-253 | the loop in place computes `Sweep`, whose laws are above |
| `AnalysisExecution.Run.Clean` | src-tauri/src/analysis_execution.rs:229-263 | one locked section in place is `CleanRun` |
| `AnalysisExecution.Registry.Reserve` | src-tauri/src/analysis_execution.rs:57-89 | is the step `Reserve`; returns the identity exactly if a run was created |
| `AnalysisExecution.Registry.Start` | src-tauri/src/analysis_execution.rs:99-128 | is the step `Start`; returns the run in the slot exactly if it could be started |
| `AnalysisExecution.Registry.CloseAdmission` | src-tauri/src/analysis_execution.rs:133-140 | is the step `Close` and returns the exact owner |
| `AnalysisExecution.Registry.Cancel` | src-tauri/src/analysis_execution.rs:143-156 | is the step `Cancel`; returns the marked run |
| `AnalysisExecution.Registry.BeginDelete` | src-tauri/src/analysis_execution.rs:160-176 | is the step that lets a delete callback run or refuses it |
| `AnalysisExecution.Registry.BeginClear` | src-tauri/src/analysis_execution.rs:181-193 | is the step that lets a clear callback run or refuses it |
| `AnalysisExecution.Registry.Release` | src-tauri/src/analysis_execution.rs:203-211 | clears the slot exactly if it holds this very object |
| `AnalysisExecution.Registry.Attach` | src-tauri/src/analysis_execution.rs:332-340 | is the step `Attach`; refuses a second process |
| `AnalysisExecution.Registry.AddReader` | src-tauri/src/analysis_execution.rs:341-348 | is the step `AddReader` |
| `AnalysisExecution.Registry.Section` | src-tauri/src/analysis_execution.rs:229-269 | is the step `Section` of one cleanup call |
| `AnalysisExecution.Registry.Contended` | src-tauri/src/analysis_execution.rs:218-227 | is the step of a call that meets the lock taken: it gives up exactly at the deadline |
| `AnalysisExecution.Registry.Cleanup` | src-tauri/src/analysis_execution.rs:213-270 | the retry loop among all other threads' steps ends by its deadline, is a run of the state machine, and on success leaves its run finished, clean and out of the slot, an unstopped process having been stopped in one of its sections; on failure its last look met the lock taken at the deadline, or left the run failed over a failed stop or past the deadline |
| `AnalysisExecution.Registry.Finish` | src-tauri/src/analysis_execution.rs:361-382 | unless incomplete, the run is finished and clean, and failure is reported exactly if a joined reader panicked |
| `OwnedProcess.ReapUntil` | src-tauri/src/owned_process.rs:194-206 | polling ends by the deadline and is true exactly if an exit is met before a failure and before the first poll past it |
| `OwnedProcess.Owned.Stop` | src-tauri/src/owned_process.rs:130-167 | the staged stop in place computes `Stopped` |
| `OwnedProcess.Owned.TryWait` | src-tauri/src/analysis_execution.rs:349-360 | a look takes the exit status at most once |
| `OwnedProcess.TeardownIsSafe` | src-tauri/src/owned_process.rs:130-184 | over any sequence of stops and looks, with no look at the child of a failed spawn: one successful signal at most and only while the leader is unreaped; child killed or reaped only while unreaped; cleaned means signalled and reaped completely |
| `OwnedProcess.StopsResume` | src-tauri/src/owned_process.rs:130-167 | a stop succeeds exactly if it leaves the tree cleaned, redoes no completed stage and is a no-op on a cleaned tree |
| `OwnedProcess.StopCleansIff` | src-tauri/src/owned_process.rs:130-167 | a stop cleans exactly if every stage not yet done succeeds in it |
| `OwnedProcess.RunningChildIsKilled` | src-tauri/src/owned_process.rs:143-147 | a stop whose look meets the child running kills it, the group having been signalled |
| `OwnedProcess.NoReapingWithoutKill` | src-tauri/src/owned_process.rs:130-167 | over any sequence of calls in which no look meets an exit the child is reaped, and the tree cleaned, only after signal and kill |
| `OwnedProcess.WholeTeardown` | src-tauri/src/owned_process.rs:130-167 | a stop in which everything succeeds on a running child, action by action |
| `OwnedProcess.LookingAtASoleLeaderIsUnsafe` | src-tauri/src/json_command.rs:566-573 | the reason for the precondition of `TeardownIsSafe`: a look at the child of a failed spawn could come before the signal |
| `SupervisorModel.InvStep` | src-tauri/src/json_command.rs:163-453 | every step of every thread keeps the pool's invariant |
| `SupervisorModel.AdmitExactly` | src-tauri/src/json_command.rs:341-377 | a command is admitted exactly if admission is open, the pool has room, an identity is left and the run starts in time; its effect |
| `SupervisorModel.CommandEnds` | src-tauri/src/json_command.rs:174-201 | how a finished lease ends: retained means kept, pending and failed; released means out of the pool |
| `SupervisorModel.PoolHoldsTheRetained` | src-tauri/src/json_command.rs:341-388 | in every interleaving at most eight owners, every retained one among them; an owner outside has a finished, clean run |
| `SupervisorModel.QuietPoolIsTheRetained` | src-tauri/src/json_command.rs:174-421 | with no call in flight the pool is exactly the retained owners, each waiting for a retry |
| `SupervisorModel.SuccessIsForGood` | src-tauri/src/json_command.rs:301-453 | a successful command has left the pool for ever; a successful clean-up of everything leaves it empty for ever |
| `SupervisorTraces.OneWorkerPerOwner` | src-tauri/src/json_command.rs:174-421 | in every interleaving at most one of the commands and retries works on an owner, and none on one that waits for a retry |
| `SupervisorTraces.PhaseSteps` | src-tauri/src/json_command.rs:402-419 | an owner's phase changes only from pending to retrying, for the retry that turns to it, and back to pending by the thread that gives it up |
| `SupervisorTraces.SuccessIsCleanedUp` | src-tauri/src/json_command.rs:174-201 | in every interleaving a command that succeeded has a cleanup call behind it that returned success, and its run is finished |
| `SupervisorTraces.SnapshotExactly` | src-tauri/src/json_command.rs:390-401 | the owners listed for a retry or a clean-up are those in the pool, each once, in the order of their identities |
| `SupervisorTraces.RetryTurn` | src-tauri/src/json_command.rs:402-419 | a retry ends when its list is done or time is up, passes by owners that are not pending and claims the others |
| `JsonOwner.LeaseRun` | src-tauri/src/json_command.rs:355-362 | a registry of its own with one started run, exactly if the start comes before the reservation's lease is over |
| `JsonOwner.Owner.CancelAndWait` | src-tauri/src/json_command.rs:412-414 | either this cleanup came back with a failure at its deadline, or the run is no longer retained |
| `JsonOwner.Owner.Finish` | src-tauri/src/json_command.rs:174-184 | the guard's finish: incomplete after a failed cleanup, otherwise released, with an error exactly if a joined reader panicked |
| `JsonCommand.Supervisor.Admit` | src-tauri/src/json_command.rs:341-377 | a new owner under a new identity, its run retained, exactly if admission is open, the pool has room, an identity is left and the start comes in time; otherwise no owner |
| `JsonCommand.Supervisor.Remove` | src-tauri/src/json_command.rs:379-388 | the pool holds this very object no longer and all others as before |
| `JsonCommand.Supervisor.Others` | src-tauri/src/json_command.rs:163-453 | whatever other threads do, the pool holds at most eight owners and every retained one, and an owner that has left or was released stays so |
| `JsonCommand.Supervisor.FinishLease` | src-tauri/src/json_command.rs:174-201 | the lease is kept, pending, only after a failed cleanup; otherwise the owner is released and out of the pool, and success means no reader panicked and no cancellation without another cause |
| `JsonCommand.Supervisor.RetryOne` | src-tauri/src/json_command.rs:402-419 | an owner that is not pending is left alone; a pending one is claimed and afterwards released and gone, or pending again after a failed cleanup |
| `JsonCommand.Supervisor.RetryPending` | src-tauri/src/json_command.rs:390-421 | every owner pending at the start, which no other thread claims or keeps, is served so unless time is up; owners not pending are left alone; the loop ends |
| `JsonCommand.Supervisor.CleanupAll` | src-tauri/src/json_command.rs:428-453 | closes admission and visits every owner: success means an empty pool, failure a failed cleanup of some owner; each owner listed is released and gone or its cleanup failed; the loop ends |
| `CommandOutput.ReadBounded` | src-tauri/src/json_command.rs:795-812 | the result depends on the stream's content only, not on how it is cut or interrupted: over the limit, else broken, else all of it |
| `CommandOutput.ContentExactly` | src-tauri/src/json_command.rs:795-812 | the content of a stream is what all reads before its end gave, one after the other, and it is broken exactly if that end is a failure |
| `CommandOutput.Received.Drain` | src-tauri/src/json_command.rs:508-527 | takes the messages up to the first failure and accounts for each one taken; once every sender is gone everything must have arrived |
| `CommandOutput.Received.Output` | src-tauri/src/json_command.rs:528-538 | there is an output exactly if the input, if any, and both readers have reported, and it is what each reader reported last |
| `CommandOutput.DrainInParts` | src-tauri/src/json_command.rs:508-527 | it does not matter how messages are spread over drains |
| `CommandOutput.DrainedExactly` | src-tauri/src/json_command.rs:508-527 | the first failed message is told as it failed and everything before it is taken |
| `CommandOutput.OutputIff` | src-tauri/src/json_command.rs:500-538 | the output is complete exactly if no worker failed and each has reported, in whatever order, and it is those results |
| `Calendar.NextIsOneLater` | src-tauri/src/research_memory.rs:285-314 | successive dates have successive numbers |
| `Calendar.NumbersOrderDates` | src-tauri/src/research_memory.rs:285-314 | numbers order dates as the calendar does and determine them |
| `Calendar.EveryNumberIsADate` | src-tauri/src/research_memory.rs:285-314 | every number from 0 to 3652058 is a date's |
| `Calendar.DayOrdersTexts` | src-tauri/src/research_memory.rs:271-315 | accepted texts compare as their numbers do, all within 0 to 3652058 |
| `Calendar.DayDetermines` | src-tauri/src/research_memory.rs:271-315 | different accepted texts have different numbers |
| `Calendar.TextReadsBack` | src-tauri/src/research_memory.rs:271-315 | every date has a text that is read back as its number |
| `Calendar.AcceptedExactly` | src-tauri/src/research_memory.rs:271-315 | which texts of a year, a month and a day are accepted, leap days included |
| `Calendar.KnownDays` | src-tauri/src/research_memory.rs:285-314 | the numbers of the first day of 1970 and of the day after the leap day of 2000 |
| `TimeStamps.StampFits` | src-tauri/src/research_memory.rs:316-343 | every stamp's microseconds are far within a signed 64-bit integer |
| `TimeStamps.StampsOrderTexts` | src-tauri/src/research_memory.rs:316-343 | stamps of 27 characters compare as texts exactly as their microseconds do |
| `TimeStamps.EveryNumberIsAStamp` | src-tauri/src/research_memory.rs:316-343 | every number of microseconds up to the end of the year 9999 has a stamp of 27 characters, so with the order there is one way to count |
| `TimeStamps.ZerosDoNotCount` | src-tauri/src/research_memory.rs:316-343 | a zero more behind a fraction does not count and no fraction is one of a zero, so stamps of full length decide all others |
| `TimeStamps.DatesAgree` | src-tauri/src/evidence.rs:144-173 | both date readers accept the same texts |
| `TimeStamps.StampsAgree` | src-tauri/src/evidence.rs:174-202 | the strict reader accepts exactly what the lenient one does without a plus sign in hour, minute or second |
| `TimeStamps.ReadersDiffer` | src-tauri/src/evidence.rs:194-196 | on every date there is a stamp only the lenient reader accepts |
| `IdentifierRelation.RelationIsSymmetric` | src-tauri/src/effective_request_identity.rs:83-232 | verdict, reason, rule and venue do not depend on which side is expected |
| `IdentifierRelation.ConsistentIsSameListing` | src-tauri/src/effective_request_identity.rs:83-130 | "consistent" means the same listing exactly if no proxy relates two notations of one code |
| `IdentifierRelation.SameListingIsEquivalence` | src-tauri/src/effective_request_identity.rs:46-64 | which is an equivalence |
| `IdentifierRelation.ConflictsAreReal` | src-tauri/src/effective_request_identity.rs:131-226 | a venue conflict is one between Shanghai and Shenzhen over the same code; no conflict with oneself, another notation or a proxy |
| `IdentifierRelation.BareCodeIsUndecided` | src-tauri/src/effective_request_identity.rs:137-154 | a bare number beside any notation of a listing with that code stays undecided |
| `IdentifierRelation.QualifiedExactly` | src-tauri/src/effective_request_identity.rs:46-64 | which listing a text names, for every text: six digits with a Shanghai or Shenzhen mark, or one to four with the Hong Kong mark, filled up with zeros |
| `IdentifierRelation.EqualOrDeclared` | src-tauri/src/effective_request_identity.rs:92-112 | equal texts are consistent; a declared alias is a proxy of its target, on either side |
| `IdentifierRelation.NotationsOfOneCode` | src-tauri/src/effective_request_identity.rs:115-136 | notations of one mainland code are consistent, the same code at the other venue is a conflict |
| `IdentifierRelation.HkNotationsOfOneCode` | src-tauri/src/effective_request_identity.rs:115-127 | a Hong Kong code with and without leading zeros is consistent |
| `IdentifierRelation.BareCodeExactly` | src-tauri/src/effective_request_identity.rs:137-154 | for which bare numbers a listing is the possible meaning |
| `IdentifierRelation.BeyondAsciiIsUnreviewed` | src-tauri/src/effective_request_identity.rs:156-163 | different texts of which one has a character beyond ASCII are not decided |
| `IdentifierRelation.UnreviewedForms` | src-tauri/src/effective_request_identity.rs:164-195 | plus signs, other Hong Kong texts and malformed mainland texts are not decided, and why |
| `IdentifierRelation.PairExactly` | src-tauri/src/effective_request_identity.rs:65-81 | with codes of capitals, which pair a text names: a known base and a known currency in one of four spellings |
| `IdentifierRelation.PairsAreNotDecided` | src-tauri/src/effective_request_identity.rs:196-215 | two spellings of one pair, or a pair and the discussion of its base, are not decided |
| `IdentifierRelation.UsualTextsConflict` | src-tauri/src/effective_request_identity.rs:216-232 | two different texts without marks, one of them no listing, number or pair, conflict exactly if both are in the usual notation |
| `IdentifierRelation.DifferentWordsConflict` | src-tauri/src/effective_request_identity.rs:216-232 | two different words of capitals that name no common pair are a conflict |
| `IdentifierRelation.ReplaceableIff` | src-tauri/src/effective_request_identity.rs:46-232 | either side may be replaced by another notation exactly if no venue code with two notations reads as a pair |
| `IdentifierRelation.DigitFreeCodesSuffice` | src-tauri/src/effective_request_identity.rs:65-81 | codes without digits guarantee that |
| `IdentifierRelation.DigitsInCodesBreakIt` | src-tauri/src/effective_request_identity.rs:65-81 | a policy without proxies for which it fails |
| `RequestTargets.DeriveTarget` | src-tauri/src/research_memory_targets.rs:27-91 | rewriting the local symbol step by step computes `Derive`, whose results are spelled out by the rows of `TargetRules` |
| `RequestTargets.NormalFormIff` | src-tauri/src/research_memory_targets.rs:27-91 | re-deriving a derived symbol gives the same symbol, for every request, exactly under three conditions on the tables |
| `RequestTargets.LettersSuffice` | src-tauri/src/research_memory_targets.rs:27-91 | a check of the tables alone that guarantees it |
| `RequestTargets.LongBaseBreaksIt` | src-tauri/src/research_memory_targets.rs:39-43 | a table of letters only for which it fails |
| `TargetRules.KeepsListing` | src-tauri/src/research_memory_targets.rs:52-67 | a request that names a listing and is no alias is turned into a symbol that names the same listing |
| `TargetRules.OneRequestPerShanghaiCode` | src-tauri/src/research_memory_targets.rs:55-64 | the three notations of a Shanghai code ask for the code with `.SS`, and how that is told |
| `TargetRules.OneRequestPerShenzhenCode` | src-tauri/src/research_memory_targets.rs:58-64 | both notations of a Shenzhen code ask for the code with `.SZ` |
| `TargetRules.OneRequestPerHongKongCode` | src-tauri/src/research_memory_targets.rs:65-67 | a Hong Kong code with or without leading zeros asks for its four digits with `.HK` |
| `TargetRules.AliasRequest` | src-tauri/src/research_memory_targets.rs:52-54 | an alias asks for its target and is told as a proxy |
| `TargetRules.CryptoRequest` | src-tauri/src/research_memory_targets.rs:68-78 | a known base with `USD` behind asks for the base with `-USD` |
| `TargetRules.ForexRequest` | src-tauri/src/research_memory_targets.rs:79-87 | two known currencies ask for both with `=X`, unless they are a crypto pair |
| `TargetRules.ExactRequest` | src-tauri/src/research_memory_targets.rs:51-90 | any other accepted symbol asks for itself |
| `TargetRules.RefusedExactly` | src-tauri/src/research_memory_targets.rs:35-49 | which texts of known characters are refused: empty, too long, a bare number, or claiming a venue without being one of its notations |
| `TargetRules.RefusedIsUnrelated` | src-tauri/src/research_memory_targets.rs:29-90 | without a symbol to ask for, and only then, the relation is told as unknown |
| `TargetRules.UnknownCharacter` | src-tauri/src/research_memory_targets.rs:30-39 | any other character, and a blank within, makes a request unreadable |
| `TargetRules.SameRequest` | src-tauri/src/research_memory_targets.rs:30-34 | requests that differ in the case of letters and in blanks around them are the same request |
| `RequestTargets.DeriveIgnoresBlanksAndCase` | src-tauri/src/research_memory_targets.rs:34-38 | blanks around a request and letter case do not matter |
| `ByteSearch.ContainsBytes` | scripts/check_desktop_acceptance_boundary.py:542-550 | for every content and cutting into blocks: true exactly if the non-empty needle occurs; for the empty needle exactly if there is content |
| `ByteSearch.TailSuffices` | scripts/check_desktop_acceptance_boundary.py:546-549 | the kept tail is enough to see every occurrence that ends in the next block |
| `JsonMerge.Merged` | scripts/check_desktop_acceptance_boundary.py:243-252 | whatever the order of names, the result has at every path the patch's value where that is no object, nothing below it and at a null, and the base's value where the patch names nothing on the path |
| `JsonMerge.Place.Merge` | src-tauri/build.rs:128-144 | the merge in place leaves the same values at every path |
| `JsonMerge.MergeFollowsPaths` | src-tauri/build.rs:128-144 | path by path, the merge of section 2 of RFC 7396 gives these values |
| `JsonMerge.OrderDoesNotMatter` | src-tauri/build.rs:128-144 | applying the pairs in any order, as section 2 of RFC 7396 writes it, gives `MergePatch` |
| `JsonMerge.MergeTwiceIsOnce` | src-tauri/build.rs:128-144 | applying a patch twice is applying it once |
| `JsonMerge.MergeWritesNoNull` | scripts/check_desktop_acceptance_boundary.py:247-251 | a merge adds no null member |
| `SurrogateRepair.NormalizeUtf8Text` | cli/runner_protocol.py:7-32 | the loop computes `Repaired` |
| `SurrogateRepair.RepairLeavesNoSurrogates` | cli/runner_protocol.py:7-32 | the result has no surrogates; repairing is idempotent and the identity exactly on text without surrogates |
| `SurrogateRepair.RepairUndoesPairs` | cli/runner_protocol.py:18-31 | of any text with some characters written as pairs the repair gives the text back, isolated surrogates replaced and nothing else |
| `SurrogateRepair.PairsAreInOrder` | cli/runner_protocol.py:18-31 | the characters that pairs are repaired to lie above U+FFFF in the order of high and then low surrogate |
| `SurrogateRepair.EveryCharacterHasAPair` | cli/runner_protocol.py:18-31 | every character above U+FFFF is the repair of a pair, so the order above leaves one numbering |
| `SurrogateRepair.AloneExactly` | cli/runner_protocol.py:18-31 | a character on its own is kept, a surrogate on its own becomes U+FFFD |
| `SurrogateRepair.EveryTextIsWritten` | cli/runner_protocol.py:18-31 | every input is such a writing, so the law above covers all inputs |
| `SurrogateRepair.RepairInvertsUtf16` | cli/runner_protocol.py:18-31 | writing any set of supplementary characters as pairs is undone |

## Left out

- SQL, transactions and the file system: tables are maps with the declared keys and uniqueness; a failed call may leave parts of a value behind, which the caller's transaction would roll back.
- Canonical JSON and SHA-256: values are typed, hashes are numbers given by an arbitrary function, and parsing what was written gives it back.
- Leaf checks of memory values (privacy, URLs, secret patterns, text rendering, target binding, evidence binding): arbitrary predicates of the environment.
- `MemoryPrune.Prune`: tasks, versions and reviews are the roots as they stand; the tables that hold them are not part of the model beyond their references.
- `numeric_review_storage::clear`: it deletes the three tables; the checks of a single numeric review and of a snapshot are arbitrary predicates.
- `AnalysisExecution.Registry.Cleanup`: the time spent inside a process stop or waiting for the slot's lock is not bounded by the deadline in the program either; only the loop's own turns are.
- Poisoned locks, spurious wake-ups and memory ordering of the atomics: each access is one step.
- Event guards, which only tests use, and the wording of errors.
- `JsonCommand.Supervisor.CleanupAll`: what other threads do to the pool and to other owners during one owner's cleanup call is played before or after the call; in that owner's registry and run it is interleaved turn by turn.
- `JsonCommand.Supervisor.RetryPending`: the failure cause kept beside an owner is not modelled; nothing reads it in the modelled code.
- Command input, monitoring and the timeout of the work itself: they only decide whether a command goes well, which is arbitrary in the pool's model.
- `OwnedProcess.Owned.Stop`: the Unix variant only; Windows job objects, the pipe that keeps the anchor alive and process creation are not modelled.
- `JsonMerge.Place.Merge`: the member of an object is moved into a place of its own and back, where the program borrows it in place; numbers are integers.
- `TimeStamps.StampsOrderTexts`: shorter stamps denote the same instants with fewer digits (`ZerosDoNotCount`) and are not ordered as texts.
- The hour offset, local dates of a contract, the assessment built around the relation, target bindings and shared observations: they apply the modelled functions to fields.
- Readiness and identity storage, task life cycle, recovery, settings, user interface, acceptance scripts: they repeat the patterns above or only pass data on.
