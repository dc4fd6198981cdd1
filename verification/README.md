# onepipeline: verified models of its hard cores

onepipeline drives a plan of work through agents, records everything each run does in an
append-only journal, and answers every question by folding that journal. These files
model the parts of it whose correctness is an argument rather than a reading, and prove
the argument.

- **The fold checkpoint** (`Journal`, `Merging`, `MergeSplit`, `MergeExact`, `Coverage`,
  `Digest`, `Folding`, `Checkpoint`, `CheckpointWindows`, `CheckpointRuns`, `CheckpointCuts`,
  `CheckpointEnded`, `CheckpointHistory`, `CheckpointExact`, `CheckpointLate`, `CheckpointReports`). A reader
  keeps the fold of a prefix of a journal, marks how far it goes, and folds only what
  arrived since, although the fold is taken in a merge order that is not the file's.
  `CheckpointHistory` runs appends, replaced journals, refreshes, re-openings, other
  readers, ended folds and lost documents in any order, names every stop the markers make,
  and proves what a read then holds; `CheckpointExact` says exactly when that is the
  whole-store fold, of any store.
- **Exact time attribution** (`Slices`, `ChangeRecords`, `ChangeStates`, `ChangeFigures`,
  `ChangeCycle`, `Lineages`). An interval is divided among eight segments by a sweep over cuts; the sweep is proved to
  give each segment the milliseconds that are its own, by a definition with no sweep in it.
- **The publication boundary** (`Boundary`, `BoundaryPlan`, `BoundaryCheck`,
  `BoundaryFlow`, `Supersession`, `Exports`). Which nodes are private, which plans are
  accepted, and that private work leaves an accepted plan over an export edge or not at all.
- **Append continuity** (`AppendStamp`, `RunViews`). Receipts left by locked writers, among
  edits, truncations and crashes, what a reader may conclude from two of them, and the view
  that does: refreshed by what was appended alone, it shows what reading it all would.
- **Publish re-runs** (`Publishing`, `PublishRuns`, `PublishHost`, `ReleaseOutcome`). What
  the Release, PyPI and npm hold after any number of attempts, of jobs that run at once,
  each with its own channels and stopped at any write.
- **Stream readers** (`Relay`, `LoggedLines`, `Utf8`). When a relayed stream ends, and that a
  polled log hands each envelope out once.
- **Label composition** (`LabelWire`, `LabelRender`, `Labels`). That a launch under a
  launch is stamped as it would have been alone.

`Sorting`, `Splitting`, `ByteLines` and `Wrappers` are shared. What the source updates in place is a class
(`Projected`, `Reading`, `Resolver`, `RunExports`, `JournalFile`, `Host` of
`PublishHost`, `RelayedLines`, `Logged`, `RunView`), each method proved against a function of the
state before it; the theorems are about those functions and the runs made of them.

`dafny verify dfyconfig.toml` checks the whole project.

## Where the code and its documentation part

Each of these is a promise the code keeps on some inputs and not on others. Each has a
concrete input it fails on, and the condition under which it holds, both ways.

- `src/appendstamp.rs:3-8` says an editor breaks continuity. Inside a writer's own lock it
  need not: `AppendStamp.EditInsideTheLockIsUnseen` is a run where the journal's first byte
  is swapped between a writer's `before` and its write, and the receipt continues.
  `AppendStamp.EditInsideTheLock` says which such edits a receipt hides, exactly; over runs
  whose edits inside a lock keep what the writer began from, wherever they fall,
  continuity means a prefix (`AppendStamp.ContinuedIsAPrefix`).
- `src/agentgraph.rs:1107-1110` calls a log whose tail is not whole UTF-8 "nothing yet".
  That is so exactly where the tail is text, or text and the start of one character
  (`LoggedLines.CompletesExactly`): then something can be appended that gets the reader on
  (`LoggedLines.AnythingElseGetsOn`). Otherwise nothing can, and no later poll answers
  anything (`LoggedLines.BadBytesStopTheReader`); `LoggedLines.WhichBytesStopIt` names some
  bytes on each side.
- The label grammar of `docs/contract.md:452` takes a value that ends in space, which the
  wire format's own reader trims. A launch's labels read back as written exactly where none
  of its own values ends in space (`Labels.ComposedRoundTripsExactly`); a node id can end
  in one, since `src/graph.rs:780` refuses only an id that is all space, and
  `Labels.SpacedNodeIsTrimmed` is such a launch. A nested launch is stamped as alone
  exactly unless an outer value is space alone (`Labels.NestedStampingIsStable`). Node ids,
  step ids, scope words and attempts never are, so that is a blank project
  (`Labels.BlankProjectStopsNesting`), which no launch off a store names: it takes a launch
  record whose project was edited to a space, which `src/executor.rs:368` passes on, or a
  caller of the public `compose_labels`.
- `release/release.py:687-697` explains the Release's pair by the order one attempt writes
  in. That leaves out `PYPI_PUBLISH` or `NPM_PUBLISH` switched off before a re-run:
  `PublishRuns.ChangedChannelsLoseThePair` is a release whose pair is then neither other
  registry's. An attempt may be stopped anywhere exactly where `Publishing.Harmless` holds
  of what is held before it (`PublishRuns.AttemptIsSafeExactlyWhereHarmless`): nothing is
  published of the target, or the archive is this build's already, or this attempt sees a
  registry that fixes it. Channels that never change always are
  (`PublishRuns.ConstantChannelsAreHarmless`).
- `src/checkpoint.rs:33-38` has a prefix covered only while later records sort after it.
  The code covers it either way and folds a late record behind a barrier:
  `CheckpointLate.LateRecordIsFoldedLate` is a run of two refreshes whose second read is
  not the whole-store fold. `CheckpointHistory.EveryReadIsExact` is what holds of every
  read, with every barrier named; `CheckpointExact.ReadIsWholeExactly` says exactly when
  the order folded is the whole store's, whatever its stamps (`MergeExact.StandsApart` at
  every stop: no stream numbered back across it, and no stream that has run out before it
  going on past it with a record placed ahead of what the merge still has before it);
  `CheckpointHistory.CachedFoldIsWholeStoreFold` and
  `CheckpointHistory.AnyRebuildIsTheWholeStoreFold` are two kinds of journal it always is.
- `src/checkpoint.rs:633-636` rebuilds a journal shorter than the marker, and reads on in any
  other. One cut back and regrown past the marker is not noticed:
  `CheckpointLate.RegrownIsUnnoticed`. A read is of the journal's own lines exactly where
  the journal is shorter than the marker or still begins with what is covered
  (`CheckpointHistory.EveryReadIsExact`), as one that only grows always does
  (`CheckpointHistory.GrowingReadsStand`).
- `src/checkpoint.rs:323-336` has the marker answer whether a record can land inside what
  is covered. It never misses one that does, and may refuse one that does not:
  `CheckpointExact.MarkerMayRefuseForNothing`. It is right of a record exactly unless it
  refuses one that `CheckpointExact.LandsLast` says the merge puts last
  (`CheckpointExact.MarkerDecidesTheMerge`): one no covered record of its stream is numbered
  past, placed at or after all that the merge takes once its stream has run out. Of a store
  whose streams' stamps follow their `seq` it is always right
  (`CheckpointExact.MarkerIsExactInTime`).

## Model

| member | source | states |
|---|---|---|
| Sorting.StableSorts | src/journal.rs:854-861 | A stable sort by a key keeps the elements, orders them by the key, and keeps the arrival order of a tie |
| Merging.MergeOrder | src/journal.rs:832-880 | The k-way merge over per-stream queues returns the merge of its envelopes: repeatedly the least-placed head |
| MergeSplit.MergeKeepsEachStream | src/journal.rs:846-861 | Each stream leaves the merge as its own queue, in its own `seq`, ties as they arrived; nothing is lost or added |
| MergeSplit.MergeTakesLeast | src/journal.rs:864-879 | Whatever the merge takes is placed at or before what every stream had left to give |
| MergeSplit.MergeIsTheOnlyOrder | src/journal.rs:840-846 | Those two facts leave one order, so they define the merge |
| MergeSplit.MergeSplits | src/checkpoint.rs:40-48 | If every later record is in front of no earlier one, the merge of both is the two merges one after the other |
| Digest.DigestStreams | src/checkpoint.rs:261-279 | Digesting two byte strings in turn is digesting their concatenation |
| Digest.MixesThenMultiplies | src/checkpoint.rs:274-278 | A byte is mixed into the digest bit by bit, and the whole then multiplied by the prime |
| Digest.DigestIsPermutation | src/checkpoint.rs:246-279 | Every byte string permutes the 128-bit digests: each digest is reached from exactly one start |
| Digest.OneByteApart | src/checkpoint.rs:261-279 | Two inputs that differ in one byte at one place never share a digest |
| Digest.HexRoundTrips | src/checkpoint.rs:280-303 | Reading a digest's 32 hex digits gives the digest back, and nothing that is not one digest's spelling is read |
| Coverage.CoveringIsExact | src/checkpoint.rs:391-403 | A marker grown line by line holds the exact byte and line counts, the greatest placed record, and each stream's greatest `seq` |
| MergeExact.SplitsExactly | src/checkpoint.rs:40-48 | Of any store, the merge of two parts is their merges joined exactly where no stream's numbers go back between them and no stream spent in the first goes on in the second ahead of what the first has left |
| MergeExact.AnySplitIsTheMerges | src/checkpoint.rs:40-48 | However a merge is cut with just the first records before the cut, its parts are those records' merge and the rest's |
| MergeExact.ApartInTime | src/checkpoint.rs:40-48 | Where each stream's stamps follow its `seq`, that condition is that every later record is in front of no earlier one |
| Coverage.MarkerComparesWithAll | src/checkpoint.rs:323-336 | The marker's one comparison is the comparison with every covered record, which is sufficient for merging behind them |
| CheckpointExact.LandsLastExactly | src/checkpoint.rs:323-336 | Of any store, the merge puts one more record last exactly where its stream numbers none before it higher and nothing the merge takes once that stream is spent is placed past it |
| CheckpointExact.MarkerDecidesTheMerge | src/checkpoint.rs:323-336 | Of any store, the marker lets in only what the merge puts last, and is right of a record exactly unless it refuses one the merge puts last |
| CheckpointExact.MarkerIsExactInTime | src/checkpoint.rs:323-336 | Where each stream's stamps follow its `seq`, the marker is right of every record |
| CheckpointExact.MarkerMayRefuseForNothing | src/checkpoint.rs:323-336 | A stream whose stamps go back: the comparison refuses an event the merge puts last all the same |
| Folding.FoldInMergeOrder | src/checkpoint.rs:832-859 | Folding a batch gives the state and tally of its records in merge order, losses numbered from the line it starts at |
| Folding.StateJoins | src/checkpoint.rs:40-48 | Folding two orders one after the other is folding them joined |
| Folding.TallyResumes | src/checkpoint.rs:432-494 | A tally resumed over a later batch is the tally of both batches: line numbers do not depend on the batching |
| Folding.TallyCounts | src/checkpoint.rs:432-494 | A tally holds the number of events, the last kind, exactly the judged nodes, the losses in file order and the unreadable lines |
| Checkpoint.Projected.Cover | src/checkpoint.rs:754-799 | Extending the covered half leaves exactly `Covers` of what it was: its fold, tally, marker and seal |
| Checkpoint.Projected.Open | src/checkpoint.rs:754-799 | The held-back lines are folded onto a copy of the covered half, and what was read is accounted for |
| Checkpoint.Projected.TakeWith | src/checkpoint.rs:754-824 | One batch is covered up to its extent and opened past it, and the document is written only where it may be |
| Checkpoint.Projected.RebuildIn | src/checkpoint.rs:661-686 | The windowed rebuild ends for every journal and window, leaves what its windows fold to, and counts what it covered |
| CheckpointWindows.FittingIsExact | src/checkpoint.rs:666-686 | A window takes every line that fits it: the first n are among them exactly where their sizes together are within it |
| CheckpointWindows.WindowsAreFull | src/checkpoint.rs:661-686 | From each cut of a rebuild to the next the lines fit the window in force and one more would not; the window is the first, doubled while no line fitted |
| CheckpointWindows.OpenInstantIsExact | src/checkpoint.rs:1015-1050 | What is held back is exactly the trailing records of the last placed instant: all of them, and nothing before the last record of another |
| Checkpoint.Projected.Refresh | src/checkpoint.rs:630-651 | A refresh folds what the journal grew by, or refolds a journal cut back; the document is then exactly what it holds where it covered further, may persist and can write, and otherwise as it was |
| Checkpoint.Projected.SeqClaimed | src/checkpoint.rs:710-714 | The greater of what the covered and the open half claim of a stream |
| Checkpoint.Projected.StreamsReached | src/checkpoint.rs:870-881 | Every stream either half reaches, at the greater `seq` |
| Checkpoint.OpenWith | src/checkpoint.rs:583-620 | Opening resumes from a usable document, rebuilds from nothing otherwise, and refreshes; the document is then exactly what the reader holds where that refresh covered further, may persist and can write, and otherwise as it was |
| CheckpointRuns.CoversHolds | src/checkpoint.rs:754-799 | Covering further lines keeps the covered half exact: fold, tally, marker and seal |
| CheckpointRuns.TookIsCurrent | src/checkpoint.rs:754-799 | After a batch, state, tally, counts and claims are those of every line read, one barrier further on |
| CheckpointRuns.HoldsAsItGrows | src/checkpoint.rs:22-38 | A journal that only grows leaves a marker true |
| CheckpointRuns.RebuiltHolds | src/checkpoint.rs:666-686 | A rebuild covers whole windows, each in its own merge order: the barriers it adds are exactly where its windows end |
| CheckpointRuns.RebuildWidens | src/checkpoint.rs:666-686 | A window that finishes no line is widened, short of the largest length, and the rebuild goes on as with the wider one |
| CheckpointRuns.RebuildAdvances | src/checkpoint.rs:666-686 | A window that finishes a line leaves less of the journal to read |
| CheckpointRuns.CutBackIsRefolded | src/checkpoint.rs:630-651 | Refreshing a journal shorter than the marker is opening it from nothing: its barriers are the windows' ends and the stop it then makes |
| CheckpointRuns.OpenedIsCurrent | src/checkpoint.rs:588-651 | Opening off a document, or off nothing, holds what a reader of every line would, its barriers the document's or the windows' and the stop it then makes |
| CheckpointRuns.WrittenIsUsable | src/checkpoint.rs:350-390 | What a writer leaves seals, so it is resumed from while the journal holds what it covers |
| CheckpointCuts.CutsLeaveNoTrace | src/checkpoint.rs:40-48 | Where each cut has only later records in front, folding piece by piece is folding the whole store |
| CheckpointCuts.HeldBackIsBetween | src/checkpoint.rs:1022-1050 | Holding back the last instant's trailing records puts every cut of an orderly journal between two instants |
| CheckpointHistory.StepIsSound | src/checkpoint.rs:583-651 | Every append, replaced journal, refresh, re-opening, other reader, ended fold and lost or refused document keeps reader and document exact, whatever becomes of the journal, their barriers exactly the stops the step makes |
| CheckpointHistory.EveryReadIsExact | src/checkpoint.rs:583-651 | Over any run, a read holds exactly the fold, tally, marker and claims of the lines it took, each piece between the marker's own stops in its merge order; and those are the journal's exactly where it is shorter than the marker or begins with what is covered |
| CheckpointHistory.GrowingReadsStand | src/checkpoint.rs:22-38 | Of a journal that only grows, every read takes exactly its lines |
| CheckpointHistory.AnyRebuildIsTheWholeStoreFold | src/checkpoint.rs:22-48 | Where records are in merge order, every read of any run that took the journal's own lines, rebuilt in however many windows, is the whole-store fold |
| CheckpointHistory.CachedFoldIsWholeStoreFold | src/checkpoint.rs:22-48 | Over any run of an orderly journal that only grows, rebuilds no more than a window and is only stamped later past an ended fold, every read is the whole-store fold in merge order |
| CheckpointExact.CutsLeaveNoTraceExactly | src/checkpoint.rs:40-48 | Of any store, folding piece by piece is the whole-store order exactly where the merge stands apart at every cut |
| CheckpointExact.CutsInTime | src/checkpoint.rs:40-48 | Where each stream's stamps follow its `seq`, it stands apart at a cut exactly where no later record is in front of an earlier |
| CheckpointExact.ReadIsWholeExactly | src/checkpoint.rs:583-651 | Of every read of every run, whatever its stamps: the order it folded is the merge of all it took exactly where the merge stands apart at every stop of its marker |
| CheckpointLate.RegrownIsUnnoticed | src/checkpoint.rs:630-651 | A journal cut back to nothing and regrown past the marker between two refreshes: the second read is not the whole-store fold |
| CheckpointLate.LateRecordIsFoldedLate | src/checkpoint.rs:22-48 | Two records, a refresh, a third stamped earlier on another stream, a refresh: the read is not the whole-store fold |
| CheckpointReports.ClaimsAreExact | src/checkpoint.rs:703-714 | What a reader claims of a stream is the greatest `seq` in the file, and it claims no stream not there |
| CheckpointReports.LossesResume | src/checkpoint.rs:895-917 | The losses a reader met and those past what it read are one read's losses, in order and numbered the same |
| CheckpointReports.Integrity | src/checkpoint.rs:895-917 | The integrity report of a cached fold is the truncated and the unparseable losses of the whole file |
| CheckpointReports.LossesAre | src/journal.rs:438-468 | The losses of a kind are exactly those of the lines that lose something of it, each at its line, its byte and its size |
| CheckpointReports.ClaimsAreSealed | src/checkpoint.rs:350-361 | Every claim a marker makes is in what is sealed: over the same streams and spelled lengths, the bytes are the same only where the claims are |
| CheckpointReports.OneByteEditIsRefused | src/checkpoint.rs:350-390 | A sealed document whose claims, fold or tally were changed in one byte is not resumed from |
| CheckpointExact.CoveringTheOpenInstantReorders | src/checkpoint.rs:1022-1050 | Wherever the open instant of an orderly prefix holds a record of a stream not the least, some orderly next record makes covering it fold another order, and holding it back does not |
| CheckpointExact.HeldBackLeavesNoTrace | src/checkpoint.rs:1022-1050 | Whatever orderly follows, a prefix cut where the instant is held back folds in the whole-store order |
| CheckpointEnded.FoldEnded | src/checkpoint.rs:950-957 | The fold of an ended run covers what opening held back; where the run's files can be written the document left is that fold's if anything was held back, the opening's if only that covered further, and else as it was |
| CheckpointEnded.EndedCoversEverything | src/checkpoint.rs:939-957 | An ended fold's marker stops at the end of the journal, and its covered half is its whole state |
| CheckpointEnded.AnsweredWithoutTheJournal | src/checkpoint.rs:959-984 | A document as long as the journal answers the fold of every line without reading one |
| CheckpointEnded.EndedDocumentAnswers | src/checkpoint.rs:939-984 | A document an ended fold of a whole-lined journal wrote answers that fold's own state |
| Slices.LatestIsLatest | src/changes.rs:938-978 | The state at a moment is that of the latest transition stamped by then, the last recorded among equals |
| Slices.Slices | src/changes.rs:946-991 | Each segment gets exactly the ungated milliseconds spent in its own state: `gate` those a gate covers, `other` those before any transition, awaiting a merge or finished, and `awaiting` those awaiting one |
| Slices.SegmentsSumExactly | src/changes.rs:938-945 | The eight segments sum to the interval |
| Slices.GateTimeIsTheUnion | src/changes.rs:938-945 | Gate time is the size of the gates' union within the interval |
| Slices.AwaitingIsOther | src/changes.rs:971-985 | What awaited its merge is within `other` |
| ChangeRecords.Reading.Take | src/changes.rs:637-822 | Taking one record keeps every figure of the change what its records so far say |
| ChangeRecords.Reading.Close | src/changes.rs:823-823 | Windows closed and windows still open together are the dispatches that went on to publish |
| ChangeRecords.PublicationOpens | src/changes.rs:736-741 | A closeout's publishing record counts an attempt exactly where its node had none open |
| ChangeRecords.DispatchOpensTheInterval | src/changes.rs:938-945 | From the first dispatch on a change is always doing something: no time is before every transition |
| ChangeRecords.NothingPublishedNoPublication | src/changes.rs:609-718 | A node naming no repository, whose records no session wrote, never enters publication |
| ChangeStates.MembersAreOpen | src/changes.rs:697-719 | The members a change waits on are exactly those started since its dispatch and not settled |
| ChangeStates.ATurnIsTheAgents | src/changes.rs:697-741 | While some member a dispatch started is unsettled the time is its agents', whatever its session records |
| ChangeStates.CloseoutBegins | src/changes.rs:709-719 | The last open member's settlement moves a lifecycle change to its publication, and no other |
| ChangeStates.KeptDraftWaitedOnReview | src/changes.rs:806-815 | A draft kept for review turns the wait since its checks settled into a wait on that review |
| ChangeStates.HeldForIsTheLastDraft | src/changes.rs:742-757 | What a draft waits on is what the last draft for a person or a release named, whatever came between |
| ChangeStates.RecordMoves | src/changes.rs:660-822 | Record by record, where a change is moved to, told of its records alone, and the one stamped transition that adds |
| ChangeFigures.AttemptsAreOpenings | src/changes.rs:736-823 | The publication attempts are the closeout records of nine kinds that no earlier one of their node precedes since its last dispatch |
| ChangeFigures.FirstLandingIsFirst | src/changes.rs:765-787 | The landing read is the first recorded, and there is none only where none is |
| ChangeCycle.ReadsWhatHoldsTogether | src/changes.rs:133-211 | The reader accepts a change exactly where its landing, interval, gate sum and segments hold together, and reads it as it is; a landing before its dispatch is refused as that |
| ChangeCycle.CycleOf | src/changes.rs:602-901 | A change exists exactly where a stamped dispatch does; its own reader accepts it; its interval ends at its landing, or at the later of its start and the run's last record; and its landing, counts and eight segments are what its records say |
| ChangeCycle.Divide | src/changes.rs:843-855 | Each segment is the ungated time of its own state; moving an undecidable publication to `other` keeps the sum and changes no other segment |
| ChangeCycle.GateTimeIsWithinTheRuns | src/changes.rs:101-106 | The gate segment is never more than the gate runs' summed seconds |
| ChangeCycle.NoPublicationIsSpent | src/changes.rs:845-855 | A change that is no lifecycle node's spends nothing on publication, so moving none of it loses nothing |
| Lineages.LineagesOf | src/changes.rs:573-600 | One lineage from each node nothing was replaced with: members distinct, consecutive ones supersession links, walked on any map |
| Lineages.EveryNodeIsInOneLineage | src/changes.rs:571-600 | Where no two nodes share a replacement, no node is in two lineages, and a node is in one exactly where it is on no cycle |
| Boundary.PrivateUnfolds | src/boundary.rs:282-310 | A node is as private as it says, or, saying nothing, exactly as private as something it inherits from |
| Boundary.NothingIsDowngraded | src/boundary.rs:245-264 | Making own clearances stricter leaves every private node private |
| Boundary.Resolver.Inherit | src/boundary.rs:282-310 | The memoised walk ends on any plan, calls nothing private that reaches nothing private, and on an acyclic plan is exact |
| BoundaryPlan.Said | src/boundary.rs:248-262 | One node's own clearance, and exactly the private identities it names |
| BoundaryPlan.Resolve | src/boundary.rs:238-317 | Every node has a clearance; the destinations are the nodes saying public; the scope is every private identity named |
| BoundaryPlan.ResolutionIs | src/boundary.rs:238-317 | Public work lands exactly from public tasks that name a repository and no private one, and the scope is the private identities any task names, in terms of the fields tasks are written with |
| BoundaryPlan.ClearanceIsInherited | src/boundary.rs:265-317 | On a plan the graph accepts a clearance is the declarative one: the memo leaves no trace |
| BoundaryPlan.TaskOrderIsNoPart | src/boundary.rs:245-317 | Two plans that differ only in the order of their tasks resolve alike: clearances, destinations and scope |
| BoundaryPlan.StricterDowngradesNothing | src/boundary.rs:238-317 | Marking any tasks and repositories private turns no private node public |
| BoundaryCheck.CheckEdges | src/boundary.rs:1835-1896 | Accepts exactly the plans whose edges end at nodes, lead into one consumer once, are dependencies it states and name two directories that stay within their repositories; and refuses with the first rule broken, in the order they are asked, of the first edge to break it |
| BoundaryCheck.NormalizedStaysWithin | src/boundary.rs:1769-1776 | A directory is normalized exactly where it is its segments with a slash between, none of them empty, `.`, `..` or `.git`, and no backslash |
| BoundaryCheck.Check | src/boundary.rs:1911-2020 | Accepts exactly the plans every export edge of which runs from a private node with a repository that preserves to a public destination with no base, branch or resume of its own, and none of whose destinations depends on private work otherwise; and refuses with the first rule broken, in the order they are asked, where it is first broken |
| BoundaryFlow.PrivateFeedsPrivate | src/boundary.rs:1961-1985 | Under the checker's rule for tasks, an ordinary dependency on private work leaves its node private |
| BoundaryFlow.TaskRuleIsContainment | src/boundary.rs:1961-1985 | That rule holds exactly where no path from private work, over no export edge, ends at a destination |
| BoundaryFlow.WithoutExportsAcceptedExactly | src/boundary.rs:1911-1985 | A plan that exports nothing is accepted exactly where private work reaches no public output |
| BoundaryFlow.PrivateWorkStaysPrivate | src/boundary.rs:1911-1985 | Noninterference: whatever private work reaches without an export edge is private and no destination |
| BoundaryFlow.PrivateWorkLeavesByExport | src/boundary.rs:1911-1985 | Any path from private work to public output steps over an export edge, from a private task with a repository that preserves, to a public destination |
| BoundaryFlow.OneClearanceIsAccepted | src/boundary.rs:1907-1910 | A plan that does not mix clearances and exports nothing is accepted |
| Supersession.LatestOf | src/boundary.rs:1800-1810 | The walk to a node's latest replacement ends on any map, where following replacements ends |
| Supersession.LatestIs | src/boundary.rs:1800-1810 | Following replacements ends at a node nothing replaced, or on a cycle |
| Supersession.LatestIsIdempotent | src/boundary.rs:1800-1810 | Following replacements twice is following them once, on any map, cycles included |
| Supersession.LineageRoot | src/boundary.rs:1778-1789 | The walk back ends at a launched node or on a cycle, and leads to where it began, on any map |
| Supersession.LineageRootIsLaunched | src/boundary.rs:1778-1810 | On an injective map the root of a launched node's latest replacement is that node |
| Exports.EdgesNow | src/boundary.rs:1794-1817 | Every edge keeps its place and its directories, its ends followed to their latest |
| Exports.FollowedIsIdempotent | src/boundary.rs:1794-1817 | Following edges through supersessions is idempotent on any map |
| Exports.LineagesStayApart | src/boundary.rs:1792-1817 | Two launched nodes never come to share a latest replacement |
| Exports.EdgesKeepTheirIdentity | src/boundary.rs:1792-1817 | A launched plan's edges end at live nodes, and edges with different consumers keep them different |
| Exports.RunExports.EnsureExport | src/boundary.rs:966-1061 | A recorded export answers a call only where producer, consumer, both repositories, both directories and the branch are the call's; any other call that imports, exports and writes answers the host's branch and adds one record, and each refusal is met exactly where its own step fails |
| Exports.RunExports.PinnedToItsExport | src/boundary.rs:947-958 | A branch is pinned exactly where the record holds it for that edge |
| Exports.RecordedOnce | src/boundary.rs:966-1061 | Over any calls, each export is recorded at most once and nothing recorded is taken back |
| Exports.SameBranchEverAfter | src/boundary.rs:960-1000 | Once an export is answered, every later call of that producer, consumer, branch, repositories and directories answers the same branch, whatever the host would say |
| Exports.PinnedWasExported | src/boundary.rs:945-958 | A pinned branch is one an earlier call of that producer, consumer, repositories and target directory answered |
| AppendStamp.JournalFile.WriteRecord | src/ledger.rs:1951-1987 | An append leaves the record whole, or the file as it was, or what a failed undo left, and is a run of the protocol's steps |
| AppendStamp.StepVouches | src/appendstamp.rs:81-116 | Every step keeps that whatever vouches for an epoch vouches for the content it was read with |
| AppendStamp.ContinuedIsAPrefix | src/appendstamp.rs:68-77 | Over any run whose edits inside a writer's lock keep what the writer began from, a receipt that continues an earlier one is beside content the earlier content begins |
| AppendStamp.AppendsContinue | src/appendstamp.rs:81-116 | Nothing but appends that go well is always vouched for |
| AppendStamp.EditInsideTheLock | src/appendstamp.rs:81-116 | An append with an edit inside its lock: the receipt continues exactly where the file is as long, and of an edit that shortens nothing the prefix holds exactly where the edit keeps what the writer began from |
| AppendStamp.EditInsideTheLockIsUnseen | src/appendstamp.rs:81-116 | An edit of the first byte between a writer's `before` and its write is not seen: continuity holds and the prefix does not |
| RunViews.RunView.Open | src/views.rs:1873-1934 | A view opened holds the merged store, what the checkpoint answers, the receipt read beside it and the marks of its records |
| RunViews.RunView.Refresh | src/views.rs:1984-2076 | One refresh leaves the view as it was, or read again whole, or with what was appended merged, folded and accounted for |
| RunViews.RefreshGoesWhere | src/views.rs:1984-2076 | A refresh leaves a view as it was exactly where nothing changed, and appends exactly where the receipts go on and everything appended is whole, merges behind all that is held and reaches no other run; else it reads again |
| RunViews.RefreshedShows | src/views.rs:1984-2076 | Whatever a refresh does, the view then shows the journal as it is: unchanged only where that is, appended to only where its content is a prefix and its events stay one |
| RunViews.EveryRefreshIsAFreshOpen | src/views.rs:1805-1816 | Over any run of appends, failed writes, crashes, edits, truncations and lost receipts, every refresh leaves the events of a fresh opening, and its state wherever the checkpoint answers the whole-store fold |
| Publishing.OfAttempt | release/release.py:698-731 | What an attempt stopped anywhere wrote of one target is the start of what that target was to get, and all of it where nothing stopped it |
| Publishing.PairApplied | release/release.py:698-713 | A whole pair stays exactly where it is this build's, or a registry the attempt writes to holds another build; any other, whatever part of it was there, is made this build's |
| Publishing.HeldPairIsKept | release/release.py:687-709 | Of a target PyPI or npm holds, an attempt is harmless exactly where it writes nothing of the pair, and one that sees it fixed finds it whole |
| Publishing.TargetIsKept | release/release.py:698-731 | A harmless attempt stopped at any write keeps a target's pair following PyPI or npm |
| Publishing.SafeExactlyWhereHarmless | release/release.py:687-731 | Every start of an attempt's writes keeps the pair following exactly where the attempt is harmless |
| PublishHost.Host.Upload | release/release.py:496-508 | An asset already there is kept unless replaced, and replacing deletes it first |
| PublishHost.Host.Publish | release/release.py:663-731 | An attempt writes every pair, then every wheel, then every package, and stops only where its host stops it |
| PublishHost.AnAttemptIsAStep | release/release.py:663-731 | An attempt, stopped or not, is what a run says of one job |
| PublishRuns.AttemptIsARound | release/release.py:663-731 | And one job's attempt is a round of one |
| PublishRuns.WantedWheneverRead | release/release.py:641-660 | A job that reads its targets while others write theirs wants what it would have wanted before |
| PublishRuns.OfRound | release/release.py:698-731 | However jobs' writes fall among one another, a target is written the start of what its own job decided for it |
| PublishRuns.PairsFollowTheRegistries | release/release.py:687-697 | After any rounds of jobs at once, each with its own channels and harmless where it starts, a target PyPI or npm holds has its whole pair on the Release from one build one of them serves |
| PublishRuns.ConstantChannelsAreHarmless | release/release.py:663-697 | Where channels never change, every attempt is harmless, and so every pair follows |
| PublishRuns.AttemptIsSafeExactlyWhereHarmless | release/release.py:687-731 | However an attempt is stopped it leaves the pair following, exactly where it is harmless before it starts |
| PublishRuns.PublishedIsNeverReplaced | release/release.py:677-686 | What PyPI or npm once holds of a target never changes, whatever the channels of the attempts after |
| PublishRuns.NoPartPairIsEverFound | release/release.py:706-721 | No attempt, past harmless ones, finds an earlier build fixed and its pair in part |
| PublishRuns.CompletedServesOneBuild | release/release.py:687-730 | A completed attempt fills every registry, and they serve one build exactly where what PyPI and npm held allowed it |
| PublishRuns.ChangedChannelsLoseThePair | release/release.py:663-668 | PyPI switched off between two attempts: the second leaves a Release pair that is neither other registry's |
| ReleaseOutcome.AnotherJobMakesItNoBetter | release/release.py:937-955 | One more job never makes a registry's verification look better, nor takes back that it shipped |
| ReleaseOutcome.OutcomeIsTheWorst | release/release.py:937-955 | A registry is reported as its worst published job where none shipped, and verified as its worst job only where all did |
| Relay.RelayedLines.Next | src/agentgraph.rs:798-816 | One call takes waits up to the next line or the end, and leaves what the last wait found |
| Relay.Relayed | src/agentgraph.rs:785-817 | A stream yields every line before its end in order, and ends on the pipe or on a whole silence after one that found the graph over |
| Relay.EndsWithinTwoSilences | src/agentgraph.rs:762-773 | No silence of a running graph ends its stream; of one that is over, two in a row do |
| Relay.LateBurstIsWhole | src/agentgraph.rs:762-773 | A line that arrives before two silences run together with the graph over is yielded |
| LoggedLines.Logged.LoggedEnvelopes | src/agentgraph.rs:1501-1519 | A poll advances past exactly the terminated lines it read and hands out exactly their envelopes |
| ByteLines.LinesJoin | src/agentgraph.rs:1507-1512 | The lines of whole lines and what follows them are the lines of the two together |
| LoggedLines.EachEnvelopeOnce | src/agentgraph.rs:1487-1519 | However the file grows, the polls' answers together are the parse of the lines read, each once, in order, the reader on a line's end |
| LoggedLines.AtRestNothingIsLeft | src/agentgraph.rs:1487-1519 | On a file that is whole UTF-8 a poll leaves nothing terminated unread, whatever was read before |
| LoggedLines.CompletesExactly | src/agentgraph.rs:1104-1119 | Something can be appended that makes bytes whole UTF-8 exactly where they are whole characters and at most the proper start of one more |
| Utf8.ReadableIsText | src/agentgraph.rs:1104-1119 | The bytes a poll takes for whole text are exactly those RFC 3629 writes some scalar values as |
| LoggedLines.BadBytesStopTheReader | src/agentgraph.rs:1104-1119 | Once what is past the reader cannot be completed, no later poll of any longer file answers anything or gets on |
| LoggedLines.AnythingElseGetsOn | src/agentgraph.rs:1104-1119 | Where it can, some longer file has the next poll read everything |
| LoggedLines.WhichBytesStopIt | src/agentgraph.rs:1104-1119 | A byte no UTF-8 has, a stray continuation and a broken character stop it after any text; a character half written does not |
| Splitting.SplitJoin | src/agents.rs:296-312 | Splitting joined parts at their mark gives the parts back |
| LabelWire.PairReads | src/agents.rs:296-312 | A rendered pair reads as its key and its value without trailing space, or is refused where that leaves nothing |
| LabelRender.RenderLabels | src/agents.rs:333-341 | Rendering joins the pairs in key order |
| LabelRender.RenderedParses | src/agents.rs:296-341 | A rendered set reads back with its values' trailing space gone, exactly where no value is space alone |
| LabelRender.RoundTripsExactly | src/agents.rs:333-341 | A rendered set reads back as itself exactly where no value ends in space |
| Labels.Pairs | src/agents.rs:191-220 | Every key is the engine's and there once; run and scope always, the scope the launch's own word, and project, node, step and attempt exactly for the launches that carry them, with their values |
| Labels.ComposeLabels | src/agents.rs:296-331 | A launch is stamped with what it inherits but the engine's keys, and the engine's own, or refused |
| Labels.ComposedIs | src/agents.rs:296-331 | Key by key: under the engine's prefix the launch's own run, project and words and nothing else, under any other key what it inherits; or which refusal it meets |
| Labels.NestedStampingIsStable | src/agents.rs:280-331 | A launch under a launch is stamped as it would have been alone, exactly unless an outer value is space alone |
| Labels.BlankProjectStopsNesting | src/agents.rs:280-331 | A project of one space is stamped, and every launch under it is refused, though it goes through alone |
| Labels.ComposedRoundTripsExactly | src/agents.rs:296-341 | A launch's labels read back as written exactly where none of its own values ends in space |
| Labels.SpacedNodeIsTrimmed | src/agents.rs:296-341 | A node id that ends in space is stamped, and read back without it |
| Labels.RepositoryLabelsSurvive | src/agents.rs:280-288 | Every label that is not the engine's is on the launch with its value, and comes out of a nested one the same |

## Left out

- Timestamps and stream ids: carried as ranks in the order the source compares them by, which a finite store always has. `Journal` takes each line as already classified; what JSON reads as a record is not part of this model.
- `RunState` and its fold of one record: an uninterpreted state and step, so nothing is said of what a late record does to a particular state.
- Folding.TallyCounts: the tally's per-node and per-run figures beyond events, kinds, judged nodes and losses are one uninterpreted accumulator.
- CheckpointHistory.CachedFoldIsWholeStoreFold: a rebuild of several windows places a barrier at each end, which an orderly journal may still have records of one instant across; for those runs `ReadIsWholeExactly` and `AnyRebuildIsTheWholeStoreFold` say when the barriers do not show.
- CheckpointHistory.EveryReadIsExact: a journal does not change while one call reads it.
- Checkpoint.OpenWith: off a document whose byte count falls inside a line, as it may of a journal replaced by a longer one, the model reads on from the next line and the source from that byte; either way what it takes is not that journal. File reading and the document's JSON are left out; a document is what was last written, or one the damage step put there.
- Checkpoint.Projected.Refresh: likewise where the marker falls inside a line of a journal put in the other's place.
- RunViews.EveryRefreshIsAFreshOpen: a journal does not change while one call reads it; receipts are published past a whole line, as every append ends in one; landings read again, heartbeats and the resolution of edges to other runs are outside the journal.
- CheckpointExact.ReadIsWholeExactly: exact of the order folded; a particular fold may come to the same state in another order.
- CheckpointReports.OneByteEditIsRefused: the seal is an integrity check of one byte; wider edits can share a digest, as the source says.
- Checkpoint.Projected.RebuildIn: the journal is no longer than a 64-bit length; the addition of a window to an offset is not wrapped.
- What may change a held state beside the journal (`deref_mut`, a driver's readjustments, cross-run edges) is not part of this model.
- ChangeCycle.CycleOf: repository, branch, change URL and outcome, which are last-writer lookups; seconds are whole milliseconds, so binary fractions are not modelled; a record called `draft-kept-for-review` is a session's.
- BoundaryPlan.Resolve: the host answers the same of a repository throughout one resolution; the probe's sixty-second cache is not part of this model, and the scope is a set where the source sorts it.
- BoundaryFlow.PrivateWorkStaysPrivate: of plans with one node an id and no dependency cycle, which `src/graph.rs:782` and `src/graph.rs:868` refuse first; on a cyclic plan the walk may settle a node public before it is known private.
- BoundaryCheck.Check: the term check, the exporter's rule for opaque files and the wording of a refusal are parameters or left out.
- Exports.RunExports.EnsureExport: the lock that makes one process's calls follow one another is taken as given; the import, the branch name and the export are the host's answers.
- AppendStamp.ContinuedIsAPrefix: a changed file never has a stamp it had before and a new epoch is never one used before; two changes within one clock tick of a file system that gives both one time are outside it.
- Publishing.TargetIsKept: two builds differ in every file; the crate and the npm launcher, the registries' waits and the download of a held asset are left out.
- PublishRuns.PairsFollowTheRegistries: nothing but `publish` writes, and jobs of different platforms build different targets, as `PLATFORMS` has them; what a job decides of a target is settled where its round starts, which `WantedWheneverRead` says is when it reads.
- Relay.Relayed: the reading thread and its timer are the order of arrivals; what asking after the graph answers is part of each silence.
- LoggedLines.EachEnvelopeOnce: the file only grows, which is what appending to it does; one truncated under its reader is not modelled.
- LabelWire.PairReads: the key grammar is a parameter that refuses `=`, `,` and leading space; a value is 1 to 256 characters with no control; a repeated inherited key takes its last value, which the library that parses it decides.
- Node ids, branch names and repository spellings are strings compared whole; no Unicode normalisation is modelled.
- `src/ask.rs`, `src/branchname.rs`, `scripts/build-staged-release.py` and the screenshots: argument precedence, templates and rendering, which would add only easy members.
