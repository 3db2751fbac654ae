# Caushell: session graphs, shell state, the daemon lifecycle and their neighbours

Caushell keeps, for each agent session, a graph of what was executed and a summary of the shell's state. Before each
command it reconciles the summary with the shell it observes, numbers the request, lets its analysis passes decide,
and commits what was allowed. One analysis daemon per workspace does this; short-lived hook processes start it, wait
for it and keep a record of active sessions. This project models those parts and proves what they keep.

The parts, in order of dependence:

- `GraphTypes`, `GraphIndex`, `ExecutionSemanticsIndex`, `GraphReads`: the graph as a value; what insertion,
  replacement and edges do to its two adjacency indexes and eight secondary indexes; windows and snapshots.
  `SessionGraphs` is the graph as it is kept, an object whose fields are updated in place, each method proved against
  the function of the same name.
- `SessionSummary`, `Mutations`, `Batches`: the summary's setters, the staged changes, and the batch that is validated
  first and applied afterwards. `Sessions` and `SessionStates` (the object) put graph and summary together.
- `Reconciliation`, `Agreement`, `UpdateOrder`: the loops that compare the summary with a shell snapshot, and what the
  resulting delta achieves.
- `SeededBaseline`: whether a new session takes the whole of the first snapshot. `ShellTaken`: what seeding and
  reconciling make of the entries that a snapshot lists.
- `CoreRuns`, `RunProperties`, `AnchorsOnce`, `CwdOnce`, `CoreSessions`: runs of runtime checks over one session and over
  many. The passes are an oracle that returns a verdict and a batch.
- `CommitResults`: which nodes and edges a committed batch, or a reconciliation, leaves in the graph.
- `Refusals`, `RefusedRuns`: when reconciliation is refused, and that sessions get to that point and stay there.
- `DaemonLifecycle`, `DaemonReuse`, `Readiness`, `ActiveSessions`: the protocol between the hooks and daemons of one runtime directory,
  step by interleaved step; the wait with its extended deadline; the heartbeat records.
- `Calendar`, `Timestamp`: day numbers, dates and the printed times.
- `ConfigNormalize`: from a raw config to the policy in force. `Sidebar`: the session list of the editor extension.

Six results say when something does *not* hold, with the exact condition under which it does and an input for which
it does not:

- The execution-semantics index goes stale when a unit is renumbered or a semantics node loses its kind while two
  units define it; `AddNodeKeepsSemanticsExactly` gives the exact condition and `DisciplineIsNeeded` the two graphs.
- A partial snapshot that gives one exported variable two contents never settles, and if neither content is held yet the
  order of its updates shows. `ReconcileIsIdempotent` and `OrderFreeExactly` give the exact conditions, read off the
  summary and the snapshot; `TwiceListedNeverSettles` and `TwiceListedOrdersDiffer` a listing of two lines.
- Seeding a new session returns early when only exported variables are known and the environment is not persisted. So
  reconciling with the same snapshot, at any number and after any command, has something to add exactly when such an
  early stop skips something known and persisted, a partial snapshot contradicts itself, or the previous command produced
  one of the variables by substitution (`SeedIsWholeExactly`; `AliasIsSkipped` and `MintedIsReobserved` give snapshots).
  None of the repository's own sets of capabilities has aliases, functions or positionals persisted without the
  environment (crates/caushell-types/src/request.rs:16-47); only a client that sends another set gets to where an early
  stop skips something.
- Reconciliation is refused exactly when the last number already has another directory, an alias or a function already
  has another body under the id that it would get, or one variable has two new values produced at run time
  (`RefusedExactly`). What is refused is refused for good. A function that a command defines and the shell then reports
  with another body gets there (`RedefinitionIsRefused`, and in two checks `RedefinitionReached`), and so does a failed
  commit after which the shell has changed its directory (`OtherDirectoryIsRefused`, and in three checks of a session
  that keeps its directory only `OtherDirectoryReached`).
- The Claude hook's `civil_from_days` differs from the Codex hook's on all days before 0000-03-01 but the last of each
  400-year era (`ClaudeAgreesExactly`). The hook itself only asks for days since 1970, on which they agree, and
  so do the printed times (`ClaudeTextIsSame`).
- A second living daemon is possible as soon as any one of seven faults is, among them the metadata rewrite that is done
  without the lock and the replacement of the executable under a living daemon (`OneDaemonExactly`, `FaultsBreak`).
  Whatever happens, only one of them serves; the writer lease turns the others away (`OneServes`,
  `NoneTurnedAwayExactly`).

What the oracle is relied on for is stated as predicates: `OwnAnchors` (a batch puts no anchor but the request's own),
`Timely` (it claims no observation later than the request), `CwdHonest` (at most one directory change, about this
request) and `FitBatch` (under the ids of artifacts and alias removals it puts only those). `CommitSucceedsExactly`,
`FailedCommit` and `NextNumberExactly` say exactly what the first two buy, and `UsualBatchIsHonest` and `UsualBatchFits`
that batches made with the repository's own node ids have them all.

A setter of the summary ignores an observation older than the one held
(crates/caushell-types/src/session_summary.rs:215-229).

## Model

| member | source | states |
|---|---|---|
| GraphIndex.RemoveFirstMembership | crates/caushell-graph/src/graph.rs:561-565 | taking an id out of a list without repeats leaves exactly the other ids, still without repeats |
| GraphIndex.RekeyMembership | crates/caushell-graph/src/graph.rs:37-53 | who is in which bucket after an id moved from one key to another: that id under the new key only, all others where they were, no empty bucket |
| GraphIndex.AddNodeKeepsIndexes | crates/caushell-graph/src/graph.rs:37-53 | inserting or replacing a node, whatever the old and new kinds and keys, keeps every index but the semantics one equal to a scan |
| GraphIndex.AddEdgeKeepsIndexes | crates/caushell-graph/src/graph.rs:63-88 | an edge is refused exactly when an end is missing; an accepted one keeps adjacency lists the ascending positions of matching edges |
| GraphIndex.Positions | crates/caushell-graph/src/graph.rs:94-106 | the reference scan: exactly the positions of edges with the given end, ascending |
| GraphIndex.Build | crates/caushell-graph/src/graph.rs:37-88 | every graph built by any sequence of insertions, replacements and edges is well indexed |
| ExecutionSemanticsIndex.FirstDefines | crates/caushell-graph/src/graph.rs:403-418 | the number that removal and re-indexing look at is that of a defining unit, and there is none only if no unit defines the node |
| ExecutionSemanticsIndex.AddNodeKeepsSemanticsExactly | crates/caushell-graph/src/graph.rs:282-289 | inserting or replacing a node keeps the semantics index equal to a scan if and only if the replacement is safe, a condition that mentions no index |
| ExecutionSemanticsIndex.AddEdgeKeepsSemantics | crates/caushell-graph/src/graph.rs:312-335 | a new edge always keeps the semantics index equal to a scan |
| ExecutionSemanticsIndex.AddEdgeExact | crates/caushell-graph/src/graph.rs:63-88 | an edge between nodes of the graph is accepted, appended last, and changes no node and no other index |
| ExecutionSemanticsIndex.DisciplinedIsSafe | crates/caushell-graph/src/graph.rs:358-366 | keeping a unit's sequence number and keeping whether a node is a semantics node is enough for safety |
| ExecutionSemanticsIndex.BuildKeepsSemantics | crates/caushell-graph/src/graph.rs:282-335 | every graph built by safe operations files a semantics node once under exactly the numbers of the units that define it |
| ExecutionSemanticsIndex.DisciplineIsNeeded | crates/caushell-graph/src/graph.rs:358-366 | a graph built by safe operations for which renumbering a unit, and giving up the semantics kind, each leave a stale entry |
| ExecutionSemanticsIndex.SequenceBucketsExactly | crates/caushell-graph/src/graph.rs:259-281 | a node is in the bucket of a number if and only if it is a command of that number; for derived invocations and nested payloads, of that root |
| ExecutionSemanticsIndex.PathBucketsExactly | crates/caushell-graph/src/graph.rs:290-307 | a node is listed, and filed under a path, if and only if it is a path fact that names the path, or the path's content |
| ExecutionSemanticsIndex.AdjacencyExactly | crates/caushell-graph/src/graph.rs:94-106 | the lists beside a node are the positions of the edges from it, and of those into it |
| ExecutionSemanticsIndex.BuildFilesExactly | crates/caushell-graph/src/graph.rs:391-401 | in every graph that safe operations build a semantics node is filed under a number if and only if a command of that number, or a derived invocation of that root, defines it |
| GraphReads.WindowExact | crates/caushell-graph/src/graph.rs:431-447 | a window lists once each, in sequence order, exactly the entries strictly between its bounds, and panics exactly on equal or crossed bounds |
| GraphReads.NodeWindowIsScan | crates/caushell-graph/src/graph.rs:479-509 | a window over a node index returns exactly the graph's nodes with a number inside, once each and in order |
| GraphReads.WindowsConcatenate | crates/caushell-graph/src/graph.rs:431-447 | reading up to m and then from m on is reading everything, in the same order |
| GraphReads.ExactWindowIsBucket | crates/caushell-core/src/core.rs:715-719 | the exact window never panics, and is the bucket of s if and only if s is at least 1 or nothing is filed under 0 |
| GraphReads.SnapshotRecords | crates/caushell-graph/src/graph.rs:221-235 | a snapshot has a record of each node in id order, of the node's own kind and field by field, and one of each edge in place |
| GraphReads.NodeRoundTrip | crates/caushell-graph/src/node.rs:245-640 | saving and loading a node are inverse in both directions, for all kinds |
| GraphReads.LoadEdgeIsAddEdge | crates/caushell-graph/src/graph.rs:244-254 | adding an edge bare and writing its semantics into the last element afterwards is adding the whole edge |
| GraphReads.LoadNodesExact | crates/caushell-graph/src/graph.rs:237-243 | loading nodes with distinct ids gives exactly those nodes and correct indexes |
| GraphReads.LoadEdgesExact | crates/caushell-graph/src/graph.rs:244-256 | loading edges whose ends are there never fails and gives exactly those edges, in order, with semantics |
| GraphReads.RoundTrip | crates/caushell-graph/src/graph.rs:221-257 | restoring what was saved never fails and gives back nodes, edges, adjacency and the members of every index; the semantics index if and only if it was right before |
| GraphReads.SecondRoundTrip | crates/caushell-graph/src/graph.rs:221-257 | a second round trip changes nothing at all, order inside buckets included |
| SessionGraphs.RemoveVecEntry | crates/caushell-graph/src/graph.rs:561-565 | the loop removes the first occurrence, and nothing if there is none |
| SessionGraphs.RemoveIndexEntry | crates/caushell-graph/src/graph.rs:552-559 | one bucket loses the id, and disappears when that empties it |
| SessionGraphs.SessionGraph.ExecutionSemanticsSequenceNo | crates/caushell-graph/src/graph.rs:403-418 | the walk over incoming edges finds the first defining unit in edge order |
| SessionGraphs.SessionGraph.RemoveNodeIndexes | crates/caushell-graph/src/graph.rs:337-389 | each of the eight indexes loses the node from its old key, and nothing else changes |
| SessionGraphs.SessionGraph.IndexNode | crates/caushell-graph/src/graph.rs:259-310 | each of the eight indexes gains the node under its key, and nothing else changes |
| SessionGraphs.SessionGraph.AddNode | crates/caushell-graph/src/graph.rs:37-53 | the whole graph becomes the specified one, and the replaced node is returned |
| SessionGraphs.SessionGraph.IndexEdge | crates/caushell-graph/src/graph.rs:312-335 | only a defining edge from a unit to a semantics node adds an entry, once |
| SessionGraphs.SessionGraph.AddEdge | crates/caushell-graph/src/graph.rs:63-88 | the whole graph becomes the specified one, or the error is the specified one and nothing changes |
| SessionGraphs.SessionGraph.ToSnapshot | crates/caushell-graph/src/graph.rs:221-235 | the snapshot is the specified one: nodes in id order, edges as they are |
| SessionGraphs.SessionGraph.NodesInWindowFromIndex | crates/caushell-graph/src/graph.rs:431-447 | the nested loops over buckets return the specified window |
| SessionGraphs.SessionGraph.CommandNodesInWindow | crates/caushell-graph/src/graph.rs:479-485 | exactly the command nodes strictly between the bounds, once each and in order |
| SessionGraphs.LoadEdge | crates/caushell-graph/src/graph.rs:244-254 | one edge restored in place as specified, or the specified error |
| SessionGraphs.FromSnapshot | crates/caushell-graph/src/graph.rs:237-257 | a new graph object with the specified value, or the specified error at the first refused edge |
| Batches.StepsExact | crates/caushell-runner/src/mutation.rs:255-283 | putting and replacing validated nodes gives the graph's nodes overridden by the batch's, no edge changes, indexes stay right |
| Batches.BatchIsAtomic | crates/caushell-runner/src/mutation.rs:255-283 | applying a batch fails exactly when validating it does; otherwise all its nodes and edges are in, in order, and indexes stay right |
| Batches.BatchKeepsNodes | crates/caushell-runner/src/mutation.rs:1319-1411 | after a batch every node is the graph's own, or one the batch puts, or a provenance artifact it replaced |
| Batches.PutConflicts | crates/caushell-runner/src/mutation.rs:1319-1411 | a batch that puts another node where the graph has one that is no artifact never validates |
| Mutations.IdsSpelled | crates/caushell-runner/src/mutation.rs:1278-1305 | how the ids of anchors, commands, artifacts, functions, removals and directory states read |
| Reconciliation.UpsertLive | crates/caushell-core/src/state.rs:403-407 | the pass over live entries yields, in name order, a binding for each that is not held as it is |
| Reconciliation.UnsetStale | crates/caushell-core/src/state.rs:409-415 | the pass over held entries yields exactly the removable ones that are not live |
| Reconciliation.ReconcileExported | crates/caushell-core/src/state.rs:417-435 | the pass over exported entries of a partial snapshot yields a binding for each that is not held, in snapshot order |
| Reconciliation.ReconcileVariableState | crates/caushell-core/src/state.rs:370-440 | the variable part of the delta, for each kind of knowledge |
| Reconciliation.ReconcileBodyState | crates/caushell-core/src/state.rs:468-542 | the alias and the function part of the delta |
| Reconciliation.ReconcileShellStateBefore | crates/caushell-core/src/state.rs:206-241 | the whole delta, as specified |
| Agreement.CompleteAgrees | crates/caushell-core/src/state.rs:378-418 | after a completely known component is reconciled, everything live is held as it is, and of the rest only what cannot be removed stays, untouched |
| Agreement.ExportedAgrees | crates/caushell-core/src/state.rs:419-439 | a partial list unsets nothing, leaves other names alone, and is held in full if and only if it does not contradict itself |
| Agreement.DeltaApplies | crates/caushell-core/src/core.rs:490-561 | applying the mutations of a permitted delta, one by one and subject to capabilities, gives the outcome component by component |
| Agreement.ReconcileAgrees | crates/caushell-core/src/state.rs:206-241 | reconciling and applying makes every persisted and known component agree with the snapshot, leaves all others alone and moves no sequence number |
| Agreement.ReconcileIsIdempotent | crates/caushell-core/src/state.rs:206-241 | a second reconciliation with the same snapshot finds nothing to do if and only if a partial snapshot does not contradict itself |
| ShellTaken.ReconcileTakesOver | crates/caushell-core/src/state.rs:370-540 | afterwards each variable, alias and function is as its last persisted entry in the list shows it; only what is persisted and not listed goes, and the rest is as it was |
| ShellTaken.PreparingTakesOver | crates/caushell-core/src/core.rs:359-445 | preparing a request does that to the session |
| ShellTaken.FirstDenialSeeds | crates/caushell-core/src/state.rs:293-368 | a new session whose first request is denied has the shell of that request: each variable, alias and function as its last persisted entry shows it, and no other |
| UpdateOrder.IndependentCommute | crates/caushell-runner/src/mutation.rs:723-783 | two updates about different things commute, whatever was observed when and whatever is persisted |
| UpdateOrder.AnyOrder | crates/caushell-runner/src/mutation.rs:723-783 | pairwise independent updates give the same summary in every order |
| UpdateOrder.UpsertsAvoidUnsets | crates/caushell-core/src/state.rs:370-542 | no name is both upserted and unset by a delta, and only a contradictory partial snapshot upserts one name in two ways |
| UpdateOrder.OrderFreeExactly | crates/caushell-core/src/core.rs:490-561 | all orders of a delta's updates give the same summary, unless the environment is persisted, only exported variables are known, and two entries give one name different contents that the summary both lacks; then they do not |
| UpdateOrder.TwiceListedNeverSettles | crates/caushell-core/src/state.rs:417-435 | a partial listing with two values for one name is valid input that contradicts itself, and reconciling it again finds something to do |
| UpdateOrder.TwiceListedOrdersDiffer | crates/caushell-core/src/core.rs:490-561 | its two updates applied the other way round leave another summary |
| UpdateOrder.AllValidKept | crates/caushell-types/src/session_summary.rs:209-476 | a batch keeps every binding under its own name and observed no later than the last sequence number |
| UpdateOrder.NewestStays | crates/caushell-types/src/session_summary.rs:205-330 | the newest observation of a thing has its way, whatever older ones come after it in the batch |
| UpdateOrder.UnpersistedStays | crates/caushell-runner/src/mutation.rs:723-783 | what the runtime does not persist is after any batch as it was before |
| Sessions.SeededOnce | crates/caushell-core/src/state.rs:85-132 | the second seeding of a commit never does anything: the result is seed once, apply the batch, observe the number |
| SeededBaseline.SeedIsWholeExactly | crates/caushell-core/src/state.rs:293-368 | after seeding a new session, reconciling with the same snapshot at any number and after any command has nothing to add if and only if a partial snapshot does not contradict itself, the command minted none of the known variables, and an early stop skips nothing |
| SeededBaseline.MintsExactly | crates/caushell-core/src/state.rs:556-598 | a command changes what is observed of the known variables if and only if it mints one of them that the shell shows as an exact text |
| SeededBaseline.SkippedIsMadeUpFor | crates/caushell-core/src/state.rs:314-324 | after an early stop a delta at any number has aliases, functions or positionals exactly where they are persisted, known and there |
| SeededBaseline.AliasIsSkipped | crates/caushell-core/src/state.rs:314-324 | a snapshot with one alias and a partial environment is not taken whole where only aliases are persisted |
| SeededBaseline.MintedIsReobserved | crates/caushell-core/src/state.rs:556-598 | a snapshot of one exported variable is taken whole if and only if the next command's predecessor did not mint it |
| Sessions.AnchoredValidation | crates/caushell-core/src/state.rs:90-132 | a batch that validates beside the virtual anchor validates with the real one if and only if it stages nothing else under its id |
| Sessions.CommitSucceedsExactly | crates/caushell-core/src/state.rs:90-132 | a commit succeeds if and only if its anchor is new, the batch validates and nothing else is staged under the anchor's id; a duplicate is reported exactly when the anchor is taken |
| Sessions.FailedCommit | crates/caushell-core/src/state.rs:90-132 | a failed commit leaves a seeded summary, and the graph untouched if and only if the failure came before the anchor was added |
| Sessions.SuccessfulCommit | crates/caushell-core/src/state.rs:90-132 | summary, anchor, nodes and edges after a commit; nothing foreign appears and indexes stay right |
| SessionStates.ApplyGraphBatch | crates/caushell-runner/src/mutation.rs:255-283 | in place, all or nothing: the specified graph, or the specified error and the old graph |
| SessionStates.SessionState.SeedSummary | crates/caushell-core/src/state.rs:293-368 | the loops over the snapshot seed the specified summary |
| SessionStates.SessionState.SeedShellStateBefore | crates/caushell-core/src/state.rs:187-203 | a new session takes the baseline at 0, an old one without a directory takes the directory only |
| SessionStates.SessionState.Observe | crates/caushell-core/src/state.rs:85-88 | seed if needed, then observe the number |
| SessionStates.SessionState.ApplyLiveSummary | crates/caushell-runner/src/mutation.rs:723-783 | the whole batch is applied to the summary, skipping what is not persisted |
| SessionStates.SessionState.CommitAllowedRequest | crates/caushell-core/src/state.rs:90-132 | the object's whole new state and the error are the specified ones, partial effects of a failure included |
| SessionStates.SessionState.CommitObservedShellStateMutations | crates/caushell-core/src/state.rs:134-185 | the object's whole new state and the error are the specified ones |
| CommitResults.CommitLeaves | crates/caushell-runner/src/mutation.rs:1413-1433 | a commit leaves the anchor, a node for every mutation as it asks for, and exactly the edges asked for; state changes hang from the first command of index 0, or from the anchor |
| CommitResults.ReconcileLeavesState | crates/caushell-core/src/core.rs:490-561 | a reconciliation leaves a node for each new directory, alias, function and removed alias, and an edge to it from the last request's first command, its anchor, or the one that stands in |
| CommitResults.ReconcileLeavesValue | crates/caushell-core/src/core.rs:563-612 | a value produced at run time is recorded with its text, kind and number, and hung from the anchor where there was no record |
| CommitResults.CommandIsParsed | crates/caushell-core/src/core.rs:378-400 | after a commit the next reconciliation is told what the parser says of that request's command and kind of shell |
| CommitResults.NothingIsParsed | crates/caushell-core/src/core.rs:378-400 | without an anchor of the last request it is told nothing |
| CommitResults.CheckedIsAnchored | crates/caushell-core/src/core.rs:187-286 | an allowed check that goes through leaves an anchor with the request's command, directory and kind of shell under its number |
| CommitResults.MissingAnchorExactly | crates/caushell-core/src/state.rs:134-185 | an observed batch misses an anchor if and only if the graph has none for its number, the batch brings none, and something in it hangs from one |
| CommitResults.RefusalNamesCulprit | crates/caushell-runner/src/mutation.rs:1319-1411 | a refused batch names a node that it puts or replaces, or an end of one of its edges that the graph does not have |
| CoreRuns.ReconcileBatchExact | crates/caushell-core/src/core.rs:359-445 | a reconciliation's batch puts no request anchor and no reconciliation anchor but its own, and means for the summary what the delta says |
| CoreRuns.ObservedCommit | crates/caushell-core/src/state.rs:134-185 | an observed commit fails whole, or applies the batch to summary and graph and keeps all indexes right |
| CoreRuns.NoMissingAnchor | crates/caushell-core/src/core.rs:359-445 | reconciliation never ends in a missing graph anchor |
| CoreRuns.ReconcileExact | crates/caushell-core/src/core.rs:359-445 | reconciliation fails whole, moves no sequence number, and adds no anchor but a synthetic one for the last number when that has none |
| CoreRuns.AnchorIdInjective | crates/caushell-runner/src/node_ids.rs:8-17 | within a session, different sequence numbers have different anchor ids |
| RunProperties.LastAfterBatch | crates/caushell-types/src/session_summary.rs:209-213 | a batch leaves the last number within a bound if and only if it was and nothing persisted claims to be later |
| RunProperties.NextNumberExactly | crates/caushell-core/src/core.rs:351-357 | the request after a committed one gets the very next number if and only if the batch claims nothing later |
| RunProperties.StepKeeps | crates/caushell-core/src/core.rs:187-286 | one runtime check: the next number or, on failure, none; unless it is allowed and commits, the graph is changed by reconciliation at most |
| RunProperties.RunKeeps | crates/caushell-core/src/core.rs:187-286 | in every run the numbers are 1, 2, 3, ... without gap or repeat, the request anchors are exactly those of the allowed numbers, and neither a duplicate command node nor a missing anchor is reported |
| AnchorsOnce.AnchorsAddedOnce | crates/caushell-core/src/core.rs:359-445 | in every run the synthetic anchors in the graph are those of the numbers for which one was added, each once however often it is staged, and none is lost |
| CwdOnce.CwdWriteIsFresh | crates/caushell-runner/src/mutation.rs:1319-1411 | a committed directory change meets no other directory state under its id, and its state is there afterwards |
| CwdOnce.ReconcileWrites | crates/caushell-core/src/state.rs:243-270 | a reconciliation writes a directory state for at most the last number, and only if that has none |
| CwdOnce.StaticCwdBlocks | crates/caushell-core/src/state.rs:243-270 | right after a check that set the directory by static analysis, the snapshot's directory is not taken over |
| CwdOnce.CwdWrittenOnce | crates/caushell-core/src/core.rs:359-445 | in every run with a fixed directory capability no sequence number gets two directory states, whatever the directory changes come from |
| CwdOnce.UsualBatchIsHonest | crates/caushell-runner/src/node_ids.rs:4-49 | a batch that puts nodes under the ids made for them and claims nothing later than its request is one that the results about runs rely on |
| CoreSessions.ShellQueryCore.PrepareRuntimeCheck | crates/caushell-core/src/core.rs:274-286 | reconcile, then number; an error changes nothing, and no other session is touched |
| CoreSessions.ShellQueryCore.TryCheck | crates/caushell-core/src/core.rs:187-262 | an allowed request is committed, any other only observed, and no other session is touched |
| CoreSessions.ShellQueryCore.CheckRuntime | crates/caushell-core/src/core.rs:264-272 | the session of the request becomes the specified one, and no other session is touched |
| CoreSessions.SessionsApart | crates/caushell-core/src/core.rs:187-286 | what becomes of a session depends on its own requests only, however they are interleaved with those of others |
| CoreSessions.CoreKeeps | crates/caushell-core/src/core.rs:187-286 | so in every run over many sessions each has the anchors of its own allowed numbers, and only those |
| Refusals.RefusedExactly | crates/caushell-core/src/core.rs:359-445 | reconciliation is refused if and only if its directory, an alias, a function or two new values of one variable clash, told from session and request |
| Refusals.ChecksExactly | crates/caushell-runner/src/mutation.rs:1319-1411 | where replacements are of artifacts by artifacts, validation accepts the nodes of a batch if and only if every put agrees with the graph and with every other put of its id |
| Refusals.RedefinitionConflicts | crates/caushell-runner/src/mutation.rs:1278-1280 | another definition of a function under the id for the last number is enough for a refusal, whatever else the graph has |
| RefusedRuns.RunKeepsKinds | crates/caushell-runner/src/mutation.rs:1278-1305 | in every run the ids that reconciliation uses have nodes of the kinds that it expects |
| RefusedRuns.RefusedAfterRunExactly | crates/caushell-core/src/core.rs:187-286 | after every run a request is not prepared if and only if it clashes, and then the session stays as it was |
| RefusedRuns.RedefinitionIsRefused | crates/caushell-core/src/core.rs:359-445 | after any committed check that defines a function, a request whose shell reports another body for it is refused and changes nothing |
| RefusedRuns.RedefinitionReached | crates/caushell-core/src/core.rs:359-445 | two checks that get there from a new session, for every parser and second verdict |
| RefusedRuns.OtherDirectoryIsRefused | crates/caushell-core/src/core.rs:359-445 | after a check whose reconciliation took a directory over and whose commit failed, a request from any other directory is refused and changes nothing |
| RefusedRuns.OtherDirectoryReached | crates/caushell-core/src/core.rs:359-445 | a denied check, one whose commit fails and a third, each from another directory, get there from a new session that persists its directory only, for every parser and last verdict |
| RefusedRuns.UsualBatchFits | crates/caushell-passes/src/support/node_ids.rs:10-60 | a batch that puts nodes under the ids made for them is one that the results about refusals rely on |
| DaemonLifecycle.ExclusiveKept | crates/caushell-codex-hook/src/main.rs:897-998 | every step, faulty or not, keeps the lock with the one hook inside; a spawn is a step of that hook |
| DaemonLifecycle.InvKept | crates/caushell-codex-hook/src/main.rs:1013-1095 | every step without a fault, of a hook, a daemon or the world, hands on what the lock's holder, or the files, know about the living daemon |
| DaemonLifecycle.OneInside | crates/caushell-codex-hook/src/main.rs:897-998 | in every interleaving at most one hook is between taking and dropping the lock, and only that one can spawn |
| DaemonLifecycle.FilesTellTheTruth | crates/caushell-codex-hook/src/main.rs:1013-1095 | without faults and with the lock free, metadata and pid file name every living daemon, by pid, start marker and executable |
| DaemonLifecycle.SpawnsAnother | crates/caushell-runtime-security/src/lib.rs:247-258 | a hook that finds no matching process for the record, or no record, can spawn beside whatever is alive |
| DaemonLifecycle.FaultsBreak | crates/caushell-codex-hook/src/main.rs:1101-1128 | for each of the seven faults alone there is an interleaving that ends with two living daemons |
| DaemonLifecycle.OneDaemonExactly | crates/caushell-codex-hook/src/main.rs:897-1128 | at most one spawned daemon is alive in all interleavings of any number of hooks if and only if no fault may occur |
| DaemonLifecycle.ReplaceBreaks | crates/caushell/src/update.rs:882-910 | putting another executable where the living daemon's was makes it unmatched, and a second one is spawned |
| DaemonLifecycle.OneServes | crates/caushell/src/lib.rs:2135-2155 | in every interleaving and whatever goes wrong, at most one daemon holds the writer lease, and it is alive |
| DaemonLifecycle.LeaseHeld | crates/caushell/src/lib.rs:2135-2155 | no step takes the lease from a daemon that lives on |
| DaemonLifecycle.NoneTurnedAwayExactly | crates/caushell/src/lib.rs:2135-2155 | a start-up is turned away at the lease in some interleaving if and only if some fault may occur |
| DaemonReuse.DaemonFits | crates/caushell-codex-hook/src/main.rs:897-938 | in every interleaving and whatever goes wrong, a hook that is done has a living, serving daemon that was launched for its own configuration |
| DaemonReuse.FittingIsReused | crates/caushell-codex-hook/src/main.rs:897-917 | a hook that finds such a daemon recorded can be done without the lock, changing nothing |
| DaemonReuse.OthersAreNotReused | crates/caushell-codex-hook/src/main.rs:1450-1460 | a daemon of another configuration, or one that does not answer as recorded, is never reused |
| DaemonReuse.ReadyIsRecorded | crates/caushell-codex-hook/src/main.rs:1142-1157 | without faults the hook that started a daemon marks it as ready, and changes nothing else in the record |
| DaemonReuse.HolderChoosesExactly | crates/caushell-codex-hook/src/main.rs:919-976 | with the lock, a recorded daemon is terminated first if and only if a living process has its id, start marker and executable |
| DaemonReuse.TerminationExactly | crates/caushell-codex-hook/src/main.rs:1500-1532 | termination ends exactly the living processes with the recorded id, start marker and executable |
| DaemonReuse.FilesWrittenExactly | crates/caushell-codex-hook/src/main.rs:1052-1073 | which steps write the record and the pid file, and what |
| Readiness.WaitForDaemonReady | crates/caushell-codex-hook/src/main.rs:1130-1200 | the loop ends at the first poll that settles the wait, with that poll's verdict |
| Readiness.OutcomeIsFirst | crates/caushell-codex-hook/src/main.rs:1130-1200 | the wait goes on if and only if no poll settles it, and gives up only on a poll that says so |
| Readiness.GivesUpLate | crates/caushell-codex-hook/src/main.rs:1202-1254 | giving up happens after the base deadline, and on a daemon seen to be at work only after the extended one |
| Readiness.SettledByExtendedDeadline | crates/caushell-codex-hook/src/main.rs:1202-1217 | the first poll after the extended deadline settles the wait at the latest |
| Readiness.AbandonedExactly | crates/caushell-codex-hook/src/main.rs:1202-1217 | a daemon stuck in starting up can be given up on if and only if its extended deadline does not saturate |
| Readiness.EnoughPolls | crates/caushell-codex-hook/src/main.rs:1130-1200 | on a strictly advancing clock a bounded number of polls is always enough |
| Readiness.PatientWhileWorking | crates/caushell-codex-hook/src/main.rs:1219-1254 | while every poll up to the extended deadline sees fresh matching progress and a matching process, the wait is not given up |
| Readiness.SettlesExactly | crates/caushell-codex-hook/src/main.rs:1202-1254 | a poll gives up if and only if there is no answer and more than 5 seconds have passed since the start, and more than 30 if matching progress is at most 5 seconds old |
| Readiness.PlainWait | crates/caushell-claude-hook/src/main.rs:1159-1211 | the other hook's loop ends at the first poll that is late, healthy or of a dead process, with that poll's verdict |
| ActiveSessions.ActiveSessionStore.PruneStale | crates/caushell-codex-hook/src/main.rs:1379-1409 | exactly the parsable records with a heartbeat more than 12 hours old go, in whatever order files are visited |
| ActiveSessions.ActiveSessionStore.WriteRecord | crates/caushell-codex-hook/src/main.rs:1312-1352 | prune, then write the session's record, keeping the start time of one that is still there |
| ActiveSessions.ActiveSessionStore.RemoveRecord | crates/caushell-codex-hook/src/main.rs:1354-1368 | remove the session's record, then prune |
| ActiveSessions.SurvivesOthersExactly | crates/caushell-codex-hook/src/main.rs:1379-1409 | over any run of other sessions' events a record survives if and only if it is stale at none of their prunings, and never changes |
| ActiveSessions.MalformedSurvives | crates/caushell-codex-hook/src/main.rs:1411-1419 | a record that does not parse outlives every pruning |
| ActiveSessions.StartedAtConstant | crates/caushell-codex-hook/src/main.rs:1312-1352 | while a session keeps up its heartbeat within 12 hours, its record stays and keeps its start time |
| ActiveSessions.RestartExactly | crates/caushell-codex-hook/src/main.rs:1312-1352 | a heartbeat starts the session anew if and only if its record is unreadable or stale |
| ActiveSessions.OthersUntouched | crates/caushell-claude-hook/src/main.rs:1249-1355 | no event changes another session's record; it can only remove a stale one |
| ActiveSessions.PrunedExactly | crates/caushell-codex-hook/src/main.rs:1379-1409 | a record is pruned if and only if it parses and its heartbeat is more than 43200000 milliseconds back |
| ActiveSessions.RealSessionExactly | crates/caushell-codex-hook/src/main.rs:1436-1439 | a session has a record unless its id, without the white space around it, is empty or `unknown` |
| Calendar.CivilFromDaysCorrect | crates/caushell-codex-hook/src/main.rs:1759-1771 | every day number, negative ones included, becomes a valid date whose proleptic Gregorian day count it is |
| Calendar.CivilFromDaysInverse | crates/caushell-codex-hook/src/main.rs:1759-1771 | every valid date is recovered from its day count |
| Calendar.CivilFromDaysSuccessor | crates/caushell-codex-hook/src/main.rs:1759-1771 | consecutive day numbers are consecutive calendar days |
| Calendar.DayNumberMonotone | crates/caushell-codex-hook/src/main.rs:1759-1771 | the reference day count orders valid dates as the calendar does |
| Calendar.NextDayCounts | crates/caushell-codex-hook/src/main.rs:1759-1771 | the reference day count is 0 on 1970-01-01 and grows by one from each date to its successor under the leap rule of RFC 3339 |
| Calendar.ClaudeAgreesExactly | crates/caushell-claude-hook/src/main.rs:1516-1528 | the two hooks agree from 0000-03-01 on, and before it on the last day of each 400-year era and no other |
| Timestamp.UtcTextReadsBack | crates/caushell-codex-hook/src/main.rs:1748-1757 | below year 10000 the printed time has 20 columns and reads back as the time it was printed for |
| Timestamp.UtcTextColumns | crates/caushell-codex-hook/src/main.rs:1748-1757 | up to year 9999 the text is year, month and day with dashes, `T`, hour, minute and second with colons, and `Z`, each in its columns |
| Timestamp.UtcTextOrder | crates/caushell-codex-hook/src/main.rs:1748-1757 | up to the last second of year 9999 text order is time order |
| Timestamp.UtcTextOrderEnds | crates/caushell-codex-hook/src/main.rs:1748-1757 | the first second of year 10000 sorts before the second it follows |
| Timestamp.ClaudeTextIsSame | crates/caushell-claude-hook/src/main.rs:1502-1514 | the Claude hook's own printer gives the same text for every second from 1970 on |
| ConfigNormalize.ValidateHardDenyOverrides | crates/caushell-config/src/normalize.rs:193-204 | passes if and only if no override of a floor rule is other than deny, and else names one that is |
| ConfigNormalize.EnforceHardDenyFloor | crates/caushell-config/src/normalize.rs:206-210 | afterwards floor rules deny without trusted sets, and all other entries are as they were |
| ConfigNormalize.NormalizeUnknownCommands | crates/caushell-config/src/normalize.rs:223-246 | succeeds if and only if name normalization is injective on the override keys; else names the first collision in key order |
| ConfigNormalize.UnknownCommandsExactly | crates/caushell-config/src/normalize.rs:223-246 | the same of the specification, by which the loop is proved |
| ConfigNormalize.FirstPathErrorExactly | crates/caushell-config/src/normalize.rs:248-280 | there is no error if and only if every trusted path has a non-empty absolute root and a scope |
| ConfigNormalize.NormalizeTrustedPaths | crates/caushell-config/src/normalize.rs:248-280 | one named set per path, or the first error in list order |
| ConfigNormalize.AttachTrustedPaths | crates/caushell-config/src/normalize.rs:282-301 | changes no rule's effective action, gives the two path rules the trusted sets and leaves every other rule's alone |
| ConfigNormalize.NormalizeConfig | crates/caushell-config/src/normalize.rs:96-167 | accepts exactly the acceptable configs; in the policy the floor denies, any other rule does what its own entry, else its family's, says, else its default; a refusal names the first fault |
| ConfigNormalize.UnknownCommandLookup | crates/caushell-config/src/normalize.rs:223-246 | every override is found under its normal form, and no other override has that form |
| ConfigNormalize.StricterIsStricter | crates/caushell-config/src/normalize.rs:303-309 | asking for more of a rule never makes it do less |
| Sidebar.BetterIsAnOrder | integrations/vscode/extension.js:752-786 | being a better representative is a strict weak order |
| Sidebar.BetterIsLexicographic | integrations/vscode/extension.js:752-786 | the better one has more of the first thing compared in which the two differ |
| Sidebar.DedupeSessions | integrations/vscode/extension.js:740-750 | one session for each key there is, taken from the input, and none with its key is better |
| Sidebar.OrderDoesNotMatter | integrations/vscode/extension.js:740-750 | for any two orders of the input the representatives of a key are tied |
| Sidebar.SameRepresentatives | integrations/vscode/extension.js:740-750 | without full ties they are the very same sessions |
| Sidebar.LatestRepresents | integrations/vscode/extension.js:740-750 | the representative of a key was observed last, and of those so observed checked most |
| Sidebar.SortDescIsOrdered | integrations/vscode/extension.js:4034-4042 | the result of the sort is in display order where the collation tells the kinds of store apart |
| Sidebar.NewestAreFirst | integrations/vscode/extension.js:4034-4042 | newest first, then by kind of store, then from the last id to the first |
| Sidebar.SelectRunning | integrations/vscode/extension.js:613-633 | each live record takes the first matching session that no earlier record took; no session is taken twice, and none that matches is passed over |
| Sidebar.PanesPartition | integrations/vscode/extension.js:509-538 | the four panes hold every session exactly once |
| Sidebar.PanesExactly | integrations/vscode/extension.js:520-538 | a session is in a pane of the current workspace if and only if its workspace is the current one, and in a running one if and only if it runs |
| Sidebar.GroupSessions | integrations/vscode/extension.js:664-738 | each group holds, in order, exactly the sessions with its key, with the latest time of theirs, and all groups together hold each session once |
| Sidebar.LatestExactly | integrations/vscode/extension.js:679-683 | a group's time is that of one of its sessions, or 0, and none is later |
| Sidebar.PlacedIsShown | integrations/vscode/extension.js:686-738 | sorting inside the groups and then the groups loses nothing, and the groups are in order |
| Sidebar.RuntimesInOrder | integrations/vscode/extension.js:704-738 | groups of Codex come first, then of Claude, then the others, newest first |
| Sidebar.WorkspacesInOrder | integrations/vscode/extension.js:664-702 | groups of the current workspace come first, and newest first among those and among the others |
| Sidebar.BuildSidebarModel | integrations/vscode/extension.js:509-565 | the sidebar shows each session exactly once but for those in hidden workspaces, hides only beyond five, and its counts add up |
| Sidebar.CountsExactly | integrations/vscode/extension.js:540-565 | each count is of what its pane shows, and at most five other workspaces are visible |
| Sidebar.ListAndShow | integrations/vscode/extension.js:505-565 | from what the stores list to what is shown: one best representative of each session, exactly once |

## Left out

- The analysis passes, the parser, profile resolution, the store and the query crates: a check's verdict and batch are arbitrary, and the parser is a function from the previous command's text to whether it may change the directory and which variables it mints.
- `apply_shell_state_delta`, decision traces, reasons and timing logs: they read, or repeat what the runtime check does.
- Payloads of nodes, edges and values that nothing compares (origins, roles, shell kinds, structured semantics) are opaque texts, and integers are unbounded but for sequence windows and millisecond deadlines, which saturate at 64 bits.
- Mutations.Steps: the mutations that add one fact node and one edge to it (path facts, metadata changes, scopes, provenance artifacts, derived invocations, semantics, binding intents) are one case that carries the node and the relation.
- RunProperties.RunKeeps: is about batches that put no anchor but their own and claim no later observation; exactly what fails otherwise is in Sessions.CommitSucceedsExactly and RunProperties.NextNumberExactly.
- CwdOnce.CwdWrittenOnce: is moreover about batches with at most one directory change, about their own request.
- RefusedRuns.RefusedAfterRunExactly: is moreover about batches that put only artifacts under the ids of artifacts, and only removals under the ids of alias removals.
- CoreSessions.ShellQueryCore.CheckRuntime: sessions in the core's map are values, so sharing of one session object between callers is not captured.
- SessionStates.SessionState.CommitAllowedRequest: restoring a whole session object from a stored snapshot is not modelled; the graph's part of it is SessionGraphs.FromSnapshot.
- Calendar.CivilFromDaysCorrect: days are unbounded, so overflow of 64-bit arithmetic near the ends of the range is not captured.
- DaemonLifecycle.OneDaemonExactly: sockets, file locks, signals and process spawning are abstract steps; writing pid file and metadata is one step, and ids of living processes are distinct. Instance ids, made of workspace, process and time, are taken as distinct. The hooks share one runtime directory; without a configured socket root its name has the executable's fingerprint in it, and hooks with a replaced executable use another. Lock and lease files are not removed. That the unlocked rewrite first compares config path and workspace is left out, so it is possible for more hooks than in the code. The Claude hook's lifecycle has the same shape and is not repeated.
- DaemonLifecycle.SpawnsAnother: the deadline arithmetic of the wait inside the lock is in Readiness; in the protocol a wait may end either way at any time, and a hook with the lock may give up anywhere but between spawning and recording.
- ActiveSessions.SurvivesOthersExactly: file names are the hashes of session ids, taken as distinct for distinct sessions; the session directory around the record and the legacy record beside it are not modelled.
- ConfigNormalize.NormalizeConfig: sensitive paths, policies for resolve gaps, unresolved payloads and package locators, the failure action and the Codex approval mode are mapped field by field and left out; name normalization is a parameter.
- Sidebar.SelectRunning: the match between a live record and a session (path comparison, store identity) is a parameter.
- Sidebar.SortDescIsOrdered: where two kinds of store compare as equal without being equal, the comparison is no order, and no order is claimed; the sort used is a stable insertion sort.
- Sidebar.BuildSidebarModel: numbers are finite and missing fields are already replaced by their defaults; labels are functions of the group's key; warnings and process counts are passed through and left out.
- Status printing, command lines, environment, file permissions, JSON and YAML, the editor's tree views and pages.
