# Cypher planner and transaction layer: a Dafny model

This project models the parts of the Go property-graph engine in which a Cypher statement's answer depends on
more than one function at a time, and proves that those parts keep their promises. The whole project is checked with
`dafny verify dfyconfig.toml`.

| files | what they model | main results |
|---|---|---|
| `LiveRuns`, `LiveJournal`, `LiveTopology` | the live-topology log that serves a traversal the graph as of its Init while the same statement writes | `LiveJournal.TimeTravel`, `LiveTopology.LiveTopoLog.RunAt`, `LiveTopology.LiveOutSource.AssembleAt` |
| `Slices`, `PatternGraph`, `PatternSearch`, `PatternReach`, `PatternEnum`, `PatternRows`, `PatternEval` | pattern predicates and pattern comprehensions under relationship isomorphism | `PatternReach.VarLenReach`, `PatternEval.PatternEvaluator.MatchPattern`, `PatternEval.PatternEvaluator.EnumeratePatternMatches` |
| `CountCells`, `CountMaintenance`, `CountEstimate` | the derived relationship counts | `CountMaintenance.CountedMutator.Commit`, `CountEstimate.CountSource.TripleIsTrue` |
| `IndexEntries`, `IndexBuild`, `IndexLosses`, `IndexFanout` | CREATE INDEX against concurrent explicit transactions | `IndexBuild.IndexIsCommitted`, `IndexBuild.OrderlyIsExact` |
| `CommitRuns`, `CommitSafety`, `CommitWrites`, `Transactions` | explicit transactions: eager writes and their undo log, unique values reserved and freed, the commit-decision bracket, the instant, the log, the publication | `CommitSafety.UniqueAlways`, `CommitSafety.CrashAnywhere`, `CommitSafety.SnapshotStands`, `CommitSafety.DrainedIsEnded`, `CommitWrites.CommitsSayLast`, `Transactions.ExplicitTx.Exec`, `Transactions.ExplicitTx.Commit` |
| `PlanCache`, `PlanCacheRuns` | the sharded plan cache and its single-flight builds | `PlanCacheRuns.ReceivedIsFresh`, `PlanCacheRuns.ReceivedIsOwn`, `PlanCacheRuns.StoredIsServed` |
| `UnionFind`, `Cartesian` | the Cartesian-product notification | `Cartesian.ExactIff`, `Cartesian.AnalyseCartesianProduct` |
| `LabelCounts`, `JoinReorder`, `AnchorSwap` | the two cost-gated reorderings and the counts they read | `JoinReorder.BoundsIff`, `JoinReorder.SwapsKeepRows`, `AnchorSwap.NeverSlower`, `AnchorSwap.MirrorKeepsRows` |
| `BoundKeySeek`, `CountVar` | the two unconditional plan rewrites | `BoundKeySeek.FoldKeepsRows`, `BoundKeySeek.FoldLeavesNone`, `CountVar.RewriteKeepsOutput` |
| `PendingDelta`, `MergeProbe` | which indexes a write statement may seek | `PendingDelta.UnblockedSeekIsFresh`, `MergeProbe.MergeIndexProbe.Candidates` |

## Form

Code that updates state in place is a class whose methods are proved against a functional specification: the
journal's hooks, the in-place compaction of a run, the backing array that sibling extensions of a path share, the
reachability queue, the count store and its buffer, the undo log, the explicit transaction, the commit memo, the
plan-cache shards, the disjoint set, the pending summary and the probe. Protocols with several actors (explicit
transactions, the index build, the plan cache with concurrent callers) are state machines whose steps interleave
freely; their results hold in every state any sequence of steps reaches. The methods of `Transactions.ExplicitTx`
are runs of that machine: each takes its steps one at a time while a schedule, about which nothing is assumed, lets
the other transactions take theirs before every one of them. Rewrites and estimates are functions over plan trees,
with the source's loops kept as methods. `hide` statements only keep definitions a proof does not use out of its way.

## Where the code differs from what it says

Each of these is stated as a lemma with a concrete case, together with the exact condition under which the promise
holds.

- The commit-time fan-out reasons that a write which takes effect has no other transaction's write beside it on the
  node (`cypher/index_commit_apply.go:47-52`). Conflicts are found per store (`cypher/undo_record.go:84-90`,
  `graph/lpg/mvcc_node_conflict.go:20-34`): one transaction may write a node's label while another writes its
  property, and an index needs both. Two builds then go wrong. A commit that dropped its label, no index being
  registered or built when it decided, is still to publish while a commit to the property is recorded; the recording
  takes the property's old value out, does not put the new one in, the node being unlabelled so far, and the entry the
  scan reads is lost: `IndexLosses.LostEntry`. And since on the log's path instants are taken before the deliveries'
  order is settled, the scan may see a later delivery's property and not an earlier one's removal of the label, and
  read an entry nothing takes out: `IndexLosses.StrayEntry`. `IndexBuild.IndexIsCommitted` says exactly when a
  registered index is right about a node (`IndexBuild.Settles`): no value is left that a delivery told wrong for want
  of such a commit (`IndexBuild.Wrong`) and no later delivery named, and whatever the scan read is named by some
  delivery, unless it saw them all. `IndexBuild.OrderlyIsExact`: it is right whenever no delivery to the node missed a
  commit and the scan saw its deliveries in order.
- `cypher/notification.go:91-186` does not forget a part's variables at WITH, and `union` ignores a key that is not
  in the structure. A predicate whose first known variable is of an earlier part therefore joins nothing:
  `Cartesian.EarlierVariableFirst`. `Cartesian.PredConnectsIff` is the exact condition for one predicate and
  `Cartesian.ExactIff` for a part: it is judged right if and only if it falls apart, or every such predicate mentions
  only what is connected without it. `Cartesian.NoneMissed` shows the fault only adds reports, and
  `Cartesian.OnePartQuery` that a query without WITH or UNWIND is judged exactly.
- Both reorderings admit counts that are only upper bounds, while their comments speak of exact inputs
  (`cypher/join_reorder_plan.go:468-473`, `cypher/anchor_swap_plan.go:401-472`). A bound is a label's raw size plus
  the churn of the whole graph, and is told only past a backlog of 4096 (`LabelCounts.Reading.PlanCount`).
  For the anchor swap this does no harm as long as both labels are counted at one reading, exactly or by their
  bounds: `AnchorSwap.NeverSlower`. Only counts read at two moments, with the reclaimer running between them, can
  mislead it (`AnchorSwap.BoundMisleads`); `AnchorSwap.NeverSlowerIff` says exactly when they cannot. For the join
  reorder it does harm even at one reading (`JoinReorder.BoundMisleads`): an admitted swap on two bounds is never
  slower, for every pair of counts they allow, if and only if the raw counts are at least the churn apart
  (`JoinReorder.BoundsIff`). For arms of which drain and rows are only known within ranges, `JoinReorder.ScannedIff`
  and `JoinReorder.SeekedIff` are the exact conditions.

## Model

| member | source | states |
|---|---|---|
| `LiveRuns.OrderRun` | cypher/live_adjacency.go:324-358 | the run order is a permutation of the slots; with `OrderRunOrdered` it is sorted by destination then handle, stably |
| `LiveRuns.OrderRunOrdered` | cypher/live_adjacency.go:324-358 | a resolved run is ordered by destination, ties by handle |
| `LiveRuns.FilterOrderCommute` | cypher/live_adjacency.go:324-424 | ordering a run and then dropping dead destinations is dropping them and then ordering |
| `LiveRuns.CompactColumns` | cypher/live_adjacency.go:381-424 | compacting a resolved run moves every aligned column under one permutation: what results are the columns of the live slots |
| `LiveRuns.ResolveThenFilter` | cypher/live_adjacency.go:363-430 | resolving first and filtering the result is what a build over the live slots alone gives, multi-type map included |
| `LiveRuns.TypedCaptureSameArcs` | cypher/live_adjacency.go:192-230 | a capture taken with types serves an untyped traversal the same arcs |
| `LiveRuns.BuiltShows` | cypher/live_adjacency.go:318-430 | what a build gives a live source, position by position: its entry's slots with a live destination, one position each, each column that slot's own (destination, handle, first type, and the further types each once as first named), ascending by destination, then handle, then as written |
| `LiveRuns.OrderRunPlaces` | cypher/live_adjacency.go:324-340 | the order moves every slot to one position and is stable |
| `LiveJournal.AfterAdjHook` | cypher/live_adjacency.go:84-95 | the capture rule: after the hook, every Init begun so far is served the node's entry from a capture, so the coming write cannot reach it, although the hook skips when a capture after the latest Init exists |
| `LiveJournal.PostedLiveness` | cypher/live_adjacency.go:240-266 | reading liveness before a write and posting it after keeps every begun Init's answer about the node, also when the write interns the node |
| `LiveJournal.StepKeepsLiveness` | cypher/live_adjacency.go:232-303 | every kind of write, admitted or refused, keeps what each begun Init is answered about every node's liveness |
| `LiveJournal.StepKeepsRun` | cypher/live_adjacency.go:183-230 | every kind of write keeps the run each begun Init is served for a node that was live at it |
| `LiveJournal.StepKeepsInv` | cypher/live_adjacency.go:174-293 | every operator keeps the whole journal invariant, an Init adding its own instant |
| `LiveJournal.RunKeepsInv` | cypher/live_adjacency.go:174-293 | the invariant holds after every sequence of Inits and writes |
| `LiveJournal.InstantKeepsTopo` | cypher/live_adjacency.go:174-181 | two Inits at one journal number saw one topology, so reusing an instant is sound |
| `LiveJournal.TimeTravel` | cypher/live_adjacency.go:363-430 | for every sequence of Inits and writes, every Init in it and every node, the run served for the node at that Init, however much later, is the node's outgoing entry at that Init filtered by both endpoints' liveness at that Init; and it is what that entry owes, slot by slot (`LiveJournal.Owed`) |
| `LiveJournal.BuiltIsOwed` | cypher/live_adjacency.go:363-430 | what the build gives is what the entry owes: nothing for a dead source, else one position for each slot with a live destination, showing that slot, in order; for an untyped traversal too, in the columns it reads |
| `LiveJournal.OneCapturePerInit` | cypher/live_adjacency.go:192-230 | however much is written, a node is captured at most once per Init |
| `LiveTopology.LiveTopoLog.Begin` | cypher/live_adjacency.go:174-181 | beginning an Init arms the log, records the instant and keeps the log valid |
| `LiveTopology.LiveTopoLog.BeforeAdjWrite` | cypher/live_adjacency.go:192-230 | the hook with its reuse shortcut journals exactly what the reference journal does: the shortcut copies the run an operator still holds only when nothing was journaled since |
| `LiveTopology.LiveTopoLog.RunToCapture` | cypher/live_adjacency.go:206-230 | the run the shortcut reuses is the one resolving again would give |
| `LiveTopology.LiveTopoLog.NodePre` | cypher/live_adjacency.go:240-248 | the liveness read before a write |
| `LiveTopology.LiveTopoLog.NodePost` | cypher/live_adjacency.go:254-266 | the posted event is the reference journal's, also for a key interned by the write |
| `LiveTopology.LiveTopoLog.BeforeNodeRemove` | cypher/live_adjacency.go:270-282 | a removal journals the liveness before it |
| `LiveTopology.LiveTopoLog.NoteLiveness` | cypher/live_adjacency.go:284-293 | at most one event per node after the latest Init |
| `LiveTopology.LiveTopoLog.LiveAt` | cypher/live_adjacency.go:296-303 | the loop answers with the first event after the instant, or the present |
| `LiveTopology.LiveTopoLog.CaptureAt` | cypher/live_adjacency.go:307-315 | the loop answers with the first capture after the instant, if any |
| `LiveTopology.LiveTopoLog.RunAt` | cypher/live_adjacency.go:363-430 | serving into an operator's reused buffers leaves the journal alone and gives the run the whole-graph build gave at that Init: one position for each slot of the entry of that moment whose destination was live then, each column that slot's, in order |
| `LiveTopology.LiveTopoLog.ServeInto` | cypher/live_adjacency.go:363-430 | what is served is the reference serve; it is remembered for reuse exactly when served typed from the present with nothing filtered |
| `LiveTopology.LiveTopoLog.CompactInPlace` | cypher/live_adjacency.go:381-424 | moving the kept slots down within one buffer, column by column, is filtering all columns and re-keying the multi-type map |
| `LiveTopology.MutatorAdapter.AddNode` | cypher/api.go:21919-21939 | a node write with its hooks is the reference step and keeps the log valid; it interns and revives its node and touches nothing else |
| `LiveTopology.MutatorAdapter.AddEdge` | cypher/api.go:21968-21991 | an edge write with its hooks is the reference step: both ends interned and live, the new slot last in the source's entry with its own destination, handle and types, nothing else touched |
| `LiveTopology.MutatorAdapter.WriteEntry` | cypher/api.go:22075-22100 | a write to a node's outgoing entry, with its hook on that node before it, is the reference step |
| `LiveTopology.MutatorAdapter.RemoveNode` | cypher/api.go:22200-22231 | a node removal with its hooks is the reference step |
| `LiveTopology.LiveOutSource.AssembleAt` | cypher/live_adjacency.go:500-535 | for every id the slice between its two offsets is that node's run at the Init, what its entry then owes slot by slot, its codes and further codes re-keyed to where its arcs lie |
| `LiveTopology.LiveOutSource.AppendServed` | cypher/live_adjacency.go:500-535 | serving one more source adds its slice and disturbs none before it |
| `Slices.Append` | cypher/pattern_eval.go:784-789 | appending through a shared backing array leaves the prefix the shorter slice holds untouched |
| `Slices.StillHeld` | cypher/pattern_eval_varlen.go:196-201 | a live prefix holds what it did although siblings overwrite the array beyond it |
| `PatternGraph.MatchIsIsomorphic` | cypher/pattern_eval_varlen.go:8-17 | no relationship fills two places of a match, whatever mix of fixed and variable-length hops the pattern has |
| `PatternGraph.TrailBounded` | cypher/pattern_eval_varlen.go:127-147 | no trail is longer than the relationships left unused: why a hop with no upper bound ends |
| `PatternSearch.FixedHop` | cypher/pattern_eval.go:1051-1111 | a fixed hop matches exactly when some unused relationship it may cross leads to a match of the rest |
| `PatternSearch.BothLegs` | cypher/pattern_eval.go:1083-1111 | an undirected hop is its outgoing or its incoming leg, a self-loop counted by one of them |
| `PatternSearch.PairDecides` | cypher/pattern_eval.go:1168-1194 | over one hop without a property map and nothing crossed, the pair's verdict is exact whatever parallel relationships there are |
| `PatternSearch.CompletableHereOrVia` | cypher/pattern_eval_varlen.go:325-348 | a hop can be completed exactly when it may end here or cross one more unused relationship and then be completed |
| `PatternSearch.TrailReversed` | cypher/pattern_eval_varlen.go:284-322 | a directed trail read backwards is a trail the other way over the same relationships |
| `PatternSearch.Swapped` | cypher/pattern_eval_varlen.go:294-321 | searching a bound incoming hop outwards from its bound end asks the same question |
| `PatternSearch.ReachSettles` | cypher/pattern_eval_varlen.go:43-51 | what the reachability search finds answers the hop, and what it does not find has no answer unless only an undirected cycle could give one |
| `PatternSearch.ReachThenStart` | cypher/pattern_eval_varlen.go:308-321 | the exact search confined to the start node supplies exactly what the reachability search leaves open |
| `PatternReach.SimpleIsTrail` | cypher/pattern_eval_varlen.go:43-51 | a path that returns to no node uses no relationship twice |
| `PatternReach.ClosedIsTrail` | cypher/pattern_eval_varlen.go:43-51 | a directed shortest cycle is a trail |
| `PatternReach.ShortestHeld` | cypher/pattern_eval_varlen.go:358-387 | breadth first: no walk within the bound is shorter than the path the search holds to its end |
| `PatternReach.NothingLeft` | cypher/pattern_eval_varlen.go:358-387 | once the queue is empty no walk answers, with minimum at most one |
| `PatternReach.VarLenReach` | cypher/pattern_eval_varlen.go:358-397 | the queue loop returns true exactly when a relationship-distinct path of a length within the bounds ends on an accepted node, but for undirected returns to the start |
| `PatternReach.ClosesCycle` | cypher/pattern_eval_varlen.go:392-397 | the cycle test is true exactly when the hop may be crossed from the node back to the start |
| `PatternReach.PairQualifies` | cypher/pattern_eval_varlen.go:403-417 | the pair test is true exactly when some relationship of the pair may be crossed |
| `PatternReach.ExpandStep` | cypher/pattern_eval_varlen.go:590-657 | one expansion adds each unvisited neighbour once, in either direction or both, and nothing else |
| `PatternReach.ExpandOutgoing` | cypher/pattern_eval_varlen.go:606-625 | the outgoing scan marks and queues exactly the unvisited successors |
| `PatternReach.ExpandIncoming` | cypher/pattern_eval_varlen.go:638-657 | the incoming scan marks and queues exactly the unvisited predecessors |
| `PatternReach.ScanIncoming` | cypher/pattern_eval.go:672-698 | every slot pointing at the node, or the first of each source, with or without its own loops |
| `PatternEnum.TailsAreMatches` | cypher/pattern_eval.go:365-478 | the tails of a hop with nothing crossed of it yet are the matches |
| `PatternEnum.StopHere` | cypher/pattern_eval_varlen.go:465-507 | ending the hop here contributes exactly the tails whose path is empty |
| `PatternEnum.CarryOn` | cypher/pattern_eval_varlen.go:465-507 | crossing a relationship contributes exactly the tails that start with it, each once |
| `PatternEnum.JoinLists` | cypher/pattern_eval.go:365-478 | lists of tails that start differently join without repeating a match |
| `PatternRows.QualifiesIff` | cypher/pattern_eval.go:1378-1462 | which relationship a hop may cross: with types asked for, one with types of its own by them alone, any other by what its pair carries; its properties besides |
| `PatternRows.MatchIff` | cypher/pattern_eval.go:365-478 | matching hop by hop, each hop reading what those before it bound, is matching path by path: every path a trail from where the one before ended, of an admitted length (one where the minimum is omitted), to an admitted node, the one the row holds for it if any; no relationship in two paths; hops that name the same end ending on the same node |
| `PatternRows.FinalRowHolds` | cypher/pattern_eval_varlen.go:465-485 | the row of a match holds at each hop's relationship variable the relationships its path crossed, in the order crossed, or the one of a fixed hop; at its end variable the node where the path ends; and every variable that was on the row as it was |
| `PatternRows.FoundIff` | cypher/pattern_eval.go:280-350 | a start node and match are found exactly when they fit the input row: the start may be one, the paths fit, and a hop that names the start variable ends there |
| `PatternRows.FoundRow` | cypher/pattern_eval.go:280-350 | the row of a whole pattern's match holds besides the start node at the start variable, and no variable the pattern does not name is added |
| `PatternRows.HoldsIff` | cypher/pattern_eval.go:915-987 | a pattern predicate holds of a row exactly when some start node and match fit it |
| `PatternEval.NewRelPath` | cypher/pattern_eval.go:740-751 | whether used relationships need tracking at all: not for one fixed hop or one variable-length hop |
| `PatternEval.RelUsed` | cypher/pattern_eval.go:771-778 | the scan is true exactly when the relationship is on the path |
| `PatternEval.PushRel` | cypher/pattern_eval.go:784-789 | the extended path uses one more relationship and the path it extends still reads the same |
| `PatternEval.CollectOutgoing` | cypher/pattern_eval.go:541-570 | every qualifying outgoing slot once, in order |
| `PatternEval.CollectIncoming` | cypher/pattern_eval.go:620-639 | every qualifying incoming slot once, own loops left out of an undirected hop |
| `PatternEval.PatternEvaluator.IncomingSlotsOf` | cypher/pattern_eval_varlen.go:207-220 | the memo answers what scanning again would |
| `PatternEval.PatternEvaluator.VarLenCandidates` | cypher/pattern_eval_varlen.go:227-278 | every relationship the hop may cross that is not on the path, each once; charged is exactly the number of slots read, and it refuses only past a budget |
| `PatternEval.PatternEvaluator.MatchSteps` | cypher/pattern_eval.go:1051-1062 | true exactly when the steps match from the node with the relationships used so far excluded; the path is as before the call |
| `PatternEval.PatternEvaluator.MatchUnboundHop` | cypher/pattern_eval.go:1083-1111 | a fixed hop in any direction is answered exactly |
| `PatternEval.PatternEvaluator.MatchOutgoing` | cypher/pattern_eval.go:1168-1194 | the shortcut for a pattern of one hop without a property map, where the first slot of a bound end decides, answers the same as examining every slot |
| `PatternEval.PatternEvaluator.MatchOutgoingUnique` | cypher/pattern_eval.go:1221-1255 | the slot-by-slot outgoing leg is exact and skips used relationships |
| `PatternEval.PatternEvaluator.MatchIncoming` | cypher/pattern_eval.go:1287-1351 | the incoming leg is exact, with its shortcut per source |
| `PatternEval.PatternEvaluator.VarLenExists` | cypher/pattern_eval_varlen.go:325-348 | the exact search: true exactly when some trail disjoint from the used relationships completes the hop and the rest; it ends without an upper bound |
| `PatternEval.PatternEvaluator.MatchVarLen` | cypher/pattern_eval_varlen.go:284-322 | whichever search is chosen, true exactly when the variable-length hop and the rest match |
| `PatternEval.PatternEvaluator.MatchWholeHop` | cypher/pattern_eval_varlen.go:294-321 | the fast path: when the hop is the whole pattern and its minimum at most one, reachability with the cycle test (or, undirected, the start-only exact search), also after the reversal, is exact |
| `PatternEval.PatternEvaluator.MatchPattern` | cypher/pattern_eval.go:915-987 | true exactly when some start node begins a match; without hops any start node is enough |
| `PatternEval.PatternEvaluator.EvalPattern` | cypher/pattern_eval.go:189-207 | one predicate on one row: the budget and the memo are one evaluation's, a nested one shares its caller's, and the verdict is exact; there is one unless a budget is exceeded, and always for a pattern of fixed hops |
| `PatternEval.PatternEvaluator.EnumerateSteps` | cypher/pattern_eval.go:365-478 | lists each relationship-isomorphic match of the steps exactly once |
| `PatternEval.PatternEvaluator.EnumerateVarLen` | cypher/pattern_eval_varlen.go:426-454 | lists each match through a variable-length hop exactly once |
| `PatternEval.PatternEvaluator.VarLenEnum` | cypher/pattern_eval_varlen.go:465-507 | sibling extensions share the arrays of the path and of the collected hops, and each accepted list is read before the next overwrites it |
| `PatternEval.PatternEvaluator.EnumeratePatternMatches` | cypher/pattern_eval.go:280-350 | every match from every start node, each exactly once: none missed, none repeated, an undirected self-loop once; of each its row, which holds what `PatternRows.FoundRow` says; refused only past a budget, a pattern of fixed hops never |
| `CountCells.RecountTyped` | cypher/count_maintenance.go:109-126 | typing an edge moves by one exactly the cells that count it |
| `CountCells.RecountRemoved` | cypher/count_maintenance.go:133-155 | removing an edge moves by one exactly the cells that counted it |
| `CountCells.RecountStripped` | cypher/count_maintenance.go:195-217 | removing a node's out-edges moves each cell by how many of them it counted, self-loops and parallel edges included |
| `CountCells.RecountLabelled` | cypher/count_maintenance.go:225-271 | gaining a label moves exactly the cells scoped to it by the node's out-edges, but for those on the in-side |
| `CountCells.RecountUnlabelled` | cypher/count_maintenance.go:225-271 | losing the label moves them back |
| `CountCells.StillExact` | cypher/count_maintenance.go:70-83 | a cell not marked stays exact when its recount moves by what the deltas add |
| `CountMaintenance.CountStore.Apply` | graph/index/count/count.go:576-597 | one cell moves by the step, a cell at zero is dropped, no other changes |
| `CountMaintenance.CountStore.MarkDirty` | graph/index/count/count.go:783-796 | exactly the family of the mark becomes dirty |
| `CountMaintenance.CountBuffer.EnqueueEdgeDeltas` | cypher/count_maintenance.go:70-83 | the loops enqueue one delta for each cell that counts the relationship and none for any other |
| `CountMaintenance.CountBuffer.Commit` | cypher/exec/count_writeback.go:64-75 | each cell moves by the sum of its deltas, then the marks apply, then the buffer is empty |
| `CountMaintenance.RecomputeCountStore` | cypher/count_maintenance.go:300-342 | from any state, every cell then equals a recount over live relationships and none is dirty |
| `CountMaintenance.CountedMutator.SetEdgeLabelByHandle` | cypher/count_maintenance.go:109-126 | typing an edge keeps the buffered counts sound |
| `CountMaintenance.CountedMutator.RemoveEdgeByHandle` | cypher/count_maintenance.go:133-155 | removing an edge keeps the buffered counts sound |
| `CountMaintenance.CountedMutator.RemoveEdge` | cypher/count_maintenance.go:163-189 | removing a slot of a pair removes the first of the pair and counts that one |
| `CountMaintenance.CountedMutator.RemoveAllEdgesFrom` | cypher/count_maintenance.go:195-217 | removing every out-edge keeps the buffered counts sound |
| `CountMaintenance.CountedMutator.SetNodeLabel` | cypher/api.go:22103-22152 | a real gain of a label keeps the buffered counts sound; newly dirty are exactly the cells on the label's in-side and, only if the node has more out-edges than a budget allows, those on its out-side |
| `CountMaintenance.CountedMutator.RemoveNodeLabel` | cypher/api.go:22155-22194 | and a real loss of one, with the same marks |
| `CountMaintenance.CountedMutator.Commit` | cypher/count_maintenance.go:70-83 | after a commit every cell not dirty equals a recount of the graph |
| `CountMaintenance.CountedMutator.Rollback` | cypher/exec/count_writeback.go:78-81 | after a rollback the store still agrees with the committed graph |
| `CountEstimate.CountSource.RelIsTrue` | cypher/count_estimate.go:52-66 | a type estimate called exact is the number of live relationships of the type |
| `CountEstimate.CountSource.DegreeIsTrue` | cypher/count_estimate.go:74-93 | a degree estimate is called exact unless its family is dirty, and then is the true number of ends |
| `CountEstimate.CountSource.TripleIsTrue` | cypher/count_estimate.go:99-119 | a triple estimate is called exact unless either side is dirty, and then is the true count |
| `IndexEntries.DeletionRuns` | cypher/exec/delete.go:206-229 | what DELETE writes, the label stripped, then the property, then the tombstone, takes effect on any live node and leaves it absent; its removals are the strips' |
| `IndexEntries.TakesEffectIff` | cypher/api.go:22103-22231 | a write takes effect exactly when it changes a live node, creates one that is not live, or removes one that has been stripped |
| `IndexEntries.Commute` | graph/lpg/mvcc_node_conflict.go:20-34 | what two transactions write to different stores of a node takes effect in either order, and comes to the same |
| `IndexEntries.NamedAreFinal` | graph/index/hash/index.go:2163-2198 | of the values it names, a delivery leaves exactly the entry the node ends with, whatever the index held; the others it leaves alone |
| `IndexEntries.FinalIsHeld` | graph/index/hash/index.go:2163-2198 | and it names and holds the final entry once anything was written |
| `IndexEntries.OldIsNamed` | cypher/index_commit_apply.go:172-182 | and names the entry from before |
| `IndexEntries.DeliveredIs` | cypher/index_commit_apply.go:172-182 | a delivery makes the same of whatever the index held: every value it names out, the final entry in |
| `IndexEntries.CommitKeepsExact` | cypher/index_commit_apply.go:172-182 | so any commit keeps an exact index exact, deletions included |
| `IndexBuild.SeenPrefix` | graph/mvcc/mvcc.go:660-700 | whatever the interleaving, a snapshot that sees a commit sees every earlier one it clashes with: of each store of a node a prefix of its commits, of two stores not the same one |
| `IndexBuild.ToldAsKnown` | graph/index/build.go:424-473 | while a commit missed is still to publish, a replay has of the values named exactly what the deliveries were resolved on |
| `IndexBuild.ReplayConverges` | graph/index/build.go:424-473 | replaying the recording over whatever the scan read, the values named that come out wrong are exactly those told wrong by a delivery that missed a commit and named by none since: what scan and replay both carry converges |
| `IndexBuild.StepKeepsTx` | cypher/exectx.go:789-1001 | every step keeps: two active transactions have written a node only in different stores, locks are held by the delivering transaction, and what an active one has written stays valid whatever is committed to the other stores |
| `IndexBuild.StepKeepsSlots` | graph/lpg/mvcc_write.go:640-678 | every step keeps: an instant is one transaction's, and the frontier has passed none in flight |
| `IndexBuild.StepKeepsNode` | cypher/index_binding.go:305-335 | every step keeps, for each node, the recording resolved in order, each delivery on all there is or on what the last one left, and every commit accounted for: awaited by the scan or recorded |
| `IndexBuild.RunKeeps` | cypher/index_binding.go:305-335 | so in every reachable state |
| `IndexBuild.IndexIsCommitted` | cypher/index_binding.go:1343-1365 | in every interleaving, store-level conflicts included, a registered index holds for a node nobody is delivering exactly the entries of its committed state if and only if its deliveries settle it: no value told wrong for want of an unpublished commit is left unnamed, and what the scan read is named unless it saw every recorded commit to the node |
| `IndexBuild.IndexIsAboutToBe` | cypher/exectx.go:960-964 | while a delivery holds a node the index already holds what the commit will publish, if and only if so |
| `IndexBuild.OrderlyScan` | cypher/index_binding.go:383-432 | what a scan read that saw the deliveries in order is always named |
| `IndexBuild.OrderlyIsExact` | cypher/index_binding.go:305-335 | so with no delivery to the node resolved while a commit to it that had dropped its changes was unpublished, and the deliveries seen in order, no committed change is lost and no entry is left over |
| `IndexLosses.LostEntry` | cypher/index_commit_apply.go:47-52 | a concrete run after which a registered index lacks the committed entry of a node |
| `IndexLosses.StrayEntry` | cypher/index_commit_apply.go:47-52 | a concrete run after which it holds an entry for a node without the label |
| `IndexFanout.CommitNodeState.Reset` | cypher/index_commit_apply.go:214-216 | a new commit forgets what was remembered of the last |
| `IndexFanout.CommitNodeState.NodeValue` | cypher/index_commit_apply.go:237-267 | the memo answers what reading the commit's snapshot would |
| `IndexFanout.CommitNodeState.NodeEligible` | cypher/index_commit_apply.go:270-277 | likewise for eligibility |
| `IndexFanout.HashIndex.ApplyBound` | graph/index/hash/index.go:2163-2198 | one change does to the postings of its node what the maintenance rules say and touches no other node |
| `IndexFanout.Resolve` | graph/index/hash/index.go:2091-2111 | what is recorded of a change is the commit's value and eligibility |
| `IndexFanout.BuildLog.Append` | graph/index/build.go:257-302 | a log past its bound stays marked incomplete |
| `IndexFanout.FinishBuild` | graph/index/build.go:424-473 | replays every recorded change in order before the index is reachable, and refuses an incomplete log |
| `IndexFanout.ProcessRange` | cypher/index_binding.go:546-612 | a range scan adds exactly the entries the snapshot demands and collects the values read |
| `IndexFanout.Backfill` | cypher/index_binding.go:532-655 | the scan cut into one range per worker, one after another, leaves the same index and the same values as the scan whole |
| `IndexFanout.ShardsOf` | cypher/index_commit_apply.go:152-164 | the mask names every shard of a node the changes touch, but for nodes no other transaction can name |
| `CommitRuns.SetKeeps` | cypher/exec/constraint_journal.go:99-203 | a write that releases the old value and reserves the new one keeps: each holder's values its own, held by one of its nodes or marked for release and never both, every inverse leading back to where its write began |
| `CommitRuns.UndoKeeps` | cypher/exec/constraint_journal.go:135-203 | one inverse taken back, peers' writes before and after it, keeps all of it: the value given back exactly where this reservation inserted it, the mark restored where it spent one |
| `CommitRuns.PublishKeeps` | cypher/exectx.go:1113-1148 | publishing, at an instant others may have overtaken, keeps what every snapshot shows without repetition, and owes exactly what the transaction vacated |
| `CommitRuns.FreeKeeps` | cypher/exec/constraints.go:1515-1551 | what is freed after the publication is held by nobody, and nothing else is freed |
| `CommitRuns.StepKeepsSlots` | graph/lpg/mvcc_write.go:640-678 | an instant is one transaction's and is published exactly if that is kept |
| `CommitSafety.StepKeepsNodes` | graph/lpg/mvcc_write.go:640-678 | every step keeps, a panicking inverse too: no node is two open transactions' at once, nor written at a later instant than a pending one that has it |
| `CommitSafety.StepKeepsLog` | cypher/exectx.go:937-958 | every step keeps: recovery gives each node what is published or what a durable transaction not yet published wrote |
| `CommitSafety.RunKeeps` | cypher/exectx.go:789-1001 | the whole invariant holds after every sequence of steps of any number of transactions |
| `CommitSafety.UniqueAlways` | cypher/exectx.go:1149-1159 | at every point of every interleaving no unique value is held twice: not by what a snapshot at any instant shows, and not by the shared store with everyone's uncommitted writes in it |
| `CommitSafety.NoPeerTakes` | cypher/exectx.go:972-979 | whoever is let reserve a value finds it at no other node of the store, and in what is published only at nodes it has itself rewritten |
| `CommitSafety.ClaimsAre` | cypher/exec/constraint_journal.go:8-47 | the shared value-set holds exactly what is published, reserved or vacated and not yet freed: no phantom of an aborted transaction and nothing free that someone holds; with the bracket empty nothing is owed |
| `CommitSafety.VisibleIsDurable` | cypher/exectx.go:774-783 | whatever a snapshot can show is in the log by then, with the very writes |
| `CommitSafety.CrashAnywhere` | cypher/exectx.go:937-958 | a crash or reopening at any point of any run, also after an inverse has panicked: recovery gives every node what is published, or what a transaction whose record was durable had written to it; and, if none has panicked, no value twice |
| `CommitSafety.SnapshotStands` | graph/mvcc/mvcc.go:660-700 | what a snapshot at a contiguous instant shows never changes, whatever commits, aborts and publications follow |
| `CommitSafety.DurableStays` | cypher/exectx.go:1062-1070 | what became durable stays in the log and is never taken back |
| `CommitSafety.DrainedIsEnded` | graph/index/commit_gate.go:28-41 | who finds a transaction that was in the bracket no longer there finds it published and its vacated values freed, or taken back whole: no write, value or log record of it left |
| `CommitSafety.ClosedIs` | cypher/exectx.go:1099-1160 | an ended transaction was kept exactly if it is published, then also logged, and holds nothing |
| `CommitSafety.PublishedOnce` | cypher/exectx.go:1113-1148 | a transaction is published at most once |
| `CommitSafety.RestIsPublished` | cypher/exectx.go:1003-1009 | a node no open transaction has written holds, in the shared store, what is published |
| `CommitSafety.TakenBackWhole` | cypher/exectx.go:1003-1009 | whatever began, wrote, failed and was taken back in between, a node nobody has written, then or now, and no commit since, holds what it held |
| `CommitSafety.NoUpdateLost` | cypher/exectx.go:861-883 | of two commits to a node the later one's snapshot had the earlier |
| `CommitWrites.CommitsSayLast` | cypher/exectx.go:937-979 | in every run each publication, and each record in the log, has of every node its transaction wrote the value it wrote last, and of no other node anything |
| `CommitWrites.ShowsLast` | cypher/exectx.go:937-979 | so a snapshot shows, from the commit's instant on, exactly those values over what was there |
| `CommitWrites.AloneTakesNext` | cypher/exectx.go:849-1001 | the steps of a commit with nobody else's between take the next instant and publish at it |
| `Transactions.ReplayRestores` | cypher/undo.go:126-166 | replaying the undo log puts back, for each node, what it held before its first write whose inverse runs, however often it was written, and touches no other node |
| `Transactions.OnlyPanickedHarmed` | cypher/undo.go:129-157 | an inverse that panics harms only its own node: every other one is restored as if none had |
| `Transactions.UndoLog.Replay` | cypher/undo.go:137-166 | every inverse runs, the last recorded first, one that panics is skipped and reported, and the log is empty after |
| `Transactions.Engine.Frontier` | graph/mvcc/mvcc.go:660-700 | the loop finds the contiguous frontier: nothing below it is in flight, and it goes no further only because of one that is |
| `Transactions.ExplicitTx.Begin` | cypher/exectx.go:424-545 | a handle opens a transaction of its own at the frontier, whatever the others do meanwhile |
| `Transactions.ExplicitTx.Read` | cypher/exectx.go:623-642 | a read-only transaction reads, at any time, what was visible when it began |
| `Transactions.ExplicitTx.Exec` | cypher/exectx.go:613-760 | a statement succeeds without dooming the transaction exactly when nothing else in it fails and each write, in the state it meets after the others' turn, is to a node no other open transaction has written and no newer commit has, and takes a value that is free or its own to take; its steps are exactly the writes so admitted; the first that is not fails the statement, or is recorded; a failing statement leaves its writes and poisons the transaction; with nobody else about, writes to free nodes of free values all succeed; a finished or read-only handle is refused unchanged |
| `Transactions.KeptShows` | cypher/exectx.go:937-979 | a transaction kept is visible from its instant on exactly as it wrote last, and, with nobody else about, in all there is to see |
| `Transactions.ExplicitTx.RollbackInBarrier` | cypher/exectx.go:1062-1098 | the whole undo log is taken back, last write first, while the others go on; an inverse that panics is skipped and reported |
| `Transactions.ExplicitTx.CommitWALOnly` | cypher/exectx.go:943-958 | the instant is allocated before the record that carries it |
| `Transactions.ExplicitTx.Release` | cypher/exectx.go:1113-1160 | ends the transaction exactly once: published or aborted, then its vacated values freed, the bracket last, nothing held afterwards |
| `Transactions.ExplicitTx.Finalise` | cypher/exectx.go:849-982 | the verdict, in its order: the recorded conflict, the constraints, the log; any refusal takes everything back |
| `Transactions.ExplicitTx.Commit` | cypher/exectx.go:789-1001 | all or nothing, whatever the others do between any two of its steps: it is such a run of the machine, step by step; it succeeds exactly when no conflict, violation or log failure stands against it, and then is published, after it is logged, and visible from its instant on: every node it wrote as it wrote it last, every other as before; with any other verdict it is neither and holds nothing; a finished or poisoned handle is refused unchanged |
| `Transactions.ExplicitTx.Rollback` | cypher/exectx.go:1016-1047 | takes everything back and ends the handle, poisoned or not, leaving it neither published nor logged; the second call is refused |
| `PlanCache.HitRecency` | cypher/plan_cache.go:222-239 | in terms of the history of uses, a hit moves its key to the front and drops none |
| `PlanCache.StoreRecency` | cypher/plan_cache.go:265-295 | a store goes to the front and only the least recently used key gives way, only at capacity |
| `PlanCache.SharesExact` | cypher/plan_cache.go:180-210 | the shard bounds are all at least one and sum exactly to the capacity |
| `PlanCache.Shard.Get` | cypher/plan_cache.go:222-239 | found exactly when among the most recently used keys that fit; a hit counts as a use |
| `PlanCache.Shard.LoadOrStoreAt` | cypher/plan_cache.go:265-295 | the entry there, promoted; or the one supplied, installed only if compiled under the current generation; list and map keep the same nodes |
| `PlanCache.Cache.constructor` | cypher/plan_cache.go:180-210 | the shard count is the largest power of two within both bounds, a non-positive capacity defaults |
| `PlanCache.Cache.Get` | cypher/plan_cache.go:222-239 | a lookup changes no entry |
| `PlanCache.Cache.LoadOrStoreAt` | cypher/plan_cache.go:265-295 | a store changes no entry but its own and at most one evicted from the same shard; an eviction needs as many keys in use of the same hash residue as that shard's share; an outdated one is handed back uninstalled |
| `PlanCache.Cache.Clear` | cypher/plan_cache.go:331-347 | every shard is emptied and the generation advances by one |
| `PlanCache.Cache.Len` | cypher/plan_cache.go:357-366 | the sum over the shards, never above the capacity |
| `PlanCacheRuns.StoreKeeps` | cypher/plan_cache.go:265-295 | storing after a compilation keeps every cached, in-flight and received entry new enough |
| `PlanCacheRuns.JoinKeeps` | cypher/plan_cache.go:503-529 | joining a running build keeps it only under the same generation |
| `PlanCacheRuns.StepKeeps` | cypher/plan_cache.go:331-347 | every step of every caller, eviction, catalog change or clear keeps the invariant |
| `PlanCacheRuns.CachedIsFresh` | cypher/plan_cache.go:142-153 | in every interleaving no cached entry was compiled from a catalog older than the last clear |
| `PlanCacheRuns.ReceivedIsFresh` | cypher/plan_cache.go:491-529 | and no caller receives, from the cache, an in-flight build or its own, an entry older than the last clear before it read its generation |
| `PlanCacheRuns.KeptApart` | cypher/plan_cache.go:222-295 | in every interleaving the entry cached under a key is of that key; so is a build in flight under it, and what that build results in |
| `PlanCacheRuns.ReceivedIsOwn` | cypher/plan_cache.go:491-529 | and a caller answered with an entry is answered with one of the key it asked for |
| `PlanCacheRuns.AskedKey` | cypher/plan_cache.go:491-529 | however a request goes, through cache, group and compilation, its key remains the one asked for |
| `PlanCacheRuns.StoredIsServed` | cypher/plan_cache.go:265-295 | an entry stored with no clear since its compilation began serves every later lookup of its key, until the key is evicted or the cache cleared |
| `PlanCacheRuns.WaiterGetsLeaders` | cypher/plan_cache.go:491-529 | whoever waits for a build gets, whenever it asks, the very entry its leader stored |
| `PlanCacheRuns.WaiterAfterFailure` | cypher/plan_cache.go:491-529 | when the leader fails, whoever waits fails with it; when it panics, whoever waits compiles alone |
| `UnionFind.RootsAreClasses` | cypher/notification.go:204-244 | two keys have the same root exactly when a chain of the unions performed joins them |
| `UnionFind.DisjointSet.Add` | cypher/notification.go:214-218 | a new key is a class of its own, an old one is left |
| `UnionFind.DisjointSet.Find` | cypher/notification.go:221-230 | returns the root and compresses the path; the parent map stays acyclic and the classes stay |
| `UnionFind.DisjointSet.Union` | cypher/notification.go:233-244 | joins the two classes and no others; a key not in the structure joins nothing |
| `UnionFind.DisjointSet.AtLeastTwo` | cypher/notification.go:91-186 | counting roots tells exactly whether the keys fall into at least two classes |
| `Cartesian.Referenced` | cypher/notification.go:296-376 | the distinct known variables a predicate mentions, none else |
| `Cartesian.PredConnectsIff` | cypher/notification.go:146-176 | a predicate connects what it mentions of the part if and only if the first known variable it mentions is in the part, or all were connected already |
| `Cartesian.NoneMissed` | cypher/notification.go:91-186 | no disconnected part goes unreported |
| `Cartesian.ExactIff` | cypher/notification.go:91-186 | a part is judged right if and only if its components really fall into two classes or more, or every predicate whose first known variable is of an earlier part mentions only what is connected without it |
| `Cartesian.ExactWhenAnchored` | cypher/notification.go:91-186 | so a part all of whose predicates mention it first is judged right |
| `Cartesian.OnePartQuery` | cypher/notification.go:91-186 | a query without WITH or UNWIND is reported exactly when its components, joined by shared variables and by everything its predicates mention, form at least two classes |
| `Cartesian.EarlierVariableFirst` | cypher/notification.go:91-186 | a concrete connected part that is reported all the same |
| `Cartesian.AnalyseCartesianProduct` | cypher/notification.go:91-186 | the clause loop reports exactly when some part's classes under the unions performed are at least two; for a query of one part, when its components really fall apart |
| `LabelCounts.Reading.NeverUnder` | cypher/estimate.go:205-235 | what a plan choice is told of a label never counts too few and is the number where it says exact, which it does exactly unless history is live past the backlog |
| `LabelCounts.Reading.RangeIsAllowed` | graph/lpg/mvcc_index.go:1379-1478 | a bound leaves open every count within the churn of the label's bitmap, and no other |
| `JoinReorder.NeverSlower` | cypher/join_reorder_plan.go:699-719 | an admitted swap costs strictly less at every true row count within the certified intervals, the drains being as counted, both when every filtered arm is scanned and when every one is seeked |
| `JoinReorder.WithinIff` | cypher/join_reorder_plan.go:158-205 | the interval an estimate certifies is every count of rows, none negative or above the drain, no further from it than its error |
| `JoinReorder.ThreefoldUnderStats` | cypher/join_reorder_plan.go:699-731 | with a statistic on the path the scanned win is at least threefold |
| `JoinReorder.BareGate` | cypher/join_reorder_plan.go:699-719 | with drain equal to rows and no statistics the gate fires if and only if the inner arm is smaller |
| `JoinReorder.BoundsIff` | cypher/join_reorder_plan.go:468-473 | two labels told by their bounds at one reading: the swap is admitted exactly when the raw counts compare so, and is never slower, for every pair of true counts, exactly when they are the churn apart |
| `JoinReorder.BoundMisleads` | cypher/join_reorder_plan.go:468-473 | a concrete reading at which a swap on two bounds is admitted and slower |
| `JoinReorder.ScannedIff` | cypher/join_reorder_plan.go:699-719 | of arms whose drain and rows are only known within ranges, bounded counts among them: never slower, with every filtered arm scanned, if and only if not so at six corners |
| `JoinReorder.SeekedIff` | cypher/join_reorder_plan.go:699-719 | and with every filtered arm seeked, if and only if the most rows the inner arm can emit are no more than the fewest the outer one can |
| `JoinReorder.ProductCommutes` | cypher/join_reorder_plan.go:308-324 | a Cartesian of disjoint arms emits each row as often whichever drives |
| `JoinReorder.ForEachSame` | cypher/join_reorder_plan.go:308-324 | a subplan run for each outer row emits the same, but for the order, over outer rows that are the same but for theirs |
| `JoinReorder.SwapsKeepRows` | cypher/join_reorder_plan.go:747-777 | exchanging the arms of any set of candidates, at any depth and under whatever operators, correlated ones included, keeps the row multiset; only the candidates' own arms are disjoint |
| `JoinReorder.BareCostIsTrue` | cypher/join_reorder_plan.go:404-452 | with exact scan counts the number computed for a whole component is the number of its rows |
| `JoinReorder.CostKnownIff` | cypher/join_reorder_plan.go:404-452 | a component has a cost exactly when every scan in it has its estimates, and, where it is a product, each of them without an error |
| `JoinReorder.CostProvenance` | cypher/join_reorder_plan.go:404-452 | however a component is put together, its cost is trusted exactly when every estimate of every scan in it is, exact exactly when all are, and, trusted, under the statistics' margin exactly when one of them is a statistic |
| `JoinReorder.ComputeSwaps` | cypher/join_reorder_plan.go:747-777 | the loop chooses exactly the candidates with both costs known and trusted that win |
| `JoinReorder.AdmittedIsCheaper` | cypher/join_reorder_plan.go:699-777 | with exact counts, an admitted swap of two whole components drives from the one with fewer rows |
| `AnchorSwap.MatchAnchorSite` | cypher/anchor_swap_plan.go:237-287 | matched are exactly the plans of the sites with both ends named (one hop of one type, one label at each end, no path variable, no sibling to be unequal to), each to its own site |
| `AnchorSwap.MirrorKeepsRows` | cypher/anchor_swap_plan.go:237-329 | the mirror of any matched directed site emits each (from, rel, to) row as often, on every labelled multigraph |
| `AnchorSwap.MirrorTwice` | cypher/anchor_swap_plan.go:295-329 | mirroring twice is the written pattern |
| `AnchorSwap.ProbeDepth` | cypher/anchor_swap_plan.go:510-522 | the least depth of a binary search over that many slots, at most 64 |
| `AnchorSwap.ProbeDepthHalves` | cypher/anchor_swap_plan.go:480-522 | each level halves what is left to search: none for no slot, one more than for half of them, 64 at most |
| `AnchorSwap.ProbesBounded` | cypher/anchor_swap_plan.go:480-509 | whatever the depths, one probe costs less than one relationship examined |
| `AnchorSwap.NeverSlower` | cypher/anchor_swap_plan.go:401-522 | a swap admitted on two counts of one reading, exact or bounds, is never slower, for any true counts the reading allows and any true depths up to 64, whatever the depth estimate said |
| `AnchorSwap.NeverSlowerIff` | cypher/anchor_swap_plan.go:401-522 | for counts read at two moments: never slower, whatever the two leave open, if and only if not so in the worst case of them |
| `AnchorSwap.BoundMisleads` | cypher/anchor_swap_plan.go:401-472 | two readings with the reclaimer between them on which a swap is admitted and slower |
| `AnchorSwap.ComputeAnchorSwaps` | cypher/anchor_swap_plan.go:401-472 | the loop chooses exactly the directed, trusted sites that win by the margin |
| `BoundKeySeek.EqualityDisjunction` | cypher/correlated_seek_plan.go:207-216 | the loop builds the right-nested disjunction |
| `BoundKeySeek.DisjunctionTrue` | cypher/correlated_seek_plan.go:207-216 | the disjunction is true of a row exactly when some key equals the property, nulls in the set included |
| `BoundKeySeek.PushableKeyEquality` | cypher/correlated_seek_plan.go:170-194 | the loops find the first conjunct, in either operand order, with a row-invariant key |
| `BoundKeySeek.PushableIff` | cypher/correlated_seek_plan.go:170-312 | something is pushed exactly when some conjunct is an equality, either way round, of a property of the scan's variable with a variable the outer plan gives a parameter, a non-null literal, or a set of them |
| `BoundKeySeek.BindingHolds` | cypher/correlated_seek_plan.go:265-280 | every row under the projection holds the key, and its value is the same on any row |
| `BoundKeySeek.KeySetHolds` | cypher/correlated_seek_plan.go:297-312 | every row under the unwound list holds one of its elements |
| `BoundKeySeek.PushedImplied` | cypher/correlated_seek_plan.go:29-57 | on every joined row the retained predicate implies the pushed one, in three-valued logic |
| `BoundKeySeek.FoldKeepsRows` | cypher/correlated_seek_plan.go:112-135 | the rewritten plan emits the written plan's rows in the same order, whichever hints the build evaluates and whichever it drops |
| `BoundKeySeek.EitherWay` | cypher/correlated_seek_plan.go:29-57 | a build may drop every hint, or evaluate every one |
| `BoundKeySeek.FoldTwice` | cypher/correlated_seek_plan.go:109-111 | a second pass changes nothing |
| `BoundKeySeek.OnlyHints` | cypher/correlated_seek_plan.go:112-135 | the rewrite adds hints and nothing else |
| `BoundKeySeek.FoldLeavesNone` | cypher/correlated_seek_plan.go:112-135 | and leaves no key unpushed that could be |
| `BoundKeySeek.HintsErased` | cypher/correlated_seek_plan.go:112-135 | a plan has no hint exactly when taking the hints out leaves it as it is |
| `BoundKeySeek.ConjunctsTrue` | cypher/correlated_seek_plan.go:170-194 | a predicate is true of exactly the rows each of its conjuncts is true of |
| `BoundKeySeek.EqTrueIff` | cypher/expr/value.go:370-400 | two values are truly equal exactly when they are the same and nothing in them is null or NaN |
| `CountVar.Walk` | cypher/count_var_rewrite.go:248-319 | the walk accepts exactly the allowlisted subtrees and its flag says exactly whether one of them binds the variable |
| `CountVar.NeverNullHolds` | cypher/count_var_rewrite.go:214-319 | a variable the guard accepts is non-null in every row the plan emits, on every graph |
| `CountVar.CountsAgree` | cypher/count_var_rewrite.go:118-174 | count of a variable equals count(*) on exactly the groups in which it is nowhere null |
| `CountVar.RewriteKeepsOutput` | cypher/count_var_rewrite.go:118-174 | the rewritten aggregation emits the same groups, columns and values |
| `CountVar.RewrittenIff` | cypher/count_var_rewrite.go:118-213 | an aggregate becomes count(*) exactly when it is a count, in whatever case, of one bare variable, without DISTINCT, that the guard accepts; any other stays |
| `CountVar.GroupIs` | cypher/exec/eager_aggregation.go:335-403 | a group is exactly the rows of its key, each as often |
| `CountVar.GroupsAre` | cypher/exec/eager_aggregation.go:178-232 | there is one group for each key a row has, and without keys one in any case |
| `CountVar.OptionalHopIsNull` | cypher/count_var_rewrite.go:248-262 | an optional expansion can leave its variable null, so its refusal is needed |
| `CountVar.OptionalSubplanIsNull` | cypher/count_var_rewrite.go:248-262 | so can an optional subplan |
| `CountVar.ArgumentIsNull` | cypher/count_var_rewrite.go:248-262 | so can an argument from an enclosing scope |
| `CountVar.Rewrite` | cypher/count_var_rewrite.go:118-174 | returns the node itself exactly when nothing is rewritten, else a fresh node over a fresh slice; the shared node is not written |
| `CountVar.RewriteMemo.Get` | cypher/count_var_rewrite.go:385-405 | among calls one after another, a stored rewrite is returned to every later caller, and past the ceiling nothing more is stored |
| `PendingDelta.PendingIndexDelta.AddProp` | cypher/index_pending_delta.go:180-191 | blocks what it blocked and every pair on the property; an unknown property blocks everything |
| `PendingDelta.PendingIndexDelta.AddPlanWrites` | cypher/index_pending_delta.go:258-297 | blocks what it blocked and exactly the pairs the plan's write clauses cover, early exits included |
| `PendingDelta.NewPendingIndexDelta` | cypher/index_pending_delta.go:109-149 | blocks exactly the pairs some buffered change touches |
| `PendingDelta.MutatorIndexDelta` | cypher/index_pending_delta.go:315-375 | blocks the union of both halves; the sole seek leaf is judged on the buffered half alone |
| `PendingDelta.FindSoleSeekLeaf` | cypher/index_pending_delta.go:413-428 | the descent finds the sole seek leaf |
| `PendingDelta.LeafOfChain` | cypher/index_pending_delta.go:394-428 | a plan has a sole seek leaf exactly when it is any number of the four plain writes over a selection on a labelled scan, and it is that selection |
| `PendingDelta.CoversExact` | cypher/index_pending_delta.go:258-297 | a pair is covered if, and with a label only if, some run of the plan could write a change an index on it consumes |
| `PendingDelta.TouchedExact` | cypher/index_pending_delta.go:109-177 | a pair is blocked by the buffer if, and with a label and every id resolving only if, a buffered change concerns it |
| `PendingDelta.SoleLeafLooksFirst` | cypher/index_pending_delta.go:394-428 | the sole seek leaf looks up before its statement writes anything |
| `PendingDelta.UnblockedSeekIsFresh` | cypher/index_pending_delta.go:162-177 | when a seek is not blocked, no change buffered, or written by the statement before the lookup, concerns an index the seek may use |
| `MergeProbe.UntouchedEntries` | cypher/merge_index_probe.go:23-36 | buffered writes that do not concern the pair leave every node's entry in the transaction's view as the snapshot has it |
| `MergeProbe.EqualSameKey` | cypher/merge_index_probe.go:46-58 | equal numbers share a key of the float companion, so rounding only adds candidates |
| `MergeProbe.MergeIndexProbe.OwnWritesTouch` | cypher/merge_index_probe.go:269-299 | the incremental scan equals a full rescan of a growing buffer, and a drained buffer is refused for good |
| `MergeProbe.MergeIndexProbe.Candidates` | cypher/merge_index_probe.go:217-264 | answers exactly when it may, and then no node of the transaction's own view that matches is missing from the candidates |

## Left out

- LiveTopology.MutatorAdapter.WriteEntry: the ends of a removal by handle are taken to come in stored order, as the executor passes them; were they swapped, the source would hook the named source before `orientHandleEndpoints` turns them (`cypher/api.go:22075-22100`).
- LiveTopology.LiveTopoLog.CompactInPlace: captures are values here, so that compacting an operator's buffer cannot reach a stored capture holds by construction.
- Live log: the CSR pair cache, the fallback adjacency and the positional type lookup for storage without handles; the log's mutex (one goroutine runs a statement).
- Pattern search: what a search had found when a budget ran out is not returned, and cancellation is left out; property maps that read the same hop's variables, pre-bound relationship variables and lists, the labelled-hop shortcut, node ids that do not resolve, and the reuse of candidate buffers. Labels and property maps of a hop are a predicate on slots and nodes, and a pair's labels are the union of its slots' types.
- A pattern of a lone node holds as soon as there is a start node: the labels and properties written on it are not tested (`cypher/pattern_eval.go:1876-1878`), and `PatternEval.PatternEvaluator.MatchPattern` says so.
- Counts: storage without handles (per-pair fallbacks), concurrent uncommitted peers, and the undo log, which is taken to restore the graph (what it restores is `Transactions.ReplayRestores`); an edge is typed once and a relabel really changes the label, as the callers ensure.
- IndexBuild.IndexIsCommitted: speaks of string-keyed hash indexes and of a schema without constraints, under which a node's writers clash whatever they write; autocommit statements are excluded from a build by the schema gate and are not steps of the model; of the explicit transaction it keeps the order of instant, decision, delivery, publication and release, and once it has decided it does not abort (an applier that panics fail-stops the engine).
- Explicit transactions: one property under one unique constraint; a write's check, reservation and store are one step, as are an inverse's; the count deltas and index changes of a commit are `CountMaintenance` and `IndexBuild`; panics other than an inverse's, sessions, the parsing and planning of a statement, and how a violation is found (it is a verdict) are left out; that a constraint may be registered meanwhile too.
- CommitSafety.UniqueAlways: speaks of runs in which no inverse has panicked, as do `NoPeerTakes`, `ClaimsAre`, `RestIsPublished`, `TakenBackWhole` and the last clause of `CrashAnywhere`; after one the source itself calls the graph inconsistent until it is reopened (`cypher/undo.go:46-57`), and `Transactions.OnlyPanickedHarmed` says what is restored all the same. What is said of snapshots, instants, ends, lost updates, the log and what recovery makes of it holds of every run.
- Explicit transactions: what a transaction sees of its own uncommitted writes over its snapshot is not stated; it may hold a value its snapshot still shows elsewhere and a peer has vacated since.
- IndexFanout.Backfill: its workers run one after another; each has its own range, so no step of one reads what another writes.
- CountVar.RewriteMemo.Get: the race that makes concurrent callers share one node is not modelled.
- CountMaintenance.CountedMutator.SetNodeLabel: the nodes held to be newly created and without a relationship are remembered for the transaction, in the source for the statement, so labelling such a node in a later statement than its creation marks families dirty there and not here; it has no relationship to count.
- Index builds that overflow their log or are abandoned end without an index; retrying is left to the caller.
- Plan cache: locks are the steps of the state machine; a shard's list is a sequence, so pointers between its nodes are not modelled; metrics are left out.
- Cartesian: expression forms below a predicate; a predicate is the variables it mentions in walking order.
- Reorderings: real numbers in place of floating point; nothing is claimed for one filtered arm seeked and the other scanned; a count computed under a backlog of at most 4096 is taken to be exact, and the bound of a cancelled statement, which never runs, is left out; an operator emits the same for inputs that differ in order only, the rule that keeps order-sensitive plans as written and the plan walks that collect candidates being left out.
- Bound-key pushdown: plan trees are values, so the in-place replacement of an arm and the identity of a hint are not captured; errors raised by other conjuncts, missing parameters, and the seek operator that may claim a hint are left out.
- count(v): filters, hops and index accesses are arbitrary functions of the graph; aggregates other than plain counts are arbitrary functions of their groups.
- Pending summary: pointer identity of the exempt selection is an identifier; that the exempt seek returns the same rows as the scan it replaces is left out.
- MERGE probe: how an index is found by name, and that an index described as current holds the snapshot's entries, are taken as given.
- Metrics, EXPLAIN and PROFILE rendering, hash join and index nested-loop operators, index hydration, layout memos, clause masks and degree rewrites.
