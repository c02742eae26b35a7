# LV_DCP: graph, protocol and text-surgery proofs

A Dafny model of the state-heavy cores of LV_DCP and proofs about them. `dafny verify dfyconfig.toml` checks everything.
Paths below are relative to the root of the LV_DCP repository.

## What is modelled

**Centrality.** `Centrality.PageRank` is the damped power iteration with its loops, its tolerance exit and its final
renormalization, over the reals. It is proved against one step of a Markov chain (`Chains`, `PowerIteration`): pushing
shares along out-edges and teleporting dangling mass is multiplication by a stochastic kernel. From that follow
conservation of mass, the contraction factor, the geometric bound on the change, and the existence, the uniqueness and
the distance of the true scores (`FixedPoints` solves for them by elimination). `CentralityEquation` says all of that
over the edges: the equation of one iteration and of the true scores, for networks and for relation graphs. *The
module text of `libs/graph/centrality.py` says dangling mass is spread uniformly; the code spreads it by the teleport
vector, and so does the model.*

**Graph and impact analysis.** `GraphBuilder.Graph` keeps forward and reverse adjacency and a cached ranking;
`Reachability.Drain` is the queue loop shared by `expand` and the transitive part of `analyze_impact`. Its invariant
is that queue tags are non-decreasing true distances. *`analyze_impact` says it uses the project graph for fan metrics
and a graph-only heuristic; the code never reads its graph argument and reports no dependents when relations are
missing. An empty definer path is skipped by one of its two maps only.*

**Background wiki refresh.** Starter, runner, canceller and reader as a state machine over single file operations,
spawns and signals (`WikiRefresh`). `Disciplined` collects what safety rests on, beside PIDs not being reused and
starts not overlapping: the starter survives its spawn until its child is announced or gone, no spawn falls between a
cancel's look and its action, the runner's first write is not observed half done, and no run gets more than an hour
older than the earliest start time its lock shows or may still show. `WikiRefreshLimits` shows that this is the exact
condition, step by step: any step outside of it, from any reachable state, has a disciplined continuation that is
unsafe. `WikiRefreshLiveness` covers every run, disciplined or not: with no runner left the next start gets through,
exactly unless the lock has neither a pid nor a start time. A cancel that comes late leads to such a lock, and no
command ever clears it again. `WikiRefreshSnapshots` says what readers see of one run. The start time published by the
starter is not final: the runner's first write may replace it. And since the status is composed of two reads,
`.refresh.last` first, a reader can see the lock gone and still hold an older record: it does exactly if a run makes
its record between the two. `WikiRefreshReports` follows the phase and the numbers in the lock from report to report.
`WikiRefreshCommands.Project` has the commands and the runner as methods, each proved to be a run of the machine.

**Chunker.** The accumulator loop with its two splits, for any tokenizer that counts nothing in the empty text; its
contract has exactly one solution. The limit can be exceeded: a chunk that begins with lines carried over a blank-line
split takes one more line without looking. `ChunkerLimits` has the exact condition, and for every limit from four on a
chunk of nearly twice the limit.

**Wikilinks.** The rewriter on lines and documents; `WikilinksTargets` says which texts are links and what becomes of
them. *Its documentation calls it idempotent and says images are left alone; neither holds always.* A line comes back
unchanged exactly if its links are all external. The second pass can go wrong where a rewritten target holds `](`: a
link opens there and closes behind. `WikilinksIdempotence` traces that on the input: every document converts to a
fixed point exactly if its lines are stable, and `[a](b](c))` is not. An image is left alone exactly if no bracket in
its alternative text starts a link and its source holds none to rewrite, or such a bracket does and the source is
external (`WikilinksImages`).

**Wiki mirror.** The write pass and the drift cleanup of the Obsidian mirror, with pages that cannot be read, written
or removed, and the text of every page (`WikiMirrorPages`). A page that cannot be rewritten loses its previous copy,
because the cleanup removes what was not written. *Its documentation says a single bad file does not wedge the sync;*
a page that cannot be decoded ends the pass before the cleanup, and stale pages stay for as long as that lasts.

**Managed section.** Install and uninstall of the block in CLAUDE.md. A version text is fine if, together with the
comment close that follows it, it does not read as the end marker; that is exactly when a second install replaces the
first and an uninstall undoes an install. Versions free of both markers need not be fine.

**Git history.** The parser and the printer it inverts, exactly on the commit lists whose fields cannot be confused. A
header with too few fields makes the parser report the commit before it once more; each commit is reported once
exactly if no such header follows a full one.

**Usage cache.** Offset reads against full reads. A sync whose read fails still moves the offset past what it did not
read, and those events are lost for good; a file that grows between the size check and the read has its growth counted
twice. *Malformed lines are said to be skipped;* a line that is JSON but no object raises, and from then on every sync
of its file does.

**Daemon.** The debounce buffer and the pass over its content; `DaemonProperties` lets edits, delivery of their
events, flushes, parts of passes and failures interleave, and shows that the index catches up with the disk. A failed
pass is not retried: it is harmless to a path exactly if the index was right about it or another event for it is on
its way (`DaemonCatchingUp`).

**Registry.** The operations on the list of projects, and the save, one file step at a time, with failures and machine
crashes anywhere. With one writer at a time the file always reads as the result of whole operations. *`save_config`
calls every writer crash-safe; two writers share the name of the temporary file.* A load while another save is under
way can always end with a registry that is empty, torn or lacks the first update, so working alone is the exact
condition (`RegistryOverlaps`).

## Model

| member | source | states |
|---|---|---|
| Chains.NothingIsLost | libs/graph/centrality.py:85-105 | for any scores, what arrives at all nodes in one step adds up to what the nodes held: the sums over sources and over targets agree |
| Chains.StepConservesMass | libs/graph/centrality.py:82-105 | total mass after a step is (1-d) + d times the mass before, dangling mass included |
| Chains.StepIsDistribution | libs/graph/centrality.py:82-105 | a step keeps scores non-negative and summing to one, and leaves every node at least (1-d) times its teleport share |
| Chains.StepContracts | libs/graph/centrality.py:82-105 | one step is an L1 contraction with factor damping, between any two score assignments |
| PowerIteration.AfterIsDistribution | libs/graph/centrality.py:79-108 | every iterate is a probability distribution with the teleport shares as lower bounds from the first step on |
| PowerIteration.AfterContracts | libs/graph/centrality.py:82-105 | k steps contract by the k-th power of the damping |
| PowerIteration.DeltaBound | libs/graph/centrality.py:96-108 | the change of iteration k is at most 2*d^(k-1) |
| PowerIteration.RunStopsAtFirstSmallChange | libs/graph/centrality.py:82-108 | the loop returns the iterate of the first step whose change is below tolerance, or the last one |
| PowerIteration.ExitIsForced | libs/graph/centrality.py:82-108 | once 2*d^(k-1) is below tolerance the loop has stopped by step k |
| PowerIteration.FixedPointIsNear | libs/graph/centrality.py:82-108 | after a change of size delta any fixed point is within d/(1-d)*delta |
| PowerIteration.ToleranceExitIsNearFixedPoint | libs/graph/centrality.py:107-108 | on a tolerance exit any fixed point is within d/(1-d)*tolerance of the result |
| PowerIteration.IteratesApproachFixedPoint | libs/graph/centrality.py:82-108 | iterate k is within 2*d^k of a fixed distribution |
| PowerIteration.FixedPointIsUnique | libs/graph/centrality.py:82-108 | below damping one there is at most one fixed point |
| PowerIteration.LaterIteratesStayNear | libs/graph/centrality.py:82-108 | every later iterate stays within delta/(1-d), whether or not a fixed point exists |
| FixedPoints.Solve | libs/graph/centrality.py:97-104 | a system with non-negative weights whose rows add up to less than one has a non-negative solution, by elimination |
| FixedPoints.FixedDistributionExists | libs/graph/centrality.py:82-108 | below damping one the chain has a fixed distribution |
| Centrality.DanglingMass | libs/graph/centrality.py:85 | the dangling mass is the sum of the scores of nodes without out-edges |
| Centrality.AddShare | libs/graph/centrality.py:92-94 | each out-neighbour gains exactly one share, all other entries stay |
| Centrality.PushShares | libs/graph/centrality.py:87-94 | after the push loop every node holds the sum of d*score/degree over its in-neighbours |
| Centrality.PushedEqualsPulled | libs/graph/centrality.py:85-104 | teleport, dangling and pushed parts together are one step of the Markov chain |
| Centrality.Blend | libs/graph/centrality.py:96-105 | the blend loop yields the next vector of the chain and its L1 distance from the previous one |
| Centrality.Teleport | libs/graph/centrality.py:66-77 | biased by positive weights on nodes of the graph when there are any, uniform otherwise |
| Centrality.Renormalize | libs/graph/centrality.py:110-114 | divides by the total when it is positive |
| Centrality.PageRank | libs/graph/centrality.py:33-114 | the nested loops compute the function Rank of the network, for any damping, iteration count, tolerance and personalization |
| CentralityProperties.KernelIsStochastic | libs/graph/centrality.py:63-94 | the rows of the kernel, dangling ones included, are probability distributions |
| CentralityProperties.TeleportIsDistribution | libs/graph/centrality.py:66-77 | the teleport vector is a probability distribution whatever the personalization holds |
| CentralityProperties.RunVecAgrees | libs/graph/centrality.py:79-108 | the iteration over dictionaries and the iteration of the chain stop at the same step with the same scores |
| CentralityProperties.RankIsIterate | libs/graph/centrality.py:79-114 | the result is an iterate of the uniform start, a probability distribution, and the renormalization is the identity |
| CentralityProperties.RankKeepsTeleportShare | libs/graph/centrality.py:97-104 | no node ends below (1-d) times its teleport share |
| CentralityProperties.RankIsNearFixedPoint | libs/graph/centrality.py:107-114 | the returned scores are within d/(1-d)*tolerance of any fixed point after a tolerance exit, and within 2*d^k of a fixed distribution after k steps |
| CentralityProperties.TrueScoresExist | libs/graph/centrality.py:33-114 | below damping one there is exactly one vector of true scores, and for every iteration limit and tolerance the returned scores are within 2*d^k of it, and within d/(1-d)*tolerance after a tolerance exit |
| CentralityEquation.TeleportFollowsWeights | libs/graph/centrality.py:66-77 | the teleport share of a node is its positive weight over the sum of positive weights on nodes, or one over their number when there are none |
| CentralityEquation.StepFollowsEdges | libs/graph/centrality.py:85-105 | for any scores one step gives a node (1-d)*t + d*t*(scores of nodes without references) + d*(sum over the nodes that refer to it of score / number of references) |
| CentralityEquation.FixedIffBalanced | libs/graph/centrality.py:82-108 | the true scores are those that satisfy this equation at every node |
| CentralityEquation.RankStarts | libs/graph/centrality.py:79-82 | before the first iteration every node has one over their number |
| CentralityEquation.RankSteps | libs/graph/centrality.py:82-105 | one more iteration changes the returned scores by this equation |
| CentralityEquation.RankStops | libs/graph/centrality.py:82-108 | with a tolerance the scores are those of the first iteration whose total change is below it, or of the last one |
| CentralityEquation.GraphScoresFollowEdges | libs/graph/builder.py:64-76 | the same over the edges of a relation graph: what a node gets is decided by the edges that lead to it |
| CentralityEquation.DefaultRankStops | libs/graph/builder.py:64-76 | the ranking of a graph has damping 0.85, tolerance 1e-8 and at most a hundred iterations |
| Reachability.WithinIffPath | libs/graph/builder.py:47-59 | being within k levels is the same as having a path of at most k edges |
| Reachability.LevelsAreVisited | libs/graph/builder.py:51-58 | all nodes up to the smallest queued distance have been visited: completeness of the search |
| Reachability.SearchEnds | libs/graph/builder.py:51-59 | with an empty queue the visited nodes are exactly those within the depth, and their tags are true distances |
| Reachability.Drain | libs/graph/builder.py:51-59 | the queue loop terminates and visits exactly the nodes within reach, each tagged with its distance |
| Reachability.ReachDuality | libs/graph/builder.py:47-59 | n is within k steps of s exactly if s is within k steps of n in the converse relation |
| GraphBuilder.MapsAreConverse | libs/graph/builder.py:18-22 | forward and reverse adjacency of an edge set are converse relations |
| GraphBuilder.ExpansionDuality | libs/graph/builder.py:47-59 | n is in expand(s, k) exactly if s is in expand(n, k, reverse) |
| GraphBuilder.ReachesAlongEdges | libs/graph/builder.py:47-59 | reaching is by a path of at most that many edges, each followed forward, or each backward |
| GraphBuilder.Graph.constructor | libs/graph/builder.py:12-16 | an empty graph satisfies the class invariant |
| GraphBuilder.Graph.AddRelation | libs/graph/builder.py:18-22 | adds one edge to both maps, counts the relation and drops the cache |
| GraphBuilder.Graph.AddRelations | libs/graph/builder.py:24-26 | adds all edges; order and repetition do not matter to the graph, only to the counter |
| GraphBuilder.Graph.Neighbors | libs/graph/builder.py:28-29 | exactly the destinations of edges from the node |
| GraphBuilder.Graph.ReverseNeighbors | libs/graph/builder.py:31-32 | exactly the sources of edges to the node |
| GraphBuilder.Graph.HasNode | libs/graph/builder.py:34-36 | true exactly for the endpoints of edges, the members of nodes() |
| GraphBuilder.Graph.Nodes | libs/graph/builder.py:38-45 | exactly the endpoints of edges |
| GraphBuilder.Graph.Expand | libs/graph/builder.py:47-59 | exactly the nodes reachable within the depth in the chosen direction, at their true distances |
| GraphBuilder.Graph.Pagerank | libs/graph/builder.py:64-76 | always the fresh ranking of the present edges; a cache hit cannot be told apart |
| ImpactAnalyzer.BuildFileDepMap | libs/impact/analyzer.py:22-51 | b is listed under a exactly if b imports a symbol whose last definer is a and b differs from a |
| ImpactAnalyzer.BuildImportsMap | libs/impact/analyzer.py:54-72 | the same relation the other way round, except that an empty definer path is skipped |
| ImpactAnalyzer.MapsAreConverseUpToEmptyPath | libs/impact/analyzer.py:22-72 | the two maps are converse to each other but for the empty path |
| ImpactAnalyzer.DependsWithinIsPathWithin | libs/impact/analyzer.py:119-134 | chains of at most k dependencies are paths of at most k edges in the dependents map |
| ImpactAnalyzer.EnqueueDirect | libs/impact/analyzer.py:119-125 | starting the queue with the direct dependents at depth one establishes the search invariant |
| ImpactAnalyzer.AnalyzeImpact | libs/impact/analyzer.py:75-155 | direct and transitive dependents are disjoint, exclude the target and with it are exactly the files within max(1, max_depth) dependencies; affected tests and risk score follow |
| ImpactAnalyzer.RiskGrows | libs/impact/analyzer.py:144-147 | without churn the risk is at least the number of direct dependents, equals it for up to one import, and churn scales it |
| ImpactAnalyzer.TestFileIff | libs/impact/analyzer.py:139-141 | tests are files of that role and paths that begin with "test" or have "/test" in them |
| WikiRefreshSafety.RunKeepsInv | libs/copilot/wiki_background.py:266-392 | every state of every disciplined run, whatever the interleaving of starter, runner, canceller, kills and clock ticks, satisfies the protocol invariant |
| WikiRefreshSafety.AtMostOneLiveRunner | libs/copilot/wiki_background.py:266-392 | in every state of every disciplined run at most one runner is alive, and once there is a lock it names that runner and readers see it in progress |
| WikiRefreshLimits.SpawnUnderCancel | libs/copilot/wiki_background.py:370-392 | from any state with a cancel under way a spawn has a disciplined continuation to two live runners |
| WikiRefreshLimits.DyingStarter | libs/copilot/wiki_background.py:297-326 | from any state a starter that dies before its live child is announced leaves room for a second live runner |
| WikiRefreshLimits.HalfWrite | libs/copilot/_wiki_bg_runner.py:95-108 | from any state the plain first write, seen half done, has a disciplined continuation to two live runners |
| WikiRefreshLimits.LongRunLooksStale | libs/copilot/wiki_background.py:54-54 | from any state a run that gets older than the limit can be taken for stale while it lives |
| WikiRefreshLimits.LongRunIsDuplicated | libs/copilot/wiki_background.py:281-326 | and with no cancel pending the next start spawns a second live runner |
| WikiRefreshLimits.DisciplineIsExact | libs/copilot/wiki_background.py:266-392 | a step from a reachable state keeps safety under every disciplined continuation exactly if it is disciplined |
| WikiRefreshSnapshots.AnnouncedStep | libs/copilot/wiki_background.py:337-367 | no disciplined step changes the pid in the lock of an announced run or takes back its progress |
| WikiRefreshSnapshots.SnapshotsProgress | libs/copilot/orchestrator.py:371-463 | from the eager write until the run ends the lock names it, and modules_done is non-decreasing and at most modules_total |
| WikiRefreshReports.SnapshotsShowReports | libs/copilot/wiki_background.py:337-367 | over every disciplined run from the eager write on: the lock shows the phase of the last report and, from the first module report on, the number of modules of the run and the number reported last |
| WikiRefreshReports.NoTotalBeforeModules | libs/copilot/wiki_background.py:337-367 | over every disciplined run from the spawn on: before the first module report no total and nothing done |
| WikiRefreshReports.StatusIff | libs/copilot/wiki_background.py:207-263 | in progress is a lock that names no dead process and no start more than 3600 seconds ago; any other lock is stale |
| WikiRefreshReports.CancelledRunRecords | libs/copilot/_wiki_bg_runner.py:187-227 | over every run after a cancel has signalled a working runner its record, if it leaves one, has exit code 143 and the number reported last |
| WikiRefreshSnapshots.SettledStep | libs/copilot/wiki_background.py:337-367 | no disciplined step changes the start time of a settled run |
| WikiRefreshSnapshots.StartTimeIsFinalIff | libs/copilot/_wiki_bg_runner.py:95-108 | after the announcement the start time stays for the whole run exactly if the runner has made its first write and holds no older read |
| WikiRefreshSnapshots.ExitPublishesRecord | libs/copilot/_wiki_bg_runner.py:201-227 | after an exit that persisted its record, until the next spawn, readers see nothing in progress and that record, and no lock unless the eager write is still to come |
| WikiRefreshSnapshots.RecordStays | libs/copilot/wiki_background.py:139-173 | over any run the record stays until another runner makes its own |
| WikiRefreshSnapshots.SameRecordIff | libs/copilot/wiki_background.py:139-173 | over any run, disciplined or not, the record is unchanged at the end exactly if no step wrote one: each writer records once, and no two have the same pid |
| WikiRefreshSnapshots.SplitReadIsCurrentIff | libs/copilot/wiki_background.py:207-263 | a reader that reads the record before the lock reports the current record exactly if none is written between its two reads |
| WikiRefreshSnapshots.SplitReadMissesRecord | libs/copilot/wiki_background.py:207-263 | such a gap: the run has ended and the reader has an older record |
| WikiRefreshLiveness.StartCommandRun | libs/copilot/wiki_background.py:281-334 | an undisturbed start that finds nothing in progress adds exactly one live runner and its lock |
| WikiRefreshLiveness.OldLockNeverBlocks | libs/copilot/wiki_background.py:240-334 | with a lock older than an hour, in any state at all, the next start ends with its new runner alive and announced |
| WikiRefreshLiveness.StartsUnlessWedged | libs/copilot/wiki_background.py:207-334 | after any run whatsoever that leaves no runner and no command under way, nothing is reported in progress and the next start gets through, exactly unless the lock has neither pid nor start time |
| WikiRefreshLiveness.NeverWedged | libs/copilot/wiki_background.py:207-334 | after any disciplined run that leaves no runner the next start gets through |
| WikiRefreshLiveness.WedgedStep | libs/copilot/wiki_background.py:207-263 | no enabled step clears a lock that has neither pid nor start time |
| WikiRefreshLiveness.WedgedForever | libs/copilot/wiki_background.py:207-392 | no run of any commands clears it: readers report a refresh in progress for ever |
| WikiRefreshLiveness.LateCancelWedges | libs/copilot/wiki_background.py:337-392 | any cancel that has still to clear a lock, while a new runner is about to report, can end in such a lock |
| WikiRefreshLiveness.LateCancelHappens | libs/copilot/wiki_background.py:370-392 | from any leftover lock that situation is reached |
| WikiRefreshCommands.Project.ReadStatus | libs/copilot/wiki_background.py:207-263 | the status method computes the status function of the state |
| WikiRefreshCommands.Project.StartBackgroundRefresh | libs/copilot/wiki_background.py:266-334 | a healthy refresh is reported and nothing changes; otherwise the new state is that of the start steps of the machine, stale lock cleared first |
| WikiRefreshCommands.Project.WriteProgress | libs/copilot/wiki_background.py:337-367 | merges the report into the lock and keeps the keys the report does not carry |
| WikiRefreshCommands.Project.CancelBackgroundRefresh | libs/copilot/wiki_background.py:370-392 | the new state is that of the cancel steps of the machine; the status returned is the one before |
| WikiRefreshCommands.Project.RunnerMain | libs/copilot/_wiki_bg_runner.py:132-228 | for any failing point, exit code and failing record write: the runner and the lock are gone and the record has the exit code and the last number reported; right after the spawn this is a run of the machine |
| WikiRefreshCommands.RunnerRun | libs/copilot/_wiki_bg_runner.py:132-228 | the whole life of a runner, report by report, is a run of the single steps of the machine and ends in the state RunnerMain gives |
| WikiRefreshCommands.CleanRunRecords | libs/copilot/_wiki_bg_runner.py:132-228 | a run that nothing stops records exit code 0 and all its modules, and leaves no lock |
| WikiRefreshCommands.CancelCommandRun | libs/copilot/wiki_background.py:370-392 | an undisturbed cancel is a run of the machine: it signals a healthy run, clears a stale lock, else changes nothing |
| Chunker.ChunkFile | libs/embeddings/chunker.py:34-109 | no chunks for blank content; otherwise contiguous non-empty ranges that cover all lines, each ending for one of the reasons the code has, each within its weight class |
| Chunker.EmitOversized | libs/embeddings/chunker.py:62-78 | an oversized line is flushed around and emitted alone, keeping cover and reasons |
| Chunker.MakeRoom | libs/embeddings/chunker.py:80-98 | before a line that does not fit, the buffer is split after its last blank line or flushed |
| ChunkerProperties.ChunksConcatenate | libs/embeddings/chunker.py:48-118 | chunk texts concatenate to the content |
| ChunkerProperties.EveryLineInOneChunk | libs/embeddings/chunker.py:48-118 | every line number lies in exactly one chunk |
| ChunkerProperties.ChunkLinesBound | libs/embeddings/chunker.py:59-107 | for any tokenizer: a chunk is one oversized line, or its lines count at most the limit, or it begins with carried lines and they count at most twice the limit |
| ChunkerProperties.ChunkWeightBound | libs/embeddings/chunker.py:59-107 | for subadditive tokenizers: a chunk is one oversized line, or within the limit, or begins with carried lines and weighs at most twice the limit |
| ChunkerLimits.ChunksAreDetermined | libs/embeddings/chunker.py:48-118 | the contract of ChunkFile has exactly one solution: these chunks, for every content, tokenizer and limit |
| ChunkerLimits.ExceedsLimitIff | libs/embeddings/chunker.py:59-107 | for additive tokenizers: a chunk exceeds the limit exactly if it is an oversized line, or begins with carried lines that leave no room for its next line |
| ChunkerLimits.NearlyTwiceTheLimit | libs/embeddings/chunker.py:80-107 | for every limit from four on, four lines that are cut into two chunks, the second of weight twice the limit less two |
| ChunkerLimits.CarriedLinesCountAsOneText | libs/embeddings/chunker.py:89-92 | carried lines are weighed as one text: with a limit of four one-token lines, two carried lines let three more in |
| ChunkerProperties.CarriedLinesFollowBlank | libs/embeddings/chunker.py:82-92 | carried lines come right after a blank line and contain none |
| Wikilinks.ConvertMdLinksToWikilinks | libs/obsidian/wikilinks.py:49-89 | the line loop with its fence flag computes the conversion of lines outside fences only |
| WikilinksTargets.MatchIff | libs/obsidian/wikilinks.py:35-35 | a link is found at the start of a text exactly if it reads "[" text "](" target ")" with both parts non-empty, and no exclamation mark comes before |
| WikilinksTargets.ExtensionIsDropped | libs/obsidian/wikilinks.py:102-116 | ".md" in any case is dropped, at the end of the target or before its fragment |
| WikilinksTargets.OtherTargetsStay | libs/obsidian/wikilinks.py:102-116 | a target without that extension before its fragment stays |
| WikilinksTargets.ExternalIff | libs/obsidian/wikilinks.py:45-46 | external are a scheme and "://", "mailto:" and "tel:" in any case, and "#" |
| WikilinksTargets.LinkIsRewritten | libs/obsidian/wikilinks.py:92-109 | between settled text and any text a link becomes the wikilink of its target and text, or stays if it is external |
| WikilinksTargets.PageLinkIsRewritten | libs/obsidian/wikilinks.py:54-57 | a link to a page becomes a wikilink without the extension and with its fragment |
| WikilinksTargets.FenceIff | libs/obsidian/wikilinks.py:40-40 | a fence marker is white space, then three backticks or three tildes |
| WikilinksTargets.InFenceIff | libs/obsidian/wikilinks.py:75-86 | a line is inside a fence exactly if an odd number of markers precedes it |
| WikilinksTargets.DocumentLines | libs/obsidian/wikilinks.py:71-89 | line by line: markers and what is inside fences stay, all other lines are converted |
| WikilinksProperties.TargetStaysMissing | libs/obsidian/wikilinks.py:35-35 | where no link target can be read before the substitution none can be read after it |
| WikilinksProperties.LinkStaysMissing | libs/obsidian/wikilinks.py:35-35 | where an opening bracket starts no link, it starts none after later text has been rewritten |
| WikilinksProperties.BlockIsInert | libs/obsidian/wikilinks.py:87-109 | a rewritten block without "](" is passed over by a second scan, whatever follows it |
| WikilinksProperties.SubstituteIsIdempotent | libs/obsidian/wikilinks.py:35-109 | on a line the substitution is idempotent when no rewritten target contains "](" |
| WikilinksChanges.OverlapIsPeriodic | libs/obsidian/wikilinks.py:92-109 | a shortened target that overlaps its own link would repeat itself and cannot end like a block |
| WikilinksChanges.RewritingChanges | libs/obsidian/wikilinks.py:92-109 | a rewritten link never reads like the text it came from, whatever follows |
| WikilinksDocuments.SubstituteBeforeTerminator | libs/obsidian/wikilinks.py:74-87 | line endings take no part in links: they can be cut off before the substitution and put back |
| WikilinksDocuments.SubstituteKeepsFence | libs/obsidian/wikilinks.py:40-40 | rewriting neither makes nor breaks a fence marker |
| WikilinksDocuments.ConvertKeepsStructure | libs/obsidian/wikilinks.py:74-89 | same lines, same fences, fenced lines and markers unchanged |
| WikilinksDocuments.ConvertIsIdempotent | libs/obsidian/wikilinks.py:64-65 | a second conversion changes nothing when no rewritten target contains "](" |
| WikilinksDocuments.SecondPassCanRewrite | libs/obsidian/wikilinks.py:64-65 | a document, and line, that a second conversion changes again |
| WikilinksDocuments.UnchangedIffOnlyExternal | libs/obsidian/wikilinks.py:92-98 | a line comes back unchanged exactly if all its links are external |
| WikilinksDocuments.DocumentUnchangedIff | libs/obsidian/wikilinks.py:71-98 | a document comes back unchanged exactly if all links outside fences are external |
| WikilinksDocuments.SecondPassIsIdleIff | libs/obsidian/wikilinks.py:64-65 | converting twice is converting once exactly if the first conversion leaves external links only |
| WikilinksBlocks.ClosesIsHasTarget | libs/obsidian/wikilinks.py:35-35 | whether a target can be read off the substituted text is decided by the text before the substitution |
| WikilinksBlocks.CompletesIsHasLink | libs/obsidian/wikilinks.py:35-35 | so is whether an opening bracket in front of the substituted text starts a link |
| WikilinksBlocks.ExternalAhead | libs/obsidian/wikilinks.py:46-46 | and whether a target that runs into substituted text is external |
| WikilinksBlocks.ScanBlock | libs/obsidian/wikilinks.py:87-109 | a second scan of a rewritten block finds at most one link, from the first opening in its target to where its text or what follows closes it |
| WikilinksIdempotence.StableIff | libs/obsidian/wikilinks.py:35-109 | for every text: the substituted text holds external links only exactly if the text is stable, a condition on the text before the substitution |
| WikilinksIdempotence.LineIsIdempotentIff | libs/obsidian/wikilinks.py:64-65 | for every line: converting twice is converting once exactly if the line is stable: every link that opens in the target of a rewritten one, and is closed behind it, is external, and so on behind that |
| WikilinksIdempotence.DocumentIsIdempotentIff | libs/obsidian/wikilinks.py:64-65 | for every document: a second conversion changes nothing exactly if all lines outside fences are stable |
| WikilinksIdempotence.CleanIsStable | libs/obsidian/wikilinks.py:64-65 | lines whose rewritten targets do not contain "](" are stable |
| WikilinksImages.SubstituteSettled | libs/obsidian/wikilinks.py:35-35 | text in which no link is open at the end is substituted on its own, whatever follows |
| WikilinksImages.ImageIsLeftAlone | libs/obsidian/wikilinks.py:32-35 | between settled text and any text, an image is left alone exactly if no bracket in its alternative text starts a link and its source holds none to rewrite, or such a bracket does and the source is external |
| WikiMirror.Vault.AtomicWrite | libs/obsidian/publisher.py:38-42 | the page changes only when the write succeeds, and only the temporary sibling may change besides |
| WikiMirror.Vault.PublishPage | libs/obsidian/publisher.py:247-259 | one page that can be decoded: published exactly if it can be read and written |
| WikiMirror.Vault.WritePages | libs/obsidian/publisher.py:206-259 | the write pass keeps exactly the pages it published, errors count the failed ones, and a page that cannot be decoded ends it there |
| WikiMirror.Vault.CleanUp | libs/obsidian/publisher.py:261-268 | removes exactly the markdown pages not just written, but for those that cannot be removed |
| WikiMirror.Vault.MirrorWiki | libs/obsidian/publisher.py:173-268 | every markdown page of the vault and all counters of the report, for any faults; the pass is complete exactly if all pages can be decoded, and without that nothing is cleaned up |
| WikiMirror.PagesIff | libs/obsidian/publisher.py:207-245 | the pages are the index, the architecture page and the markdown files directly in the module directory |
| WikiMirrorPages.IndexPage | libs/obsidian/publisher.py:207-223 | the published index is the navigation line and the converted source |
| WikiMirrorPages.ArchitecturePage | libs/obsidian/publisher.py:225-238 | the published architecture page is the converted source and the footer without a module link |
| WikiMirrorPages.ArticlePage | libs/obsidian/publisher.py:243-259 | the published article "a-b", a without dash, is the converted source and the footer, with a link to module a unless a is empty |
| WikiMirrorPages.PlainArticlePage | libs/obsidian/publisher.py:243-259 | the published article without a dash has a footer without a module link |
| WikiMirrorPages.MarkdownIff | libs/obsidian/publisher.py:261-262 | the cleanup is about the files with extension ".md" in any directory |
| WikiMirror.VaultFollowsSource | libs/obsidian/publisher.py:173-268 | after any sequence of mirrors a page is the rendering of the source at the last mirror that could touch it, or absent |
| WikiMirror.CopyIsLostIff | libs/obsidian/publisher.py:257-268 | a copy is lost exactly if its page was not published, could be removed, and every page of the source could be decoded |
| WikiMirror.CopyIsThereIff | libs/obsidian/publisher.py:173-268 | after any sequence of mirrors a copy is there exactly as the last mirror that could touch it decides |
| WikiMirror.StalePageStaysIff | libs/obsidian/publisher.py:261-268 | a page gone from the source stays in the vault exactly as long as every mirror breaks off before its cleanup or cannot remove it |
| ManagedSection.ClaudeMd.WriteManagedSection | libs/mcp_ops/install.py:71-95 | the file becomes Written of what it was, a missing file counting as empty |
| ManagedSection.ClaudeMd.StripManagedSection | libs/mcp_ops/uninstall.py:19-39 | the two newline loops and the rewrite compute Stripped; a missing file stays missing |
| ManagedSectionProperties.NoStraddle | libs/mcp_ops/install.py:80-83 | no occurrence of a marker straddles the beginning of another one |
| ManagedSectionProperties.FirstOccurrence | libs/mcp_ops/install.py:80-83 | after text without the marker the first occurrence is the one appended |
| ManagedSectionProperties.BlockEnd | libs/mcp_ops/install.py:82-88 | the section found is the whole block exactly if the version is fine |
| ManagedSectionProperties.WriteOverWrite | libs/mcp_ops/install.py:71-95 | a second install leaves what it alone would have left, with or without an earlier section or end marker, exactly if the first version is fine |
| ManagedSectionProperties.StripBlock | libs/mcp_ops/uninstall.py:25-38 | stripping a block between any two texts joins them by one newline, or leaves nothing if both are blank, exactly if the version is fine |
| ManagedSectionProperties.StripOverWrite | libs/mcp_ops/uninstall.py:19-39 | uninstall undoes install up to trailing newlines, and empties a blank file, exactly if the version is fine |
| ManagedSectionProperties.StripAfterRewrite | libs/mcp_ops/uninstall.py:19-39 | on a text with a section a further install makes no difference to a later uninstall, exactly if its version is fine |
| ManagedSectionProperties.MarkerFreeIsNotEnough | libs/mcp_ops/install.py:27-30 | a version free of both markers that is not fine |
| ManagedSectionProperties.BlockText | libs/mcp_ops/install.py:27-56 | the text of a section: start marker, version line, guide, end marker |
| ManagedSectionProperties.FirstInstall | libs/mcp_ops/install.py:91-95 | a first install leaves the text as it is and puts the section behind it, one empty line between them |
| ManagedSectionProperties.SectionIsReplaced | libs/mcp_ops/install.py:80-90 | a section is replaced where it stands, and the text around it stays, exactly if its version is fine |
| ManagedSectionProperties.TruncatedSection | libs/mcp_ops/install.py:82-90 | a section without end marker goes on to the end of the text, for install and uninstall |
| GitHistory.ParseLog | libs/gitintel/history.py:80-125 | the loop over lines computes the fold Parsed |
| GitHistoryProperties.BlankLinesDoNotMatter | libs/gitintel/history.py:105-108 | a blank line changes nothing wherever it stands |
| GitHistoryProperties.LogIsConsumed | libs/gitintel/history.py:105-124 | reading a printed log from any parser state appends its commits to those known |
| GitHistoryProperties.ParsedCommitsAreOk | libs/gitintel/history.py:80-125 | every commit returned for any input is well formed |
| GitHistoryProperties.RoundTrip | libs/gitintel/history.py:57-125 | parsing a printed commit list gives it back exactly if every commit in it is well formed |
| GitHistoryProperties.ShortHeadersDuplicate | libs/gitintel/history.py:105-125 | for any output: as many commits as full headers and short headers behind the first full one; each full header once and in order exactly if no short header follows a full one |
| UsageReader.ReadSessionFile | libs/claude_usage/reader.py:32-68 | yields the events of the lines after the offset in order, up to where the read fails; nothing if one of these lines raises |
| UsageReader.FileLinesAreLines | libs/claude_usage/reader.py:43-46 | the lines are the file cut behind each newline |
| UsageReader.EventsAreOfLines | libs/claude_usage/reader.py:46-66 | the events are those of the assistant records with usage, one each, in the order of their lines |
| UsageCache.Cache.SyncAndQuery | libs/claude_usage/cache.py:52-88 | stores the extended events and the size seen for this file only, and answers those since the given time; a read that raises changes nothing |
| UsageCache.LinesSplitAtBoundary | libs/claude_usage/reader.py:43-46 | lines of a file are those before and after any newline boundary |
| UsageCache.TailReadIffBoundary | libs/claude_usage/cache.py:76-78 | a tail read completes the lines read before exactly if it resumes at a line boundary |
| UsageCache.SyncsAgreeWithFullRead | libs/claude_usage/cache.py:59-88 | after any sequence of syncs of a growing newline-terminated file a query answers what a filtered full read answers, and raises exactly when that does |
| UsageCache.SinceIsRecent | libs/claude_usage/cache.py:88 | the answer has each event from the given time on as often as it is stored and no other, at increasing positions |
| UsageCache.AnswerIsRecentPart | libs/claude_usage/cache.py:59-88 | so a query after any syncs answers that part of the events of the whole file |
| UsageCache.RaisingLineIsForGood | libs/claude_usage/reader.py:46-50 | a line that raises makes every later sync of the file raise, and the row stays at the last state before it |
| UsageCache.FailedReadLosesEvents | libs/claude_usage/cache.py:76-85 | a sync whose read fails after some lines moves the offset past the rest; a later sync agrees with a full read exactly if the rest has no event and no line raises |
| UsageCache.GrowthDuringSync | libs/claude_usage/cache.py:61-85 | growth between size check and read is counted twice: agreement holds exactly if it has no event and no line raises |
| DebounceBuffer.Classification | apps/agent/handler.py:27-36 | a pending path is classified by its last event, and the two sets are disjoint |
| DebounceBuffer.AppendEvent | apps/agent/handler.py:27-36 | the two set updates are what one more event means for the classification |
| DebounceBuffer.Buffer.Add | apps/agent/handler.py:27-36 | records one event and nothing else |
| DebounceBuffer.Buffer.FlushAll | apps/agent/handler.py:38-55 | hands over the classification of all events since the last flush and empties the buffer |
| DebounceBuffer.Buffer.HasPending | apps/agent/handler.py:57-59 | true exactly if an event arrived since the last flush |
| Daemon.Agent.ProcessProject | apps/agent/daemon.py:122-161 | deletes, then scans; a failure leaves what was committed by then; other projects keep their index, and only a corrupt cache leads to quarantine |
| Daemon.Agent.ProcessPendingEvents | apps/agent/daemon.py:111-190 | index, quarantine and reparse count of every project after a pass, each project on its own, quarantined ones untouched |
| Daemon.ReparsedCountsChanges | libs/scanning/scanner.py:93-128 | the reparse count is the number of index entries that the scan adds or changes |
| Daemon.PassAt | apps/agent/daemon.py:122-131 | after a pass a scanned path has its content on disk, a deleted one no entry, any other its former one |
| DaemonProperties.RunKeepsInv | apps/agent/daemon.py:111-161 | over any interleaving every touched path is up to date, announced, in flight or lost to a failure, and announcements tell the truth about the disk |
| DaemonProperties.QuietIndexAgrees | apps/agent/daemon.py:111-161 | when nothing is on its way the index agrees with the disk on every touched path not lost to a failed pass |
| DaemonProperties.IndexCatchesUp | apps/agent/daemon.py:111-161 | when nothing is on its way and no pass of the project failed, all its touched paths are indexed as they are on disk |
| DaemonProperties.QuarantineIsForGood | apps/agent/daemon.py:46-50 | no run ever changes the index of a quarantined project again |
| DaemonProperties.ProjectsAreIndependent | apps/agent/daemon.py:113-161 | a step on one project leaves all others as they are |
| DaemonProperties.LostUntilNextEdit | apps/agent/daemon.py:160-161 | a path with nothing on its way keeps its index entry until its next edit |
| DaemonCatchingUp.ComesToRest | apps/agent/daemon.py:111-161 | from any state there is a run without edits and failures to a quiet one |
| DaemonCatchingUp.CatchesUpIff | apps/agent/daemon.py:111-161 | from any reachable state, all continuations in which no pass of the project fails and which come to rest leave a path as on disk exactly if it is so now, announced or in flight |
| DaemonCatchingUp.FailureIsHarmlessIff | apps/agent/daemon.py:160-161 | a failed pass does no harm to a path, in any continuation without a further failure, exactly if the path agrees with the disk already or has another event on its way |
| DaemonProperties.UndisturbedPass | apps/agent/daemon.py:113-161 | however a pass in one go ends, it gives the project the index and the quarantine that ProcessProject gives it |
| Registry.IsTransient | libs/core/projects_config.py:37-55 | true exactly for worktree paths and the sample repository |
| Registry.ConfigFile.AddProject | apps/agent/config.py:37-63 | skips transient and known roots, else appends a pending entry |
| Registry.ConfigFile.RemoveProject | apps/agent/config.py:66-70 | removes every entry with the root, keeping the order of the others |
| Registry.ConfigFile.UpdateLastScan | apps/agent/config.py:73-95 | updates the first entry with the root, saves nothing when there is none |
| Registry.ScannedAt | apps/agent/config.py:88-93 | a scan result changes two fields of the first entry with the root and nothing else |
| Registry.AddedAtEnd | apps/agent/config.py:37-63 | a root that is neither known nor transient is appended, registered now and pending |
| Registry.RemoveKeepsOthers | apps/agent/config.py:66-70 | exactly the entries of other roots remain, in their order |
| Registry.TransientIff | libs/core/projects_config.py:37-55 | transient are roots with consecutive parts ".claude", "worktrees", or with last part "sample_repo" |
| Registry.RootsAfter | apps/agent/config.py:37-95 | the roots registered after any operation |
| Registry.OpKeepsDistinct | apps/agent/config.py:37-95 | no operation registers a root twice or touches other settings |
| Registry.RemoveUndoesAdd | apps/agent/config.py:37-70 | removing a project just added gives back the registry |
| Registry.ReplayRegisters | apps/agent/config.py:37-95 | after any operations a root is registered exactly if the last operation that adds or removes it says so |
| RegistryStore.RunKeepsInv | libs/core/projects_config.py:209-250 | with lone writers every file the target name may refer to after a crash is synced and holds its version of the registry |
| RegistryStore.RegistryIsReplay | libs/core/projects_config.py:209-250 | with lone writers, whatever fails or crashes, the registry reads as the result of whole operations in order |
| RegistryStore.RegistryStaysSound | apps/agent/config.py:37-95 | with lone writers roots stay distinct, settings stay, and registrations follow the completed operations |
| RegistryStore.OnlyRenameShows | libs/core/projects_config.py:232-245 | with lone writers no step but the rename changes what readers see; a failed save changes nothing |
| RegistryStore.RenameShowsWholeSave | libs/core/projects_config.py:238-238 | with lone writers the rename applies the operation to the registry as it is at that moment |
| RegistryStore.CrashRollsBack | libs/core/projects_config.py:232-238 | a crash takes the registry back to a prefix of the completed operations |
| RegistryOverlaps.OverlapEmptiesRegistry | libs/core/projects_config.py:231-238 | from any state with a save under way, a second load can leave a registry that reads as empty; that is the replay exactly if the first save was of an empty registry |
| RegistryOverlaps.OverlapTearsRegistry | libs/core/projects_config.py:231-243 | from any state with a save under way, a second writer that stops in its write can leave a registry that cannot be read |
| RegistryOverlaps.OverlapLosesUpdate | apps/agent/config.py:37-95 | from any state with a save under way, a second save can leave no trace of the first |
| RegistryOverlaps.AloneIsExact | libs/core/projects_config.py:209-250 | a step from a state lone writers reach keeps the registry readable as whole operations, under every continuation by lone writers, exactly if it does not load while another writer is at work, or does nothing |

## Assumptions

- PIDs are not reused, starts do not overlap each other, and dead processes are reaped: the zombie of a starter that
  lives on counts as alive for `_pid_alive`, and its killed child would then block starts for up to an hour. Reads,
  renames and unlinks are single steps.
- Tokenizer, JSON decoding of a session line, date normalization, the texts of configuration files and the guide text
  of the managed section are parameters or opaque values. A tokenizer counts nothing in the empty text; the weight bound
  also takes it to count no more in a text than in its two halves together. Date normalization is taken to give plain
  dates that normalize to themselves, and the guide text to hold no end marker.
- Sorted iteration orders do not matter over the reals and over sets; lists that the source sorts are sets here.

## Left out

- Floating-point rounding: scores are reals, so the renormalization is shown to change nothing, not to correct drift.
- Order of results: `expand`, `direct`, `transitive` and the affected tests are sets; sorting them is not modelled.
- WikiRefreshSafety.AtMostOneLiveRunner: for disciplined runs; WikiRefreshLimits.DisciplineIsExact shows that the discipline is the exact condition.
- WikiRefreshSnapshots.SnapshotsProgress: pid and progress; the start time is subject to the condition of WikiRefreshSnapshots.StartTimeIsFinalIff.
- WikiRefreshSnapshots.ExitPublishesRecord: speaks of one atomic look at both files; WikiRefreshSnapshots.SplitReadIsCurrentIff is about two looks.
- WikiRefreshCommands.Project.WriteProgress: the keys `current_module` and `all_modules` of the lock, which nothing decides on, are left out of the payload.
- WikilinksTargets.LinkIsRewritten: no link may be open at the end of the text before the link.
- ChunkerProperties.ChunkWeightBound: for tokenizers that are not subadditive no bound on the joined text follows from the code; ChunkerProperties.ChunkLinesBound bounds the counts of the lines for any tokenizer.
- ChunkerLimits.ExceedsLimitIff: for tokenizers whose count of a text is the sum over its lines.
- WikilinksDocuments.ConvertIsIdempotent: a sufficient condition, easy to check; the exact one is WikilinksIdempotence.DocumentIsIdempotentIff.
- WikilinksImages.ImageIsLeftAlone: no link may be open at the end of the text before the image or of its source.
- DaemonProperties.IndexCatchesUp: a file is read in one step, and move events are not modelled.
- Daemon.Agent.ProcessProject: a pass that finds the cache corrupt may leave any index; the files the scanner skips (ignored, too large or without a parser) are taken to be neither on disk nor in the index.
- RegistryStore.RegistryIsReplay: one writer at a time, which RegistryOverlaps.AloneIsExact shows to be the exact condition; permissions set after the rename are not modelled.
- WikiMirror.Vault.MirrorWiki: case-insensitive file systems are not modelled.
- The YAML, JSON and SQLite syntax of stored files, the watchdog, signals as such, launchd and the `git` and `claude` commands.
- `clean_legacy_settings_json`, `watch_check_project`, scan history and status updates of the daemon, wiki and Obsidian hooks, Home and module pages of the vault: easy members beside the ones above.
- Retrieval, embedding and language-model clients, tree-sitter parsers, timeline queries, evaluation and the web and command-line front ends.
