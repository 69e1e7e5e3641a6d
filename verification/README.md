# charta, verified

charta is an embedded property-graph engine: a Cypher interpreter over SQLite tables. This
project models its algorithmic core in Dafny and proves what that core is for. The tables are
finite maps; what is left is search, planning, caching, bookkeeping and text formats.

- **Pattern matching and path search** (`Graphs`, `Walks`, `BreadthFirst`, `Bidirectional`, `SlowSearch`,
  `ShortestPaths`; `Patterns`, `Matches`, `Parts`, `Meanings`, `Matcher`; `Budget`, `Selectors`, `Deepening`, `TieShapes`,
  `Selected`; `Reversal`, `RelFirst`, `Plans`, `Exprs`, `Written`, `PlanGaps`). The three shortest-path searches and the
  backtracking matcher are methods with the source's loops, stacks and used set, proved against declarative
  notions of path and of answer (`Meanings`). Iterative deepening and the two alternative plans are proved equivalent to full
  enumeration, with the exact conditions under which they are.
- **Vector index** (`Matrices`, `TopK`, `Searches`, `VectorCache`, `CacheProtocol`). The matrix refines a map,
  search returns the exact best hits, and the cache is a state machine that never serves a stale matrix.
- **Statement view** (`LabelText`, `Tables`, `NetCounts`, `StatementView`, `Constraints`, `ConstraintRuns`). One object per
  statement holds caches, snapshots and deferred deletions; its invariant, the counters' conservation laws and
  the constraints over whole runs are proved.
- **Calendar and durations** (`Calendar`, `Between`, `Mirrored`, `Durations`, `DurationTexts`). `duration.between`, month
  clamping, the ISO 8601 round trip (section 4.4.3.2 of ISO 8601:2004), and what every duration text means.
- **Codecs and keys** (`Decimals`, `NameSort`, `JsonText`, `Codec`, `Stored`, `StoredVectors`, `TextForms`, `Keys`, `Grouping`). One JSON
  text (sections 4 to 7 of RFC 8259) with an encoder and two readers, and the canonical keys of grouping and DISTINCT.

Where the source updates state in place, the model is a class or a method with loops; where it computes values,
functions and lemmas. Functions named like a source function in a doc comment specify that function.

## Model

| member | source | states |
|---|---|---|
| Graphs.OffersExact | cypher/interp/match.go:266-308 | the outgoing and incoming lists together offer every relationship that joins a node to another in the pattern's direction, each exactly once, self-loops included |
| Graphs.Expand | cypher/interp/match.go:266-308 | what `expand` hands on is exactly the step relation out of a node (joined, unused, admitted, far end alive), without repetition |
| Graphs.StepFlips | cypher/interp/match.go:680-690 | traversing with the flipped pattern is the converse of the step relation between live nodes |
| BreadthFirst.ExpandLevel | cypher/interp/match.go:598-633 | one round of the search turns correct labels for all nodes within a distance into correct labels one level further, and finds nothing twice |
| BreadthFirst.RebuiltShortest | cypher/interp/match.go:637-672 | the paths the predecessor lists describe are shortest paths, and with all predecessors kept every shortest path is among them |
| BreadthFirst.PathBuilder.Walk | cypher/interp/match.go:637-672 | the recursive rebuilding appends exactly the described paths up to the cap and leaves both stacks as it found them |
| BreadthFirst.ShortestPathsBFS | cypher/interp/match.go:598-633 | with `all`, exactly the shortest paths of length at most max, each once, parallel relationships included; otherwise one of them if there is any; an error exactly when all are wanted and there are more than the cap |
| Bidirectional.TraceOn | cypher/interp/match.go:752-758 | the backward half continues a path from the meeting node to the end, adding exactly the backward distance |
| Bidirectional.ShortestPathBidirectional | cypher/interp/match.go:696-758 | for distinct live ends nothing is returned exactly when no path of length at most max exists, and otherwise one shortest path |
| SlowSearch.ShortestPathsSlow | cypher/interp/match.go:765-810 | exactly the shortest trails of length at least min (one of them unless `all`); an error exactly when a level before the answer holds more trails than the frontier cap |
| ShortestPaths.WalksRefineTrails | cypher/interp/match.go:530-547 | for distinct ends and a minimum of at most one, a shortest walk and a shortest trail are the same thing, so the fast searches refine the slow one |
| ShortestPaths.TrailMeans | cypher/interp/match.go:266-308 | a trail is a chain of relationships of the graph that the pattern admits, unused and distinct, each pointing in the pattern's direction from one node to the next live one |
| ShortestPaths.FindShortestPaths | cypher/interp/match.go:530-547 | whichever search answers, the result is the shortest trails of at least min relationships and at most max and the configured hops, all or one, none only if no trail is in bounds; the error cases are exactly a bound above the configured hops and the cap of the search that answers |
| Matches.WalkSound | cypher/interp/match.go:211-427 | everything `walk` finds chooses for every link an admissible chain in range that repeats no relationship and binds |
| Matches.WalkComplete | cypher/interp/match.go:211-427 | every such choice is found |
| Matches.WalkDistinct | cypher/interp/match.go:211-427 | no choice is found twice, and without a limit nothing is cut |
| Parts.PartMatchIff | cypher/interp/match.go:48-94 | a match of a part is determined by its start node and chains and carries exactly the relationships used before plus its own |
| Parts.SolutionsExact | cypher/interp/match.go:10-26 | the enumeration over several parts is exactly the set of choices that satisfy the parts in turn with all relationships distinct across them and unused before, each once |
| Parts.RowsExact | cypher/interp/match.go:10-26 | the rows emitted are those of the solutions, one for one and in order |
| Parts.HintsDropNoSolution | cypher/interp/match.go:104-150 | start scans that filter only on what the node pattern itself requires cost no solution |
| Matchers.Matcher.Rec | cypher/interp/match.go:10-26 | the recursion over the parts delivers exactly the specified stream of rows up to the collector's bound and restores the used set |
| Matchers.Matcher.Walk | cypher/interp/match.go:211-262 | matching the remaining links delivers exactly the specified stream and restores the used set and the path stacks, also when stopped half-way; the recursion terminates because the unused relationships shrink |
| Matchers.Matcher.TryHop | cypher/interp/match.go:243-261 | the callback of one hop pushes, walks on and pops: stream as specified, all stacks restored |
| Matchers.Matcher.Dfs | cypher/interp/match.go:369-427 | the depth-first search of a variable-length link delivers the specified stream and restores the used set, the path and the chain stacks |
| Matchers.MatchParts | cypher/interp/match.go:10-26 | the plain walk returns the rows of exactly the answers, each once, or the first `stopAfter` of them; hints implied by the patterns drop none. What an answer and its row are is said by Meanings.Answers: start, hops, lengths, agreement of bound variables, what is bound and which inline conditions see it |
| Meanings.AnswersExact | cypher/interp/match.go:48-470 | the choices and rows of the enumeration are exactly the answers read off the graph: the start node bound first, every chain leading in its direction over admitted relationships with an allowed length, relationship or list and far node bound, nothing else changed, inline conditions holding in the new row, the path bound last |
| Meanings.LinkMeans | cypher/interp/match.go:369-470 | one link: the far node matches and its inline WHERE holds in the new row, a single relationship is bound as itself and a chain as the list of its relationships, bound variables agree |
| Meanings.SolutionMeans | cypher/interp/match.go:10-26 | a solution is such an answer that uses no relationship twice and none already used |
| Budget.WalkKeeps | cypher/interp/eval.go:75-81 | a walk under a length limit finds exactly the affordable matches of the unlimited walk, in its order |
| Deepening.LimitedExact | cypher/interp/eval.go:75-81 | a limited search of a part emits exactly the matches of the full enumeration with at most limit-1 relationships, fewer than that before the last link starts |
| Deepening.UncutExact | cypher/interp/group.go:268-287 | a limited search that cut nothing has found everything |
| Deepening.UncutBeyond | cypher/interp/group.go:268-287 | beyond the number of relationships plus one nothing is cut, so the loop ends |
| Selectors.SettledByShort | cypher/interp/group.go:372-388 | once the matches up to some length satisfy the selector, longer ones cannot change its choice |
| Selectors.ChooseReduces | cypher/interp/group.go:288-335 | what is kept of one pair of ends: a sub-multiset; min(k, n) matches for ANY k and SHORTEST k, one for ANY SHORTEST, and for both none left out is shorter than one kept; for ALL SHORTEST exactly those than which none is shorter, for SHORTEST k GROUPS exactly those with fewer than k smaller lengths |
| Selectors.KeysFirstSeen | cypher/interp/group.go:237-267 | of two pairs of ends the one listed first has a match before any match of the other |
| Selectors.GroupBag | cypher/interp/group.go:237-267 | the matches filed under a pair of ends are exactly those between them |
| Deepening.DeepeningAgrees | cypher/interp/group.go:268-287 | without ties, deepening chooses what the selector would choose from the full enumeration |
| Deepening.GroupsAgreeIff | cypher/interp/group.go:268-287 | one call of SHORTEST k GROUPS agrees with full enumeration exactly if the kth smallest length is not mixed (some of its matches end in an empty last link, some do not) |
| Deepening.AllShortestAgreeIff | cypher/interp/group.go:268-287 | one call of ALL SHORTEST agrees with full enumeration exactly if the smallest length is not mixed |
| Deepening.AnyKeepLengths | cypher/interp/group.go:268-287 | ANY SHORTEST and SHORTEST k lose nothing even with ties: as many matches, of the same lengths, all genuine |
| Deepening.DeepeningIff | cypher/interp/group.go:268-287 | all shortest selectors with every k agree with full enumeration exactly if no length is mixed |
| TieShapes.NoTieOutside | cypher/interp/group.go:268-287 | a pattern is free of ties on every graph, row and used set unless it has the tie shape: two links or more, no empty range, a last link with minimum 0 and maximum not 0, and an earlier link whose length can vary |
| TieShapes.TieShapeLoses | cypher/interp/group.go:268-287 | every permissive pattern of the tie shape with named ends loses a match for some k, on one node with one loop more than the sum of the minima |
| TieShapes.TieShapeIff | cypher/interp/group.go:268-287 | for permissive patterns with named ends, deepening is right on every graph, row, selector and k exactly if the pattern does not have the tie shape |
| TieShapes.DeepeningCanLose | cypher/interp/group.go:268-287 | the concrete failing input: `(a)-[*0..]->()-[*0..]->(c)` over a single node with a loop |
| Selected.Collect | cypher/interp/group.go:208-267 | the collector files the matches under their (start, end) pair in first-seen order, stops at its bound, and reports exactly whether the limit cut something off |
| Selected.Deepen | cypher/interp/group.go:268-287 | the loop over limits ends with the matches of the first limit that satisfies the selector or cuts nothing |
| Selected.TakeGroups | cypher/interp/group.go:313-325 | the loop keeps exactly the matches of the first k lengths of a sorted partition |
| Selected.MatchSelected | cypher/interp/group.go:208-338 | the result for every selector and all ends: what deepening reached if it deepens, otherwise the choice from the full enumeration, of which ANY k between bound ends needs only the first k matches; of each pair of ends exactly those matches are kept that ChooseReduces says, in first-seen order of the pairs and by length, without the hidden path; outside the tie shape deepening chooses from the full enumeration too; it succeeds exactly if k is at least 1 and no more matches are collected than the cap allows |
| Reversal.MirrorMatch | cypher/interp/reverse.go:40-87 | every match of a part read backwards is a match of the reversed part with the same row and used set, and mirroring twice is the identity |
| Reversal.ReversedSameRows | cypher/interp/reverse.go:40-87 | walking a reversible part from its last node yields the same rows and used sets, as multisets |
| RelFirst.MatchRelFirst | cypher/interp/relfirst.go:152-204 | as a strategy of the matcher: each relationship the scan returns is tried in its orientations, the rest of the MATCH runs with it marked used, exactly the rows of the specified matches are delivered up to the bound, and the used set is restored |
| RelFirst.RelFirstExact | cypher/interp/relfirst.go:103-204 | starting from the relationship finds exactly the matches of the node-first walk whose relationship passes the scan, each once, if binding the start variable does not change what the property map and types admit |
| RelFirst.RelFirstIff | cypher/interp/relfirst.go:103-204 | the plan agrees with the walk on every graph and used set if and only if binding the start variable does not change what the property map and types admit, on any relationship the rest of the pattern accepts |
| PlanGaps.RelFirstLosesMatch | cypher/interp/relfirst.go:103-204 | the concrete failing input `(a)-[{t: 1, k: a.x}]->()`: it passes every test of the plan, the hint included; the walk finds its match and the plan finds nothing |
| Plans.PlansSameRows | cypher/interp/match.go:48-94 | whatever plan is picked for each part and whatever its scans filter on, the rows that survive the WHERE are those of the plain unfiltered walk, as a multiset |
| Plans.NodeFirstRows | cypher/interp/match.go:10-26 | with the node-first plan throughout, the planned rows are the rows of the plain enumeration |
| Exprs.MentionsIff | cypher/interp/project.go:61-124 | the names that occur free in an expression are exactly those `touches` finds plus those in the parts `walkExpr` does not enter: conditions and bodies of comprehensions, quantifiers and reduce, projected variables, type and normalization tests, computed labels |
| Exprs.EvalStable | cypher/interp/eval.go:83-180 | an expression evaluates alike in two rows that differ only in names it does not mention |
| Exprs.EqualsMeans | cypher/interp/value.go:212-250 | equality: undecided with null, by id for relationships, identity otherwise; two lists are equal if they are as long and equal throughout, unequal if their lengths differ or one pair is unequal |
| Exprs.AndMeans | cypher/interp/eval.go:490-530 | AND in three values: true if both sides are, false if the left is, or the right is and the left is true or null |
| Exprs.TouchesMisses | cypher/interp/reverse.go:91-105 | six concrete expressions, one of each such form, that `touches` passes although their value depends on the variable |
| Exprs.HintsDropOnlyNonMatches | cypher/interp/pushdown.go:33-122 | a node that matches and is bound in a row the WHERE accepts passes every scan hint: hints drop only what the pattern or the WHERE rejects |
| Exprs.RelHintsDropOnlyNonMatches | cypher/interp/relfirst.go:72-95 | the same for relationship hints |
| Written.MayReverseReversible | cypher/interp/reverse.go:40-87 | the tests `reversed` performs on the written pattern, start scores included, are enough for reversal to be sound unless a variable of the part occurs where they do not look |
| PlanGaps.ReversalLosesMatch | cypher/interp/reverse.go:40-105 | the concrete failing input `(a:N)-[:R]->(b:N {i: 7, ok: a.i IS :: INTEGER})`: it passes every test of `reversed`; the walk finds its match and the reversed walk finds nothing |
| Written.MayStartAtRelApplies | cypher/interp/relfirst.go:103-150 | the tests of `matchRelFirst`, a hint included, are enough for that plan to be sound if the property map and types of the relationship do not mention the start variable |
| Written.WrittenPlansAgree | cypher/interp/match.go:48-94 | for patterns and a WHERE as written, with hints pushed down from the WHERE, every choice among the plans whose tests pass and from which no variable is hidden leaves the same surviving rows |
| PlanGaps.VarLengthWhereIgnored | cypher/interp/match.go:429-470 | on a concrete graph `()-[r*1..1 WHERE false]->()` matches and `()-[r WHERE false]->()` does not |
| PlanGaps.BoundStartWhereIgnored | cypher/interp/match.go:104-117 | on a concrete graph `(a WHERE false)` matches if `a` is already bound and not otherwise |
| VectorCache.BuiltByUpserting | cypher/interp/vecindex.go:126-151 | building by upserting every vector read from the stored texts, in whatever order, gives those vectors, prepared |
| VectorCache.PatchRow | cypher/interp/vecindex.go:44-62 | after a batch of deltas the row of a node is decided by the last delta for it alone |
| VectorCache.PatchedRow | cypher/interp/vecindex.go:44-62 | that row is the prepared vector of the last delta not refused for its dimension, or none if it removes the node or the metric cannot hold the vector |
| VectorCache.UnpatchedRow | cypher/interp/vecindex.go:44-62 | a node all of whose deltas are refused, or that has none, keeps its row |
| VectorCache.VectorDeltas | cypher/interp/vecindex.go:295-325 | the recorded deltas give for every vector index and touched node its vector as it is when the statement ends, and nothing for other nodes |
| VectorCache.Engine.ApplyVectorDeltas | cypher/interp/vecindex.go:44-62 | patches every cached matrix with the batch; the epoch moves exactly if the batch is not empty |
| VectorCache.Engine.Install | cypher/interp/vecindex.go:276-290 | a built matrix is kept exactly if the epoch has not moved since it was read and the memory budget allows |
| VectorCache.Engine.DropVectorMatrix | cypher/interp/vecindex.go:65-73 | drops one matrix and moves the epoch |
| VectorCache.Engine.InvalidateVectors | cypher/interp/importcheck.go:77-85 | empties the cache and moves the epoch |
| VectorCache.Tx.Run | tx.go:37-43 | deltas of successful statements are collected; a failed statement leaves the transaction open with its deltas unrecorded |
| VectorCache.Tx.Commit | tx.go:45-58 | only a successful commit applies the collected deltas, all at once, and closes the transaction |
| VectorCache.RunAndCommit | tx.go:60-82 | the usual pattern with a deferred rollback: the cache gets the deltas of all statements if everything succeeded and is untouched otherwise |
| CacheProtocol.InvStep | cypher/interp/vecindex.go:254-290 | every careful step keeps: the cached matrix, patched with the committed batches not yet applied in commit order, is the committed one, and a build under way will be too if its epoch still holds |
| CacheProtocol.CacheNeverStale | cypher/interp/vecindex.go:254-290 | over every interleaving of open, lookup, install, write, commit, apply, index changes, imports and rollbacks that keeps the four rules, a cached matrix plus the pending batches equals a fresh rebuild, and equals it outright when nothing is pending |
| CacheProtocol.StaleWithoutSnapshotRule | engine.go:60-90 | a concrete run that breaks only the snapshot rule and ends with a stale matrix |
| CacheProtocol.StaleWithoutOrder | engine.go:87-90 | a concrete run that applies two batches out of commit order and ends with a stale matrix |
| CacheProtocol.StaleWithoutRollback | tx.go:37-58 | a concrete run that commits after a failed statement and ends with a stale matrix |
| CacheProtocol.StaleWithoutAgreement | cypher/interp/vecindex.go:295-325 | a concrete run that writes a vector which builds and deltas read differently and ends with a stale matrix |
| Matrices.SwapRemoves | cypher/vector/matrix.go:107-123 | moving the last row into the gap removes exactly one id and keeps ids, positions and rows a bijection |
| Matrices.Matrix.Upsert | cypher/vector/matrix.go:85-105 | refines a map: the prepared vector is stored, a vector the metric cannot hold is removed, a wrong dimension is an error that changes nothing |
| Matrices.Matrix.Remove | cypher/vector/matrix.go:107-123 | refines removal from a map |
| Matrices.Builder.Compact | cypher/vector/matrix.go:288-330 | compaction in place keeps exactly the held rows, in order, with their ids |
| Matrices.Builder.Build | cypher/vector/matrix.go:288-330 | the built matrix is the one that upserting the rows one by one would give |
| Matrices.UpsertedAllIs | cypher/vector/matrix.go:288-330 | upserting distinct ids leaves exactly the vectors the metric can hold, prepared |
| Matrices.SplitIrrelevant | cypher/vector/matrix.go:332-347 | how the entries were split among workers and ordered does not change the table |
| Matrices.MergeBuilders | cypher/vector/matrix.go:332-347 | the merged builder holds all rows of all workers, one worker after the other |
| TopK.HitHeap.Offer | cypher/vector/matrix.go:243-258 | a bounded heap that holds the k best hits seen holds the k best after one more |
| TopK.BestUnique | cypher/vector/matrix.go:236-258 | the k best of a set of hits, by score descending and then id ascending, are unique |
| TopK.BestMerged | cypher/vector/matrix.go:191-202 | the best of the bests of two disjoint parts are the best of both |
| Searches.ScanChunk | cypher/vector/matrix.go:158-190 | one worker's heap holds the best of its rows |
| Searches.Search | cypher/vector/matrix.go:133-214 | for any number of workers: min(k, n) hits, each row's own score, scores falling and ids rising among equal scores, and every row left out has a score no higher than each hit and a larger id where they are equal; an error exactly for a wrong dimension, k below 1 or a query the metric cannot hold |
| Searches.SearchUnique | cypher/vector/matrix.go:133-214 | the answer is a function of the table: neither row order nor split shows |
| LabelText.LabelsSurviveIff | cypher/interp/graph.go:335-340 | labels joined into the column are read back as they were if and only if none contains a comma and they are not the empty label alone |
| LabelText.SplitReadable | cypher/interp/graph.go:335-340 | whatever a column reads back as can be held by a column, and joining it gives the text again |
| StatementView.CommaLabel | cypher/interp/graph.go:705-731 | the concrete failing input: a node created with the one label `a,b` is read back with labels `a` and `b`, while node_labels knows only `a,b` |
| StatementView.CreateNodeOk | cypher/interp/graph.go:705-731 | creating a node keeps the whole view invariant (cache mirrors rows, marks, adjacency lists, history against the base, node_labels in step with the label texts) if and only if the label column can hold its labels |
| StatementView.CreateRelOk | cypher/interp/graph.go:733-762 | creating a relationship between live rows keeps it, with the loaded adjacency lists extended on both sides |
| StatementView.ChangeNodeOk | cypher/interp/graph.go:800-905 | rewriting a cached node with distinct labels keeps it if and only if the label column can hold them |
| StatementView.MarkRelOk | cypher/interp/graph.go:1047-1055 | marking a relationship deleted keeps it and adds it to the delete list once |
| StatementView.CleanMeans | cypher/interp/graph.go:691-703 | what is stored of given properties: the non-null ones with their values unchanged, or an error exactly if one of them cannot be stored |
| StatementView.StorableMeans | cypher/interp/graph.go:104-130 | what can be stored: scalars, finite where they are floats, and lists of such scalars of one sort |
| StatementView.PropsAfterMeans | cypher/interp/graph.go:829-867 | SET of one property to a value puts it in place or fails if it cannot be stored; SET to null and REMOVE drop it; all other properties stay |
| StatementView.GraphView.LoadNode | cypher/interp/graph.go:344-355 | returns the one cached value of an existing node, equal to its row with the label text split, and none otherwise |
| StatementView.GraphView.LoadAdj | cypher/interp/graph.go:461-508 | a loaded list is exactly the relationships on that side in id order, and loading only adds to the caches |
| StatementView.GraphView.LiveRels | cypher/interp/graph.go:640-652 | exactly the relationships on that side not marked deleted, in id order |
| StatementView.GraphView.CreateNode | cypher/interp/graph.go:705-731 | it succeeds exactly if every non-null property is a storable scalar or a list of one sort, finite where it is a float; then the row under the fresh id has exactly the non-null properties, values unchanged, and the given labels once each, and no other row changes; otherwise nothing happens; the view stays right exactly if the label column can hold the labels |
| StatementView.GraphView.CreateRel | cypher/interp/graph.go:733-762 | the same for relationships: success condition, kept properties, type and ends of the one new row, adjacency lists kept current |
| StatementView.GraphView.SetNodeProp | cypher/interp/graph.go:829-847 | fails exactly on deleted nodes and unstorable values, leaving the tables alone; otherwise exactly that property has the value, or is gone for null, after a snapshot is taken |
| StatementView.GraphView.SetRelProp | cypher/interp/graph.go:849-867 | the same for relationships |
| StatementView.GraphView.AddLabels | cypher/interp/graph.go:869-885 | afterwards the node holds the labels it had and those given, each once, old ones first and in order, with the label text and node_labels following; the view stays right exactly if the column can hold the result |
| StatementView.GraphView.RemoveLabels | cypher/interp/graph.go:887-905 | afterwards the node holds exactly its labels not given, in order, with the label text and node_labels following; the view stays right exactly if the column can hold the result |
| StatementView.GraphView.DetachRels | cypher/interp/graph.go:1057-1079 | marks exactly the relationships at the node on either side, self-loops once |
| StatementView.GraphView.DeleteNode | cypher/interp/graph.go:1057-1079 | marks the node once and, with DETACH, exactly its relationships; no table changes before the end |
| StatementView.GraphView.Connected | cypher/interp/graph.go:1081-1094 | the check of `finish` is true exactly if a deleted node keeps a live relationship |
| StatementView.PurgedOk | cypher/interp/graph.go:1081-1114 | unless blocked, deleting leaves no dangling relationship and node_labels in step with the label texts |
| StatementView.GraphView.Purge | cypher/interp/graph.go:1095-1114 | removes exactly the rows marked, with the label rows of the nodes, and changes no other; created minus deleted in the counters is the change in the tables |
| NetCounts.DiffProps | cypher/interp/graph.go:928-946 | counts the properties added or changed and those removed or changed |
| NetCounts.DiffMeans | cypher/interp/graph.go:928-946 | a property counts as set if its value afterwards is new or not equivalent to the one before, and as removed if its value before is gone or replaced |
| NetCounts.CountLabels | cypher/interp/graph.go:1019-1040 | the final label queries count exactly the labels that came into use and went out of use |
| NetCounts.PropsConserved | cypher/interp/graph.go:928-1003 | properties set minus removed, over all entities, is the change in the number stored |
| StatementView.GraphView.NetCounters | cypher/interp/graph.go:948-1040 | worked out from snapshots, created and deleted lists, the counters are exact for the whole database |
| StatementView.GraphView.Finish | cypher/interp/graph.go:1081-1114 | fails exactly if a deleted node keeps a live relationship, changing no table; otherwise exactly the marked rows are gone, the tables consistent and the counters exact |
| StatementView.CountersBalance | cypher/interp/graph.go:948-1040 | conservation: node, relationship, property and label counters equal the change in the respective totals |
| Constraints.SqlCoarser | cypher/interp/schema.go:433-482 | SQLite finds a string or number equal to a stored value exactly if they are equal in Cypher or the stored value is disguised: a boolean read as 0 or 1, or a list, temporal value, point or vector read as its JSON text; never both |
| Constraints.HoldsMeans | cypher/interp/schema.go:399-431 | what a constraint means, read off the tables: for every node with the label or relationship of the type, existence and key constraints want every constrained property, a type constraint wants the property absent or of the type, and key and uniqueness constraints want no other one with equivalent values throughout |
| Constraints.FindDuplicate | cypher/interp/schema.go:433-482 | finds another stored entity exactly if one has an equal tuple in the sense of the query: SQL equality on all parts, or Cypher equality if some part is no string or number under a plain name |
| Constraints.PassesIff | cypher/interp/schema.go:433-562 | an entity passes a constraint exactly if it keeps it and no other entity is a lookalike, equal in every constrained value except that some are disguised: what passes is right, and only lookalikes are refused wrongly |
| Constraints.WronglyRefused | cypher/interp/schema.go:433-482 | concrete failing inputs: with a unique property, 1 is refused because of a stored `true`, and the string `[1,2]` because of a stored list of 1 and 2 |
| Constraints.CheckEntity | cypher/interp/schema.go:487-562 | succeeds exactly if the entity passes every constraint on its kind |
| Constraints.CheckConstraints | cypher/interp/schema.go:487-562 | succeeds exactly if all the given entities that still exist pass all constraints; so it fails if one of them lacks a required property, holds a value of the wrong type, or repeats the values of another under a key or uniqueness constraint |
| Constraints.TouchedSuffices | cypher/interp/schema.go:487-562 | if all constraints held before and only the touched entities differ, they all hold after exactly if the touched ones keep them |
| Constraints.StatementTouches | cypher/interp/graph.go:908-926 | between base and result of a statement only created and snapshotted entities differ |
| Constraints.CheckStatement | cypher/interp/graph.go:1114-1122 | so, if the constraints held before, the check at the end of a statement succeeds exactly if they all hold for what it leaves, in the sense of HoldsMeans, and no touched entity has a lookalike |
| Constraints.ValidateExisting | cypher/interp/schema.go:573-617 | one pass over the stored entities passes exactly if every one the new constraint concerns is right: complete, well typed and unlike all others as its kind demands |
| Constraints.ValidateImported | cypher/interp/importcheck.go:14-72 | checking the imported rows batch by batch succeeds exactly if all constraints hold after the import, in the sense of HoldsMeans, and no imported row has a lookalike |
| ConstraintRuns.ConstraintsAlwaysHold | cypher/interp/schema.go:399-617 | over every run of statements, imports, constraint creation and removal, commits and rollbacks in which a failed statement is rolled back, every constraint holds in every committed state, each entity it concerns being right in the sense of HoldsMeans |
| ConstraintRuns.BrokenCommit | tx.go:37-58 | a concrete run that commits after a failed statement and breaks a constraint for good |
| Calendar.FloorIsEuclid | cypher/temporal/calendar.go:92-98 | `floorDiv` on a positive divisor is the division whose remainder is never negative |
| Calendar.DayUnique | cypher/temporal/between.go:130-135 | a day number belongs to one civil date |
| Calendar.NextDay | cypher/temporal/between.go:130-135 | day numbers count one date after the other: within a month, from its last day to the first of the next, from 31 December to 1 January |
| Calendar.DateValid | cypher/temporal/temporal.go:119-133 | the days of each month, with 29 in February exactly in years divisible by 4, of those divisible by 100 only if divisible by 400 |
| Calendar.Epoch | cypher/temporal/between.go:130-135 | 1 January 1970 is day 719528 after 1 January of year 0 |
| Between.ShiftBetween | cypher/temporal/between.go:69-95 | a shifted by between(a, b) is b, for all local date-times |
| Between.BetweenSigns | cypher/temporal/between.go:69-95 | months, days and the rest never have opposite signs, point from a to b, and the rest is under a day |
| Between.DaysUnderMonth | cypher/temporal/between.go:69-95 | the days left over are fewer than one of the two months they can span, never more than 30 |
| Between.MonthsGreedy | cypher/temporal/between.go:106-128 | going forward one more month would overshoot, except exactly at an end of month shorter than the day of a |
| Between.MonthsGreedyBack | cypher/temporal/between.go:106-128 | going backward one more month always overshoots |
| Between.RestUnderDay | cypher/temporal/between.go:113-128 | after the whole days less than a day is left, on the same side |
| Between.EndOfMonthNotCounted | cypher/temporal/between.go:106-128 | the concrete exception: from 31 January to 28 February no month is counted |
| Mirrored.BetweenMirrored | cypher/temporal/between.go:69-128 | swapping the operands negates the result if and only if the two dates mirror each other: if no month is clamped on the way forward the day of the later date exists in the month of the earlier one, otherwise the days left over come out alike both ways; for all dates and clocks |
| Between.BetweenNotAntisymmetric | cypher/temporal/between.go:69-95 | the concrete failing pair: 31 January and 30 March |
| Between.AddBigExact | cypher/temporal/arith.go:81-86 | adding a span moves the instant by exactly that span if and only if its whole seconds stay within plus or minus 9223372036 |
| Between.ShiftInSeconds | cypher/temporal/between.go:69-83 | a shifted by inSeconds(a, b) is b if and only if the span stays within that range |
| Durations.ParseLoop | cypher/temporal/parse.go:219-262 | the loop that consumes components in order computes the recursive reading of the text, or nothing |
| Durations.BuildPrinted | cypher/temporal/duration.go:44-75 | building from the amounts a rendering shows gives the four fields back: nothing is lost to cascading fractions |
| Durations.RoundTrip | cypher/temporal/temporal.go:256-303 | parsing the rendering of any duration in 64-bit range, mixed and negative components included, returns the same four fields |
| Durations.PrintInjective | cypher/temporal/temporal.go:256-303 | a duration is determined by its text |
| Durations.NegExact | cypher/temporal/duration.go:100-104 | negation is exact if and only if no component is the least 64-bit value |
| DurationTexts.BuildMakes | cypher/temporal/duration.go:44-75 | `build` gives a duration exactly if months, days and seconds make it: whole months toward zero, the fraction of a month as 30.436875 days, whole days toward zero, the fraction of a day as 86400 seconds, nanoseconds rounded to the millionth and cut; out of 64-bit range it fails |
| DurationTexts.ParseUnitForm | cypher/temporal/parse.go:199-276 | every text in unit form, in either case, with fractions, signs per amount and repeated units, stands for what its months (12 a year), days (7 a week) and seconds (3600 an hour, 60 a minute) make, the last amount of a unit counting; it is an error exactly if empty, a bare T or out of range |
| DurationTexts.AcceptsOnly | cypher/temporal/parse.go:199-276 | no other text is accepted: a sign, P in either case, and either the calendar form or amounts of date units, perhaps a T and amounts of time units |
| DurationTexts.ParseSigned | cypher/temporal/parse.go:199-276 | a leading minus negates every component unless one is the least 64-bit value, a leading plus changes nothing, and either parses exactly if the unsigned text does |
| DurationTexts.ParseDateUnit | cypher/temporal/parse.go:199-276 | for every integer n: n years are 12n months, n weeks 7n days, n months and n days themselves, or an error out of range |
| DurationTexts.ParseTimeUnit | cypher/temporal/parse.go:199-276 | for every integer n: n hours are 3600n seconds, n minutes 60n seconds, n seconds themselves, or an error out of range |
| DurationTexts.ParseAllUnits | cypher/temporal/parse.go:199-276 | a text with all seven units is the sum of its parts |
| DurationTexts.ParseFraction | cypher/temporal/parse.go:199-276 | an amount with a fraction cascades from years, months, weeks or days down |
| DurationTexts.Halves | cypher/temporal/parse.go:199-276 | half a year is 6 months, half a month 15 days and 18873 seconds, half a week 3 days and 43200 seconds, minus half a day minus 43200 seconds |
| DurationTexts.CalendarIsUnits | cypher/temporal/parse.go:214-226 | the calendar form means the unit form with the same fields |
| DurationTexts.BareMark | cypher/temporal/parse.go:227-236 | the concrete texts PT, refused, and Pt, the zero duration |
| DurationTexts.PrintIs | cypher/temporal/temporal.go:256-303 | what is printed: years and months below 12 of one sign, days, and after a T hours, minutes and seconds below 60 of one sign with the nanoseconds; the time is left out if zero unless all is zero |
| DurationTexts.PrintExamples | cypher/temporal/temporal.go:256-303 | P1Y2M3DT1H1M1.5S, P-1Y-2M, PT-1.5S and PT0S |
| Keys.KeyReads | cypher/interp/value.go:550-619 | keys are prefix-free up to equivalence: if two keys, each followed by anything, read alike, the values are equivalent |
| Keys.KeyCanonical | cypher/interp/value.go:544-619 | two values share a key if and only if they are equivalent: numbers by value, lists in order, maps by entries, entities and paths by id, temporal values, points and vectors by text |
| Keys.EquivIsEquivalence | cypher/interp/value.go:544-619 | that relation is reflexive, symmetric and transitive |
| Keys.EquivMeans | cypher/interp/value.go:544-619 | it is identity except that numbers are compared by value across integers and floats, lists position by position, and maps key by key in either direction |
| Grouping.GroupRows | cypher/interp/project.go:307-338 | the rows are partitioned by equivalence of their keys, groups in first-seen order and rows in order within them |
| Grouping.DistinctRows | cypher/interp/project.go:212-230 | a row is kept exactly if no earlier one is equivalent |
| Grouping.DistinctIsFirsts | cypher/interp/project.go:212-230 | DISTINCT keeps exactly the first row of every group, in order |
| JsonText.EscapeRound | cypher/interp/fastjson.go:170-193 | undoing the escapes of an escaped string gives the string back, surrogate rules and control characters included |
| JsonText.QuoteCloses | cypher/interp/fastjson.go:170-193 | the scan for the closing quote ends at the string's own quote whatever it contains |
| Codec.TextReads | cypher/interp/fastjson.go:14-193 | decoding the text of any JSON tree, whatever legitimately follows it, gives the tree and what follows |
| Stored.PropsRoundTrip | cypher/interp/graph.go:132-290 | decoding the encoding of any storable property map, temporal, point and vector values included, returns exactly its entries, in name order |
| Stored.PropsTextCanonical | cypher/interp/graph.go:132-153 | two property maps are stored as the same text if and only if they have the same entries, in whatever order they are visited |
| NameSort.LessMeans | cypher/interp/graph.go:132-153 | the order of the names: a proper prefix first, otherwise by the first character that differs |
| TextForms.PropsForm | cypher/interp/graph.go:132-153 | a property map is written as one object whose entries, each once, are in the order of their names |
| TextForms.StoredForm | cypher/interp/graph.go:155-215 | the text of temporal values, points, vectors and lists, letter by letter: an object with `$t` and `v`, `$p` and `c`, or `$v` and `c`, and a bracketed list with commas |
| TextForms.PlainForm | cypher/interp/graph.go:155-215 | booleans, integers, floats and strings are written as JSON has them |
| TextForms.WholeTextOnly | cypher/interp/fastjson.go:14-28 | the text of an object is decoded with white space around it and with anything else after it refused |
| TextForms.EscapeLetters | cypher/interp/fastjson.go:170-193 | the character each two-letter escape stands for |
| TextForms.UnicodeEscape | cypher/interp/fastjson.go:170-193 | four hex digits after a backslash and u name the character of that number, unless half of a surrogate pair |
| TextForms.HexDigits | cypher/interp/fastjson.go:170-193 | the digits are read in either case, most significant first |
| TextForms.UnicodePair | cypher/interp/fastjson.go:170-193 | two escaped halves of a surrogate pair are read as one character |
| TextForms.LastMember | cypher/interp/fastjson.go:41-82 | of members with one name the last counts |
| TextForms.NumberIs | cypher/vector/parse.go:22-124 | `parseNumber` reads a text whole exactly if it is an optional minus, digits with at most one dot and at least one digit, and perhaps an exponent with digits |
| Stored.FastDecoder.Str | cypher/interp/fastjson.go:170-193 | the cursor reads exactly the string the specification reads and stops right after it |
| Stored.FastDecoder.Object | cypher/interp/fastjson.go:41-82 | the same for objects, on every text, well formed or not |
| Stored.FastDecode | cypher/interp/fastjson.go:14-28 | the whole decoder succeeds and fails exactly as specified, on every text |
| StoredVectors.SkipOver | cypher/vector/parse.go:170-217 | skipping by bracket depth and string escapes passes over exactly one written value |
| StoredVectors.SkipValueAt | cypher/vector/parse.go:170-217 | the index loop ends where the specified skip ends, on every text |
| StoredVectors.FindMemberAt | cypher/vector/parse.go:222-260 | the member found is the one the specified scan finds, on every text |
| StoredVectors.ParseFloat32s | cypher/vector/parse.go:128-165 | reads exactly n finite numbers from a bracketed list or nothing |
| StoredVectors.ReadStoredVector | cypher/vector/parse.go:274-285 | computes the specified reading of one vector, on every text |
| StoredVectors.StoredReads | cypher/vector/parse.go:274-285 | what the text reader finds in an encoded property map: the vector or number list of that name if all fit 32-bit floats, and also the coordinates of a point |
| StoredVectors.ReadersAgree | cypher/vector/parse.go:274-285 | the two readers of the same text agree exactly unless the property is a point read as three dimensions, or a coordinate is not finite in 32 bits |

## Findings

Where the code does something its documentation does not say, the model follows the code.

| where | what | shown by |
|---|---|---|
| group.go:268-287, eval.go:75-81 | Deepening loses matches of `(a)-[*0..]->()-[*0..]->(c)` with both ends bound: `walk` tests the budget before it lets the last link match nothing, so at a given length only the matches with a non-empty last link are seen, and SHORTEST k GROUPS and ALL SHORTEST may stop there. It can happen exactly for the tie shape; ANY SHORTEST and SHORTEST k still return as many matches of the same lengths. README.md:57 promises that selectors over longer patterns enumerate matches and stop when satisfied. | TieShapes.DeepeningCanLose, TieShapeIff, GroupsAgreeIff, AnyKeepLengths |
| reverse.go:40-105, project.go:61-124 | `touches` uses `walkExpr`, which does not enter the conditions and bodies of comprehensions, quantifiers and reduce, projected variables, type and normalization tests or computed labels, and `reversed` does not look at computed labels and types of the pattern. A part can be reversed although a property map needs a variable bound later. | PlanGaps.ReversalLosesMatch, Exprs.TouchesMisses, MentionsIff |
| relfirst.go:103-204 | `matchRelFirst` evaluates the relationship's property map and types before the start variable is bound and does not check that they are free of it. | PlanGaps.RelFirstLosesMatch, RelFirst.RelFirstIff |
| match.go:429-470, match.go:104-117 | The inline WHERE of a variable-length relationship is not evaluated, nor that of a start node that is already bound; the model does the same. | PlanGaps.VarLengthWhereIgnored, BoundStartWhereIgnored |
| engine.go:60-90, vecindex.go:254-290 | The vector cache is right under four rules the code does not enforce: a build's snapshot is no older than the last applied batch when the epoch is read, batches are applied in commit order, a transaction with a failed statement is rolled back, and only vectors are written that a build reads from the text as a statement reads them from the value. Each is necessary. | CacheProtocol.StaleWithoutSnapshotRule, StaleWithoutOrder, StaleWithoutRollback, StaleWithoutAgreement |
| tx.go:37-58 | Committing after a failed statement can also leave a constraint violated for good. | ConstraintRuns.BrokenCommit |
| arith.go:81-86 | `addBig` converts to 64-bit nanoseconds, so spans beyond 292 years wrap. | Between.AddBigExact, ShiftInSeconds |
| between.go:106-128 | A month that ends at the end of a shorter month is not counted, and `duration.between` is antisymmetric only for some pairs of dates. | Between.EndOfMonthNotCounted, BetweenNotAntisymmetric, Mirrored.BetweenMirrored |
| parse.go:268-285 | `StoredVector` takes the coordinates of a point for a three-dimensional vector, and rejects coordinates too large for 32 bits that the full decoder accepts. | StoredVectors.ReadersAgree |
| parse.go:227-236 | The check for an empty time part is made on the letter T alone: `PT` is refused and `Pt` is the zero duration. | DurationTexts.BareMark, ParseUnitForm |
| duration.go:100-104 | Negating the least 64-bit number of months or days wraps. For the least number of seconds without nanoseconds the range error is dropped and the zero duration returned. | Durations.NegExact |
| graph.go:335-340, graph.go:715, graph.go:800 | The label column joins labels with commas and is split at commas, while node_labels holds them one by one: a label with a comma, or the empty label alone, is read back differently and the two no longer agree. | StatementView.CommaLabel, CreateNodeOk, LabelText.LabelsSurviveIff |
| schema.go:433-482 | If all constrained values are strings or numbers the duplicate check trusts SQL equality, for which a stored boolean is 0 or 1 and a stored list its JSON text, so an entity can be refused although no other has equal values. It never passes one wrongly. | Constraints.WronglyRefused, PassesIff, SqlCoarser |

## Left out

- Quantified groups, inline WHERE with subqueries, pattern comprehensions and the aggregation pushdown: they need the semantics of whole subqueries or of SQL.
- Label expressions other than conjunctions on nodes and alternatives on relationships (`!`, `%`, mixed): names and `$(e)` are modelled, names first.
- Row emission of `matchShortest` and path selectors inside a MATCH of several parts: selectors and shortest paths are modelled for one part and one pair of ends.
- Map values of expressions: a map literal or projection is modelled together with the operator applied to it.
- Evaluation errors in a property map or WHERE: an expression that fails counts as not matching, where the code ends the query with the error (an undefined variable in the failing inputs of `PlanGaps`).
- Property maps given as a parameter (`$map`) push no hints in the model.
- The engine-wide hop limit of variable-length links outside shortest paths: it only changes the range a pattern is given.
- SQL, SQLite, files, goroutines, locks and `context`: tables are maps, workers are index ranges, critical sections are single steps of the cache protocol, an import or a commit is one step.
- Prefetching of adjacency lists and nodes (`prefetchAdj`, `preloadNodes`): batching that fills the same caches.
- The flat coordinate array of a matrix and its growth: rows are sequences, and the memory budget is a flag the caller passes.
- Floating-point arithmetic: scores are reals, a float is its text, and whether it is finite in 32 bits is a parameter; `parseNumber` and `slowNumber` are modelled by what they accept, not by the number they compute.
- Time zones, daylight saving and 64-bit overflow of calendar arithmetic other than in `addBig`: only local date-times with unbounded years.
- `Duration` arithmetic other than negation and `build` (`Plus`, `Scale`, `Div`): sums and products of rationals.
- Temporal values, points and vectors are compared by kind and text; instants written with different offsets count as different.
- Constraints.FindDuplicate: numbers are compared by value, as SQLite and the keys do; `equals`, which decides when some part is no string or number, rounds integers beyond 2^53 to a float first.
- Keys.KeyCanonical: integral floats of 2^63 and beyond are written with the float formatter, so they group apart from every integer; numbers in that range are compared as texts.
- TieShapes.TieShapeIff: stated for patterns without property maps, inline conditions or relationship variables, which could forbid the tied matches on every graph; NoTieOutside has no such restriction.
- Written.WrittenPlansAgree: patterns as written carry no inline WHERE; one on a relationship keeps `reversed` from applying and not `matchRelFirst`.
