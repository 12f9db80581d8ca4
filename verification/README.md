# Verified model of the partitioned-training scripts

zord splits the training of temporal graph networks over several GPUs. Its experiment scripts
contain complete algorithms for the split: partitioned execution with a halo exchange, online
repartitioning of a growing graph, cuts in space and time, and packing of work onto unequal
devices. Their comments make claims about every run: the partitioned result equals the
single-device one, migration stays within a budget, the loads stay within the capacities, a lower
bound holds for every assignment. This project states those claims over every input and proves
them in Dafny.

## How it is organised

Array vocabulary and weighted loads
: `Arrays` holds the numpy primitives the scripts lean on (index selection, `nonzero`,
  `bincount`, stable `argsort`, `unique`, `searchsorted`, `concatenate`, CSR construction).
  `WeightedLoads` holds weighted histograms over `real`.

Partitioned execution
: `HaloExecution` is the D-device run with its local CSR, halo plan, blocking and overlapped
  exchange, step loop and reassembly. `PinnedExchange` builds the staging plan of the pinned
  exchange, `PinnedStreams` runs it as a machine of asynchronous streams under every
  interleaving, and `PinnedRuns` builds its jobs, finishes its runs and reads them back.
  `DirectStreams` is the overlapped exchange as such a machine and `DirectRuns` its whole runs.
  `BoundaryExchange` is the same exchange as an SPMD protocol with two handshakes. `TgnStreaming`
  is the memory model evaluated batch by batch on sharded state. `TensorSplit` is the
  column-parallel variant.

Online repartitioning
: `LabelMatching` counts migration up to relabelling. `ChangedCone` chooses what may move,
  `IncrementalVotes` reads neighbour histograms from a filtered edge list, `GreedyPlacement` and
  `IncrementalRun` are the greedy repair and the whole snapshot loop. `LabelPropagation`,
  `OverflowSpill` and `BudgetedRepair` are the capacity-aware repair. `StreamOrder` and
  `StreamingPlacement` are the online streaming partitioner. `ActivityRebalance` sheds hot
  vertices, `RebalancePromise` says when that is enough, and `SortedMatching` decides feasibility
  on unequal devices.

Cuts and packing
: `SpaceTimeCuts` and `TemporalBound` hold the two cut counts, the factorization ladder and the
  temporal lower bound, `RankBlocks` the equal blocks they cut into. `LptPacking`, `PrefixSplit` and `Eviction` hold the packing guarantees.

Conventions: floats are `real` or `int`. Row functions (mean and weight mix, GRU, relu, scores)
are arbitrary functions of their arguments, so the same-result theorems need no associativity.
`TensorSplit` is the exception: its matrix products are sums of reals. Orders and permutations
that the C++ kernels return are arbitrary permutations. Collectives and streams are abstract
operations on all buffers. Each numpy expression is a function, each loop of the scripts a method
with a loop.

## What the scripts promise and the model refutes or sharpens

- `lowerbound_check.py` says the cell budget is hard for every partition of its family. The
  factor splits ignore it. `TemporalBound.BudgetIgnoredExample` is a graph where the whole-timeline
  split cuts nothing although the bound is 1; `WholeTimelinesMeetBoundIff` says exactly when that
  split meets the bound, and `FamilyMeetsBoundIff` that the whole family does exactly then. For
  assignments that respect the budget the bound is a theorem.
- Above six devices the label match of `migration` can merge two devices
  (`LabelMatching.GreedyMergesDevices`). `MigrationKeepsLoadsIff` and `MigrationKeepsCutIff` decide
  from the two partitions whether loads and cut survive, and `GuardIsExact` says that both always
  do exactly up to six devices.
- `rebalance_activity` says its rounds go on until every device fits or the budget is spent. A
  vertex larger than either cap moves back and forth until the rounds are over
  (`RebalancePromise.RoundsRunOut`, `HopelessFails`). The promise is kept whenever the caps are not
  negative and hold the whole footprint and, for every device but one, a heaviest vertex more
  (`PromiseKept`). No smaller margin is enough for all inputs (`SpareCapacityIsExact`). For single
  rounds, `ActivityRebalance.RoundHelpsIff` says exactly when one lowers the total excess.
- The capacity repair of `dynamic_run.py` can stop with devices over capacity
  (`OverflowSpill.StuckExample`). `FitsExactly` says exactly when it succeeds.
- The streaming evaluation of `exp_tgn_memory.py` fails on an empty batch, and only then. The
  tensor split with a weight fails when there are more devices than columns, and only then.
- `attr_placement.py` evicts the fewest rows, except that it evicts one row too many when all rows
  are empty and the budget is negative.

## Model

| member | source | states |
|---|---|---|
| HaloExecution.RunCell | scripts/exp_gpu_e2e.py:176-354 | for every graph, partition, layer count, order-sensitive row function and either exchange, the reassembled output is the partition-free reference, in which a vertex hears the other ends of the edges that start at it, of those that end at it, and itself |
| HaloExecution.SelfLoopNeighbours | scripts/exp_gpu_e2e.py:183 | in the doubled edge list a vertex has its outgoing and incoming edges and one self-loop, in that order |
| HaloExecution.LayersAreTwoWay | scripts/exp_gpu_e2e.py:183 | layers over the doubled edge list are layers over the undirected edges |
| HaloExecution.RunReference | scripts/exp_gpu_e2e.py:556-571 | the single-device loop over its CSR computes the recursive layer semantics |
| HaloExecution.Cluster.Step | scripts/exp_gpu_e2e.py:314-326 | if the devices hold the rows of one layer, afterwards they hold the rows of the next |
| HaloExecution.Cluster.RunLayers | scripts/exp_gpu_e2e.py:332-342 | the layer loop leaves every device with its rows of the last reference layer |
| HaloExecution.Cluster.ExchangeLegacy | scripts/exp_gpu_e2e.py:268-272 | every table slot, local or halo, ends with the current row of its vertex |
| HaloExecution.Cluster.ExchangeDirect | scripts/exp_gpu_e2e.py:274-285 | launching all copies before any scatter fills the same tables |
| DirectStreams.SetupIsOk | scripts/exp_gpu_e2e.py:198-219 | with built shards, rows on their owners and all copies launched, every copy, once, on its owner's side stream, reads the rows its slots need |
| DirectStreams.EveryInterleaving | scripts/exp_gpu_e2e.py:274-285 | however the side streams and the scatters interleave, the exchange ends with exactly the blocking exchange's tables |
| DirectStreams.NoEarlyScatter | scripts/exp_gpu_e2e.py:279-285 | a scatter that may run finds its owner's rows landed, and no copy that may still run lands there |
| DirectStreams.NoDeadlock | scripts/exp_gpu_e2e.py:274-285 | while an operation is left some stream can make its step |
| DirectStreams.ExchangeEnds | scripts/exp_gpu_e2e.py:274-285 | every step brings the exchange one operation closer to the bounded number launched |
| DirectStreams.Drain | scripts/exp_gpu_e2e.py:274-285 | any run of an exchange, however interleaved so far, can be carried on until all streams are dry |
| DirectRuns.BuildJob | scripts/exp_gpu_e2e.py:182-219 | shards and launch queues built from any graph and partition are a job whose exchanges the streams can run |
| DirectRuns.LayerRight | scripts/exp_gpu_e2e.py:314-326 | after an exchange under any interleaving and the aggregation the devices hold the rows of the next layer |
| DirectRuns.FinishLayer | scripts/exp_gpu_e2e.py:314-326 | any exchange that has started can be completed to a whole layer |
| DirectRuns.SomeRepetition | scripts/exp_gpu_e2e.py:332-342 | repetitions of any number of layers exist for every job, from buffers full of anything |
| DirectRuns.ReadBack | scripts/exp_gpu_e2e.py:332-354 | the overlapped run read back by vertex is that reference over the undirected edges, under every interleaving of every exchange |
| HaloExecution.Reassemble | scripts/exp_gpu_e2e.py:352-354 | writing every device's rows back by vertex gives the whole matrix |
| HaloExecution.BuildShard | scripts/exp_gpu_e2e.py:182-219 | slots, halo, CSR and pull plan of a device: every remote neighbour once, every slot reached from its owner |
| HaloExecution.FilteredRow | scripts/exp_gpu_e2e.py:194-205 | a device row sees the same neighbour sequence and degree as the reference row |
| HaloExecution.ShardLayer | scripts/exp_gpu_e2e.py:321-323 | one device's product over a filled table is its part of the reference layer |
| PinnedExchange.BuildStaging | scripts/exp_gpu_e2e.py:248-266 | the per-owner concatenation and per-pair slices cover every halo slot, each slice naming the rows its slots need |
| PinnedStreams.EveryInterleaving | scripts/exp_gpu_e2e.py:287-326 | under every interleaving the waits allow, each round starts from the reference layer and its exchange ends with exactly the blocking exchange's tables |
| PinnedStreams.NextInv | scripts/exp_gpu_e2e.py:287-326 | whichever stream moves next, the invariant on buffers, tables and rows survives |
| PinnedStreams.RaceFree | scripts/exp_gpu_e2e.py:287-326 | two operations that may run at the same time never share a buffer that one of them writes |
| PinnedStreams.NoEarlyScatter | scripts/exp_gpu_e2e.py:303-307 | a scatter that may run finds in its staging buffer the current rows of its owner |
| PinnedStreams.NoDeadlock | scripts/exp_gpu_e2e.py:287-307 | while work is left, some stream can move |
| PinnedStreams.PhaseEnds | scripts/exp_gpu_e2e.py:314-326 | every move brings a phase one operation closer to the number enqueued for it |
| PinnedRuns.BuildJob | scripts/exp_gpu_e2e.py:182-266 | shards and staging plan built from any graph and partition are a job the pinned machine can run |
| PinnedRuns.RunToLayer | scripts/exp_gpu_e2e.py:332-342 | any run, however interleaved so far, can be carried on to the end of any later layer |
| PinnedRuns.SomeRepetitions | scripts/exp_gpu_e2e.py:332-342 | complete repetitions exist for every job, from buffers full of anything |
| PinnedRuns.RepetitionRight | scripts/exp_gpu_e2e.py:332-342 | after every warm-up and timed repetition, whatever the last one left behind, the devices hold the reference rows |
| PinnedRuns.ReadBack | scripts/exp_gpu_e2e.py:332-354 | the pinned run read back by vertex is that reference over the undirected edges, under every interleaving of every repetition |
| BoundaryExchange.BuildInfo | scripts/dist_scaling.py:338-365 | a rank's local numbering and its distinct remote neighbours with their owners |
| BoundaryExchange.CountHandshake | scripts/dist_scaling.py:442-445 | after the count handshake each rank knows what each peer wants: the transposed counts |
| BoundaryExchange.RequestsWellPosed | scripts/dist_scaling.py:447-455 | the id collective agrees on every pairwise size |
| BoundaryExchange.RequestedAreMine | scripts/dist_scaling.py:456-458 | every requested id maps to a valid local row of the rank it was asked from |
| BoundaryExchange.MakeBoundaryExchange | scripts/dist_scaling.py:429-468 | both handshakes leave every rank with pairwise matching splits, one slot per remote id, and send rows that are the rows its peers asked for |
| BoundaryExchange.SplitsAgree | scripts/dist_scaling.py:464-467 | what one rank sends a peer is what the peer expects, in both directions |
| BoundaryExchange.PayloadWellPosed | scripts/dist_scaling.py:480-485 | the payload collective of a step agrees on every size |
| BoundaryExchange.Exchange | scripts/dist_scaling.py:480-489 | after a step every halo slot holds its owner's row, in remote-id order, and no local row changed |
| BoundaryExchange.HaloRowFresh | scripts/dist_scaling.py:480-489 | halo slot nl + k holds the current row of the k-th remote vertex |
| BoundaryExchange.TrafficIsDistinctRemotes | scripts/dist_scaling.py:463-470 | a rank receives as many rows as it has distinct remote neighbours, and its send split adds up to the rows it keeps ready |
| BoundaryExchange.TotalTraffic | scripts/dist_scaling.py:463-485 | the rows shipped, summed over all ranks, are the distinct remote neighbours summed over all ranks |
| TgnStreaming.Restored | scripts/exp_tgn_memory.py:82-92 | rows collected owner by owner and read through the sorted positions are back in request order |
| TgnStreaming.GatherRows | scripts/exp_tgn_memory.py:82-92 | returns exactly the requested rows, and fails exactly on an empty request |
| TgnStreaming.MeanCsr | scripts/exp_tgn_memory.py:94-113 | each receiving vertex's mean is taken over all its messages in arrival order, whatever the partition |
| TgnStreaming.UpdateHears | scripts/exp_tgn_memory.py:141-153 | a vertex at some edge of the batch passes the mean of the rows of its edges' other ends through the cell, outgoing edges first; every other vertex keeps its memory |
| TgnStreaming.EncodeHears | scripts/exp_tgn_memory.py:126-139 | the embedding of a vertex takes its own row and the mean over the other ends of its edges in the batch before, if it has any |
| TgnStreaming.MemUpdate | scripts/exp_tgn_memory.py:141-153 | the new shards are the shards of the single-device memory, in which every vertex hears the other ends of its edges |
| TgnStreaming.Encode | scripts/exp_tgn_memory.py:126-139 | the embedding shards are the shards of the single-device embedding, in which every vertex hears the other ends of its edges |
| TgnStreaming.ScoreEdges | scripts/exp_tgn_memory.py:155-167 | reordered scores are the single-device scores in edge order |
| TgnStreaming.Evaluate | scripts/exp_tgn_memory.py:200-218 | over all batches every score and the final memory equal the single-device ones; it fails exactly when a batch is empty |
| TensorSplit.GatherColumn | scripts/exp_gpu_e2e.py:396-403 | aggregation of a column block is the block of the aggregation |
| TensorSplit.MixConcat | scripts/exp_gpu_e2e.py:402-405 | the product over two blocks of columns is the sum of the block products |
| TensorSplit.SumPartials | scripts/exp_gpu_e2e.py:402-405 | the partial products of all devices add up to the full product |
| TensorSplit.Rescatter | scripts/exp_gpu_e2e.py:407-408 | column blocks are restored, and it fails exactly when there are more devices than columns |
| TensorSplit.Sweep | scripts/exp_gpu_e2e.py:396-410 | one sweep is one reference layer, with or without a weight |
| TensorSplit.LayersAreReference | scripts/exp_gpu_e2e.py:553-571 | sparse products with mean weights, mix and relu over the stored rows are the layers of the graph semantics shared with the partitioned run |
| TensorSplit.MixIsSum | scripts/exp_gpu_e2e.py:402-405 | an entry of the product with the weight is the sum of the products of row and column |
| TensorSplit.MeanRowIsMean | scripts/exp_gpu_e2e.py:374-377 | the aggregated row of a vertex is the mean of its neighbours' rows |
| TensorSplit.RowLayerIs | scripts/exp_gpu_e2e.py:564-571 | a row of a layer is the mean, mixed when there is a weight, with every entry that is not positive set to zero |
| TensorSplit.RunTensor | scripts/exp_gpu_e2e.py:364-431 | built from the edges, through warm-up and timed repetitions, every number of layers gives the reference layers over the undirected edges; with a weight exactly for D <= F |
| LabelMatching.AllRelabellings | scripts/dynamic_run.py:280-286 | the enumeration visits exactly the permutations of the labels |
| LabelMatching.ExactMap | scripts/dynamic_run.py:280-287 | the brute force returns a permutation with the least number of moved vertices |
| LabelMatching.GreedyBeatsEveryMap | scripts/dynamic_run.py:288-291 | no map of labels, bijective or not, moves fewer vertices than the greedy one |
| LabelMatching.Migration | scripts/dynamic_run.py:268-294 | the count is the mismatch after relabelling and at most that of every permutation, exact up to six devices; the map applied is the identity, a least permutation, or the row maxima |
| LabelMatching.MigrationKeepsLoadsIff | scripts/dynamic_run.py:268-294 | the relabelling keeps the load of every device in use exactly when there are at most six devices, nothing is shared, or no two devices in use overlap the same earlier device most |
| LabelMatching.MigrationKeepsCutIff | scripts/dynamic_run.py:246-294 | it keeps the cut exactly under the same guards or when no cut edge joins two devices that overlap the same earlier device most |
| LabelMatching.RelabellingPreserves | scripts/dynamic_run.py:280-294 | a bijective relabelling keeps every load and the cut |
| LabelMatching.GreedyMergesDevices | scripts/incremental_repartition.py:158-163 | for every count above six, two separated vertices are both mapped to device 0 and reported unmoved |
| LabelMatching.GuardIsExact | scripts/dynamic_run.py:279-291 | over all partitions and graphs, loads and cut survive exactly for device counts up to six |
| ChangedCone.SelectMovers | scripts/incremental_repartition.py:217-239 | movers are touched old vertices within the budget, all of them if they fit, otherwise those with most cut edges |
| ChangedCone.CrossDegreeIsCount | scripts/incremental_repartition.py:233-235 | counting the ends of the cut edges gives every vertex its boundary degree |
| IncrementalVotes.EmittedVotes | scripts/incremental_repartition.py:253-266 | the oriented pairs of the edges touching the placement set lose and duplicate no incident edge of a placed vertex |
| IncrementalVotes.NeighboursAreIndices | scripts/incremental_repartition.py:272-277 | sorting, searching and slicing returns a vertex's partners in emission order |
| IncrementalVotes.SliceRefinesVotes | scripts/incremental_repartition.py:253-281 | the histogram read from the slice is the vertex's histogram over all its edges |
| GreedyPlacement.ScoreOrder | scripts/incremental_repartition.py:281-286 | the load penalty never outweighs a neighbour: it only breaks ties |
| GreedyPlacement.BelowCapacityIff | scripts/incremental_repartition.py:208 | a device is below capacity exactly while D times its load is at most N |
| GreedyPlacement.RoomLeft | scripts/incremental_repartition.py:286-289 | while a vertex is unplaced some device holds no more than its equal share, so the all-full branch never runs |
| GreedyPlacement.Choose | scripts/incremental_repartition.py:285-289 | the device below capacity with most votes, then least load, then smallest label |
| GreedyPlacement.PlaceOne | scripts/incremental_repartition.py:276-291 | one vertex goes to a device within its equal share, passing over no such device with more placed neighbours, or as many and a lighter load; loads stay the true counts, nothing else changes |
| IncrementalRun.PartitionIncremental | scripts/incremental_repartition.py:194-293 | a greedy run over new vertices and movers, every placement within the equal share: all placed, others keep their device, D times all but one vertex of a device is at most N unless it only lost vertices, movers within the budget |
| IncrementalRun.ScratchBalanced | scripts/incremental_repartition.py:183-188 | every rank block of any order is less than one vertex away from an equal share |
| IncrementalRun.MigrationWithinMovers | scripts/incremental_repartition.py:141-163 | the reported migration never exceeds the vertices actually freed |
| IncrementalRun.Run | scripts/incremental_repartition.py:345-422 | over every growing stream each offset gets its snapshot, and every snapshot is fully placed, has at most one vertex above the equal share on any device, changes only vertices its new edges touch, and reports the relabelled migration, which is within the budget |
| LabelPropagation.FixedCell | scripts/dynamic_run.py:402-404 | a cell of the flat row-times-D histogram counts one vertex's fixed neighbours on one device |
| LabelPropagation.TentativeCell | scripts/dynamic_run.py:413-416 | the same for neighbours still being placed, by their current label |
| LabelPropagation.OnePass | scripts/dynamic_run.py:412-419 | a vectorised pass is the naive simultaneous majority vote over all incident edges, anchors weighing four |
| LabelPropagation.StablePasses | scripts/dynamic_run.py:420-421 | stopping at stable labels changes nothing |
| LabelPropagation.Propagate | scripts/dynamic_run.py:385-422 | the loop returns exactly six naive passes from the round-robin seed |
| OverflowSpill.Spill | scripts/dynamic_run.py:424-441 | terminates because total overflow falls; each move takes the first placement vertices of the fullest device to the one with most room, as many as fit; only placement vertices move, no device is pushed over its capacity, and the stop reason is explained |
| OverflowSpill.OnDeviceInOrder | scripts/dynamic_run.py:434 | the vertices that may leave a device are listed in the order of the placement |
| OverflowSpill.OverflowFalls | scripts/dynamic_run.py:427-440 | a block move lowers the total overflow by its size |
| OverflowSpill.FitsExactly | scripts/dynamic_run.py:427-441 | it ends within all capacities exactly when they hold all vertices and no device is over capacity with vertices that must stay; with enough total capacity it never runs out of room |
| OverflowSpill.StuckExample | scripts/dynamic_run.py:427-441 | two vertices that must stay on a device of capacity 1 leave it over capacity, although the other device has room for all |
| BudgetedRepair.PartitionIncremental | scripts/dynamic_run.py:330-441 | six label passes over new vertices and movers, then the spill moves; untouched vertices stay, movers are within the budget, and the result fits exactly when the capacities allow it before placement |
| BudgetedRepair.DefaultCapsSuffice | scripts/dynamic_run.py:333-336 | the default capacities add up to more than the vertices |
| StreamOrder.ExpandCsr | scripts/dynamic_run.py:581-595 | the jump-and-running-sum form equals the ranges laid end to end, empty ranges included |
| StreamOrder.StreamInOrder | scripts/dynamic_run.py:529-534 | sorting the first indices lists every value once in order of first appearance |
| StreamingPlacement.Arrivals | scripts/dynamic_run.py:522-539 | the stream holds every new vertex exactly once, in the order in which the edges first touch them, untouched ones last by id |
| StreamingPlacement.BatchVotes | scripts/dynamic_run.py:551-568 | each row of the batch table is that vertex's histogram of placed neighbours |
| StreamingPlacement.RowVotes | scripts/dynamic_run.py:514-518 | a row of the two-way CSR holds exactly the vertex's votes |
| StreamingPlacement.BestOffersMost | scripts/dynamic_run.py:569-574 | the best score is the first maximum of placed neighbours times free places less alpha times the load, among devices with room |
| StreamingPlacement.NeighboursThenLoad | scripts/dynamic_run.py:569-574 | between equal loads no device with room has more placed neighbours; without any neighbours none is lighter |
| StreamingPlacement.Place | scripts/dynamic_run.py:569-575 | the first device that offers most among those with room, or the first least loaded when there is none |
| StreamingPlacement.PartitionOnline | scripts/dynamic_run.py:479-578 | old vertices never move, everything ends placed, every vertex of every batch goes to the device that offers most before the batch; with slack at least one no batch finds every device full and no device gains beyond its target and one batch |
| StreamingPlacement.NeverFull | scripts/dynamic_run.py:512-574 | with slack at least one, before every batch of the run some device has room, so the overflow branch never runs |
| StreamingPlacement.BatchLoad | scripts/dynamic_run.py:569-577 | a batch leaves every device it touches below its target plus the batch |
| StreamingPlacement.BatchesOver | scripts/dynamic_run.py:546-577 | over the whole run a device keeps its count or ends below its target plus one batch |
| SortedMatching.NoPlacementBeatsSorted | scripts/dynamic_run.py:714-719 | no bijection of parts to devices overflows less than the sorted one |
| SortedMatching.FeasibilityExact | scripts/dynamic_run.py:706-720 | feasible exactly when some bijection fits; the reported overflow is the least worst overflow over all bijections |
| ActivityRebalance.FootprintIsLoad | scripts/dynamic_run.py:781-784 | vertices plus weighted activity is the weighted histogram of per-vertex footprints |
| ActivityRebalance.Choose | scripts/dynamic_run.py:783-807 | a slab of the hottest vertices leaves the fullest device for the emptiest, which gets less than one moved vertex more than its room; otherwise the stop reason holds |
| ActivityRebalance.Rebalance | scripts/dynamic_run.py:762-811 | from the live edges: every round is such a move and as large as goal and budget allow; all vertices stay placed, total footprint is conserved, no device ends above its start or its cap plus one vertex, at most the moved vertices change device, at most the budget is moved, and the stop reason is explained |
| ActivityRebalance.RoundHelpsIff | scripts/dynamic_run.py:783-810 | a round lowers the total excess over the caps exactly when the hottest vertex of the fullest device fits in that device's excess and the emptiest device's room together |
| RebalancePromise.RoundSettles | scripts/dynamic_run.py:783-810 | with the capacity to spare, every round the budget does not cut short settles a device for good or brings one within a vertex of it |
| RebalancePromise.PromiseKept | scripts/dynamic_run.py:762-811 | with a heaviest vertex to spare for every device but one, the rebalance ends with every device within its cap, after at most half its rounds, or with the budget spent |
| RebalancePromise.SpareCapacityIsExact | scripts/dynamic_run.py:762-811 | over all graphs, placements, caps and budgets on D devices with vertices of at most h, a spare capacity guarantees that exactly from (D - 1) h on |
| RebalancePromise.HopelessFails | scripts/dynamic_run.py:762-811 | a vertex heavier than every cap, or a negative cap, breaks the promise on every run with budget for all its rounds |
| RebalancePromise.RoundsRunOut | scripts/dynamic_run.py:764-811 | 29 self-loops on one vertex and two devices of cap 50: it changes device until the rounds are over and ends where it was, budget left |
| SpaceTimeCuts.TemporalCutsAgree | scripts/duality_frontier.py:78-84 | distinct snapshot blocks minus one per vertex equals consecutive cells on different devices |
| SpaceTimeCuts.SpatialCutsAgree | scripts/duality_frontier.py:75-76 | crossing edges equal cell pairs on different devices, for identity order |
| SpaceTimeCuts.Factorizations | scripts/lowerbound_check.py:68-74 | the ladder of doublings of the snapshot factor |
| SpaceTimeCuts.LadderMonotone | scripts/duality_frontier.py:34-41 | down the ladder the spatial cut never grows and the temporal cut never shrinks |
| SpaceTimeCuts.PssCorner | scripts/duality_frontier.py:74-76 | one vertex block cuts no edge |
| SpaceTimeCuts.PtsCorner | scripts/lowerbound_check.py:77-83 | one snapshot block breaks no timeline |
| SpaceTimeCuts.OneVertexBlocks | scripts/duality_frontier.py:74-76 | with a block for every vertex the spatial cut is the number of edges between different vertices |
| SpaceTimeCuts.OneSnapshotBlocks | scripts/duality_frontier.py:78-84 | with a block for every snapshot the temporal cut is the number of cells less the number of active vertices |
| RankBlocks.BlockSize | scripts/lowerbound_check.py:81-82 | no block of vertices or snapshots is a whole item above or below its equal part, so none is empty when there are enough items |
| SpaceTimeCuts.SplitBalanced | scripts/lowerbound_check.py:77-83 | on a full grid every device has a block of vertices times a block of snapshots, both balanced |
| TemporalBound.TemporalLowerBound | scripts/lowerbound_check.py:158-213 | every assignment with at most B cells per device has a temporal cut of at least L_temporal |
| TemporalBound.SpanForced | scripts/lowerbound_check.py:209-212 | a timeline needs at least its length over the budget, rounded up, many devices |
| TemporalBound.BudgetIs | scripts/lowerbound_check.py:158-159 | the budget is the even share of the cells, rounded up, unless an explicit capacity is smaller |
| TemporalBound.SpanCovers | scripts/lowerbound_check.py:211-212 | the forced span is the least number of devices whose budgets hold the timeline |
| TemporalBound.BoundIs | scripts/lowerbound_check.py:205-213 | the bound adds up, over all vertices, the share of active snapshots times the devices forced beyond the first |
| TemporalBound.WholeTimelinesMeetBoundIff | scripts/lowerbound_check.py:77-83 | the whole-timeline split meets the bound exactly when every timeline fits the budget |
| TemporalBound.FamilyMeetsBoundIff | scripts/lowerbound_check.py:68-87 | every split of the family meets the bound exactly when every timeline fits the budget |
| TemporalBound.BudgetIgnoredExample | scripts/lowerbound_check.py:140-159 | a graph where that split is below the bound, against the family-wide claim |
| LptPacking.ListSchedulingBound | scripts/attr_exploit.py:635-642 | greedy packing in any order is within 2 - 1/D of any assignment |
| LptPacking.LptBound | scripts/attr_exploit.py:635-642 | heaviest-first packing is within 4/3 - 1/(3D) of any assignment |
| LptPacking.PackClusters | scripts/attr_exploit.py:636-642 | the loop packs each cluster on a least-loaded device and its loads are the true ones |
| LptPacking.CutFromLabelsBalanced | scripts/attr_exploit.py:631-643 | the vertex loads it returns are within the same factor of any placement of whole clusters |
| PrefixSplit.PieceBound | scripts/end_to_end_pipeline.py:189-205 | a piece carries at most its target and one vertex more |
| PrefixSplit.LoadIsPiece | scripts/end_to_end_pipeline.py:222-223 | a device's work counted over vertices is the weight of its piece of the order |
| PrefixSplit.SolveBalancedBounds | scripts/end_to_end_pipeline.py:189-205 | the bounds start at 0, rise by at least one vertex each and end at the vertex count; clipped, none is more than one vertex short of its accumulated target or, save for that one vertex, past it |
| PrefixSplit.Arrange | scripts/end_to_end_pipeline.py:215-223 | for every order the ranks own consecutive stretches, each at most its bandwidth share and the largest degree, also with more ranks than vertices |
| PrefixSplit.NearlyOptimal | scripts/end_to_end_pipeline.py:189-223 | if any assignment finishes in time t, this one finishes in t plus the time of one vertex |
| PrefixSplit.SplitContiguous | scripts/attr_placement.py:98-122 | contiguous capacity-proportional segments, all branches: share of the total plus one row, and even counts when there is no weight |
| PrefixSplit.OneRowOver | scripts/attr_placement.py:98-122 | when the total fits the capacities, a segment exceeds its own by at most one row |
| Eviction.PrefixIsBest | scripts/attr_placement.py:428-433 | no selection of rows holds more bytes than the equally long largest-first prefix |
| Eviction.EvictLargest | scripts/attr_placement.py:407-435 | the rest fits the budget (or is empty), and no row set that does so is smaller, unless every row is empty |

## Left out

- GreedyPlacement.ScoreOrder: compares exact scores; rounding of the penalty in floating point is not modelled.
- RebalancePromise.SpareCapacityIsExact: exact over all inputs with the same number of devices and the same bound on a vertex; whether a single input below that margin still succeeds is not decided.
- ChangedCone.SelectMovers: the order among equal boundary degrees is that of a stable sort, one of the selections `argpartition` may return; the callers use only its contract.
- TgnStreaming.Encode: a device without any receiving vertex skips adding the zero neighbour term; the model treats adding zero as no change.
- TgnStreaming.Evaluate: starts from given memory and fixed parameters; the training epochs before it are not modelled.
- HaloExecution.Cluster.ExchangeDirect: takes its copies in program order; their interleavings are those of DirectStreams and DirectRuns.
- DirectRuns.ReadBack: the aggregation of a layer is one step after its exchange has run dry, as the synchronisation in between forces.
- IncrementalRun.Run: the from-scratch baseline after the first snapshot and the reuse statistic carry no state into the incremental partition.
- SortedMatching.FeasibilityExact: the position of the worst device is not returned.
- LptPacking.CutFromLabelsBalanced: the edge-cut metrics computed from the result are not modelled.
- Eviction.EvictLargest: the blind policy, which has no guarantee, is not modelled.
- torch, CUDA, NCCL, SLURM, timing, memory measurement, printing, CSV, JSON and argument parsing.
- Automatic differentiation, SGD and loss trajectories: gradient sums depend on the partition order.
- The spectral part of the lower bound: the power iteration gives an estimate, not a bound.
- Graph generators, dataset loaders, k-means, curve fits and the C++ kernels.
- The strategy driver of `dynamic_run.py` with its sizing to capacity shares, its snapshot windows and its round-robin baseline: heterogeneous capacities do not survive the relabelling there.
- The equal-boundary split of `attr_exploit.py` and the other copies of the prefix split: siblings of the split proved here.
