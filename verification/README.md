# Verified models of Graph500, Redis and Metis components

This project models the hard parts of three programs and proves what they promise.
All claims are for every input, every order of delivery and every run of the model.
`dafny verify dfyconfig.toml` checks the whole project.

**Graph500 (MPI).** The active-message layer gathers messages in buffers, routes them over two hops and ends
a phase with a barrier that counts acknowledgements. The shortest path and breadth-first search kernels run on
top of it and are proved for any order of delivery between barriers. The result validator is proved complete,
and sound exactly on the graphs described below. The CSR builder, the six-byte column format, the jump-ahead
random number generator and the vertex scrambling complete the pipeline.

**Redis 3.0.** The append only file is a command log that is rewritten in the background while the server goes
on. File format, loading of cut files, flushing, the chunked snapshot and the handshake with the forked process
are proved to lose nothing but keys that were expired at the fork. The cluster is modelled as an election over
epochs, with the exact point where uniqueness of the winner fails, and as a table of slots mirrored in bitmaps.
Bit counting, bit search and the bitwise operations on strings are proved against one bit (or byte) at a time.

**Metis.** The B+ tree with parent links and a leaf chain refines a map. Sampling, rehashing, emitting and
grouping lose no pair for any schedule of the workers, and combiners and modifiers fold all values. The spin
barrier is proved for every interleaving. The parallel sort is proved phase by phase, the cores taken one after
the other between barriers, with the exact condition under which a boundary is right.

How the programs became models:

- A kernel is a class whose fields are the arrays, queues and bitmaps of all processing elements (PEs). Messages
  in flight are a multiset; sends and deliveries happen in any order. The barrier of the active-message layer
  is proved separately, so the kernels may rely on it.
- Protocols (active messages, cluster elections, the background rewrite, the spin barrier) are step systems.
  Invariants are proved for every step, theorems for every run.
- An object that is updated in place is a class with contracts on its methods. Lists and dictionaries are
  sequences and maps. The nodes of the B+ tree live in a map from pointers to nodes.
- Integer widths are written out where they matter: 32-bit and 64-bit wrap-around in the generator and the
  scrambling, 32-bit sums in the bit count, the signed routing byte, 48-bit column entries.

These promises do not hold of the code as it stands. Each has a concrete failing input or run and a condition:

- The routing byte of an internode message is signed. A message reaches its destination exactly if the local
  number is below 128 or, in the build with masks, among the last 128 of the group; without masks and with more
  than 128 processes per group a process can also compute a local number outside its arrays, where the model
  stops (`AmlRoute.RoutingByteExact`, `AmlBarrier.BarrierDelivers`, `AmlProgress.StuckIff`,
  `AmlRoute.RoutingByteFails`).
- Delayed acknowledgements are counted in 16 bits. They cannot wrap while a process sends data fewer than 65536
  times between barriers, and then the whole layer works as with unbounded counts; after a wrap its barrier never
  ends (`AckWidth.FewLoseNothing`, `AmlNarrow.ModerateIsSlim`, `AmlNarrow.BarrierCompletes16`,
  `AckWidth.BalancedIff`, `AmlWrap.WrapReached`).
- The CSR builder allocates its counters by the number of edges. All PEs stay inside exactly if the number of
  vertices is at most the number of PEs times the counters of each (`CsrBuild.BuildGraph`,
  `CsrBuild.IncrementsInsideIff`, `CsrBuild.CounterOverrun`). Its eight-byte read of the last six-byte column
  entry also takes in two bytes behind the allocation, exactly if the number of local edges is a positive multiple
  of 2048 (`Csr.ReadsInside`).
- The shortest path validator lets only exact results pass exactly if every edge of weight zero joins vertices at
  distance zero from the root and no edge lies outside the component of the root (`ValidateExact.TrustedIff`,
  `ValidateSpec.ZeroPairAccepted`, `ValidateSpec.InfinitePairAccepted`). The first half alone is exact for the
  finite distances (`ValidateExact.SoundIff`).
- The breadth-first search validator marks exactly the reachable vertices exactly if no edge lies outside the
  component of the root (`ValidateExact.SoundBfsIff`, `ValidateSpec.InfinitePairAccepted`).
- A vote that arrives between the reset of the tally and the next election is counted in the wrong election
  (`ClusterVote.TallyExact`, `ClusterVote.TimelyOneWinner`, `ClusterVote.TwoWinners`).
- A replica without a master follows a missing pointer exactly if a claim covers an unassigned slot that it does
  not import (`ClusterSlots.Cluster.UpdateSlotsConfigWith`, `ClusterSlots.OrphanCrashes`). A replica that serves
  slots itself fails an assertion exactly if its master loses its last slot while it keeps one
  (`ClusterSlots.ServingReplicaAsserts`).
- Right after a rewrite with nothing logged in between, the append only file replays to the live dataset exactly
  if no key was expired at the fork (`AofProtocol.ReplaysIffNoneExpired`, `AofProtocol.ExpiredKeyLost`).
- A relative time to live is turned into a moment once for the dataset and once for the log. The log replays to the
  live expiry exactly if both readings of the clock agree (`AofExpire.ReplaysIffClocksAgree`,
  `AofExpire.ExpiryDrifts`).
- The parallel sort leaves its output unsorted when the search for a boundary stops too early: it leaves out the
  last two elements, so a boundary is right exactly if the element at max(L, R-2) is not below the pivot
  (`PsrsDivide.BoundaryExact`, `PsrsSort.DoPsrs`, `PsrsUnsorted.TwoSortedIff`). On slices whose blocks lie side
  by side it does sort (`PsrsAligned.AlignedSorts`).
- Reducing straight from the parallel sort reduces each key once exactly if no two cores get the same key
  (`MergeReduce.PsrsOutputAndReduce`, `MergeReduce.TwoOnceIff`, `MergeReduce.ReducesThreeTwice`). Slices whose
  blocks overlap strictly ensure it (`MergeReduce.StrictlyAlignedOnce`).
- With fewer than n^3 elements the main core takes the output away while other cores may still read its length. Some
  schedule does so exactly if there is more than one core (`PsrsRace.CrashIff`, `PsrsRace.CrashRun`).

## Model

| member | source | states |
|---|---|---|
| `Partition.LocalRoundTrip` | graph500/src/common.h:33-47 | owner and local index of a vertex are recovered from its global number, for every number of PEs |
| `SsspSpec.PacketRoundTrip` | graph500/src/sssp_reference.c:36-67 | a relaxation message, with the PE it comes from, names its source and destination vertex without ambiguity |
| `SsspSpec.DeliverKeepsRound` | graph500/src/sssp_reference.c:43-61 | handling any message in flight, in any order, keeps the invariant of the phase (sound distances, acyclic predecessors, every unrelaxed arc still covered by queue, loop or message), and either changes nothing or lowers the progress order |
| `SsspSpec.SendKeepsRound` | graph500/src/sssp_reference.c:105-123 | any PE may take its next step in the sending loop without disturbing the invariant of the phase |
| `SsspSpec.QuietRelaxed` | graph500/src/sssp_reference.c:101-116 | when a phase is quiet, every light (or heavy) arc out of the bucket is relaxed, except out of vertices queued again |
| `SsspSpec.EndHeavy` | graph500/src/sssp_reference.c:118-128 | after the heavy arcs the whole bucket is final and the invariant holds with the next lower bound |
| `SsspSpec.ClosedBucketIsFinal` | graph500/src/sssp_reference.c:127-128 | once the buckets below a bound are closed, a vertex has a distance below the bound exactly if a walk of that length exists, and then the distance is the shortest one |
| `SsspSpec.PredIsTree` | graph500/src/sssp_reference.c:49-52 | following the predecessors from any reached vertex gives a shortest walk from the root |
| `SsspSpec.BaseSolves` | graph500/src/sssp_reference.c:129-139 | when no distance is left at or above the bound, all distances are shortest and unreached vertices are unreachable |
| `Sssp.QueueFits` | graph500/src/sssp_reference.c:53-59 | the queue of a PE never outgrows its buffer of `nlocalverts` entries |
| `Sssp.Kernel.HandleRelax` | graph500/src/sssp_reference.c:43-61 | the handler changes distance, predecessor, queue and visited mark exactly as a relaxation step of the abstract store |
| `Sssp.Kernel.Deliver` | graph500/src/sssp_reference.c:43-61 | delivering any message keeps the phase invariant and takes just this message off the network |
| `Sssp.Kernel.SendNext` | graph500/src/sssp_reference.c:64-67 | a step of the sending loop of any PE keeps the phase invariant and lowers the work left |
| `Sssp.Kernel.Exchange` | graph500/src/sssp_reference.c:104-109 | a send loop up to its barrier, in any order of sends and deliveries over all PEs, ends in a quiet state of the same phase |
| `Sssp.Kernel.LightRounds` | graph500/src/sssp_reference.c:101-114 | the light rounds terminate with no vertex of the bucket left to process and all its light arcs relaxed |
| `Sssp.Kernel.HeavyRound` | graph500/src/sssp_reference.c:115-125 | after the heavy round every vertex below the upper bound is final |
| `Sssp.Kernel.CollectBucket` | graph500/src/sssp_reference.c:129-139 | the next queue holds exactly the vertices of the lowest bucket, each once, and the count is zero exactly if no vertex is left |
| `Sssp.Kernel.Begin` | graph500/src/sssp_reference.c:74-92 | the initial queue and distances form a correct first bucket |
| `Sssp.Kernel.Run` | graph500/src/sssp_reference.c:69-149 | for every graph with weights that are natural numbers, every number of PEs and every order of delivery, the kernel terminates with exact shortest distances (-1 exactly if unreachable) and a shortest-path tree |
| `AckLink.AppendKeepsAck` | graph500/aml/aml.c:269-308 | gathering an entry keeps the acknowledgement balance of a communicator |
| `AckLink.FlushKeepsAck` | graph500/aml/aml.c:235-267 | flushing keeps it: outstanding count = data in flight + acknowledgements held back + acknowledgement tags in flight, for every pair of ranks |
| `AckLink.ReceiveKeepsAck` | graph500/aml/aml.c:192-232 | receiving a message, with its tag, keeps it |
| `AckLink.ZeroMeansReceived` | graph500/aml/aml.c:444-445 | a rank whose counter is zero has no data in flight, no acknowledgement tag on its way to it, and is owed no delayed acknowledgement |
| `AckLink.WaitingHasWire` | graph500/aml/aml.c:444-461 | a rank that still waits, and to which nobody holds back an acknowledgement, has a message in flight |
| `AckLink.FlushKeepsContent` | graph500/aml/aml.c:235-267 | flushing moves entries from the buffer to the network and loses none |
| `AckLink.ReceiveRemoves` | graph500/aml/aml.c:192-232 | receiving takes exactly the entries of the message |
| `AckLink.QuietIsEmpty` | graph500/aml/aml.c:439-467 | with empty buffers and all counters at zero a communicator holds nothing |
| `AmlBarrier.RingCovers` | graph500/aml/aml.c:440-443 | the ring order of the flush loop visits every other rank |
| `AmlBarrier.AllAtEnd` | graph500/aml/aml.c:468-469 | when every process stands before the last synchronisation, nothing is on its way |
| `AmlBarrier.ReturnIsClean` | graph500/aml/aml.c:469-470 | a process that leaves the barrier leaves no message of its round behind |
| `AmlBarrier.StepInv` | graph500/aml/aml.c:156-308 | every step of every process keeps the invariant of the whole machine: link balance, local progress of the barrier, synchronisation order, conservation of messages |
| `AmlBarrier.RunInv` | graph500/aml/aml.c:156-470 | the invariant holds throughout every run, for every number of groups and processes per group, with counters as wide as needed |
| `AmlBarrier.PostedRuns` | graph500/aml/aml.c:435-470 | in every run, once any process has completed more barriers than a message had behind it, the handler has run exactly as often as the message was posted to where its routing byte leads, and never more often |
| `AmlBarrier.BarrierDelivers` | graph500/aml/aml.c:435-470 | the promise of the barrier with its exact condition: after it the handler of a message has run at the destination, with its original sender, if and only if the routing byte is exact for it; it has run at least as often as the message was sent, and just as often unless an inexact message strayed there |
| `AmlBarrier.SmallGroupsDeliver` | graph500/aml/aml.c:150-166 | with at most 256 processes per group, or 128 in the build without masks, every message runs exactly as often as it was sent |
| `AmlBarrier.NeverTwice` | graph500/aml/aml.c:156-189 | no handler of an exactly routed message runs more often than the message was sent, as long as no inexact one strays there |
| `AmlProgress.BarrierStepLowers` | graph500/aml/aml.c:435-470 | every step of a process inside the barrier lowers a measure of the whole machine |
| `AmlProgress.SomebodyCanStep` | graph500/aml/aml.c:435-470 | while one process is inside a barrier that all have entered, and no local number leaves the arrays, some process inside it can take a step: there is no deadlock |
| `AmlProgress.BarrierCompletes` | graph500/aml/aml.c:435-470 | a barrier that all processes have entered ends within the measure, and, where no local number leaves the arrays, a run of it that cannot go on has let every process out into the next round |
| `AmlProgress.StuckForever` | graph500/aml/aml.c:156-171 | the model stops at an access outside the arrays: a process that holds an entry for such a local number takes no step any more, whatever the others do |
| `AmlProgress.StuckRun` | graph500/aml/aml.c:150-166 | the run that leads there in the build without masks and more than 128 processes per group |
| `AmlProgress.StuckIff` | graph500/aml/aml.c:98-106 | some run leads there if and only if the build does not mask and a group has more than 128 processes |
| `AckWidth.SameIff` | graph500/aml/aml.c:211-227 | counting a delayed acknowledgement in 16 bits is the unbounded count if and only if it does not wrap |
| `AckWidth.SameBelow` | graph500/aml/aml.c:211-227 | while the counter of the sender is below 65536, counting in 16 bits is the unbounded count |
| `AckWidth.WrapNeeds` | graph500/aml/aml.c:211-227 | to wrap, 65535 acknowledgements must be held back while one more message of the rank is in flight, so its counter is at least 65536 |
| `AckWidth.Deficit` | graph500/aml/aml.c:192-267 | in every run of a communicator with 16-bit counts the counter of a rank is what is on its way to it, and 65536 more for each wrap |
| `AckWidth.BalancedIff` | graph500/aml/aml.c:439-445 | the balance that the barrier waits for holds if and only if nothing has wrapped; after a wrap the counter never falls below 65536 again, so no later wait for zero ends |
| `AckWidth.FewLoseNothing` | graph500/aml/aml.c:235-250 | a rank that sends data fewer than 65536 times after its counter was zero loses nothing, however messages and acknowledgements are delayed |
| `AmlWrap.ManyDelayed` | graph500/aml/aml.c:211-227 | for every number there is a run of two processes in which one holds back that many acknowledgements |
| `AmlWrap.WrapReached` | graph500/aml/aml.c:120-124 | a run that leads to where the next message received wraps the 16-bit count |
| `AmlNarrow.SameStep` | graph500/aml/aml.c:192-267 | while all counters are below 65536, every step of the whole layer with 16-bit counts is the step of the unbounded model |
| `AmlNarrow.SlimRunIsRun` | graph500/aml/aml.c:192-267 | so a run with 16-bit counts whose counters stay below 65536 is a run of the unbounded model and keeps its invariant |
| `AmlNarrow.BarrierCompletes16` | graph500/aml/aml.c:435-470 | in such a run a barrier that all processes have entered ends as in the unbounded model: within the measure, and with every process out in the next round once nothing can go on |
| `AmlNarrow.ModerateIsSlim` | graph500/aml/aml.c:235-250 | processes that send data fewer than 65536 times since their counter was last zero keep all counters of the layer below 65536 |
| `AmlWire.PackAppend` | graph500/aml/aml.c:275-307 | appending an entry to an internode buffer appends its packed header and payload |
| `AmlWire.PackAppendIntra` | graph500/aml/aml.c:268-283 | the same for the intranode header |
| `AmlWire.Process` | graph500/aml/aml.c:156-171 | the receiving loop for internode messages finds exactly the packed entries, in order, and ends at the end of the buffer |
| `AmlWire.ProcessIntra` | graph500/aml/aml.c:179-189 | the same for intranode messages |
| `AmlRoute.RoutingByteExact` | graph500/aml/aml.c:98-106 | for every group size that the code accepts, in both builds: the signed routing byte names the destination exactly if its local number is below 128 or, with masks, among the last 128 of the group |
| `AmlRoute.AllExactIff` | graph500/aml/aml.c:150-166 | it names all destinations if and only if the group has at most 256 processes with masks, 128 without |
| `AmlRoute.RoutedTwice` | graph500/aml/aml.c:150-166 | a message that went astray stays where the byte led it: routing it again leads to the same place |
| `AmlRoute.LeavesArraysIff` | graph500/aml/aml.c:98-106 | some local number falls outside the arrays if and only if the build does not mask and the group has more than 128 processes |
| `AmlRoute.RoutingByteFails` | graph500/aml/aml.c:150-166 | in a group of 512 processes the message for local number 200 goes to 456 |
| `AmlBuffers.SendSide.Put` | graph500/aml/aml.c:285-308 | gathering for one destination disturbs neither the other destinations nor any send in progress |
| `AmlBuffers.SendSide.Flush` | graph500/aml/aml.c:235-250 | after the exchange of `nbuf` and `activebuf` the send keeps what was gathered, gathering goes on in a free buffer, and buffers stay a permutation |
| `AmlBuffers.SendSide.Transfer` | graph500/aml/aml.c:241-248 | whenever the transport gets round to a slot it sends what the slot was told to send |
| `ModArith.Mac4Fits` | graph500/generator/mod_arith_64bit.h:59-76 | four products of residues and a residue fit a 64-bit word |
| `ModArith.FoldIsMod` | graph500/generator/mod_arith_32bit.h:20-61 | the folded reduction is the remainder for every value below the square of the modulus, within 32-bit words |
| `ModArith.Add32` | graph500/generator/mod_arith_32bit.h:20-31 | the 32-bit addition with a single subtraction is the modular sum |
| `ModArith.Mac32IsMac` | graph500/generator/mod_arith_32bit.h:33-60 | the 32-bit multiplication and multiply-accumulate equal the `%` forms |
| `ModArith.MacsBy32` | graph500/generator/mod_arith_32bit.h:62-93 | so do the chained forms for two, three and four products |
| `ModArith.MacYIsMac` | graph500/generator/mod_arith_32bit.h:130-134 | the addition of a product with the second constant equals both `%` forms, so the assertion in the code holds |
| `ModArith.SchrageX` | graph500/generator/mod_arith_32bit.h:110-118 | the split multiplication by the first constant equals the `%` form and never leaves 32-bit range |
| `ModArith.SchrageY` | graph500/generator/mod_arith_32bit.h:120-134 | the same for the second constant |
| `Mrg.ActsOnVectors` | graph500/generator/splittable_mrg.c:25-64 | a bottom row for `k` steps determines the whole matrix of `k` steps |
| `Mrg.MultIsCompose` | graph500/generator/splittable_mrg.c:86-98 | the product acts as the one factor after the other |
| `Mrg.CachedRows` | graph500/generator/splittable_mrg.c:66-71 | the cached entries are those of the rows that the bottom row determines |
| `Mrg.MultiplyIsMult` | graph500/generator/splittable_mrg.c:86-98 | the five computed entries are the exact product of the full matrices, modulo the modulus: the compressed form is closed under multiplication |
| `MrgSkip.StepsIsIter` | graph500/generator/splittable_mrg.c:171-178 | repeated generator steps are the five-term recurrence modulo 2^31-1 |
| `MrgSkip.ApplyIsSteps` | graph500/generator/splittable_mrg.c:116-159 | applying a stored matrix for `k` steps takes any state `k` generator steps ahead |
| `MrgSkip.Power` | graph500/generator/splittable_mrg.c:101-109 | repeated squaring gives the matrix of `k * exponent` steps |
| `MrgSkip.BuildTable` | graph500/generator/splittable_mrg.c:213-256 | entry `v` of line `i` of the dumped table stands for `v * 256^i` steps |
| `MrgSkip.Generator.SkipWord` | graph500/generator/splittable_mrg.c:186-201 | the byte loop over one word skips `exponent * 256^start` steps |
| `MrgSkip.Generator.Skip` | graph500/generator/splittable_mrg.c:186-201 | the state ends exactly `high * 2^128 + middle * 2^64 + low` generator steps ahead, for every state and every exponent |
| `MrgSkip.Generator.GetUint` | graph500/generator/splittable_mrg.c:267-270 | a generator that has taken n steps from a seed moves to n + 1 and returns the first component of that state |
| `BfsSpec.DeliverKeeps` | graph500/src/bfs_reference.c:52-59 | handling any message keeps the invariant of the level: a vertex joins the next level at most once, one hop from its predecessor |
| `BfsSpec.LevelEnds` | graph500/src/bfs_reference.c:105-109 | after the barrier every arc out of the level has been followed |
| `Bfs.QueueFits` | graph500/src/bfs_reference.c:52-59 | each vertex is queued at most once, so the queue of a PE fits `nlocalverts` entries |
| `Bfs.LevelQueueFits` | graph500/src/bfs_reference.c:105-117 | at every moment of a level all queues fit their buffers |
| `Bfs.Kernel.HandleVisit` | graph500/src/bfs_reference.c:52-59 | the handler, run for any message in flight, keeps the level invariant |
| `Bfs.Kernel.SendNext` | graph500/src/bfs_reference.c:61-64 | a step of the sending loop of any PE keeps it |
| `Bfs.Kernel.Exchange` | graph500/src/bfs_reference.c:106-109 | a level up to its barrier, in any order of sends and deliveries, ends quiet |
| `Bfs.Kernel.Level` | graph500/src/bfs_reference.c:106-117 | the next level becomes the current one, and is empty exactly if the search is complete |
| `Bfs.Kernel.Run` | graph500/src/bfs_reference.c:80-126 | the search terminates; exactly the reachable vertices have a predecessor, and following it leads to the root in hop-distance many steps, for every number of PEs and every order of delivery |
| `ValidateSpec.AcceptedIsShortest` | graph500/src/validate.c:252-297 | accepted results on graphs with positive weights: a vertex is reachable exactly if its distance is finite and not missing; then the distance is shortest and the predecessors lead back to the root |
| `ValidateSpec.AcceptedDistances` | graph500/src/validate.c:252-297 | with finite distances on input an accepted result is exact everywhere |
| `ValidateExact.SoundIff` | graph500/src/validate.c:252-297 | for every graph stored in both directions and every root: every finite distance in an accepted result is exact if and only if every edge of weight zero joins vertices at distance zero from the root |
| `ValidateExact.TrustedIff` | graph500/src/validate.c:252-297 | for every graph stored in both directions and every root: every accepted result is exact, with the infinite distance at just the unreachable vertices, if and only if every edge of weight zero joins vertices at distance zero from the root and no edge lies outside the component of the root |
| `ValidateExact.BothAreTrusted` | graph500/src/validate.c:252-297 | under these two conditions every accepted result is exact at every vertex |
| `ValidateExact.OneComponentIsFinite` | graph500/src/validate.c:252-297 | without edges outside the component an accepted result is finite at just the reachable vertices, whatever the weights |
| `ValidateExact.CircleOutside` | graph500/src/validate.c:149-177 | any edge outside the component of the root lets a result pass that gives its ends a finite distance, whatever the weights |
| `ValidateExact.ZeroIsSound` | graph500/src/validate.c:252-297 | under that condition every finite distance in an accepted result is shortest |
| `ValidateExact.ZeroElsewhere` | graph500/src/validate.c:125-147 | any other edge of weight zero lets a wrong result pass |
| `ValidateExact.ClosedIsAccepted` | graph500/src/validate.c:125-147 | distances that no arc improves, each explained by a predecessor, are accepted, exact or not |
| `ValidateExact.ShortcutAccepted` | graph500/src/validate.c:125-147 | lowering one end of an edge of weight zero and recomputing from it as a second source gives an accepted result |
| `ValidateExact.SoundBfsIff` | graph500/src/validate.c:252-297 | for every graph stored in both directions and every root: accepted predecessors mark exactly the reachable vertices if and only if no edge lies outside the component of the root |
| `ValidateExact.OneComponentIsSound` | graph500/src/validate.c:252-297 | under that condition every accepted predecessor array marks exactly the reachable vertices |
| `ValidateExact.OutsideEdge` | graph500/src/validate.c:149-177 | an edge elsewhere lets predecessors in a circle pass |
| `ValidateSpec.ZeroPairAccepted` | graph500/src/validate.c:125-147 | two vertices joined by an edge of weight zero and cut off from the root confirm each other with any distance |
| `ValidateSpec.InfinitePairAccepted` | graph500/src/validate.c:149-177 | predecessors in a circle away from the root keep the largest float as depth and are accepted |
| `ValidateSpec.ExactIsAccepted` | graph500/src/validate.c:252-297 | exact distances with a tree of tight edges pass all checks |
| `Validator.HandleLevel` | graph500/src/validate.c:57-69 | one level of the depth map, for every order of its messages |
| `Validator.MakeDepthMap` | graph500/src/validate.c:149-177 | every vertex whose predecessors lead to the root has as depth the number of steps; the others stay infinite or missing |
| `Validator.CheckEdges` | graph500/src/validate.c:125-147 | for every order of messages the error count is zero exactly if all edges pass, and exactly the confirmed vertices are marked |
| `Validator.CheckVertices` | graph500/src/validate.c:267-279 | no error is counted exactly if every vertex and the root pass |
| `Validator.Checker.CheckRange` | graph500/src/validate.c:258-260 | no error is added exactly if all predecessors are in range |
| `Validator.Checker.CheckConfirmed` | graph500/src/validate.c:289-291 | no error is added exactly if every visited vertex is confirmed |
| `Validator.Checker.ValidateResult` | graph500/src/validate.c:252-298 | accepted if and only if no earlier run failed, all checks hold, and a given edge count is right; the range check fails first |
| `Validator.SsspResultAccepted` | graph500/src/validate.c:252-297 | what the shortest path kernel leaves behind is accepted on graphs that store every edge in both directions |
| `Validator.DepthMapIsDepth` | graph500/src/validate.c:149-177 | the depths computed from the predecessors of a breadth-first search are the hop distances |
| `Validator.BfsResultAccepted` | graph500/src/validate.c:149-177 | what the breadth-first search kernel leaves behind is accepted, with the hop distances as depths |
| `Validator.EdgeCountForTeps` | graph500/src/bfs_reference.c:129-142 | the count is that of the stored edges from visited vertices to neighbours with a smaller or equal number |
| `Validator.CountsAgree` | graph500/src/validate.c:141 | for an accepted result on a loop-free graph stored in both directions, the count of the kernel is the count of the validator |
| `Packing.ColumnRoundTrip` | graph500/src/csr_reference.h:35-37 | writing an identifier below 2^48 makes its slot read as it and changes the reading of no other slot |
| `Csr.SlotInside` | graph500/src/csr_reference.c:40-48 | the slot for the next message is free and inside its row |
| `Csr.Builder.CountHalves` | graph500/src/csr_reference.c:37-39 | the first pass counts for every row the messages of its vertex, for any order of arrival, and says exactly whether every counter that is raised was allocated |
| `Csr.Builder.PrefixSums` | graph500/src/csr_reference.c:137-141 | row starts are the prefix sums, and every cursor stands at the start of its row |
| `Csr.Builder.PlaceFulls` | graph500/src/csr_reference.c:40-48 | every slot is written exactly once, row by row in order of arrival, and every cursor ends at the start of the next row |
| `Csr.Builder.Build` | graph500/src/csr_reference.c:75-180 | the build stays inside its counters exactly if there are as many as local vertices; then both passes together store for every local vertex exactly the targets of its messages, in the allocated pages |
| `Csr.ReadsInside` | graph500/src/csr_reference.c:146-150 | all entries are read inside the allocation if and only if their number is not a positive multiple of 2048 |
| `CsrGraph.PassesAgree` | graph500/src/csr_reference.c:87-177 | whatever the two orders of arrival, the first pass announces for every vertex what the second brings |
| `CsrGraph.RowIsNeighbours` | graph500/src/csr_reference.c:75-180 | row `v` is the multiset of the other ends of the non-loop edges at `v`, with their weights |
| `CsrGraph.BuiltIsSymmetric` | graph500/src/csr_reference.c:87-177 | the built graph is well formed, has no loops and stores every edge in both directions |
| `CsrBuild.LocalCountIs` | graph500/src/csr_reference.c:102-105 | `nlocalverts` is the number of local indexes of a PE that stand for vertices |
| `CsrBuild.IncrementsInsideIff` | graph500/src/csr_reference.c:80-83 | the first pass raises allocated counters only, on all PEs, if and only if every end of an edge that is not a loop is below the number of PEs times the counters of each |
| `CsrBuild.CountersInsideIff` | graph500/src/csr_reference.c:102-141 | the whole build touches allocated counters only, on all PEs, if and only if this holds of one vertex more |
| `CsrBuild.CounterOverrun` | graph500/src/csr_reference.c:80-83 | one edge between vertices 0 and 5 makes a single PE raise a counter that it has not allocated |
| `CsrBuild.EnoughEdges` | graph500/src/csr_reference.c:80-83 | twice as many edges as vertices are always enough |
| `CsrBuild.BuildGraph` | graph500/src/csr_reference.c:75-180 | all PEs stay inside their counters if and only if the edge list meets that condition; then the rows that they build, put together by owner and local index, are the graph of the edge list, for every number of PEs and any order of arrival in both passes |
| `BitReverse.NetworkReverses` | graph500/generator/graph_generator.c:90-101 | the six masked swaps reverse every 64-bit word |
| `Scramble.RoundIs` | graph500/generator/graph_generator.c:131-140 | the 64-bit wrap-around of sum and product does not show in the kept bits |
| `Scramble.RoundInjective` | graph500/generator/graph_generator.c:134-139 | one round of odd multiplication and reversal is one to one below 2^l |
| `Scramble.RoundSurjective` | graph500/generator/graph_generator.c:134-139 | and onto |
| `Scramble.ScrambleInjective` | graph500/generator/graph_generator.c:130-140 | for every pair of seeds scrambling is one to one on the vertices below 2^lgN |
| `Scramble.ScrambleSurjective` | graph500/generator/graph_generator.c:130-140 | and onto them |
| `Scramble.MakeOneEdge` | graph500/generator/graph_generator.c:143-167 | for every sequence of random draws the unscrambled edge lies in the upper triangle and in range, and the scrambled ends are in range and equal exactly if the ends are |
| `ClusterVote.StepInv` | redis-3.0.0/src/cluster.c:1582-1595 | every step of any node keeps the invariant over epochs, votes, tallies and wins |
| `ClusterVote.OneVotePerEpoch` | redis-3.0.0/src/cluster.c:2448-2548 | in every run a master grants at most one vote per epoch |
| `ClusterVote.ConfigBelowCurrent` | redis-3.0.0/src/cluster.c:1582-1595 | in every run configuration epochs never exceed the current epoch, at any node and in any message, acknowledgements included |
| `ClusterVote.TallyExact` | redis-3.0.0/src/cluster.c:1910-1922 | the tally of a running election counts votes of that election only, if and only if it was zero when the election was started |
| `ClusterVote.OneWinnerPerEpoch` | redis-3.0.0/src/cluster.c:2684-2849 | for a fixed set of voting masters no two candidates win the same epoch, if their tallies were zero when they started |
| `ClusterVote.TimelyIsFresh` | redis-3.0.0/src/cluster.c:2751-2758 | if no acknowledgement is counted between the reset of a tally and the next rise of the epoch, nothing is carried into any election of the run |
| `ClusterVote.TimelyOneWinner` | redis-3.0.0/src/cluster.c:2684-2849 | and then no epoch of the run has two winners |
| `ClusterVote.QuorumsMeet` | redis-3.0.0/src/cluster.c:2687 | two majorities of the voters have a voter in common |
| `ClusterVote.LateAck` | redis-3.0.0/src/cluster.c:2751-2758 | a vote may arrive between the reset of the tally and the next election |
| `ClusterVote.TwoWinners` | redis-3.0.0/src/cluster.c:2815-2845 | a run in which two slaves win the same epoch, because a late vote was carried over |
| `ClusterSlots.BitUpdates` | redis-3.0.0/src/cluster.c:3297-3315 | setting or clearing a bit of a bitmap changes that bit and no other |
| `ClusterSlots.PopulationUpdate` | redis-3.0.0/src/cluster.c:3318-3331 | the slot count changes with the population of the bitmap |
| `ClusterSlots.EmptyIffZero` | redis-3.0.0/src/cluster.c:3318-3331 | a slot count of zero means an empty bitmap, and conversely |
| `ClusterSlots.DirtyIff` | redis-3.0.0/src/cluster.c:1471-1479 | the reported slots are exactly the own slots lost with keys in them |
| `ClusterSlots.TookFromIff` | redis-3.0.0/src/cluster.c:1481-1482 | the current master counts as having lost slots exactly if one of its slots was rebound |
| `ClusterSlots.Cluster.AddSlot` | redis-3.0.0/src/cluster.c:3342-3347 | an unassigned slot is given to the node in table, bitmap and count; an assigned one is refused and nothing changes |
| `ClusterSlots.Cluster.DelSlot` | redis-3.0.0/src/cluster.c:3352-3359 | table, bitmap and count lose the slot together; the bit was set, so the assertion in the code holds |
| `ClusterSlots.Cluster.Reassign` | redis-3.0.0/src/cluster.c:1483-1484 | a slot moves from its owner to another node and all mirrors agree |
| `ClusterSlots.Cluster.DelNodeSlots` | redis-3.0.0/src/cluster.c:3363-3371 | a node loses all its slots, the other slots stay |
| `ClusterSlots.Cluster.DelNode` | redis-3.0.0/src/cluster.c:859-886 | a forgotten node leaves no slot, no import and no master link behind |
| `ClusterSlots.Cluster.RebindOne` | redis-3.0.0/src/cluster.c:1454-1488 | the decision about one claimed slot |
| `ClusterSlots.Cluster.Rebind` | redis-3.0.0/src/cluster.c:1453-1490 | a slot changes hands if and only if it is claimed, not already the claimant's, not being imported, and unassigned or owned under a strictly smaller configuration epoch; whether the master lost slots and which own slots are dirty is reported exactly |
| `ClusterSlots.Cluster.UpdateSlotsConfigWith` | redis-3.0.0/src/cluster.c:1430-1518 | the claims are applied. If its master lost its last slot this way, and only then, the node becomes a replica of the claimant or, exactly if it serves slots itself, fails the assertion that a new replica serves none; the missing master is followed exactly if a replica without a master sees a claim on an unassigned slot that it does not import; otherwise the dirty slots are returned |
| `ClusterSlots.NoMasterIff` | redis-3.0.0/src/cluster.c:1481-1499 | the condition in terms of what the caller knows before the call |
| `ClusterSlots.OrphanCrashes` | redis-3.0.0/src/cluster.c:1481-1499 | a replica without a master and a claim that makes it follow the missing pointer |
| `ClusterSlots.ServingReplicaAsserts` | redis-3.0.0/src/cluster.c:3562-3564 | a replica that serves a slot of its own and whose master loses its last slot fails the assertion |
| `ClusterSlots.Cluster.SetMaster` | redis-3.0.0/src/cluster.c:3562-3578 | a node without slots becomes a replica and a former master stops its imports |
| `ClusterSlots.Cluster.ClaimSlotsOf` | redis-3.0.0/src/cluster.c:2656-2662 | all slots of the old master change to this node |
| `ClusterSlots.Cluster.FailoverReplaceYourMaster` | redis-3.0.0/src/cluster.c:2646-2674 | after a won election the node is a master with the slots of its old master and keeps all mirrors in step |
| `ClusterSlots.Cluster.SetNodeAsMaster` | redis-3.0.0/src/cluster.c:1406-1417 | a node becomes a master that replicates nobody; a node that is one stays as it is |
| `ClusterSlots.Cluster.SeeHeader` | redis-3.0.0/src/cluster.c:1582-1595 | a newer current epoch is adopted before a newer configuration epoch of the sender, so the bound between them is kept |
| `ClusterSlots.Cluster.SenderIsSlave` | redis-3.0.0/src/cluster.c:1745-1775 | a sender that was a master until now loses all its slots |
| `ClusterSlots.Cluster.ProcessUpdate` | redis-3.0.0/src/cluster.c:1925-1956 | only a newer configuration of a known node is taken over, and the slots are decided with that epoch, with the same outcomes |
| `AofLog.CommandRoundTrip` | redis-3.0.0/src/aof.c:435-458 | a printed command reads back as the same binary-safe arguments, whatever follows it |
| `AofLog.CommandCut` | redis-3.0.0/src/aof.c:599-748 | a command cut anywhere is noticed as cut, never misread |
| `AofLog.CompleteBounds` | redis-3.0.0/src/aof.c:599-748 | the complete commands end within the cut and the next one would not |
| `AofLog.LoadOfCutLog` | redis-3.0.0/src/aof.c:599-748 | for every cut of a valid log exactly the complete commands are run and the file is cut after the last of them; without the option only a cut between commands and outside a transaction loads |
| `AofLog.LoadOfLog` | redis-3.0.0/src/aof.c:599-748 | the whole log loads completely |
| `AofReplay.ReplayOfLogged` | redis-3.0.0/src/aof.c:497-545 | the log of a sequence of operations replays as exactly these operations, each in its own database, thanks to the inserted SELECTs |
| `AofServer.CatGenericCommand` | redis-3.0.0/src/aof.c:435-458 | the buffer grows by exactly the printed command |
| `AofServer.LoadAppendOnlyFile` | redis-3.0.0/src/aof.c:599-748 | the loop over commands and arguments does on every file, valid or not, what the parser of the format says |
| `AofServer.ReadCommand` | redis-3.0.0/src/aof.c:639-690 | the same for one command at a position |
| `AofServer.ReadArgs` | redis-3.0.0/src/aof.c:654-680 | the same for the arguments of a command |
| `AofServer.RewriteBuffer.Reset` | redis-3.0.0/src/aof.c:69-75 | the block list is empty afterwards |
| `AofServer.RewriteBuffer.Append` | redis-3.0.0/src/aof.c:123-167 | the block list grows by exactly the bytes, filling the last block first |
| `AofServer.RewriteBuffer.WriteDiffData` | redis-3.0.0/src/aof.c:94-120 | what was sent and what is left is together what was there before, for every pattern of partial pipe writes |
| `AofServer.RewriteBuffer.Write` | redis-3.0.0/src/aof.c:172-192 | all blocks are written in order, or an error is reported after a prefix |
| `AofServer.Appender.Feed` | redis-3.0.0/src/aof.c:497-545 | the commands that one command is logged as, with SELECT where the database changes and every time to live turned into a moment, go to the write buffer and, while a rewrite runs, to the rewrite buffer |
| `AofServer.CatFeed` | redis-3.0.0/src/aof.c:497-530 | the branches for EXPIRE, SETEX and the other commands print exactly the log entries of the translated command |
| `AofExpire.PrintedReads` | redis-3.0.0/src/aof.c:473-490 | a moment printed into the log is read back as the same moment, negative ones included |
| `AofExpire.ReplayLasting` | redis-3.0.0/src/aof.c:467-522 | replaying the translation sets the value and, as expiry, the moment counted from the clock at logging |
| `AofExpire.ReplaysIffClocksAgree` | redis-3.0.0/src/aof.c:467-522 | for every dataset and every command with a time to live: replaying what was logged gives the live dataset if and only if no relative time was set, or the clock showed the same at execution and at logging |
| `AofExpire.ExpiryDrifts` | redis-3.0.0/src/aof.c:482-487 | one second set at moment 0 and logged at moment 1 replays as a later expiry |
| `AofServer.Appender.Flush` | redis-3.0.0/src/aof.c:273-433 | unless the program exits, file and buffer together stay the same log for every pattern of short and failed writes, the size counter is right, and a failure leaves a flag |
| `AofSnapshot.AddItemsBuilds` | redis-3.0.0/src/aof.c:770-997 | adding the elements of a list, set, sorted set or hash one by one builds that value |
| `AofRebuild.RunItems` | redis-3.0.0/src/aof.c:770-997 | the commands of an aggregate add its elements to what is there, however they are chunked |
| `AofRebuild.SnapshotRebuilds` | redis-3.0.0/src/aof.c:1021-1109 | replaying a snapshot on an empty server gives exactly the keys not expired when it was taken, with elements and expiry times, for every order of iteration |
| `AofRewriter.RewriteItems` | redis-3.0.0/src/aof.c:770-997 | the loops that announce 64 elements at a time write complete commands with right counts, for every number of elements |
| `AofRewriter.RewriteRow` | redis-3.0.0/src/aof.c:1061-1100 | one key with its expiry time, or nothing if it is expired |
| `AofRewriter.RewriteAppendOnlyFile` | redis-3.0.0/src/aof.c:1021-1109 | the written file is the text of the snapshot commands |
| `AofProtocol.StepInv` | redis-3.0.0/src/aof.c:1186-1207 | every step of server, child and pipes keeps the invariant: nothing fed since the fork is lost, duplicated or reordered, and the log replays to the live dataset |
| `AofProtocol.RunInv` | redis-3.0.0/src/aof.c:1269-1321 | the invariant holds throughout every run |
| `AofProtocol.InstalledFile` | redis-3.0.0/src/aof.c:1364-1506 | whenever a rewrite is installed, the file is the snapshot followed by everything fed since the fork, in order, and replays as the forked dataset followed by those operations |
| `AofProtocol.AlwaysReplays` | redis-3.0.0/src/aof.c:1364-1506 | at every moment of every run with the file on, file and buffer load without error and replay to the live dataset, provided the rewrite that installed the file met no expired key; rewrites that failed or were replaced do not matter |
| `AofProtocol.ReplaysIffNoneExpired` | redis-3.0.0/src/aof.c:1072-1073 | right after a rewrite with nothing logged in between, the file replays to the live dataset if and only if no key was expired at the fork |
| `AofProtocol.ExpiredKeyLost` | redis-3.0.0/src/aof.c:1072-1073 | a run in which one key that was expired at the fork is missing from the installed file |
| `AofProtocol.CrashLoadsPrefix` | redis-3.0.0/src/aof.c:599-748 | when the server dies at any moment with the last write cut anywhere, a truncating load runs exactly the commands whose text is complete |
| `Popcount.SpreadIs` | redis-3.0.0/src/bitops.c:87-107 | the three masked steps on a 32-bit word leave in every byte its bit count, without overflow |
| `Popcount.HighByte` | redis-3.0.0/src/bitops.c:101-107 | the multiplication gathers the four byte sums in the top byte |
| `Popcount.RedisPopcount` | redis-3.0.0/src/bitops.c:61-113 | the result is the number of set bits, for every string and every alignment |
| `Bitpos.WholeWord` | redis-3.0.0/src/bitops.c:148-156 | eight bytes equal the skip value exactly if none of their bits match, whatever the byte order of the machine |
| `Bitpos.SkipAhead` | redis-3.0.0/src/bitops.c:138-156 | bytes and words are skipped only while they hold no match |
| `Bitpos.FoundSomewhere` | redis-3.0.0/src/bitops.c:175-198 | the last word always holds a match when it is scanned, so the panic is never reached |
| `Bitpos.RedisBitpos` | redis-3.0.0/src/bitops.c:122-200 | the first matching bit of the string padded with zeros on the right, or -1 if and only if a set bit is looked for and there is none |
| `Bitop.LaneOp` | redis-3.0.0/src/bitops.c:372-410 | an operator on 64-bit words acts on every byte alike |
| `Bitop.LaneNot` | redis-3.0.0/src/bitops.c:411-421 | so does the complement |
| `Bitop.LoadedLane` | redis-3.0.0/src/bitops.c:361-370 | what is read as a word has the bytes of memory as its lanes |
| `Bitop.FastPath` | redis-3.0.0/src/bitops.c:359-422 | whole blocks of four words that every key has are combined as byte by byte |
| `Bitop.BitopCommand` | redis-3.0.0/src/bitops.c:319-438 | the result is as long as the longest string and every byte is the fold over all keys, padded with zeros |
| `BSearch.LowerBound` | Metis/lib/bsearch.hh:26-48 | the position of a key in a sorted sequence and whether it is there, with equal keys a place among them; inside the bounds for any sequence |
| `BSearch.UpperBound` | Metis/lib/bsearch.hh:50-55 | the position behind a key in an increasing sequence, with equal keys a place where the key parts it; inside the bounds for any sequence |
| `BTreeLeaves.PutMeaning` | Metis/lib/btree.hh:315-331 | on sorted lists an insertion is a map update, keeps the list sorted, and adds a key exactly if it was missing |
| `BTreeLeaves.PutInLeaf` | Metis/lib/btree.hh:301-331 | inserting into the leaf responsible for a key is inserting into the whole |
| `BTreeModel.Join` | Metis/lib/btree.hh:267-299 | linking a new sibling into the node above keeps intervals, levels and parent links |
| `BTreeModel.NewRoot` | Metis/lib/btree.hh:270-278 | the same when a new root is needed |
| `BTreeModel.Above` | Metis/lib/btree.hh:270-288 | the node above a node that was split has it as a child, one level up |
| `BTree.LeafSplit` | Metis/lib/btree.hh:61-70 | both halves of a split leaf cover their part of its interval |
| `BTree.ChainSplit` | Metis/lib/btree.hh:61-70 | the leaf chain stays complete and in order when a leaf is split |
| `BTree.HeightBound` | Metis/lib/btree.hh:267-345 | a tree of `n` >= 2 levels holds at least 2 * 4^(n-1) keys |
| `BTree.BPlusTree.GetLeaf` | Metis/lib/btree.hh:301-313 | the leaf whose interval holds the key; an empty tree gets its first leaf |
| `BTree.BPlusTree.InsertInternal` | Metis/lib/btree.hh:267-299 | after linking a split node in above, splitting on the way up as needed, all leaves are at the same depth again, separators bound their subtrees and parent links agree with child slots |
| `BTree.BPlusTree.SplitUp` | Metis/lib/btree.hh:289-297 | an overfull node is split and its halves linked in, links of moved children being wrong only in between |
| `BTree.BPlusTree.RepairLinks` | Metis/lib/btree.hh:294-296 | the links of the children that moved are right afterwards |
| `BTree.BPlusTree.Store` | Metis/lib/btree.hh:315-345 | the whole content is the old content with the key put in, whether or not the leaf had to be split |
| `BTree.BPlusTree.InsertSorted` | Metis/lib/btree.hh:315-331 | the tree refines a map from keys to value lists: the value is appended to its key, and the result says whether the key is new |
| `BTree.BPlusTree.Insert` | Metis/lib/btree.hh:333-345 | inserting a pair with a new key is the map update, and the key count follows |
| `BTree.BPlusTree.FirstLeaf` | Metis/lib/btree.hh:408-416 | the first leaf of the chain, or none when there is no key |
| `BTree.BPlusTree.CopyTraverse` | Metis/lib/btree.hh:389-406 | following the leaf chain copies every pair once in key order, and the number copied is the key count |
| `BTree.BPlusTree.Transfer` | Metis/lib/btree.hh:382-387 | all pairs are handed over and the tree is empty |
| `CpuBarrier.StepInv` | Metis/lib/psrs.hh:75-99 | every read and write of any core keeps the invariant of the barrier |
| `CpuBarrier.NobodyLeavesEarly` | Metis/lib/psrs.hh:75-99 | in every interleaving no core leaves its k-th barrier before all have entered theirs, and no two are more than one barrier apart |
| `CpuBarrier.RestsBetweenRounds` | Metis/lib/psrs.hh:75-99 | flags and status are at rest whenever the main core is outside, so no round is mistaken for the next |
| `CpuBarrier.StepsLowerWork` | Metis/lib/psrs.hh:75-99 | every step inside the barrier that is not a vain read brings its core closer to the end |
| `CpuBarrier.SomebodyMoves` | Metis/lib/psrs.hh:75-99 | while all cores have entered, some core inside can move on |
| `CpuBarrier.RoundCompletes` | Metis/lib/psrs.hh:75-99 | however the cores are scheduled, a barrier that all have entered takes a limited number of steps that are not vain, and nobody inside can move only when every core has left it |
| `MergeSort.MergeSortImpl` | Metis/lib/mergesort.hh:22-47 | for an output of the total size no iterator is left over, the output is a permutation of the input, and it is sorted if every list is |
| `MergeSort.MergeSortStrided` | Metis/lib/mergesort.hh:49-62 | a core merges exactly the lists whose number leaves its offset as remainder, so the cores together take every list once |
| `Psrs.CopyElem` | Metis/lib/psrs.hh:150-173 | the slice of all arrays seen as one, and the assertion on its size holds |
| `Psrs.SliceIsFull` | Metis/lib/psrs.hh:184-195 | with enough elements the range that a core computes is its slice, and no slice is empty |
| `PsrsDivide.Divide` | Metis/lib/psrs.hh:101-127 | for every pivot set and every list the boundaries are non-decreasing and inside the list; in a sorted list with pivots in order each is right as far as its search went |
| `PsrsDivide.BoundaryExact` | Metis/lib/psrs.hh:107-109 | a boundary parts the list at its pivot if and only if the element where the search had to stop, at max(L, R-2) for the boundaries L and R of the enclosing call, is not below the pivot |
| `PsrsDivide.UpperBoundIff` | Metis/lib/psrs.hh:107-109 | without equal keys a boundary is the smaller of the upper bound and max(L, R-2), so it is the upper bound if and only if that is at most max(L, R-2) |
| `Psrs.DivideList` | Metis/lib/psrs.hh:225-229 | one row of boundaries from zero to the length of the list, placed by the pivots as above |
| `Psrs.MergeParts` | Metis/lib/psrs.hh:129-146 | every partition is made of its pieces of all lists, and the partitions fill the output exactly, one behind the other |
| `PsrsSort.ChoosePivots` | Metis/lib/psrs.hh:207-222 | the selected pivots are every n-th of all pivots sent, sorted, and none is overwritten before it is read |
| `PsrsSort.PartsInOrder` | Metis/lib/psrs.hh:179-257 | if every boundary of every list parts the list at its pivot, the whole output is sorted |
| `PsrsSort.RightIff` | Metis/lib/psrs.hh:225-229 | a boundary is right if and only if its search went far enough |
| `PsrsSort.DoPsrs` | Metis/lib/psrs.hh:179-257 | the output is a permutation of the input made of sorted partitions; with one core or fewer than n^3 elements it is sorted, otherwise it is sorted if every search went far enough |
| `PsrsRace.CrashIff` | Metis/lib/psrs.hh:179-205 | with few elements, some schedule lets a core read the length of an output that the main core has already taken away if and only if there is more than one core |
| `PsrsRace.CrashRun` | Metis/lib/psrs.hh:182-205 | such a schedule, through the whole first barrier, for every number of cores above one |
| `PsrsRace.AloneIsSafe` | Metis/lib/psrs.hh:182-205 | a single core always reads before it takes the output away |
| `PsrsUnsorted.TwoParts` | Metis/lib/psrs.hh:179-257 | two cores with four elements each in order: each core gets the first or the second half of both lists, whatever the keys are |
| `PsrsUnsorted.TwoSortedIff` | Metis/lib/psrs.hh:179-257 | on such lists, where the second sends the greater pivot, the output is sorted if and only if the second element of the second list is not above the third of the first |
| `PsrsUnsorted.SortsEightWrongly` | Metis/lib/psrs.hh:179-257 | so one to four and five to eight come out unsorted |
| `PsrsAligned.PivotMeets` | Metis/lib/psrs.hh:207-222 | if the blocks between the pivots sent lie side by side in all lists, every selected pivot meets every list in its own block |
| `PsrsAligned.SearchesReach` | Metis/lib/psrs.hh:101-127 | then every search goes up to the last element but one of its block |
| `PsrsAligned.AlignedSorts` | Metis/lib/psrs.hh:179-257 | a condition on the sorted slices alone under which the whole output is sorted |
| `PsrsAligned.PivotStrict` | Metis/lib/psrs.hh:207-222 | if the blocks overlap strictly, every selected pivot is below the last element but one of its block in every list |
| `PsrsAligned.DealtIsAligned` | Metis/lib/psrs.hh:179-257 | keys that are dealt out to the cores in turn meet it, and the stricter condition under which no key falls to two cores |
| `Group.GroupOneSorted` | Metis/lib/group.hh:27-42 | runs of equal keys become one pair each, keys increase, and every key keeps exactly its values |
| `Group.FindMinimum` | Metis/lib/group.hh:77-92 | the least key, and marks exactly on the iterators that stand at it |
| `Group.TakeRun` | Metis/lib/group.hh:98-105 | a run of equal keys moves its values over |
| `Group.MergeKey` | Metis/lib/group.hh:93-107 | all values of the least key are collected and all iterators pass it |
| `Group.GroupSorted` | Metis/lib/group.hh:64-109 | merging sorted lists gives every key once, in increasing order, with exactly its values in all lists |
| `Group.GroupUnsorted` | Metis/lib/group.hh:44-62 | the same for unsorted lists, given a sort that orders by key and keeps the pairs |
| `MapReduce.RehashRow` | Metis/lib/map_bucket_manager.hh:181-195 | all sampled pairs of a worker reach the column of their hash, and no key is met twice |
| `MapReduce.PutIsTreePut` | Metis/lib/map_bucket_manager.hh:197-202 | putting a pair into the index of a bucket is the insertion that the B+ tree is proved to do |
| `MapReduce.EmitFull` | Metis/lib/application.cc:354-384 | the value array of every key keeps holding its values, as a list, combined or modified, through an emit |
| `MapReduce.MapBucketManager.Emit` | Metis/lib/map_bucket_manager.hh:197-202 | one more value for one key in the row of the worker, inserted as the mode says, everything else as before |
| `MapReduce.MapBucketManager.Rehash` | Metis/lib/map_bucket_manager.hh:181-195 | the row of the worker takes over its sampled values, key by key |
| `MapReduce.MapBucketManager.MapFunction` | Metis/lib/application.cc:105-109 | a task adds exactly what it emits |
| `MapReduce.MapBucketManager.DoReduceTask` | Metis/lib/map_bucket_manager.hh:213-221 | a column is reduced to exactly the keys whose hash falls into it, in increasing order, with all their values |
| `MapReduce.OneColumn` | Metis/lib/map_bucket_manager.hh:197-202 | all values of a key lie in the column of its hash |
| `MapReduce.Application.MapWorkers` | Metis/lib/application.cc:99-136 | for every interleaving of the workers each task runs once and the table holds the sampled values and those of the tasks |
| `MapReduce.Application.SchedRun` | Metis/lib/application.cc:203-260 | for every task list, sample size, assignment of tasks to workers, numbers of columns and mode, every emitted key is reduced once, in the column of its hash, in increasing order, with exactly the values emitted for it, and its value array holds them |
| `MapReduce.ReducedFolds` | Metis/lib/application.cc:342-384 | with a combiner or a value modifier a reduced key of a run carries what its emitted values fold to, in any order |
| `MergeReduce.PsrsOutputAndReduce` | Metis/lib/map_bucket_manager.hh:122-148 | when each core groups its share of the parallel sort, no value is lost, and each key is reduced once, with all its values, if and only if no two shares hold the same key |
| `MergeReduce.UpperBoundsSeparate` | Metis/lib/map_bucket_manager.hh:130-135 | boundaries that are the upper bounds of their pivots keep every key in one share |
| `MergeReduce.UpperIff` | Metis/lib/psrs.hh:107-109 | in a slice without equal keys a boundary is the upper bound if and only if its search passed the pivot |
| `MergeReduce.PassedSeparates` | Metis/lib/map_bucket_manager.hh:130-135 | so slices without equal keys in which every search passes its pivot have each key reduced once |
| `MergeReduce.StrictlyAlignedOnce` | Metis/lib/map_bucket_manager.hh:122-148 | a condition on the sorted slices alone, met by keys dealt out in turn, under which each key is reduced once |
| `MergeReduce.TwoOnceIff` | Metis/lib/map_bucket_manager.hh:122-148 | on two lists of four, for all keys: each key is reduced once if and only if neither of the first two keys of the second list is one of the last two of the first |
| `MergeReduce.ReducesThreeTwice` | Metis/lib/map_bucket_manager.hh:130-135 | two cores with 1, 2, 3, 4 and 3, 5, 6, 7 reduce the key three twice |
| `MapValues.FoldOrder` | Metis/lib/application.cc:354-384 | an associative and commutative operation folds permuted values to the same result |
| `MapValues.InsertHolds` | Metis/lib/application.cc:354-384 | inserting a value keeps what the array holds: the list itself, values that fold to the same, or one value, so the assertion in the code holds |
| `MapValues.MoveHolds` | Metis/lib/application.cc:354-384 | so does moving the values of another array over |
| `MapValues.OrderDoesNotMatter` | Metis/lib/application.cc:342-384 | the result does not depend on how the values were spread over tasks, workers and phases |

## Left out

Assumptions that the theorems rest on:

- Weights and distances are integers, so float rounding of weights, scores and statistics is not modelled; the largest float is a separate infinite value.
- Memory is sequentially consistent and channels are reliable and first in, first out; MPI, pipes, files, fork and threads are abstract steps.
- Handlers of active messages do not send messages themselves; the three kernels meet this.
- Commands other than those a snapshot uses are an arbitrary but deterministic function of the dataset.
- The set of masters that serve slots and vote is fixed during a run, and nodes do not crash, restart or get reset.

Contracts that say less than one might expect:

- ClusterVote.OneWinnerPerEpoch: is stated for elections that start with an empty tally, because the code does not ensure it otherwise (ClusterVote.TwoWinners); ClusterVote.TimelyOneWinner gives a condition on the run.
- ValidateSpec.AcceptedIsShortest: is stated for positive weights and says nothing about vertices whose depth stayed infinite; the exact conditions are those of ValidateExact.TrustedIff and ValidateExact.SoundBfsIff.
- ValidateExact.SoundIff: speaks of finite distances only, so that its condition is on the edges of weight zero alone; ValidateExact.TrustedIff has the infinite ones too.
- AofProtocol.AlwaysReplays: excludes moments after the installation of a rewrite whose fork met an expired key, because the snapshot leaves such a key out while the live dataset still has it (AofProtocol.ExpiredKeyLost).
- AofServer.LoadAppendOnlyFile: treats negative and overflowing lengths as format errors, and transactions enter as a predicate on the commands read so far.
- AofServer.ReadArgs: treats a negative bulk length as a format error, where the code asks for an impossible allocation.
- AofServer.Appender.Feed: times are unbounded integers, so their overflow in 64 bits is not modelled; in AofProtocol the operations fed are those that the translation gives.
- AofExpire.ReplaysIffClocksAgree: takes each command by itself, with DEL as it is meant; a time that is no number is read as strtoll reads it, where the code rejects the command before. SET with EX or PX, which the code logs without translation, is one of the commands left open.
- AofRebuild.SnapshotRebuilds: keeps scores and integers as the text they are printed as.
- PsrsRace.CrashIff: models the first barrier and the read and the removal behind it, not the sorting between them.
- PsrsSort.DoPsrs: the local sort and the sort of the pivots are merge sorts in place of the library's quick sort, cores are taken one after the other between barriers, and the phases are not joined with the step system of CpuBarrier (only the case of few elements is, in PsrsRace); an output can be sorted by luck although a boundary is wrong, so the last clause goes one way.
- AofProtocol.ReplaysIffNoneExpired: is stated for a rewrite with nothing logged between fork and installation, because later commands can bring a lost key back.
- MergeSort.MergeSortImpl: iterators are the rests of the lists, and the output is a sequence that grows instead of an array of the final size.
- BitReverse.NetworkReverses: covers the portable 64-bit code, not the compiler's byte swap or the 32-bit variant.
- Bitop.FastPath: takes the first byte in memory as the lowest of a word; the operators act on all bytes alike, so the other byte order gives the same result.
- BTree.BPlusTree.InsertSorted: nodes are values in a map from pointers and the arrays inside a node are sequences, so the loops that shift entries appear as slices.
- BTree.BPlusTree.Insert: demands a new key, as the code asserts; that rehashing meets this is part of MapReduce.RehashRow.
- MapReduce.Application.SchedRun: takes the index of a bucket as its pairs in key order, which is what the B+ tree is proved to hold; keys and values are integers with their natural order.
- AmlProgress.BarrierCompletes: counters are unbounded; AmlNarrow.BarrierCompletes16 has the 16-bit counts of the code while they agree, and AckWidth.BalancedIff says what follows when they do not.
- AmlBarrier.RunInv: counters are unbounded here too, as above.
- AmlProgress.StuckForever: the model stops where the code goes on with an access outside its arrays.

Not modelled:

- The edge generator's probability distribution and the float outputs of the random number generator.
- File modes, chunked input and output, statistics and result printing of Graph500.
- Cluster links, gossip, failure detection, timers, manual failover, MIGRATE and client redirection.
- fsync policies beyond their effect on the order of writes, background fsync, and the RDB format.
- SETBIT, GETBIT and the argument handling of the bit commands.
- Deletion from and freeing of trees, the array indexes of Metis, its map-only mode and the final merge of reduced buckets; the rows that reducing from the sort starts from are taken as given.
- Event loop, sockets, profiling and the other bundled applications.
