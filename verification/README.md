# Cycle enumeration: a verified model

The repository counts directed simple cycles by length in many ways: Johnson's blocked-set search,
Read-Tarjan path extension, temporal searches with memoised closing times, device kernels with explicit
stacks, a work queue, task trees, and an incremental update that only recounts the cycles through changed
edges. They all claim the same histogram. This project states once what that histogram is and proves
every one of these algorithms equal to it.

## The specification layer

- `CycleSearch.Owed` and `TemporalSearch.Owed` are the exhaustive depth-first searches as functions: what
  is still to be recorded below a path from a slot on. A `Rule` says which slots a search may take: above
  the root (static), active in a window (time-window), or not owned by an earlier changed edge (update).
- `Clipping` relates capped and uncapped searches.
- `CycleSets`, `WindowCycles`, `TemporalSets` and `TemporalCycles` say what those functions mean without
  any search: the histogram is that of the set of simple cycles (duplicate-free, written from their smallest
  vertex, with an edge between neighbours and back), of the set of time-window cycles (a start event, and
  a cycle through its edge whose other edges have a timestamp in the window), or of the set of temporal
  cycles (strictly increasing events inside the window that opens with the first), each counted once, up to
  the length cap. `WindowTies` checks the tie-break of the time-window search: when all edges happen at once
  it is the static search, although each cycle is then found from its largest vertex.
- A histogram is a multiset of lengths, so it has no zero bins. `StaticBefore`, `WindowTotal` and
  `TemporalTotal` are the histograms of whole runs.

## The algorithms

- `Johnson`: the class with `blocked`, `blockedList`, `path`. One invariant, `Consistent`, holds at every
  entry and return for the static and the time-window search: blocked vertices off the path have no edge
  to the root, only blocked successors, and wait in their successors' lists; stale list entries never
  release a vertex on the path. A time-window search that starts with a self-loop has its root on the path
  twice; the invariant then speaks of the path without its first vertex.
- `ReadTarjan`: main and alternate paths with dead vertices; it never dead-ends, and it needs sorted rows.
- `ClosingTimes`, `Bundles`, `Assignments`, `TemporalJohnson`, `TemporalReadTarjan`: pruning by closing
  times, bundling of arrival times, and what a bundle means.
- `Bruteforce`: the exhaustive counters; `Engine`: the entry points with their error cases.
- `EdgeBatches`, `DirectedGraphs`, `Rotations`, `EdgeOwnership`, `DynamicUpdate`, `StaticUpdate`: the
  incremental update; `ParallelUpdate` and `DeviceUpdate` are its multi-threaded and device forms. `PhaseTeam`
  is the team of threads of one phase: each claims the next changed edge, searches step by step with a stack
  and a count buffer of its own, adds to its row and claims again.
- `StackMachine`, `JohnsonKernel`, `TemporalStack`, `TemporalKernel`, `OwnedCycleKernel`, `Slices`: the
  explicit-stack kernels in slices of shared arrays.
- `Jobs`, `BlockProtocol`, `BlockRuns`, `BlockEnds`: the four counting kernels with a shared histogram per
  block (static by fixed threads, static by work queue, time-window, temporal) as one transition system in
  which any thread may move next: clear, barrier, claim a job from the counter or take the job of one's own
  id, search step by step with atomic increments, barrier, flush. There each thread has its stack to itself.
- `SliceProtocol`, `SliceRuns`: the same kernels on shared memory. A searching thread keeps only its job's id
  and its depth, reads its stack from its slices and writes it there; of the other threads a step says
  nothing but that their registers stay. Because slices do not overlap, every run is one of `BlockProtocol`.
  `KernelSteps` shows that the loop bodies, run on arrays, make these steps. `DeviceLaunch` instantiates it:
  a device is any function that answers a launch with the bins of some finished run on shared memory.
- `OwnedLaunch`, `OwnedSlices`, `OwnedRuns`, `OwnedSteps`: the same for the owned-cycle kernel, with the pool of
  visited flags; `DeviceUpdate` uses its finished runs on shared memory.
- `TaskTree`: a tree of tasks as a transition system. In this and the systems above
  recorded plus pending counts never change, no run deadlocks, every run ends and can be finished.
- `BranchSplit`, `CycleUnions`, `WorkItems`: work decomposition and prefiltering.
- `GraphViews`: the graph builder; `BatchGenerator`: random batches with an arbitrary random source.

Two inputs tell the runs of the repository apart: a self-loop, which static Read-Tarjan refuses and the
other static searches ignore, and a start event whose window ends beyond the 64-bit timestamps, which the
sequential runs refuse and for which the device kernels count nothing (`StartEvents.NoWindow`,
`DeviceLaunch.CountTimeWindowCycles`).

Where the code and its comments disagree the code is followed: the header of the branch splitter says
that cycles up to and including the cutoff are closed on the host, the code stops before recording at the
cutoff (`src/cuda/cuda_branch_split.cpp:53-58`), so `closed` holds the strictly shorter ones.

## Model

| member | source | states |
|---|---|---|
| CycleSets.FoundExactly | src/sequential/bruteforce.cpp:54-80 | the exhaustive search below a path finds exactly the completions of that path: no repeated vertex, links all the way, closed at the root, within the cap |
| CycleSets.OwedIsLengths | src/sequential/bruteforce.cpp:54-80 | in a graph without parallel edges the histogram recorded below a path is that of the set of cycles found there: nothing is recorded twice |
| CycleSets.SimpleCyclesExactly | src/sequential/bruteforce.cpp:39-87 | the roots together yield exactly the simple cycles written from their smallest vertex, up to the cap |
| CycleSets.StaticIsLengths | src/sequential/bruteforce.cpp:39-87 | the static run is the histogram of the set of those cycles |
| CycleSets.LengthsBin | src/core/histogram.cpp:26-46 | bin `k` of the histogram of a set of cycles is the number of its cycles of length `k` |
| Clipping.BoundedIsClipped | src/sequential/bruteforce.cpp:68-70 | a search with a length cap records exactly the bins within the cap of the search without one |
| CycleSearch.OwedBounds | src/sequential/bruteforce.cpp:58-70 | every length recorded below a path is at least 2, at least the length of the path, and within the cap |
| CycleSearch.SealedOwesNothing | src/sequential/read_tarjan.cpp:76-82 | a region whose links all stay inside it or return to the path contributes no cycle, whatever path enters it |
| Bruteforce.Exhaustive.Dfs | src/sequential/bruteforce.cpp:54-80 | records exactly the cycles below the path and restores path and flags |
| Bruteforce.Exhaustive.TemporalDfs | src/sequential/bruteforce.cpp:207-250 | records exactly the temporal cycles below the path, once per event combination, and restores path and flags |
| Bruteforce.CountSimpleCycles | src/sequential/bruteforce.cpp:39-87 | the static histogram, refused exactly for a cap below 2 |
| Bruteforce.CountTimeWindowCycles | src/sequential/bruteforce.cpp:89-172 | the time-window histogram, refused exactly for a cap below 2, a negative width, or a start event whose window has no end and whose first vertex has an edge to read |
| Bruteforce.CountTemporalCycles | src/sequential/bruteforce.cpp:174-258 | the temporal histogram, refused exactly for a cap below 2, a negative width, or a start event whose window has no end |
| Johnson.Enter | src/sequential/johnson.cpp:85-88 | putting an unblocked vertex on the path and blocking it keeps the invariant |
| Johnson.LeaveBlocked | src/sequential/johnson.cpp:114-121 | leaving without a cycle keeps the invariant: the vertex stays blocked and waits in the lists of all its eligible successors |
| Johnson.Pop | src/sequential/johnson.cpp:126-133 | the entry taken from a drained list is already free, or is off the path and may be opened: a stale entry never names a vertex on the path that is still blocked |
| Johnson.Close | src/sequential/johnson.cpp:124-134 | a vertex whose list is drained may be closed again |
| Johnson.BlockedBranch | src/sequential/johnson.cpp:101-103 | a slot to a blocked vertex contributes no cycle, so skipping it loses nothing, also when the start edge was a self-loop |
| Johnson.BlockedWalksMeetPath | src/sequential/johnson.cpp:101-103 | every walk from a blocked vertex off the path to the root meets the path before it reaches the root |
| Johnson.JohnsonSearch.Unblock | src/sequential/johnson.cpp:124-134 | releases the vertex and everything that waits for it, keeps the invariant, blocks nothing, and terminates by the blocked vertices |
| Johnson.JohnsonSearch.AddToBlockedLists | src/sequential/johnson.cpp:136-151 | the vertex joins exactly the lists of its eligible successors other than the root, once each |
| Johnson.JohnsonSearch.Leave | src/sequential/johnson.cpp:114-121 | the exit of a visit keeps the invariant on the shorter path |
| Johnson.JohnsonSearch.Follow | src/sequential/johnson.cpp:92-112 | one slot records exactly its branch and reports whether it held a cycle |
| Johnson.JohnsonSearch.Circuit | src/sequential/johnson.cpp:85-122 | records exactly the cycles below the path, returns whether there was one, restores the path, keeps the invariant |
| Johnson.JohnsonSearch.CircuitBounded | src/sequential/johnson.cpp:51-83 | the length-bounded search records exactly the capped subtree and blocks exactly the path |
| Johnson.JohnsonSearch.RunStatic | src/sequential/johnson.cpp:27-42 | for every graph and cap the run equals the exhaustive static histogram |
| Johnson.JohnsonSearch.RunTimeWindow | src/sequential/johnson.cpp:178-196 | without a cap the run equals the exhaustive time-window histogram for every graph, self-loops included; refused exactly when a window without an end is needed |
| ReadTarjan.FindPathDfs | src/sequential/read_tarjan.cpp:39-68 | finds a route to the root that takes an edge to the root when there is one, or exhausts what it visited |
| ReadTarjan.FindPath | src/sequential/read_tarjan.cpp:70-85 | marks the visited vertices dead only after a failure, and no existing route is lost by it |
| ReadTarjan.MarkDead | src/sequential/read_tarjan.cpp:76-82 | exhausted vertices may be marked dead: no cycle through the current path uses them |
| ReadTarjan.BlockedOwesNothing | src/sequential/read_tarjan.cpp:96-98 | dead vertices stay dead as the path grows: a slot to one contributes nothing |
| ReadTarjan.NoAlternate | src/sequential/read_tarjan.cpp:133-147 | when no candidate yields an alternate path all cycles go along the main path |
| ReadTarjan.FindAlternate | src/sequential/read_tarjan.cpp:133-147 | finds a second route with another first step, or shows that there is none |
| ReadTarjan.FollowingFinds | src/sequential/read_tarjan.cpp:119-159 | following a found path records at least one cycle: the search never dead-ends |
| ReadTarjan.TwoPathsFindTwo | src/sequential/read_tarjan.cpp:150-152 | a main and an alternate path lead to at least two cycles |
| ReadTarjan.ReadTarjanSearch.CyclesReadTarjan | src/sequential/read_tarjan.cpp:87-117 | records exactly the capped cycles below the current path, at least two without a cap when the given paths part at once; refused exactly at a root with a self-loop, where the path found is the root alone |
| ReadTarjan.ReadTarjanSearch.Approach | src/sequential/read_tarjan.cpp:119-147 | follows the path until a branch: the cycles below the reached path are those of the followed link, and an alternate path is found exactly when there are at least two |
| ReadTarjan.ReadTarjanSearch.FollowPath | src/sequential/read_tarjan.cpp:119-159 | records exactly the capped cycles towards the path's next vertex and restores the current path; there is always one; refused exactly for the path from the root back to itself |
| ReadTarjan.ReadTarjanSearch.Run | src/sequential/read_tarjan.cpp:24-34 | on sorted rows and for every cap the run equals the exhaustive static histogram; refused exactly when some vertex has a self-loop, whose length 1 the histogram rejects |
| TemporalSets.FoundExactly | src/sequential/bruteforce.cpp:207-250 | the temporal search finds exactly the strictly increasing continuations that close at the root and enter no vertex twice |
| TemporalSets.OwedIsLengths | src/sequential/bruteforce.cpp:207-250 | the recorded temporal histogram is that of the set of cycles found: duplicate timestamps count separately, nothing counts twice |
| WindowCycles.AllWindowCyclesExactly | src/sequential/bruteforce.cpp:89-172 | the time-window run yields exactly the time-window cycles of the graph, described without the search by their edges and timestamps |
| WindowCycles.WindowCycleHasEvents | src/sequential/johnson.cpp:252-259 | the events of a cycle of the run: from every vertex but the first an edge to the next has a timestamp in the window, at the start only when the vertex is below the root |
| WindowCycles.EventsMakeWindowCycle | src/sequential/johnson.cpp:252-259 | and the run finds every cycle with such events |
| WindowTies.TiedCycles | src/sequential/johnson.cpp:252-259 | when all edges happen at once the time-window cycles are the simple cycles written from their largest vertex |
| WindowTies.TiedIsStatic | src/sequential/johnson.cpp:252-259 | so without parallel edges the time-window run then equals the static one: the tie-break at the start counts every cycle once |
| WindowCycles.WindowTotalCounts | src/sequential/bruteforce.cpp:89-172 | in a graph without parallel edges bin `k` of the time-window run is the number of time-window cycles of length `k`, one per start event |
| WindowCycles.WindowCyclesAreSimple | src/sequential/bruteforce.cpp:123-163 | without self-loops every time-window cycle is a simple cycle of the graph |
| TemporalCycles.AllTemporalCyclesExactly | src/sequential/bruteforce.cpp:174-258 | the run yields exactly the temporal cycles of any graph, described without the search; a cycle may begin with a self-loop of the root |
| TemporalCycles.TemporalCyclesAreSimple | src/sequential/bruteforce.cpp:174-258 | without self-loops no temporal cycle enters a vertex twice |
| TemporalCycles.TemporalTotalIsLengths | src/sequential/bruteforce.cpp:174-258 | the temporal run is the histogram of the set of all temporal cycles |
| TemporalSearch.OwedBounds | src/sequential/bruteforce.cpp:207-250 | every length the temporal search records is at least 2 and within the cap |
| TemporalSearch.OutOfReach | src/sequential/temporal_johnson.cpp:195-198 | where no increasing walk leads to the root there is nothing to record, so pruning loses nothing |
| ClosingTimes.CanReachRoot | src/sequential/temporal_johnson.cpp:115-150 | true exactly when a strictly increasing walk inside the window leads to the root; a failure is remembered with its time, no closing time is forgotten or becomes later; every stored closing time stays a true failure threshold although the local copy may be stale; terminates because time increases |
| Bundles.ExtendBundle | src/sequential/temporal_johnson.cpp:152-172 | the new bundle is strictly ascending, holds every later event of the slot once per earlier arrival with its multiplicity, and owes what the single arrivals owe |
| Bundles.ClosingCount | src/sequential/temporal_johnson.cpp:174-184 | the closing count is what all arrivals record one by one |
| Assignments.WaysExactly | src/sequential/temporal_johnson.cpp:152-172 | the assignments along a list of slots are exactly the strictly increasing choices of one event per slot after the start and inside the window |
| Assignments.ReachedCounts | src/sequential/temporal_johnson.cpp:152-172 | a time is reached as often as there are increasing assignments that end at it |
| Assignments.ReachedStep | src/sequential/temporal_johnson.cpp:152-164 | the arrival times after one more slot are the later events of that slot, per assignment |
| Assignments.BundleExtends | src/sequential/temporal_johnson.cpp:152-172 | extending the bundle of a path gives the bundle of the longer path |
| TemporalJohnson.TemporalJohnsonSearch.Dfs | src/sequential/temporal_johnson.cpp:186-240 | at every state the bundle is the ascending multiplicity list of the arrival times of all increasing assignments of the path; the search records exactly what all of them owe |
| TemporalJohnson.TemporalJohnsonSearch.CountStarts | src/sequential/temporal_johnson.cpp:85-89 | the distinct start times, exactly those of the edge, with their multiplicities stand for all start events of the edge |
| TemporalJohnson.TemporalJohnsonSearch.Start | src/sequential/temporal_johnson.cpp:100-113 | one search stands for all equal start events of an edge |
| TemporalJohnson.TemporalJohnsonSearch.Run | src/sequential/temporal_johnson.cpp:77-97 | for every graph, window and cap the bundled and pruned run equals the exhaustive temporal histogram; refused exactly when some window has no end |
| TemporalReadTarjan.TemporalReadTarjanSearch.Extend | src/sequential/temporal_read_tarjan.cpp:118-160 | records exactly the temporal cycles below the path and restores path and flags |
| TemporalReadTarjan.TemporalReadTarjanSearch.Run | src/sequential/temporal_read_tarjan.cpp:50-65 | the pruned timestamp-by-timestamp run equals the exhaustive temporal histogram; refused exactly when some window has no end |
| EdgeBatches.SortAndDedup | src/dynamic/edge_change.cpp:12-15 | the list becomes strictly ascending and keeps exactly its edges |
| EdgeBatches.AscendingUnique | src/dynamic/directed_graph.cpp:24-25 | ascending rows of the same vertices are the same row |
| DirectedGraphs.Flatten | src/dynamic/directed_graph.cpp:22-33 | offsets and items hold the rows one after another |
| DirectedGraphs.BuildFromLists | src/dynamic/directed_graph.cpp:17-34 | a canonical graph with exactly the listed edges |
| DirectedGraphs.CanonicalUnique | src/dynamic/directed_graph.cpp:17-34 | two canonical graphs with the same vertices and edges are equal |
| DirectedGraphs.ApplyBatch | src/dynamic/directed_graph.cpp:50-120 | the result is canonical and its edges are the old ones without the deletions, plus the insertions |
| DirectedGraphs.HasEdge | src/dynamic/directed_graph.cpp:122-132 | decides edge membership exactly, out-of-range sources included |
| Rotations.RotateCycle | src/dynamic/cycles_through_edge.cpp:17-58 | a cycle stays a cycle under rotation |
| Rotations.CanonicalOfRotation | src/dynamic/cycles_through_edge.cpp:17-58 | rotating a min-rooted cycle and rooting it again gives it back |
| Rotations.CanonicalInjective | src/dynamic/cycles_through_edge.cpp:17-58 | cycles that start at the same vertex and have the same min-rooted form are equal |
| Rotations.CanonicalsKeepLengths | src/dynamic/cycles_through_edge.cpp:17-58 | min-rooting a set of cycles anchored at one vertex keeps its histogram |
| EdgeOwnership.AnchoredExactly | src/dynamic/cycles_through_edge.cpp:17-58 | the search anchored at any change finds exactly the closed walks that start with it, repeat no vertex from the third on, and avoid smaller ids |
| EdgeOwnership.AnchoredTallyIsLengths | src/dynamic/cycles_through_edge.cpp:17-58 | and counts each of those walks once |
| EdgeOwnership.AnchoredAreOwned | src/dynamic/cycles_through_edge.cpp:17-58 | a walk anchored at an edge that avoids smaller ids is a simple cycle whose smallest changed edge is that edge, and conversely |
| EdgeOwnership.AnchoredTallyIsOwned | src/dynamic/cycles_through_edge.cpp:81-108 | an owner counts exactly the min-rooted simple cycles it owns |
| EdgeOwnership.PhaseIsTouched | src/dynamic/update_sequential.cpp:22-38 | all owners together count every cycle that uses a changed edge once, and every phantom once: the walks over changes that are missing edges or self-loops |
| EdgeOwnership.PhantomsExactly | src/dynamic/update_sequential.cpp:22-38 | the phantoms are exactly the walks anchored at changes that are no edge or a self-loop |
| DynamicUpdate.BuildIndex | src/dynamic/cycles_through_edge.cpp:62-77 | the index answers exactly whether an edge has a smaller change id than the owner |
| DynamicUpdate.SearchFrom | src/dynamic/cycles_through_edge.cpp:20-58 | adds exactly the anchored subtree to the counts and leaves the flags as they were |
| DynamicUpdate.CountCyclesThroughEdge | src/dynamic/cycles_through_edge.cpp:81-108 | adds exactly the owned cycles; the reused flag buffer is clear again |
| DynamicUpdate.AccumulatePhase | src/dynamic/update_sequential.cpp:22-38 | moves every bin of the delta by the signed count of the phase |
| DynamicUpdate.ApplyHistogramDelta | src/dynamic/update_sequential.cpp:67-92 | every bin is the base plus the delta, and the negative-count error occurs exactly when some bin would be negative |
| StaticUpdate.Survivors | src/dynamic/update_sequential.cpp:55-62 | the cycles that avoid the deletions in the old graph are those that avoid the insertions in the new one, plus the lost ones |
| StaticUpdate.UpdateError | src/dynamic/update_sequential.cpp:42-65 | for any batch the updated bin is the recount, plus the lost cycles and inserted phantoms, minus the deleted phantoms |
| StaticUpdate.UpdateEqualsRecount | src/dynamic/update_sequential.cpp:42-65 | when deletions are present and present insertions are also deleted every bin equals the recount of the new graph |
| StaticUpdate.UpdateEqualsRecountIff | src/dynamic/update_sequential.cpp:42-65 | for any batch the update is right exactly when the deleted phantoms balance lost cycles and inserted phantoms, length by length |
| StaticUpdate.RightIffInsertionsAreNew | src/dynamic/update_sequential.cpp:59-62 | with all deletions present the update is right exactly when every cycle of the old graph within the cap that uses an inserted edge also uses a deleted one |
| StaticUpdate.RightIffDeletionsClose | src/dynamic/update_sequential.cpp:55-57 | with every present insertion also deleted the update is right exactly when no missing deletion closes a walk within the cap that avoids smaller deletions |
| StaticUpdate.MissingDeletionUndercounts | src/dynamic/update_sequential.cpp:55-57 | deleting an edge that is not there can make the update one too small |
| StaticUpdate.PresentInsertionOvercounts | src/dynamic/update_sequential.cpp:59-62 | inserting an edge that is already there can make the update one too large |
| StaticUpdate.SelfLoopInsertionOvercounts | src/dynamic/cycles_through_edge.cpp:17-58 | inserting a self-loop can make the update one too large |
| StaticUpdate.UpdateStaticHistogram | src/dynamic/update_sequential.cpp:42-65 | under the batch precondition and with a prior histogram for the same cap the result is the histogram of the new graph and no error occurs; refused exactly for a cap below 2 |
| PhaseTeam.StaysExclusive | src/dynamic/update_openmp.cpp:53-55 | a claimed owner is new to all threads: no owner is searched by two |
| PhaseTeam.NextKeepsInv | src/dynamic/update_openmp.cpp:47-65 | every claim, search step and deposit of any thread keeps rows, count buffers and unfinished searches together the histogram of the claimed owners |
| PhaseTeam.FinishedRunCounts | src/dynamic/update_openmp.cpp:47-71 | whatever the interleaving, the rows of a finished team add up to the signed histogram of the phase |
| PhaseTeam.NoDeadlock | src/dynamic/update_openmp.cpp:47-65 | until all threads are finished one of them can move |
| PhaseTeam.RunsEnd | src/dynamic/update_openmp.cpp:47-65 | no run is longer than the work of its first state |
| PhaseTeam.RunsCanFinish | src/dynamic/update_openmp.cpp:47-65 | every run can be continued until all threads are finished |
| PhaseTeam.RunsBegin | src/dynamic/update_openmp.cpp:42-51 | every phase has a run to speak of |
| ParallelUpdate.TeamsExist | src/dynamic/update_openmp.cpp:47-65 | some team answers every phase with the rows of a finished run |
| ParallelUpdate.OutcomeIsPhase | src/dynamic/update_openmp.cpp:47-65 | and whatever finished run it made, the columns of its rows are the signed counts of the phase |
| ParallelUpdate.Reduce | src/dynamic/update_openmp.cpp:67-71 | every bin of the delta moves by the sum of its column |
| ParallelUpdate.AccumulatePhaseParallel | src/dynamic/update_openmp.cpp:32-72 | on any team the delta moves exactly as in the sequential phase |
| ParallelUpdate.UpdateStaticHistogramParallel | src/dynamic/update_openmp.cpp:77-107 | on any team the threaded update has the result of the sequential one |
| OwnedCycleKernel.FindChange | src/dynamic/update_cuda_kernel.cu:45-62 | binary search in the sorted changes returns the position of the edge, or -1 exactly when it is no change |
| OwnedCycleKernel.FoundIsForbidden | src/dynamic/update_cuda_kernel.cu:106-109 | comparing that position with the thread's id is the ownership test |
| OwnedCycleKernel.Iterate | src/dynamic/update_cuda_kernel.cu:94-129 | one loop iteration is one step of the stack machine, stays in the thread's slices and keeps the flags equal to the path |
| OwnedCycleKernel.OthersHold | src/dynamic/update_cuda_kernel.cu:82-84 | what one thread writes into its slices leaves the stack of every other thread in place |
| OwnedCycleKernel.OthersFlagged | src/dynamic/update_cuda_kernel.cu:85 | and the visited flags of every other thread |
| OwnedCycleKernel.CountOwnedCycles | src/dynamic/update_cuda_kernel.cu:64-130 | a thread adds exactly the cycles owned by its change and touches no other slice |
| OwnedLaunch.IterationKeepsInv | src/dynamic/update_cuda_kernel.cu:94-129 | an iteration of any thread keeps recorded plus pending counts and uses up work |
| OwnedSlices.PrepareRefines | src/dynamic/update_cuda_kernel.cu:87-92 | a thread's preparation of its slices leaves every stack as it is |
| OwnedSlices.LoopRefines | src/dynamic/update_cuda_kernel.cu:94-129 | an iteration on the shared pools is one on the stack that the thread's slices hold: all other threads still read their own stacks and flags |
| OwnedSteps.PrepareThread | src/dynamic/update_cuda_kernel.cu:87-92 | the code before the loop, run on the pools, is such a step of the launch |
| OwnedSteps.IterateThread | src/dynamic/update_cuda_kernel.cu:94-129 | so is the loop body with its atomic increment |
| OwnedRuns.SlicesHoldStacks | src/dynamic/update_cuda_kernel.cu:82-85 | at every moment of a run each thread's slices hold a stack of its own search and the flags of that path |
| OwnedRuns.FinishedRunCounts | src/dynamic/update_cuda_kernel.cu:65-130 | however the threads interleave on the shared pools, a finished launch holds the counts of the phase |
| OwnedRuns.NoDeadlock | src/dynamic/update_cuda_kernel.cu:94-129 | while some thread is unfinished one of them can move |
| OwnedRuns.RunsEnd | src/dynamic/update_cuda_kernel.cu:65-130 | no run is longer than the work its first state holds |
| OwnedRuns.RunsCanFinish | src/dynamic/update_cuda_kernel.cu:65-130 | every run can be continued until all threads are finished |
| OwnedRuns.RunsBegin | src/dynamic/update_cuda_kernel.cu:189-202 | for every list of changes there is a run to speak of |
| DeviceUpdate.OutcomeIsPhase | src/dynamic/update_cuda_kernel.cu:64-130 | whatever finished run the device made, its counts are those of the phase |
| DeviceUpdate.DevicesExist | src/dynamic/update_cuda_kernel.cu:64-130 | some device answers every launch with the counts of a finished run |
| DeviceUpdate.CountOwnedCyclesDevice | src/dynamic/update_cuda_kernel.cu:144-219 | on any such device the counts are those of the whole phase, also for an empty change list or graph |
| DeviceUpdate.UpdateStaticHistogramDevice | src/dynamic/update_cuda.cpp:37-76 | on any such device the update has the result of the sequential one |
| Engine.CountHistogram | src/engine/histogram_engine.cpp:17-20 | the recomputation counts each simple cycle of the graph once and nothing else |
| Engine.CountSimpleCyclesJohnson | src/sequential/johnson.cpp:304-308 | the exhaustive static histogram, refused exactly for a cap below 2 |
| Engine.CountSimpleCyclesReadTarjan | src/sequential/read_tarjan.cpp:360-364 | the exhaustive static histogram, refused exactly for a cap below 2 or a graph with a self-loop |
| Engine.CountTimeWindowCyclesJohnson | src/sequential/johnson.cpp:310-315 | the uncapped exhaustive time-window histogram, refused exactly when some start event has no window and an edge to read in it |
| Engine.CountTemporalCyclesJohnson | src/sequential/temporal_johnson.cpp:256-263 | the exhaustive temporal histogram, refused exactly for a cap below 2, a negative width or a window without an end |
| Engine.CountTemporalCyclesReadTarjan | src/sequential/temporal_read_tarjan.cpp:175-180 | the exhaustive temporal histogram, refused exactly for a cap below 2, a negative width or a window without an end |
| Engine.UpdateHistogram | src/engine/histogram_engine.cpp:22-41 | on every backend the update equals a recount after a batch without self-loops that deletes present edges and inserts absent or deleted ones |
| StackMachine.StepConserves | src/cuda/cuda_johnson_kernel.cu:261-290 | one iteration keeps recorded counts plus the counts owed by the unread cursor ranges of all levels and uses up one step |
| StackMachine.StepFits | src/cuda/cuda_johnson_kernel.cu:280-290 | the stack never outgrows the length cap |
| JohnsonKernel.PathContains | src/cuda/cuda_johnson_kernel.cu:204-214 | decides membership in the thread's path |
| JohnsonKernel.Iterate | src/cuda/cuda_johnson_kernel.cu:261-290 | one loop iteration in the slices is one step of the stack machine and leaves the other slices alone |
| JohnsonKernel.OthersHold | src/cuda/cuda_johnson_kernel.cu:254-256 | what one thread writes into its slices leaves the stack of every other thread in place |
| JohnsonKernel.RunThread | src/cuda/cuda_johnson_kernel.cu:251-291 | a thread records exactly what the recursive search records below its start and terminates |
| TemporalStack.StepConserves | src/cuda/cuda_johnson_kernel.cu:464-516 | one iteration with edge and timestamp cursors keeps recorded plus pending counts and uses up work |
| TemporalKernel.Iterate | src/cuda/cuda_johnson_kernel.cu:464-516 | one loop iteration in the slices is one step of the temporal stack machine |
| TemporalKernel.OthersHold | src/cuda/cuda_johnson_kernel.cu:452-453 | what one thread writes into its slices leaves the stack of every other thread in place |
| TemporalKernel.RunThread | src/cuda/cuda_johnson_kernel.cu:448-518 | a thread records exactly the temporal cycles of its start event |
| Jobs.AdvanceConserves | src/cuda/cuda_johnson_kernel.cu:261-290 | an iteration of a static, time-window or temporal thread keeps recorded plus owed counts, stays in its slice and uses up work |
| BlockProtocol.StepKeepsThreads | src/cuda/cuda_johnson_kernel.cu:216-241 | a step of one thread leaves every thread in a state the protocol allows |
| BlockProtocol.NextKeepsInv | src/cuda/cuda_johnson_kernel.cu:243-522 | every clear, barrier, claim, search iteration and flush of any thread keeps the account: per bin, flushed, held, pending and unclaimed counts are those of all jobs |
| BlockRuns.FinishedRunCounts | src/cuda/cuda_johnson_kernel.cu:243-522 | whatever the interleaving, when all threads are done every global bin is the sum over all jobs |
| BlockRuns.JobsStartOnce | src/cuda/cuda_johnson_kernel.cu:316-320 | in a finished run every job is started at exactly one step |
| BlockRuns.JobsAreExclusive | src/cuda/cuda_johnson_kernel.cu:316-320 | no job is searched by two threads, at whatever two moments of a run |
| BlockRuns.BinsFlushOnce | src/cuda/cuda_johnson_kernel.cu:230-241 | in a finished run every bin of every block is added to the global histogram at exactly one step |
| BlockRuns.NoDeadlock | src/cuda/cuda_johnson_kernel.cu:216-241 | the barriers never block all threads |
| BlockEnds.RunsEnd | src/cuda/cuda_johnson_kernel.cu:243-522 | no run is longer than the work of its first state |
| SliceProtocol.OthersRead | src/cuda/cuda_johnson_kernel.cu:311-314 | after a thread has stored its stack every other thread reads the stack it read before |
| SliceProtocol.StepRefines | src/cuda/cuda_johnson_kernel.cu:243-522 | every step of a thread on the shared arrays is a step of the protocol on the stacks that all threads read from their slices |
| KernelSteps.ClaimThread | src/cuda/cuda_johnson_kernel.cu:316-324 | taking a job and writing its first levels into the slices is such a step |
| KernelSteps.IterateThread | src/cuda/cuda_johnson_kernel.cu:261-290 | so is one iteration of the loop of any kernel, with its atomic increment |
| SliceRuns.RunRefines | src/cuda/cuda_johnson_kernel.cu:243-522 | so what the threads read during a run on shared memory is a run of the protocol |
| SliceRuns.SlicesHoldStacks | src/cuda/cuda_johnson_kernel.cu:311-314 | beside every such run there is one with the stacks as values, and at every moment every running thread's slices hold its stack |
| SliceRuns.FinishedRunCounts | src/cuda/cuda_johnson_kernel.cu:243-522 | whatever the interleaving on the shared arrays, when all threads are done every global bin is the sum over all jobs |
| SliceRuns.NoDeadlock | src/cuda/cuda_johnson_kernel.cu:216-241 | until all threads are done some thread can step on the shared arrays |
| SliceRuns.RunsEnd | src/cuda/cuda_johnson_kernel.cu:243-522 | no run on the shared arrays is longer than the work of its first state |
| SliceRuns.RunsCanFinish | src/cuda/cuda_johnson_kernel.cu:243-522 | every such run can be continued until all threads are done |
| SliceRuns.RunsBegin | src/cuda/cuda_johnson_kernel.cu:642-663 | every launch has a run to speak of, whatever the arrays hold at first |
| DeviceLaunch.DevicesExist | src/cuda/cuda_johnson_kernel.cu:243-522 | some device answers every launch with the bins of a finished run |
| DeviceLaunch.OutcomeIsTotal | src/cuda/cuda_johnson_kernel.cu:243-522 | and only one: the sum over its jobs, bin by bin |
| DeviceLaunch.RootsTotal | src/cuda/cuda_johnson_kernel.cu:243-359 | a launch with one job per root, by fixed threads or by queue, totals to the static histogram |
| DeviceLaunch.EventsTotal | src/cuda/cuda_johnson_kernel.cu:361-522 | a launch with one job per start event totals to the sum over the events |
| DeviceLaunch.EventJobOk | src/cuda/cuda_johnson_kernel.cu:448-458 | a temporal thread owes the temporal cycles of its start event, or nothing when the window has no end |
| DeviceLaunch.GridBlocks | src/cuda/cuda_johnson_kernel.cu:545-557 | the blocks give every job a thread, with less than one block to spare |
| DeviceLaunch.PlanQueue | src/cuda/cuda_work_queue.cpp:61-79 | as many blocks as stay resident but no more than jobs; refused exactly for a zero setting |
| DeviceLaunch.ReadBack | src/cuda/cuda_johnson_kernel.cu:668-676 | the histogram holds the bins from 2 to the cap and nothing else |
| DeviceLaunch.CountSimpleCycles | src/cuda/cuda_johnson_kernel.cu:625-677 | on any device the fixed launch is the static histogram, refused exactly for a cap below 2 |
| DeviceLaunch.CountSimpleCyclesQueue | src/cuda/cuda_johnson_kernel.cu:679-768 | on any device and for every launch setting the queue is the static histogram; refused exactly for a cap below 2 or a zero setting with an edge to count |
| DeviceLaunch.CountTimeWindowCycles | src/cuda/cuda_johnson_kernel.cu:770-835 | on any device the time-window histogram when every window has an end, otherwise that of the events whose window has one; refused exactly for a cap below 2 or a negative width |
| DeviceLaunch.CountTemporalCycles | src/cuda/cuda_johnson.cpp:105-127 | on any device, with or without the filter, the temporal histogram when every window has an end; refused exactly for a cap below 2, a negative width and, with the filter, a window without an end |
| TaskTree.CountConserves | src/openmp/openmp_read_tarjan_tasks.cpp:43-75 | one step of the serial search below a task keeps what is recorded plus what it owes |
| TaskTree.NextKeepsInv | src/openmp/openmp_read_tarjan_tasks.cpp:105-150 | every task start, slot, spawn and serial search step on any thread keeps merged local histograms plus what pending and partly run tasks owe |
| TaskTree.TasksStayAboveCutoff | src/openmp/openmp_read_tarjan_tasks.cpp:112-117 | along every run paths shorter than the cutoff spawn and those of the cutoff length are searched serially |
| TaskTree.FinishedRunCounts | src/openmp/openmp_read_tarjan_tasks.cpp:156-192 | for every schedule, thread count and cutoff the merge is the static histogram |
| TaskTree.NoDeadlock | src/openmp/openmp_read_tarjan_tasks.cpp:105-150 | until all work is done some task can run |
| TaskTree.RunsEnd | src/openmp/openmp_read_tarjan_tasks.cpp:105-150 | no run is longer than the work of its first state |
| TaskTree.RunsCanFinish | src/openmp/openmp_read_tarjan_tasks.cpp:105-192 | every run can be continued until no task is left |
| BranchSplit.BranchSplitter.PrefixHasWork | src/cuda/cuda_branch_split.cpp:22-44 | decides whether the last vertex has an edge back to the first, or one to a new vertex above it while the cap allows a longer path |
| BranchSplit.BranchSplitter.Expand | src/cuda/cuda_branch_split.cpp:46-85 | adds exactly the shorter cycles and the prefixes with work below the path, and restores path and flags |
| BranchSplit.NoWorkNoCycle | src/cuda/cuda_branch_split.cpp:53-58 | a dropped prefix has no cycle below it |
| BranchSplit.SplitIsPartition | src/cuda/cuda_branch_split.cpp:89-113 | shorter cycles plus the continuations of all items are the undivided histogram |
| BranchSplit.AllItemsDistinct | src/cuda/cuda_branch_split.cpp:53-58 | no prefix is emitted twice |
| BranchSplit.LongCycleExtendsOneItem | src/cuda/cuda_branch_split.cpp:53-58 | every cycle of at least the cutoff length extends exactly one item and is found from it |
| BranchSplit.ItemsExactly | src/cuda/cuda_branch_split.cpp:22-85 | the items are exactly the paths of the cutoff length over distinct vertices above their first, within the cap, that have an edge back to the first or one to a new vertex above it that the cap still allows |
| BranchSplit.SplitStaticSearch | src/cuda/cuda_branch_split.cpp:89-113 | the closed histogram is the static one below the cutoff, the items continue it to the whole, and a cutoff or cap below 2 is refused |
| CycleUnions.BreadthFirst | src/sequential/cycle_union.cpp:47-112 | marks exactly the vertices reachable over edges active in the window |
| CycleUnions.ReachesReversed | src/sequential/cycle_union.cpp:80-112 | searching the incoming edges from the root finds exactly the vertices that reach the root |
| CycleUnions.CycleUnion.Include | src/sequential/cycle_union.cpp:119-125 | the vertex joins the set and the count stays the size of the set |
| CycleUnions.ComputeCycleUnion | src/sequential/cycle_union.cpp:157-178 | holds exactly the vertices between first vertex and root; refused exactly for a negative width, a window without an end, or an endpoint out of range |
| CycleUnions.BetweenHasWalks | src/sequential/cycle_union.cpp:38-112 | a vertex of the union lies on a walk from first vertex to root, every step of which has an event after the start and within the window |
| CycleUnions.WalksAreBetween | src/sequential/cycle_union.cpp:38-112 | and every vertex on such a walk is in the union |
| CycleUnions.UnionEmptyIff | src/sequential/cycle_union.cpp:157-178 | the union is empty exactly when the root is unreachable from the first vertex over active edges |
| CycleUnions.UnionHoldsCycles | src/sequential/cycle_union.cpp:157-178 | it contains every vertex of every temporal cycle of its start event |
| CycleUnions.DroppedHasNoCycle | src/cuda/cuda_work_item.cpp:69-72 | a start event with an empty union has no temporal cycle |
| CycleUnions.BuiltViewIsOk | src/core/graph_builder.cpp:80-152 | the built view of a graph with sorted timestamps meets what the searches and the union need |
| WorkItems.BuildStartEvents | src/cuda/cuda_work_item.cpp:17-38 | one start event per timestamp of every edge, in order |
| WorkItems.AllEventsSum | src/cuda/cuda_work_item.cpp:17-38 | the list of start events yields what the nested loops of a sequential run yield |
| WorkItems.KeptExactly | src/cuda/cuda_work_item.cpp:56-75 | exactly the events whose first vertex reaches the root over active edges are kept |
| WorkItems.KeptHasWalk | src/cuda/cuda_work_item.cpp:56-75 | a kept event has a walk from its first vertex to its root, every step of which has an event after the start and within the window |
| WorkItems.WalkIsKept | src/cuda/cuda_work_item.cpp:56-75 | and every event with such a walk is kept, as often as it is listed |
| WorkItems.KeptLosesNothing | src/cuda/cuda_work_item.cpp:56-75 | filtering leaves the temporal histogram unchanged |
| WorkItems.BuildTemporalStartEvents | src/cuda/cuda_work_item.cpp:40-78 | kept plus dropped is generated, the kept events yield the temporal histogram for every cap; refused exactly for a negative width and, with the filter, for a window without an end |
| WorkItems.AllEventsEnd | src/cuda/cuda_work_item.cpp:56-75 | the windows of all listed events end exactly when those of all edges and timestamps do |
| StartEvents.WindowsEndExactly | src/core/timestamp.cpp:11-20 | every window has an end exactly when no timestamp of an edge plus the width exceeds the largest 64-bit timestamp |
| StartEvents.LazyRunsExactly | src/core/timestamp.cpp:11-20 | a run that computes window ends lazily is refused exactly when an edge has to be read in a window of negative width or beyond the largest 64-bit timestamp |
| GraphViews.BuildGraphView | src/core/graph_builder.cpp:80-152 | both halves hold every logical edge once in its row, ordered by neighbour and edge id, with its range of the shared timestamps |
| GraphViews.OutOrder | src/core/graph_builder.cpp:115-126 | the outgoing rows are ordered by target, then by edge id |
| GraphViews.InOrder | src/core/graph_builder.cpp:115-126 | the incoming rows are ordered by source, then by edge id |
| GraphViews.ViewIsTransposed | src/core/graph_builder.cpp:80-152 | outgoing and incoming adjacency are transposes with the same timestamps |
| GraphViews.HalvesPairUp | src/core/graph_builder.cpp:80-152 | the slots of the two halves match one to one by edge id, with ends exchanged and equal timestamps, parallel edges included |
| GraphViews.ViewEdges | src/core/graph_builder.cpp:80-152 | every slot is a logical edge with its timestamps and every logical edge has a slot |
| GraphViews.CanonicalIffNoParallels | src/core/graph_builder.cpp:115-128 | the rows are strictly ascending exactly when no logical edge is repeated |
| GraphViews.BuildDirectedGraph | src/dynamic/directed_graph.cpp:38-48 | a canonical graph with the edges of the view, the outgoing half itself when that is canonical |
| GraphViews.ToGraphView | src/dynamic/directed_graph.cpp:134-153 | the outgoing half is the graph itself, with the single timestamp 0 everywhere |
| GraphViews.RoundTrip | src/dynamic/directed_graph.cpp:134-153 | converting to the view and back gives the same graph |
| BatchGenerator.Shuffle | src/dynamic/batch_generator.cpp:80 | the shuffled array is a permutation |
| BatchGenerator.SampleDeletions | src/dynamic/batch_generator.cpp:68-84 | as many different window edges as asked for, refused exactly when the window has fewer |
| BatchGenerator.SampleInsertions | src/dynamic/batch_generator.cpp:86-112 | the new edges among the drawn pairs, as many as asked for, without self-loops; refused exactly when 1000 draws for each wanted edge and for one more, plus 100 for each vertex of the window, hold fewer |
| BatchGenerator.AcceptedExactly | src/dynamic/batch_generator.cpp:100-110 | every drawn pair that is neither a self-loop nor an edge is accepted, once |
| BatchGenerator.ChooseWindow | src/dynamic/batch_generator.cpp:51-63 | the window lies inside the graph and has the requested size, at least 2 |
| BatchGenerator.DedupKeepsSize | src/dynamic/batch_generator.cpp:114 | normalizing a list without duplicates keeps its size |
| BatchGenerator.GenerateBatch | src/dynamic/batch_generator.cpp:25-116 | whatever is drawn, window, number of window edges and accepted draws decide which refusal or batch comes back; the window has the requested size, at least 2; a batch has the requested sizes after normalization, its deletions are window edges and its insertions the accepted non-edges, both ends inside the window; too few non-edges is answered only after all allowed draws |
| BatchGenerator.GeneratedMatches | src/dynamic/batch_generator.cpp:25-116 | a generated batch meets the precondition of the update |
| BatchGenerator.GenerateThenUpdate | src/dynamic/batch_generator.cpp:25-116 | there is an updated histogram exactly when the generator returns a batch, and it always equals recounting |

## Left out

- 64-bit counters and their overflow errors and 32-bit ids: numbers are unbounded. Of 64-bit timestamps only the largest one appears, where the end of a window is computed.
- Time-window Read-Tarjan, and time-window Johnson with a length cap: vertices below the root are visited there and a depth cutoff meets blocked lists, so the completeness argument of the other searches does not apply; both are not part of this model.
- DeviceUpdate.UpdateStaticHistogramDevice: requires all changes to be in range, because the kernel does not check the ends of a changed edge, unlike the sequential update.
- OwnedCycleKernel.CountOwnedCycles: requires the ends of its change to be in range, for the same reason.
- Sorting, binary search in timestamps, hash maps and ordered maps of the standard library are functions and maps with their contracts.
- The searches read one timestamp list per slot; that these are the slices of the shared timestamp array is stated in `GraphViews` only.
- The visited flags that every OpenMP task copies are represented by the path it carries, those of its serial search by the path on its stack; the recursion of that search is an explicit stack.
- The flag buffer that a search of a parallel phase marks is represented by the path on its thread's stack; the recursion of that search is an explicit stack.
- The frames of the temporal kernel are one array of records instead of five parallel arrays.
- On shared memory a step of a thread is a whole loop iteration, because no other thread reads or writes its slices; only the shared counter and the histograms are touched by several threads, one atomic step at a time. The model has all three arrays of stacks in every launch, used or not.
- A device is a function of the launch: two launches with the same jobs get the same bins. All finished runs of a launch have the same bins, so nothing is lost by it.
- DFS state counters and other statistics of the temporal search.
- The random generator itself: reproducibility for a seed is not stated, only what holds for every draw.
- Reading files, external vertex ids, command line, CSV output, device allocation, transfers, timers, bitset helpers, and reading launch settings from the environment.
- Root-parallel OpenMP counters: sums over roots of searches already proved.
