# Fences, reservations and their neighbours, verified

This project models the fence stack of a DRM port (`drivers/dma-buf`) in Dafny and proves what
its users rely on, over every input and every interleaving. Four smaller cores are modelled
beside it: fixed-point arithmetic (`include/drm/drm_fixed.h`), HDMI infoframes
(`drivers/video/hdmi.c`), aperture ownership (`drivers/video/aperture.c`) and the pins and
mappings of shared buffers (`drivers/dma-buf/dma-buf.c`).

Check it with `dafny verify dfyconfig.toml` (Dafny 4.11).

## The fence stack

* A **fence** signals once. `Fences` has the wrapping order of sequence numbers. A fence carries
  its unbounded position on its timeline; the driver stores it truncated to 64 bits and compares
  64 or 32 of them. `FenceCallbacks` has signalling, callbacks and their removal: a class with the
  fields of `struct dma_fence`, each method tied to a step on values, and what holds over whole
  runs of those steps by any threads.
* An **array** signals when all, or one, of its children have. `ArrayProtocol` is the race of the
  loop that arms the children's callbacks with the children, the callbacks, the queued work and
  readers, as a step machine.
* A **chain** is a timeline as a linked list that is trimmed without a lock while others walk it.
  `ChainTimeline` is what a chain means and what a lookup must find; `ChainHeap` the nodes with
  their counts, the locals of the threads that hold references, and each of the few changes that
  steps make to them; `ChainWalk` the steps of any number of threads, one atomic access each
  (read a pointer, get unless zero, read it again, test, compare and swap, put, and the release of
  a dead node access by access); `ChainWalkInv` shows that each step keeps the invariant;
  `ChainRuns` has the theorems on what is kept. `ChainTurns` and `ChainProgress` show that walks
  and lookups end and where they end, `ChainReturns` that whatever a walk returns was unsignaled
  during that walk, and `ChainFreeing` that releases end and free everything. `ChainRelease`
  compares the release loop with a naive recursive release. `ChainSignal` is the protocol in which
  a chain signals itself.
* **Unwrapping and merging** flatten chains and arrays and merge them into one fence
  (`FenceUnwrap`, `FenceMerge`): imperative, over arrays, while every test of a fence lets other
  threads signal first. `MergeMeaning` is what the merged fence means and what callers must keep
  to; `MergeSteps` is the merge loop as a step machine, with at most one test of a fence per step,
  and `MergeRuns` what its runs keep.
* A **reservation object** is a table of fences with usages, kernel < write < read < bookkeep.
  `Resv` has its writers on a class with an array, `ResvRuns` what runs of writers keep, and
  `ResvIter` the readers that iterate without the lock, as a step machine with one access to
  shared memory per step, and shows that they miss nothing; `ResvResult` that they return nothing
  else.

Of the other cores, `Fixed`, `FixedMul`, `FixedDiv`, `ExpSeries` and `FixedExp` are the arithmetic;
`Infoframes`, `Hdmi` and `HdmiBuffers` pack and unpack frames, and `HdmiWire` says byte by byte and
bit by bit what is on the wire; `Aperture` and `DmaBuf` are what their names say.

`Powers`, `Lists` and `Octets` hold arithmetic and list facts that several modules share.

Common to all: locks are atomic sections; memory read under RCU stays readable and keeps its
identity; `kref_get_unless_zero` is one step. In-order signalling of a context and sequence numbers
less than 2^31 apart (or 64-bit ones) are assumed only where a theorem says so (`InOrder`,
`Window`, `AllInWindow`).

## Where the code and its descriptions differ

* `dma_fence_chain_init` leaves `prev_seqno` alone when it starts a context, and
  `dma_fence_chain_alloc` does not clear memory. The model gives that field an arbitrary value
  (`stale`). A lookup is then right unless the first node's stale value reaches the request and its
  fence has not signalled; then it may find what lies below that node instead
  (`ChainRuns.LookupIsRight`). `ChainRuns.StaleMemoryLosesAFence` is a run that goes wrong.
* A merge keeps its meaning only if the fences of a context signal in order:
  `MergeRuns.OutOfOrderLosesAFence` is a run of the loop that loses a fence. The same is true of
  `dma_resv_add_fence` (`ResvRuns.OutOfOrderLosesAFence`).
* An array that signals with any of its children can hide the others from an unwrap if it stands
  behind the head of a chain, because the walk passes it over once one child has signalled. An array
  without children ends an unwrap early, at the head or if it has not signalled, and it never will
  if it waits for any (`ArrayProtocol.WithoutChildrenAtOnceOrNever`). The merge is proved for all
  inputs, over the leaves that the iterations get to (`FenceMerge.Merge`,
  `FenceUnwrap.IterationYields`). It means all its inputs exactly if those hide no leaf
  (`MergeMeaning.MergeMeansAllInputsIff`); a hidden one is lost in an order of signals that
  `MergeMeaning.HiddenLeafIsLost` gives. `MergeMeaning.RulesHideNothing` has two simple rules for
  callers.
* A pass of `dma_resv_get_fences` that finds nothing after a restart does not drop what was
  collected before it, so fences can be returned that have signalled, or left the table, before the
  last restart (`ResvResult.OldFencesAreKept`). All that is returned was in the table and unsignaled
  during the iteration (`ResvResult.CollectedWasVisible`). It was so since the last restart if the
  cursor's restart mark has been cleared by then; if not, it is what there was before that restart
  (`ResvResult.LastPassIsAll`).
* The sum in `dma_resv_reserve_fences` is an unsigned int. If it wraps, the call succeeds without
  making room; it makes room exactly if it does not (`ResvRuns.ReserveMakesRoom`). A first
  reservation of more than 2^31 slots asks for none (`ResvRuns.HugeFirstReserveMakesNone`).
* `drm_fixp_mul` wraps for some pairs of negative operands; `FixedMul.IntermediateFits` says
  exactly which, and `FixedMul.NegativeProductCanWrap` is one of them. Its result is right exactly if
  no step wraps (`FixedMul.CloseIffNothingWraps`).
* `drm_fixp_exp` of the least s64 is 1.0, not about zero, as its magnitude wraps (`FixedExp.Exp`);
  `drm_fixp_div` divides by zero if the divisor is shifted away (`FixedDiv.Div`).
* The audio infoframe packs one channel less than it is given and does not add it again
  (`Hdmi.AudioLosesAChannel`).
* `hdmi_infoframe_check` has no case for dynamic range frames and refuses them
  (`Hdmi.InfoframeCheck`), although `hdmi_infoframe_pack` packs them (`HdmiBuffers.Pack`).
* Unpacking a source product description runs `strlen` on the buffer; an accepted buffer can be
  read beyond its end (`Hdmi.SpdReadsBeyond`), exactly if no NUL is in or behind the second string
  (`Hdmi.SpdStringsEndInside`).
* A range that ends at 2^64 overlaps nothing for `overlap`, and that is its only fault
  (`Aperture.OverlapFinds`, `Aperture.OverlapIsExactIff`); two devices can own the same such range
  (`Aperture.TwoOwnersOfTheTop`). A detach waits for the lock that it holds exactly if a device
  with an overlapping range owns another one (`Aperture.Registry.DetachDevices`), as happens in
  `Aperture.DetachOfTwoBlocks`.
* `dma_buf_map_attachment` keeps the pin when the exporter's `map_dma_buf` answers NULL, and
  `dma_buf_dynamic_attach` keeps the attachment on the list when pinning fails
  (`DmaBuf.Attachment.Map`, `DmaBuf.Attachment.Attach`).

## Model

| member | source | states |
|---|---|---|
| `Fences.LaterIsAsymmetric` | drivers/dma-buf/dma-fence.c:569-577 | The sequence number comparison is irreflexive and asymmetric on all values, in both widths |
| `Fences.NarrowLaterIsDistance` | drivers/dma-buf/dma-fence.c:569-577 | The 32-bit comparison holds exactly if the distance of the unbounded positions, modulo 2^32, is between 0 and 2^31 |
| `Fences.LaterIsOrderInWindow` | drivers/dma-buf/dma-fence.c:569-577 | On positions less than 2^31 apart (or below 2^64 for 64-bit timelines) the comparison of what is stored is the true order |
| `Fences.WindowIsTight` | drivers/dma-buf/dma-fence.c:569-577 | At distance 2^31 neither fence is later, whatever the position, so the window cannot be wider |
| `Fences.IsLaterInWindow` | drivers/dma-buf/dma-fence.c:582-591 | dma_fence_is_later of two fences of a context is the order of their positions |
| `FenceUnwrap.Signals.IsSignaled` | drivers/dma-buf/dma-fence.c:551-564 | A test answers for the bits as they are at that moment, after other threads have signalled; bits are never cleared. That the test itself may set the bit, through the fence's `signaled` operation, is part of that growth |
| `FenceUnwrap.UnwrapFirst` | drivers/dma-buf/dma-fence-unwrap.c:37-42 | The cursor starts at the first leaf of the head, or past the end for NULL or an empty array, with every leaf that the iteration can get to ahead of it |
| `FenceUnwrap.ChainWalk` | drivers/dma-buf/dma-fence-chain.c:210-242 | The walk goes on to the next member whose contained fence has not signalled, passing over signaled ones only |
| `FenceUnwrap.UnwrapNext` | drivers/dma-buf/dma-fence-unwrap.c:52-63 | One step, for any input: the next leaf of the array, or the first leaf of the next member that the walk stops at, or the end if that member is an empty array; every member passed over has signalled |
| `FenceUnwrap.StepShrinks` | drivers/dma-buf/dma-fence-unwrap.c:52-63 | A step leaves fewer leaves, and fewer unsignaled ones if it left an unsignaled one |
| `FenceUnwrap.StepLosesOnlyItsLeaf` | drivers/dma-buf/dma-fence-unwrap.c:52-63 | A step loses no unsignaled leaf but the one it stands on |
| `FenceUnwrap.IterationYields` | drivers/dma-buf/dma-fence-unwrap.c:37-63 | While nothing else signals, an iteration over any input yields exactly the leaves of the members not signaled, in order, up to the first member that ends it |
| `FenceUnwrap.ReachIsAllIff` | drivers/dma-buf/dma-fence-array.c:126-141 | An iteration can get to every leaf if and only if no array without children, that has not signalled or is the head, stands ahead of one |
| `FenceMerge.CountPass` | drivers/dma-buf/dma-fence-unwrap.c:76-81 | The first pass counts at least as many leaves as are unsignaled from then on, and none if none was unsignaled when it began |
| `FenceMerge.CountInput` | drivers/dma-buf/dma-fence-unwrap.c:78-80 | The same for one input |
| `FenceMerge.Advance` | drivers/dma-buf/dma-fence-unwrap.c:110-130 | Replacing the head of an input by its next leaf keeps the invariant if a head that stays, or the output, is of its context and not earlier; it leaves fewer leaves |
| `FenceMerge.SkipSignaled` | drivers/dma-buf/dma-fence-unwrap.c:107-109 | Dropping signaled heads keeps the invariant |
| `FenceMerge.Scan` | drivers/dma-buf/dma-fence-unwrap.c:103-131 | A scan ends with the unique head of lowest context, or has consumed a leaf and starts again |
| `FenceMerge.Emit` | drivers/dma-buf/dma-fence-unwrap.c:133-136 | The selected head is appended inside the array and its input goes on |
| `FenceMerge.SecondPass` | drivers/dma-buf/dma-fence-unwrap.c:93-137 | The merge loop ends, writes no more entries than were counted, and settles every leaf that it can get to |
| `FenceMerge.Merge` | drivers/dma-buf/dma-fence-unwrap.c:67-166 | For any inputs, the result is made of leaves that the iterations can get to and that had not signalled at the call; every such leaf is in an array that was passed over as signaled, or a fence of its context, not earlier, is in the result or has signalled; one fence per context, in order, if every input is ordered so. NULL only if memory is refused and a leaf was unsignaled at the call; if memory is refused, NULL or the stub; the stub if no leaf was unsignaled |
| `FenceMerge.AdvanceKeepsCoverage` | drivers/dma-buf/dma-fence-unwrap.c:110-130 | What stands for a leaf after a head is dropped |
| `FenceMerge.AdvanceKeepsOrder` | drivers/dma-buf/dma-fence-unwrap.c:110-136 | Inputs with increasing contexts keep the output increasing |
| `FenceMerge.RoomForOne` | drivers/dma-buf/dma-fence-unwrap.c:133-134 | An unsignaled head still has a counted slot |
| `FenceMerge.NothingLeft` | drivers/dma-buf/dma-fence-unwrap.c:83-84 | When the first pass counts nothing everything has signalled |
| `MergeMeaning.MergeMeansAllInputsIff` | drivers/dma-buf/dma-fence-unwrap.c:67-166 | The merged fence is equivalent to all leaves of all inputs, whatever the merge returns and at any time from then on, if and only if what the iterations get to hides none of them: each leaf has one that is not earlier at a head, in an array that waits for all, or in one that waits for any of leaves none of which is earlier |
| `MergeMeaning.MergeMeans` | drivers/dma-buf/dma-fence-unwrap.c:67-166 | If no leaf is hidden, all parts of the merged fence have signalled exactly when all leaves have, at any time from the return on |
| `MergeMeaning.RulesHideNothing` | drivers/dma-buf/dma-fence-chain.c:210-242 | No leaf is hidden if no empty array that ends an iteration stands ahead of others and no array that waits for any of several stands behind a head |
| `MergeMeaning.UnsignaledLeavesAreKept` | drivers/dma-buf/dma-fence-unwrap.c:67-166 | Each leaf still unsignaled at the return, and not hidden, has a fence of its context, not earlier, in the result |
| `MergeMeaning.KeptIffNoneHidden` | drivers/dma-buf/dma-fence-unwrap.c:67-166 | Every unsignaled leaf is kept, whatever the merge returns, if and only if none is hidden |
| `MergeMeaning.HiddenLeafIsLost` | drivers/dma-buf/dma-fence-chain.c:210-242 | A hidden leaf is lost: everything but what lies at or behind it on its timeline may have signalled, in order; then all iterations find signaled leaves only, and nothing in the result waits for it |
| `MergeRuns.StepKeepsInv` | drivers/dma-buf/dma-fence-unwrap.c:100-142 | Each single test, of a head or of a member in a chain walk, with what the loop does up to the next one, keeps the invariant of the merge |
| `MergeRuns.RunSettles` | drivers/dma-buf/dma-fence-unwrap.c:93-142 | However signals fall between any two tests of the loop and its walks, a run that ends has settled every leaf, within the slots counted |
| `MergeRuns.LookIsProgress` | drivers/dma-buf/dma-fence-unwrap.c:100-142 | Each test, with what the loop does up to the next one, leaves fewer leaves ahead, or as many and less of a walk |
| `MergeRuns.RunEnds` | drivers/dma-buf/dma-fence-unwrap.c:100-142 | From every state of the loop that can be reached, its tests alone bring it to its end |
| `MergeRuns.OutOfOrderLosesAFence` | drivers/dma-buf/dma-fence-unwrap.c:99-142 | Without in-order signalling a leaf is lost: for any two fences of a context, the run of the loop that drops the earlier for the later one, sees that one signal, and ends with nothing |
| `ChainTimeline.InitKeepsTimelines` | drivers/dma-buf/dma-fence-chain.c:150-175 | dma_fence_chain_init keeps contexts contiguous, sequence numbers increasing in them, and prev_seqno equal to the one before |
| `ChainTimeline.PlainFenceKeepsTimelines` | drivers/dma-buf/dma-fence.c:455-468 | So does a fence that is not a chain |
| `ChainTimeline.InitExtends` | drivers/dma-buf/dma-fence-chain.c:150-175 | On a chain with an earlier sequence number a new node goes on with its context, and exactly the requests beyond that number find it, others what they found before; otherwise it starts the new context, with the larger of the number given and that of the chain below |
| `ChainTimeline.SkipKeepsUnsignaled` | drivers/dma-buf/dma-fence-chain.c:221-238 | Passing over signaled members keeps the set of unsignaled contained fences |
| `ChainTimeline.SkipTransitive` | drivers/dma-buf/dma-fence-chain.c:221-238 | Trims in succession are one trim |
| `ChainTimeline.SkipIsStable` | drivers/dma-buf/dma-fence-chain.c:221-238 | A trim stays right while fences are added and signal |
| `ChainTimeline.LookupSteps` | drivers/dma-buf/dma-fence-chain.c:188-193 | A lookup that goes on from a node stays above its target, or has passed the first node alone |
| `ChainTimeline.PassesOnlyTheFirst` | drivers/dma-buf/dma-fence-chain.c:188-193 | The only node a lookup can wrongly pass is the first of the context |
| `ChainTimeline.LookupMeansTarget` | drivers/dma-buf/dma-fence-chain.c:177-196 | Where a lookup stops, the unsignaled fences are those from the oldest node of the context that is late enough, and it stops at that very node if its fence has not signalled. If not, the first node's stale prev_seqno reaches the request and its fence is unsignaled, the fences wanted are those from the first node on, and those found are the ones below it |
| `ChainHeap.GetKeepsHeap` | drivers/dma-buf/dma-fence.c:484-503 | Taking a reference for a thread keeps every count equal to the pointers and locals that hold one |
| `ChainHeap.PutKeepsHeap` | drivers/dma-buf/dma-fence.c:473-479 | Dropping one does; a fence whose last reference goes begins its release, as a node that no pointer or local refers to |
| `ChainHeap.SoleOwner` | drivers/dma-buf/dma-fence-chain.c:122-123 | A node below with a count of one is referenced by the releasing node alone |
| `ChainHeap.ClaimKeepsHeap` | drivers/dma-buf/dma-fence-chain.c:124-126 | Taking over the node below keeps the counts |
| `ChainHeap.SpliceKeepsHeap` | drivers/dma-buf/dma-fence-chain.c:126-128 | Splicing it out keeps the counts |
| `ChainHeap.SetPrevKeepsHeap` | drivers/dma-buf/dma-fence-chain.c:231-232 | Exchanging the prev pointer keeps the counts up to the reference that the thread has now to put |
| `ChainWalkInv.SwapKeepsInv` | drivers/dma-buf/dma-fence-chain.c:231-236 | The compare and swap keeps the invariant whether or not it succeeds |
| `ChainWalkInv.TestKeepsInv` | drivers/dma-buf/dma-fence-chain.c:222-230 | The test of the contained fence does |
| `ChainWalkInv.TryKeepsInv` | drivers/dma-buf/dma-fence.c:517-518 | Getting a reference unless the count is zero does |
| `ChainWalkInv.CheckKeepsInv` | drivers/dma-buf/dma-fence.c:520-523 | Reading the pointer again does |
| `ChainWalkInv.RunKeepsInv` | drivers/dma-buf/dma-fence-chain.c:178-242 | Every access of a thread in the walk and the lookup does |
| `ChainWalkInv.ReleaseKeepsInv` | drivers/dma-buf/dma-fence-chain.c:114-133 | Every access of a release does, by whichever thread |
| `ChainWalkInv.InitChainKeepsInv` | drivers/dma-buf/dma-fence-chain.c:150-175 | Extending a chain does, with any stale prev_seqno |
| `ChainWalkInv.NextKeepsInv` | drivers/dma-buf/dma-fence-chain.c:114-242 | Every step of every thread keeps the invariant |
| `ChainRuns.TrimmingIsSound` | drivers/dma-buf/dma-fence-chain.c:210-242 | In every run, following prev from a live node finds exactly the unsignaled fences of the timeline as built |
| `ChainRuns.ReferencesAreConserved` | drivers/dma-buf/dma-fence-chain.c:198-242 | In every run each count is the number of pointers and locals that hold a reference, and exactly the unreferenced are released |
| `ChainRuns.HandlesAreAlive` | drivers/dma-buf/dma-fence-chain.c:198-242 | In every run what a thread holds, and what it can reach from there, has not been freed |
| `ChainRuns.NothingLeaks` | drivers/dma-buf/dma-fence-chain.c:114-133 | In every run, once nobody holds anything, everything has been freed |
| `ChainRuns.LookupIsRight` | drivers/dma-buf/dma-fence-chain.c:177-196 | In every run a lookup that returned 0 found NULL or a fence from which the unsignaled fences are those of the target, and the target itself if its fence has not signalled; or else a stale prev_seqno reached the request with the first node's fence unsignaled, the fences wanted were those from the first node on, and it found those below that node; when the first node is the target that is always so |
| `ChainRuns.StaleMemoryLosesAFence` | drivers/dma-buf/dma-fence-chain.c:150-196 | The exception happens: the run in which a new chain over stale memory is looked up, ending with NULL although its fence is unsignaled |
| `ChainTurns.SkipKeepsFirst` | drivers/dma-buf/dma-fence-chain.c:221-238 | Trimming signaled members keeps the first unsignaled member of a timeline |
| `ChainProgress.EachTurnGoesOn` | drivers/dma-buf/dma-fence-chain.c:210-242 | In every state of a walk or lookup that nothing has come between, each turn of the thread leaves it less to do and nothing in between, and the turn that ends a walk leaves it with the first unsignaled member below |
| `ChainProgress.QuietStep` | drivers/dma-buf/dma-fence-chain.c:210-242 | Releases that go on meanwhile do not disturb it |
| `ChainProgress.QuietWalk` | drivers/dma-buf/dma-fence-chain.c:210-242 | From every state that threads can reach, a walk during which only releases go on ends, with the first member below whose fence has not signalled, or NULL, and the pointer of the node it left is exactly that: all signaled members between are cut out |
| `ChainProgress.QuietLookup` | drivers/dma-buf/dma-fence-chain.c:177-196 | So does a lookup end |
| `ChainReturns.WalkReturnsUnsignaled` | drivers/dma-buf/dma-fence-chain.c:210-242 | In every run, whatever all other threads do: when a walk ends with a member, that walk has tested it at a state at which its fence had not signalled, and has done nothing since |
| `ChainReturns.OthersLeaveAlone` | drivers/dma-buf/dma-fence-chain.c:198-242 | No action of others changes the locals of a thread that walks |
| `ChainFreeing.ReleaseLessens` | drivers/dma-buf/dma-fence-chain.c:114-133 | Each access of a release leaves less for all releases to do |
| `ChainFreeing.ReleasesEnd` | drivers/dma-buf/dma-fence-chain.c:114-133 | From every state that keeps the invariant some row of releases ends them all and changes nothing that threads hold |
| `ChainFreeing.EverythingIsFreed` | drivers/dma-buf/dma-fence-chain.c:114-133 | In every run, once nobody holds anything, it frees everything |
| `ChainRelease.MoveToFront` | drivers/dma-buf/dma-fence-chain.c:114-133 | In a naive release the order of the puts does not matter |
| `ChainRelease.DrainAppend` | drivers/dma-buf/dma-fence-chain.c:114-133 | Nor does doing them in portions |
| `ChainRelease.DrainIgnoresDead` | drivers/dma-buf/dma-fence-chain.c:126-127 | Nor do the pointers of nodes that are already gone |
| `ChainRelease.DecKeepsBacked` | drivers/dma-buf/dma-fence.c:473-479 | A put hands on what the fence pointed to if that was its last reference |
| `ChainRelease.NaiveUnlink` | drivers/dma-buf/dma-fence-chain.c:121-129 | A naive release may first put what the node below contains |
| `ChainRelease.UnlinkDrains` | drivers/dma-buf/dma-fence-chain.c:121-129 | A turn of the loop frees what a naive release frees |
| `ChainRelease.Heap.Put` | drivers/dma-buf/dma-fence.c:473-479 | A put leaves the counts that the naive recursive release leaves, frees each fence whose count went to zero exactly once, and nests at most three deep when no chain contains a chain |
| `ChainRelease.Heap.Release` | drivers/dma-buf/dma-fence-chain.c:114-133 | The loop and the puts behind it do, nesting at most two deep, whatever the length |
| `ChainRelease.Heap.Unlink` | drivers/dma-buf/dma-fence-chain.c:121-129 | One turn of the loop |
| `ChainRelease.Heap.PutRest` | drivers/dma-buf/dma-fence-chain.c:130-132 | The puts behind the loop, nesting at most one deep |
| `ChainSignal.StepKeepsInv` | drivers/dma-buf/dma-fence-chain.c:48-112 | Every step of the two callers, the callback and the work keeps the invariant |
| `ChainSignal.SignalsExactlyWhenDone` | drivers/dma-buf/dma-fence-chain.c:48-112 | In every run the chain is signaled only when all contained fences are, and as long as it is not, once started, a call, callback or work is in charge |
| `ChainSignal.TurnIsProgress` | drivers/dma-buf/dma-fence-chain.c:48-93 | Once all contained fences have signalled, each step of a call, callback or work lowers a rank, unless the chain has signalled, and no other step raises it |
| `ChainSignal.TurnIsEnabled` | drivers/dma-buf/dma-fence-chain.c:48-93 | And one of them can be taken as long as it has not |
| `ChainSignal.FinishedChainSignals` | drivers/dma-buf/dma-fence-chain.c:48-112 | So in every run the chain is signaled once, since then, more such steps have been taken than it has contained fences and three |
| `ChainSignal.OneInCharge` | drivers/dma-buf/dma-fence-chain.c:59-68 | In every run at most one of call, callback and queued work is there; so the callback, which shares its memory with the work, is armed only while it is free |
| `ChainSignal.EachArmIsProgress` | drivers/dma-buf/dma-fence-chain.c:78-90 | Each time the callback is armed it is further down, behind signaled fences only |
| `ChainSignal.FreedChainIsIdle` | drivers/dma-buf/dma-fence-chain.c:70-93 | One reference is held per call, callback and queued work, so none of them outlives the chain |
| `ArrayProtocol.StepKeepsInv` | drivers/dma-buf/dma-fence-array.c:48-107 | Every step of the loop, the callbacks, the work and the readers keeps the invariant |
| `ArrayProtocol.CallbackRunsKeeps` | drivers/dma-buf/dma-fence-array.c:59-69 | A callback does, the last one leaving its reference to the work |
| `ArrayProtocol.LoopKeepsCounts` | drivers/dma-buf/dma-fence-array.c:81-91 | A step of the loop does |
| `ArrayProtocol.ReportsOnlyWhenSettled` | drivers/dma-buf/dma-fence-array.c:97-107 | In every run the array reports signaled only when all children (one for "any") have, and its count passes from one to zero at most once |
| `ArrayProtocol.QuietArrayIsExact` | drivers/dma-buf/dma-fence-array.c:48-107 | No signal is lost: enabled and quiet, the array is signaled exactly if its children are settled |
| `ArrayProtocol.StepIsProgress` | drivers/dma-buf/dma-fence-array.c:48-107 | Each turn of the loop, a callback or the work lowers a rank that no other step raises |
| `ArrayProtocol.TurnIsEnabled` | drivers/dma-buf/dma-fence-array.c:48-107 | One of them can be taken unless everything is at rest |
| `ArrayProtocol.TurnsAreFew` | drivers/dma-buf/dma-fence-array.c:48-107 | So in every run at most nine of them for each child, and three, are taken |
| `ArrayProtocol.RestIsExact` | drivers/dma-buf/dma-fence-array.c:48-107 | And at rest an enabled array with children is signaled exactly if they are settled |
| `ArrayProtocol.WithoutChildrenAtOnceOrNever` | drivers/dma-buf/dma-fence-array.c:97-107 | In every run an array without children reports signaled from the start if it waits for all, and never if it waits for any |
| `ArrayProtocol.FreedArrayIsIdle` | drivers/dma-buf/dma-fence-array.c:81-91 | The base carries one reference per armed or running callback and queued work, so none outlives it |
| `FenceCallbacks.FenceObject.Signal` | drivers/dma-buf/dma-fence.c:100-124 | Sets the bit once and runs the waiting callbacks in order; -EINVAL the second time |
| `FenceCallbacks.FenceObject.EnableSwSignaling` | drivers/dma-buf/dma-fence.c:217-234 | Asks the driver once, and is then signaled exactly if it was or the driver found it done |
| `FenceCallbacks.FenceObject.AddCallback` | drivers/dma-buf/dma-fence.c:239-276 | On success the callback is behind the others on the list and the fence enabled; otherwise -EINVAL without a function, and -ENOENT exactly if the fence is signaled then, which it is exactly if it was or the driver finds it done |
| `FenceCallbacks.FenceObject.RemoveCallback` | drivers/dma-buf/dma-fence.c:295-306 | True exactly if the callback was waiting, which it then no longer is |
| `FenceCallbacks.FenceObject.IsSignaled` | drivers/dma-buf/dma-fence.c:551-564 | True exactly if it was signaled or the driver says so, and then it is signaled |
| `FenceCallbacks.SignalKeepsInv` | drivers/dma-buf/dma-fence.c:100-124 | Running all waiting callbacks keeps adds, runs and removals balanced |
| `FenceCallbacks.CallbacksRunExactlyOnce` | drivers/dma-buf/dma-fence.c:100-306 | In every run each successful add is matched by exactly one run or one removal, or still waits on an unsignaled fence |
| `FenceCallbacks.SignaledForGood` | drivers/dma-buf/dma-fence.c:107-109 | In every run a signaled fence stays signaled, and callbacks are only refused from then on |
| `FenceCallbacks.RefusedNeverRuns` | drivers/dma-buf/dma-fence.c:248-273 | An add that failed leaves the fence signaled, and no callback runs after it |
| `FenceCallbacks.SignalRunsInOrder` | drivers/dma-buf/dma-fence.c:111-121 | The callbacks that wait when the fence signals run then, in the order they were added |
| `Resv.RoundUpIsLeast` | drivers/dma-buf/dma-resv.c:191 | The rounded request is the least power of two that is enough |
| `Resv.SelectSplits` | drivers/dma-buf/dma-resv.c:204-211 | The split of a table by signaled and not loses no entry and no reference |
| `Resv.FilledFront` | drivers/dma-buf/dma-resv.c:210-211 | The two ends of the fill do not meet when an entry goes to the front |
| `Resv.FilledBack` | drivers/dma-buf/dma-resv.c:208-209 | Nor when one goes to the back |
| `Resv.HoldsSwap` | drivers/dma-buf/dma-resv.c:307-308 | Overwriting a slot exchanges one reference for the other |
| `Resv.Object.Reserve` | drivers/dma-buf/dma-resv.c:178-240 | Leaves a table with room alone; otherwise the new one, and it is a new one, has exactly the entries found unsignaled, with their usages, in order, and the references of the others are dropped once; unless a sum wraps it has room for what was asked for, at least twice as many slots as the old one, and at first at least four |
| `Resv.RequestGrows` | drivers/dma-buf/dma-resv.c:185-192 | If no sum wraps, the size asked for makes the room, is at least twice the old size for a table, and at least four at first |
| `Resv.Object.Fill` | drivers/dma-buf/dma-resv.c:204-212 | The two-ended fill splits the old table |
| `Resv.Object.DropBack` | drivers/dma-buf/dma-resv.c:230-236 | Drops one reference for each entry at the back |
| `Resv.Object.Add` | drivers/dma-buf/dma-resv.c:276-314 | The new entry takes the first slot that it supersedes or whose fence has signalled, or is appended; the BUG is hit only if there is neither such a slot nor room. A slot that holds an earlier fence of its context, of the same usage or a weaker one, or a signaled fence is such a slot, and the table does not grow then |
| `Resv.Object.FindSlot` | drivers/dma-buf/dma-resv.c:296-305 | The first such slot |
| `Resv.WeakerIsSuperseded` | drivers/dma-buf/dma-resv.c:299-300 | An entry of the context, at an earlier position within the window and of a usage that every reader of the new one sees, is superseded |
| `Resv.WeakerIsReplaced` | drivers/dma-buf/dma-resv.c:286-314 | With such an entry in a table, however full, an addition succeeds and the table is as long as before |
| `Resv.Object.Replace` | drivers/dma-buf/dma-resv.c:331-350 | Every entry of the context, and no other, becomes the replacement; references stay one per slot |
| `Resv.Object.ResetMax` | drivers/dma-buf/dma-resv.c:252-261 | Unlocking under debugging leaves exactly the filled slots |
| `Resv.Object.Fini` | drivers/dma-buf/dma-resv.c:145-153 | Drops every reference |
| `ResvRuns.ReserveMakesRoom` | drivers/dma-buf/dma-resv.c:185-189 | A successful reservation makes room exactly if the unsigned sum does not wrap |
| `ResvRuns.FirstReserveMakesRoom` | drivers/dma-buf/dma-resv.c:190-192 | A first reservation of up to 2^31 slots makes room |
| `ResvRuns.HugeFirstReserveMakesNone` | drivers/dma-buf/dma-resv.c:190-192 | Beyond that it asks for no slot |
| `ResvRuns.ReservedAddsFit` | drivers/dma-buf/dma-resv.c:276-314 | After n slots have been reserved, room for n - k is left behind the first k of a row of successful adds |
| `ResvRuns.ReserveAndAdd` | drivers/dma-buf/dma-resv.c:178-314 | After a successful reservation of n slots, up to n calls of add follow and none of them hits the BUG, whatever signals meanwhile; for every object and n whose sum with the filled slots fits 32 bits, and up to 2^31 for a first table |
| `ResvRuns.StepKeeps` | drivers/dma-buf/dma-resv.c:299-305 | One call of a writer keeps each entry still unsignaled, or puts a later one of its context there with a usage at least as binding, or, where it replaces the context, the replacement |
| `ResvRuns.NothingVisibleIsLost` | drivers/dma-buf/dma-resv.c:178-350 | So does every run of reservations, additions, replacements and unlocks: replacing other contexts changes nothing; an entry of a replaced context gives way to the replacement only, and to what stands for that |
| `ResvRuns.IdleMeansAllDone` | drivers/dma-buf/dma-resv.c:695-709 | Once everything that a query sees has signalled, so has everything it could ever have seen in the run, if replacements signal no earlier than what they replace and are as binding |
| `ResvRuns.ConflictsAreWaitedFor` | linuxkpi/bsd/include/linux/dma-resv.h:126-136 | Implicit synchronization: an access that finds the object idle at the usage that dma_resv_usage_rw gives it comes after every conflicting access that was ever visible |
| `ResvRuns.OutOfOrderLosesAFence` | drivers/dma-buf/dma-resv.c:299-305 | Without in-order signalling a fence can be lost: the run that shows it, for any two fences of a context and any usage |
| `ResvIter.StepKeepsInv` | drivers/dma-buf/dma-resv.c:355-447 | Every step of a reader and of the writers keeps the invariant |
| `ResvIter.ResultIsOwned` | drivers/dma-buf/dma-resv.c:556-592 | In every run the array is never written beyond its length, and the caller ends with one reference for each fence in it and no other, or none after a failed allocation |
| `ResvIter.RunEndsWithPass` | drivers/dma-buf/dma-resv.c:407-447 | Every iteration that is over ended with a pass without a restart |
| `ResvIter.ReadKeepsPass` | drivers/dma-buf/dma-resv.c:366-389 | Within a pass what stood in a slot already met is collected or in the reader's hands |
| `ResvIter.PassHasSlot` | drivers/dma-buf/dma-resv.c:355-363 | The slots that a pass counted at its start stay there |
| `ResvIter.PassCollects` | drivers/dma-buf/dma-resv.c:566-585 | If only wanted entries stand in a slot during the last pass, one of them is collected |
| `ResvIter.SteadyEntryIsCollected` | drivers/dma-buf/dma-resv.c:566-585 | An entry that the query sees and that stays in its slot, unsignaled, from the last restart to the end is collected |
| `ResvIter.PassCovers` | drivers/dma-buf/dma-resv.c:556-592 | What stood in a slot at the last restart has signalled, or it or a later fence of its context has been collected |
| `ResvIter.NothingCollectedMeansSignaled` | drivers/dma-buf/dma-resv.c:696-709 | dma_resv_test_signaled is right: if nothing is found, everything the query sees in the table has signalled |
| `ResvResult.QuietIterationIsExact` | drivers/dma-buf/dma-resv.c:355-447 | From every state of a reader, an iteration that nobody disturbs ends and returns exactly the entries of the table that the query sees and that have not signalled, in order; if there are none, what it had collected before stays |
| `ResvResult.CollectedWasVisible` | drivers/dma-buf/dma-resv.c:380-395 | In every run, whatever writers do, each fence collected is of a usage that the query asks for, stood in a table and had not signalled at some states of the run |
| `ResvResult.AllSignaledMeansNothingCollected` | drivers/dma-buf/dma-resv.c:696-709 | The other half of test_signaled: if everything the query can see has signalled before the iteration, nothing is found |
| `ResvResult.PassWasVisible` | drivers/dma-buf/dma-resv.c:556-592 | In a pass that has collected something all that was collected was visible since its restart; one that has not keeps what there was, or has begun to drop it |
| `ResvResult.LastPassIsAll` | drivers/dma-buf/dma-resv.c:556-592 | At the end the restart mark tells: if it has been cleared everything returned was visible since the last restart; if not, exactly what was there before that restart is returned |
| `ResvResult.OldFencesAreKept` | drivers/dma-buf/dma-resv.c:566-592 | The run of the second case, for any entry and query: the fence returned had signalled before the last restart |
| `Fixed.RoundedQuotientIsNearest` | include/drm/drm_fixed.h:149-186 | The rounded quotient is at most half a unit off and no integer is closer |
| `Fixed.HalvesRoundUp` | include/drm/drm_fixed.h:175-186 | Halves round up |
| `Fixed.LongDivision` | include/drm/drm_fixed.h:159-175 | The bit loop finds quotient and remainder of a * 2^32 by b, the quotient modulo 2^64, for all magnitudes up to 2^63 |
| `Fixed.RoundsByRemainder` | include/drm/drm_fixed.h:177-182 | Looking at twice the remainder rounds it |
| `Fixed.FromFraction` | include/drm/drm_fixed.h:149-186 | For all arguments the result is the exactly rounded a * 2^32 / b as far as an s64 holds it |
| `Fixed.FractionIsNearestIffItFits` | include/drm/drm_fixed.h:149-186 | It is the nearest 31.32 value if and only if that value fits |
| `FixedMul.Msbset` | include/drm/drm_fixed.h:97-106 | Finds the highest bit that differs from the sign |
| `FixedMul.MsbSpans` | include/drm/drm_fixed.h:97-106 | Which is the least m such that the value lies within 2^(m+1) of zero |
| `FixedMul.Mul` | include/drm/drm_fixed.h:108-129 | Unless a step wraps, the result is off by less than one unit and what the two shifts cut off, in either direction, for all signs |
| `FixedMul.IntermediateFits` | include/drm/drm_fixed.h:110-120 | The intermediate product fits an s64 exactly unless both shifted operands are the least value their bits allow |
| `FixedMul.IntermediateFitsUnlessBothNegative` | include/drm/drm_fixed.h:110-120 | It fits whenever at most one operand is negative |
| `FixedMul.NegativeProductCanWrap` | include/drm/drm_fixed.h:110-120 | (-1.0) * (-0.5) gives -0.5 |
| `FixedMul.ProductIsClose` | include/drm/drm_fixed.h:108-129 | That bound, for all operands of which no step wraps |
| `FixedMul.CloseIffNothingWraps` | include/drm/drm_fixed.h:108-129 | For all s64 operands the result is that close if and only if no step wraps |
| `FixedMul.WrappedProductIsNotClose` | include/drm/drm_fixed.h:110-129 | If one wraps, the result is further off |
| `FixedMul.FitsIfExactDoes` | include/drm/drm_fixed.h:110-129 | None wraps for operands that are not negative if the exact product fits, nor for different signs if it does by the margin of the shifts |
| `FixedDiv.Div` | include/drm/drm_fixed.h:131-147 | For all operands: undefined exactly if the shifted divisor is zero or the quotient overflows, which for a positive divisor is exactly if it keeps no bit; otherwise the quotient has the right sign and the magnitude rounded down, but for the bits cut off from the divisor, or rounded up if it is negative and shifted down |
| `FixedDiv.QuotientIsClose` | include/drm/drm_fixed.h:131-147 | That bound, by cross multiplication, for all operands for which it is defined |
| `FixedExp.Exp` | include/drm/drm_fixed.h:188-209 | For every s64: a value exactly if no sum or product of the loop overflows; it is the sum of the terms up to the first below the tolerance, at most the same number of exact terms and less by no more than the steps cut off; for a negative argument the reciprocal of that; 1.0 for the least s64, whose magnitude wraps; always a value from -1.0 to 1.0, and from zero to 1.0 within about two millionths of the exponential |
| `FixedExp.Series` | include/drm/drm_fixed.h:190-206 | The loop ends for every argument, and stops early exactly if a sum or product overflows |
| `ExpSeries.NextTerm` | include/drm/drm_fixed.h:201-205 | Each term is at most its exact value and at some point at most half the one before |
| `ExpSeries.ToleranceIsOneMillionth` | include/drm/drm_fixed.h:190 | The tolerance is the largest value not above a millionth |
| `ExpSeries.TermIsClose` | include/drm/drm_fixed.h:201-205 | A term is below its exact value by no more than what quotients and products have cut off, carried on by the series |
| `ExpSeries.TermsAreClose` | include/drm/drm_fixed.h:201-205 | So is the sum |
| `ExpSeries.AtMostNine` | include/drm/drm_fixed.h:201-205 | Up to 1.0 at most nine terms reach the tolerance |
| `ExpSeries.SumIsAccurate` | include/drm/drm_fixed.h:188-209 | Up to 1.0 the sum is less than 9000 units of 2^-32 below every partial sum of nine or more exact terms, and above none |
| `FixedExp.Div2012` | include/drm/drm_fixed.h:69-77 | The 20.12 quotient is the exact one rounded to nearest, in 32 bits |
| `FixedExp.HalvedQuotient` | include/drm/drm_fixed.h:71-75 | Computing one bit more and halving rounds to nearest |
| `FixedExp.Div2012UndoesMul2012` | include/drm/drm_fixed.h:41-77 | Dividing a rounded product by an operand above one gives the other operand back |
| `Infoframes.AviRoundTrip` | drivers/video/hdmi.c:110-181 | Unpacking a packed payload gives it back exactly if every field is within its bits |
| `Infoframes.CopyKeepsPadded` | drivers/video/hdmi.c:222-240 | A string field survives exactly if it is padded with NULs |
| `Infoframes.SpdRoundTrip` | drivers/video/hdmi.c:281-319 | The source product description comes back exactly if both strings are padded |
| `Infoframes.AudioRoundTrip` | drivers/video/hdmi.c:392-411 | All audio fields but the channels come back; those come back one less |
| `Infoframes.VendorRoundTrip` | drivers/video/hdmi.c:611-659 | Vendor payloads come back exactly if they fit and unused fields are zero |
| `Infoframes.DrmRoundTrip` | drivers/video/hdmi.c:755-814 | Dynamic range payloads come back exactly if the two 3-bit fields fit |
| `Hdmi.ComputeChecksum` | drivers/video/hdmi.c:35-45 | The byte that makes all bytes sum to zero |
| `Hdmi.SealedSumsToZero` | drivers/video/hdmi.c:47-52 | With it in the header they do |
| `Hdmi.ImageParts` | drivers/video/hdmi.c:110-181 | What packing leaves in the buffer is accepted by the header and checksum tests of unpacking |
| `Hdmi.RoundTrip` | drivers/video/hdmi.c:1596-1955 | For every frame that passes its check and every buffer long enough, unpacking what was packed gives the frame back if and only if its fields fit |
| `Hdmi.InfoframeCheck` | drivers/video/hdmi.c:906-922 | Accepts exactly what packing accepts, except dynamic range frames, which it always refuses; derives the length of vendor frames |
| `Hdmi.SpdStringsEndInside` | drivers/video/hdmi.c:1678-1684 | The two strlen calls of unpacking stay inside the buffer if and only if there is a NUL at or behind the start of the second string |
| `Hdmi.PackedSpdEndsInside` | drivers/video/hdmi.c:1660-1684 | Of packed buffers, all accepted, those for which they do: longer than the frame, or a NUL in the product or the device byte |
| `Hdmi.SpdReadsBeyond` | drivers/video/hdmi.c:1660-1684 | An accepted buffer for which they do not |
| `Hdmi.AudioLosesAChannel` | drivers/video/hdmi.c:1702-1735 | An audio frame of up to eight channels comes back with one less |
| `Hdmi.OneWrongByteIsRejected` | drivers/video/hdmi.c:1596-1955 | Any buffer that is accepted is rejected after one byte of checksum or payload has changed |
| `HdmiWire.HeaderIsChecked` | drivers/video/hdmi.c:68-79 | The versions, lengths and fields that packing accepts, in numbers, for each kind of frame |
| `HdmiWire.AviOnTheWire` | drivers/video/hdmi.c:110-181 | A packed AVI frame: type 0x82, version 2, 13 bytes, and each field at its byte and bits, the bars with the low byte first |
| `HdmiWire.SpdOnTheWire` | drivers/video/hdmi.c:281-319 | The same for source product descriptions, type 0x83 |
| `HdmiWire.AudioOnTheWire` | drivers/video/hdmi.c:391-411 | The same for audio frames, type 0x84 |
| `HdmiWire.VendorOnTheWire` | drivers/video/hdmi.c:611-659 | The same for vendor frames, type 0x81, with the identifier 0x000c03 |
| `HdmiWire.DrmOnTheWire` | drivers/video/hdmi.c:755-814 | The same for dynamic range frames, type 0x87 |
| `HdmiWire.AcceptedIff` | drivers/video/hdmi.c:1596-1955 | The header and checksum tests of unpacking, in numbers |
| `HdmiWire.AviFromTheWire` | drivers/video/hdmi.c:1596-1645 | Any accepted AVI buffer is read from those bytes and bits, and the bars only if the frame says that they are there |
| `HdmiWire.SpdFromTheWire` | drivers/video/hdmi.c:1660-1687 | So are the strings, up to their NUL, and the device byte |
| `HdmiWire.AudioFromTheWire` | drivers/video/hdmi.c:1702-1735 | So are audio fields |
| `HdmiWire.VendorFromTheWire` | drivers/video/hdmi.c:1752-1830 | A vendor buffer is refused exactly unless identifier, length and format agree, and read from its bytes otherwise |
| `HdmiWire.DrmFromTheWire` | drivers/video/hdmi.c:1833-1908 | Dynamic range fields are read from theirs |
| `HdmiBuffers.WriteAvi` | drivers/video/hdmi.c:136-176 | The payload as it is written into the buffer, byte by byte, and nothing else |
| `HdmiBuffers.WriteVendor` | drivers/video/hdmi.c:637-654 | The same for vendor frames |
| `HdmiBuffers.WriteDrm` | drivers/video/hdmi.c:777-809 | The same for dynamic range frames |
| `HdmiBuffers.WriteAudio` | drivers/video/hdmi.c:391-411 | The same for audio frames |
| `HdmiBuffers.WriteSpd` | drivers/video/hdmi.c:308-314 | The same for source product descriptions |
| `HdmiBuffers.Pack` | drivers/video/hdmi.c:991-1020 | Fails for invalid frames and short buffers without touching the buffer; otherwise the whole buffer is the sealed frame and zeros |
| `HdmiBuffers.Unpack` | drivers/video/hdmi.c:1923-1955 | The frame in the buffer, if its size, header, checksum and contents are right |
| `Aperture.OverlapFinds` | drivers/video/aperture.c:144-148 | The test holds exactly if two ranges of addresses share one and neither ends at 2^64 |
| `Aperture.OverlapIsExactIff` | drivers/video/aperture.c:144-148 | It is right for a range, against itself and all that end below 2^64, if and only if the range ends below 2^64 |
| `Aperture.DisjointIsExclusive` | drivers/video/aperture.c:171-178 | So listed ranges that the test finds apart share no address, unless one of them ends at 2^64 |
| `Aperture.TwoOwnersOfTheTop` | drivers/video/aperture.c:163-198 | The run in which two devices acquire the same addresses up to 2^64, for any size |
| `Aperture.Registry.Release` | drivers/video/aperture.c:150-161 | Returns at once for a detached range; otherwise takes the lock and removes it from the list |
| `Aperture.Registry.Acquire` | drivers/video/aperture.c:163-198 | Succeeds exactly if the test finds no listed range and memory is there, which among ranges that end below 2^64 is exactly if none of them shares an address; no two listed ranges then share one unless one of them ends at 2^64 |
| `Aperture.Registry.DeviceGoes` | drivers/video/aperture.c:150-161 | The releases that a device runs when it goes: under the lock they block exactly if one of its ranges is still attached |
| `Aperture.Registry.DetachDevices` | drivers/video/aperture.c:247-271 | Blocks exactly if a device with an overlapping range owns another one; otherwise nothing is removed twice, all other ranges are as before, the listed ones share no address with each other and, among those that end below 2^64, none with the addresses detached |
| `Aperture.DetachOfTwoBlocks` | drivers/video/aperture.c:247-271 | The run that blocks: a device acquires any two ranges that share nothing and is detached from one of them |
| `Aperture.Registry.Unregister` | drivers/video/aperture.c:150-161 | A device that goes on its own leaves the other ranges listed, sharing no address unless one ends at 2^64 |
| `Aperture.MeetsIfCrowded` | drivers/video/aperture.c:262-267 | Whom the nested release meets |
| `Aperture.DetachStepRanges` | drivers/video/aperture.c:259-267 | What one turn of the loop does to the ranges |
| `Aperture.DetachEnds` | drivers/video/aperture.c:254-268 | What is left after the last turn |
| `Aperture.GoneKeeps` | drivers/video/aperture.c:150-161 | The remaining ranges stay disjoint |
| `DmaBuf.Attachment.Attach` | drivers/dma-buf/dma-buf.c:266-326 | Either a balanced attachment, or nothing is left; except that a failed pin leaves it on the list |
| `DmaBuf.Attachment.Detach` | drivers/dma-buf/dma-buf.c:334-359 | Takes back exactly what the attachment keeps |
| `DmaBuf.Attachment.Map` | drivers/dma-buf/dma-buf.c:475-520 | Pins and exporter mappings stay one if a table is kept, and equal to the outstanding tables if not, exactly unless the exporter answers NULL after a pin; a table that is kept is kept with its direction and answers later maps of that direction, or of any if it is bidirectional |
| `DmaBuf.Attachment.MapTwice` | drivers/dma-buf/dma-buf.c:488-500 | Two maps in a row by a caching exporter: the second gets the first one's table in the same direction, or in any after a bidirectional one, and an error otherwise |
| `DmaBuf.Attachment.Unmap` | drivers/dma-buf/dma-buf.c:522-547 | Keeps that balance |
| `DmaBuf.Attachment.DetachAfterUnmaps` | drivers/dma-buf/dma-buf.c:334-359 | After matched unmaps pins and mappings reach zero |
| `DmaBuf.KernelMap.Vmap` | drivers/dma-buf/dma-buf.c:562-597 | The first user gets the exporter's answer, all others that same one mapping, and users are counted |
| `DmaBuf.KernelMap.Vunmap` | drivers/dma-buf/dma-buf.c:600-616 | It is undone with the last of them |

## Left out

- FenceMerge.Merge: says nothing of leaves behind an empty array that ends an iteration, which the code does not get to.
- FenceUnwrap.Signals.IsSignaled: the `signaled` operation that sets the bit in the same call is not told apart from a signal by another thread.
- FenceUnwrap.UnwrapFirst: the reference taken on the head is left out here, like those in `UnwrapNext` and `ChainWalk`; `ChainWalk` and `ChainRuns` have the references of the walk.
- FenceUnwrap.UnwrapNext: the references are left out, as in `UnwrapFirst`.
- FenceUnwrap.ChainWalk: references and the prev pointers are left out; the chain is a value in which members are passed over; that trimming under other threads leaves the same unsignaled members is `ChainRuns.TrimmingIsSound`.
- ChainRelease.Heap.Put: one thread; the release under other threads is in `ChainWalk`. Fences that are not chains point to nothing here, so the release of an array inside a chain is one step.
- ChainWalk: the two stores of the splice in `dma_fence_chain_release` are one step; both nodes are out of reach of other threads' counted references by then (`ChainHeap.SoleOwner`).
- ChainWalk: a lookup that returns at once, for request 0, a head that is not a chain or one older than the request, reads nothing that others change and is not an action of the machine.
- ChainProgress.QuietLookup: only that the lookup ends; what it has found is `ChainRuns.LookupIsRight`.
- ChainSignal: the chain is a row of contained fences that only signal; the nodes' own references are those of `ChainWalk`. What the interrupt work layer does with its own memory is not modelled.
- ArrayProtocol: two slots with the same child are two children that signal separately.
- ResvIter: `obj->fences` does not go back to NULL once it is set (only `dma_resv_copy_fences` from an object without fences does that); a table or fence that the reader still uses is not reused for another one.
- ResvIter.PassCovers: about entries that writers add or replace as `dma_resv_add_fence` does; `dma_resv_replace_fences` during a pass puts a fence of another context in the slot, which `ResvIter.PassCollects` allows for by naming the wanted entries. What a restarted pass that finds nothing returns is in `ResvResult.LastPassIsAll`.
- Resv.Object.Reserve: `ksize` may be any size from the one requested on; `roundup_pow_of_two` is as documented for Linux, undefined at zero.
- FenceCallbacks: one fence; what callbacks do is their record in the log. Timestamps and errors are left out.
- FixedExp.Exp: above 1.0 the sum is compared with the same number of exact terms, not with the rest of the series.
- Hdmi.Decode: frames are values; unpacking returns one instead of filling the caller's. Of a string field without NUL the length is that up to the end of the buffer, which makes no difference to what is copied. Enumerations are bytes.
- Aperture.Registry.DetachDevices: the list is walked as it was at the start; a device may do nothing else in its removal than release its own ranges.
- DmaBuf.Attachment.Unmap: for tables that the importer holds; the exporter is its counts, and gives a new table for each mapping.
- `dma_fence_wait*`, `dma_resv_wait_timeout` and other sleeping; `dma_resv_get_singleton`, which wraps the result of `dma_resv_get_fences` in an array; the locked iterator, `dma_resv_describe`, `dma_resv_lockdep`.
- `dma_fence_get_stub`, `dma_fence_context_alloc`, errors and timestamps of fences.
- `drivers/dma-buf/sync_file.c`, the file, ioctl, mmap and seek paths of `drivers/dma-buf/dma-buf.c`, `*_log` and `*_get_name` in `drivers/video/hdmi.c`, the DisplayPort packing of audio frames.
