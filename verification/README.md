# Android Binder, modelled and verified

This project models the Android Binder driver, the parcel class that feeds it, and two smaller algorithms of the same
repository, and proves what they are meant to guarantee. Everything is Dafny; `dafny verify dfyconfig.toml` checks it.

**The buffer allocator** (`Words`, `SizeTree`, `BufferList`, `PageMemory`, `PageRange`, `PagedCopy`, `Allocator`,
`AllocTrees`, `AllocSteps`, `BinderAlloc`). One mapped region per process is carved into buffers. The object
`BinderAlloc.Alloc` has the ordered buffer list, the tree of free buffers keyed by sizes that are computed from list
neighbours, the tree of allocated buffers keyed by address, the page array and the async budget, and changes them in
place. Its invariant: the buffers tile the region, no two neighbours are free, the trees hold the free and the allocated
buffers in order, an allocated buffer is exactly its padded request, a page is in use exactly when an allocated buffer
overlaps it, and the budget adds up. Every operation keeps it, failed ones included. What an operation does to the allocated
buffers is said on their set (`BufferList.Live`), fields and all, apart from how the list is spliced.

**Synchronous calls** (`CallStack`, `CallSteps`, `CallEnds`, `CallStable`, `CallDriver`). A state machine over threads, their
transaction stacks and todo lists. Each region under a lock is one step, a method of `CallDriver.Driver` without an
environment. An operation that spans several regions takes an environment, which is any sequence of regions of other threads
and workers before each of its own, and its contract holds for all of them: `CallStable` proves step by step that others
do not disturb what an operation carries from one region to the next, `CallDriver.Driver.Others` that any sequence of steps does
not and what it does instead (`CallDriver.Effects`, region by region),
and `CallDriver.Driver.SendFailedReply` and the operations around it are proved on top of that. For a quiet environment they say the
exact state. `bug` records every BUG_ON and cannot-happen branch and stays false. A ghost history records how each call
ended: each call gets at most one outcome, and no operation changes one that was given (`HistoryKept`).

**Nodes and references** (`NodeRefs`, `ObjectRefs`, `Conservation`, `TableSteps`, `NodeTold`, `RefTable`). Counts of nodes and of the
references that processes hold, and the translation and release of the objects in a transaction. The object
`RefTable.NodeTable` has the nodes, the references, the context manager, the buffers of all transactions under way or
delivered, and the set of dying processes. Its invariant says that every buffer's claims on node counts are covered, whatever
other transactions, commands and deaths do in between, and (`NodeTold`) that no owner stays untold: as long as others hold a
node its owner knows or work that tells it is queued, and so when they let go. Every step keeps it. A node goes only when no
count of it is left.

**Buffers inside transactions** (`ScatterGather`, `Fixups`). The size contract between `ipcBufferSize` and the driver, and
the order check on pointers and descriptors patched into buffers.

**One-way calls** (`OneWay`), **death notifications** (`Death`): one process each, over any interleaving of their steps.

**Parcels** (`ParcelCodec`, `ParcelData`, `ParcelObjects`): the growable byte buffer, the typed readers and writers, the
object table with its search hint and its incremental cache.

**The two sieves** (`Numbers`, `Sieve`) and **AVL insertion** (`AvlModel` on values, `AvlTree` on linked nodes).

Where a lemma only reads a conjunct of an invariant back, the content is in the lemmas and methods that keep the invariant:
`AllocSteps.BudgetExact` rests on `BinderAlloc.Alloc.NewBuf`, `FreeBufLocked` and `MmapHandler`, `CallStack.LiveOrEnded` on
the `Inv` lemmas of `CallSteps` and `CallEnds`, `OneWay.Serial` on `SendInv`, `DequeueInv`, `SetPlaceInv` and `FreeInv`, and
`Death.AttachedListed`, `UnlistedWhileAlive`, `DetachedKinds` and `OnThreadIsClear` on the `Inv` lemmas of `Death`.

Results where the code does not do what one would expect, each with its exact condition:

- An accepted async request of size 0 is charged 8 bytes more than it is refunded, and can take the async budget below
  zero, where it wraps (`Allocator.AsyncWrapIff`, `AllocSteps.AsyncRoundTrip`, `AllocSteps.BudgetExact`).
- A node's one-way mark can stay set with nothing queued or delivered: a thread that dies with a one-way call on its list
  drops the call without freeing its buffer (`OneWay.MarkExact`, `OneWay.MarkCanStick`, `OneWay.ReleaseBreaksIff`,
  `OneWay.DeliverBreaksIff`).
- A buffer object at data offset 0 can never be a patched parent, because offset 0 stands for "no buffer object yet"
  (`Fixups.RefusedIff`).
- Forwarding a weak handle can be refused, and then leaves a reference with zero counts (`ObjectRefs.WeakForwardIff`).
- A node whose owner dies between the start of a send to it and the release of that send's buffer ends with a local strong
  count of -1 and is never freed (`TableSteps.TargetStep`, `TableSteps.OverdrawnForever`, `RefTable.OverdrawnNode`).
- `Parcel::write` can report success without having written (`ParcelData.Parcel.Write`, `ParcelData.SilentRefusal`).
- A write from a position far beyond the data is retried after growth although growth made too little room, or at a position
  that growth moved (`ParcelData.GrowthLeavesRoom`, `ParcelData.GrowthFallsShort`, `ParcelData.StrayWrite`).
- Overwriting an object in place can leave the cache of buffer objects stale (`ParcelObjects.ObjectTable.WriteObject`,
  `ParcelObjects.StaleCache`).
- The comment in `binder_alloc_do_buffer_copy` asks for sizes that are multiples of 4; the code only checks the offset. The
  model follows the code.
- `ipcBufferSize` counts a length so large that rounding wraps as nothing (`ScatterGather.AnnouncedSuffices` says when the
  announced size suffices).

## Model

| member | source | states |
|---|---|---|
| Words.PackedSizeExact | Operating_System/Android_Develop/Concise_Analysis_of_the_Android_Framework_Kernel/Chapter_1_In-depth_Analysis_of_Binder/binder_alloc.c:402-417 | the two wrap tests accept a request exactly when the three sizes, each rounded up to 8 and added without bound, fit in a machine word, and the accepted size is that sum |
| SizeTree.InsertOrdered | Operating_System/Android_Develop/Concise_Analysis_of_the_Android_Framework_Kernel/Chapter_1_In-depth_Analysis_of_Binder/binder_alloc.c:68-99 | the descent by size, ties to the right, adds one address and keeps the tree sorted with every member once |
| SizeTree.EraseOrdered | Operating_System/Android_Develop/Concise_Analysis_of_the_Android_Framework_Kernel/Chapter_1_In-depth_Analysis_of_Binder/binder_alloc.c:516-516 | erasing an address removes exactly that member and keeps the order |
| SizeTree.BestFitSmallest | Operating_System/Android_Develop/Concise_Analysis_of_the_Android_Framework_Kernel/Chapter_1_In-depth_Analysis_of_Binder/binder_alloc.c:429-443 | what the descent guarantees about its pick means that no free buffer with room is smaller |
| AllocSteps.BestFitSearch | Operating_System/Android_Develop/Concise_Analysis_of_the_Android_Framework_Kernel/Chapter_1_In-depth_Analysis_of_Binder/binder_alloc.c:429-443 | the descent finds nothing exactly when every free buffer is too small, and otherwise a best fit |
| SizeTree.StaleKeySorted | Operating_System/Android_Develop/Concise_Analysis_of_the_Android_Framework_Kernel/Chapter_1_In-depth_Analysis_of_Binder/binder_alloc.c:501-514 | shrinking the chosen node's computed size while it is still in the tree leaves the tree sorted |
| SizeTree.StaleKeySplit | Operating_System/Android_Develop/Concise_Analysis_of_the_Android_Framework_Kernel/Chapter_1_In-depth_Analysis_of_Binder/binder_alloc.c:501-516 | inserting the remainder into the tree with the stale node and then erasing that node gives the sorted tree of exactly the free buffers that are left |
| AllocTrees.BestIsChosen | Operating_System/Android_Develop/Concise_Analysis_of_the_Android_Framework_Kernel/Chapter_1_In-depth_Analysis_of_Binder/binder_alloc.c:429-443 | the best fit of the tree is a smallest free buffer of the list that fits |
| AllocTrees.FreeTreeSplit | Operating_System/Android_Develop/Concise_Analysis_of_the_Android_Framework_Kernel/Chapter_1_In-depth_Analysis_of_Binder/binder_alloc.c:501-516 | on the buffer list: after a split the free tree again holds exactly the free buffers in size order |
| AllocTrees.FreeTreeReleased | Operating_System/Android_Develop/Concise_Analysis_of_the_Android_Framework_Kernel/Chapter_1_In-depth_Analysis_of_Binder/binder_alloc.c:677-696 | after a coalescing free, with neighbours leaving and the merged buffer joining, the free tree again holds exactly the free buffers in size order |
| AllocTrees.AllocTreeReleased | Operating_System/Android_Develop/Concise_Analysis_of_the_Android_Framework_Kernel/Chapter_1_In-depth_Analysis_of_Binder/binder_alloc.c:677-677 | the tree of allocated buffers loses exactly the freed one |
| BufferList.CarveTiles | Operating_System/Android_Develop/Concise_Analysis_of_the_Android_Framework_Kernel/Chapter_1_In-depth_Analysis_of_Binder/binder_alloc.c:501-519 | an allocation keeps the buffers tiling the region without gap or overlap, and no two free buffers are neighbours |
| BufferList.CarveSizeChosen | Operating_System/Android_Develop/Concise_Analysis_of_the_Android_Framework_Kernel/Chapter_1_In-depth_Analysis_of_Binder/binder_alloc.c:501-514 | the chosen buffer ends up exactly as large as the padded request and the new free buffer gets the rest |
| BufferList.CarveUses | Operating_System/Android_Develop/Concise_Analysis_of_the_Android_Framework_Kernel/Chapter_1_In-depth_Analysis_of_Binder/binder_alloc.c:489-499 | the page range an allocation takes holds only unused pages, and afterwards a page is overlapped by an allocated buffer exactly if it was before or was taken |
| BufferList.CarveLive | Operating_System/Android_Develop/Concise_Analysis_of_the_Android_Framework_Kernel/Chapter_1_In-depth_Analysis_of_Binder/binder_alloc.c:518-526 | an allocation adds to the allocated buffers exactly one, at the chosen address with the request's sizes and flags, and neither moves nor alters another |
| BufferList.ReleasedNoPair | Operating_System/Android_Develop/Concise_Analysis_of_the_Android_Framework_Kernel/Chapter_1_In-depth_Analysis_of_Binder/binder_alloc.c:679-696 | coalescing leaves no two free neighbours |
| BufferList.ReleasedTiles | Operating_System/Android_Develop/Concise_Analysis_of_the_Android_Framework_Kernel/Chapter_1_In-depth_Analysis_of_Binder/binder_alloc.c:679-696 | the list tiles the region after the freed buffer absorbed its free successor, and again after it was absorbed by its free predecessor |
| BufferList.ReleasedUses | Operating_System/Android_Develop/Concise_Analysis_of_the_Android_Framework_Kernel/Chapter_1_In-depth_Analysis_of_Binder/binder_alloc.c:672-696 | after a free a page is overlapped by an allocated buffer exactly if another allocated buffer overlapped it |
| BufferList.ReleasedLive | Operating_System/Android_Develop/Concise_Analysis_of_the_Android_Framework_Kernel/Chapter_1_In-depth_Analysis_of_Binder/binder_alloc.c:672-696 | a coalescing free takes exactly the freed buffer out of the allocated ones, and neither moves nor alters another |
| BufferList.GivenExact | Operating_System/Android_Develop/Concise_Analysis_of_the_Android_Framework_Kernel/Chapter_1_In-depth_Analysis_of_Binder/binder_alloc.c:594-675 | the three page moves of a free (the inner pages and the two boundary pages decided by neighbour and alignment tests) give back exactly the pages that only the freed buffer used |
| AllocSteps.MovesAreGiven | Operating_System/Android_Develop/Concise_Analysis_of_the_Android_Framework_Kernel/Chapter_1_In-depth_Analysis_of_Binder/binder_alloc.c:630-675 | these three moves never give the same page back twice |
| PageRange.GiveRange | Operating_System/Android_Develop/Concise_Analysis_of_the_Android_Framework_Kernel/Chapter_1_In-depth_Analysis_of_Binder/binder_alloc.c:278-295 | pages in use are put on the LRU list, no others change, and the WARN_ON does not fire |
| PageRange.TakeRange | Operating_System/Android_Develop/Concise_Analysis_of_the_Android_Framework_Kernel/Chapter_1_In-depth_Analysis_of_Binder/binder_alloc.c:196-310 | a page range is taken completely, or fails exactly when an absent page cannot be backed, and then every page taken on the way is idle again; neither WARN_ON fires |
| AllocSteps.ReservePages | Operating_System/Android_Develop/Concise_Analysis_of_the_Android_Framework_Kernel/Chapter_1_In-depth_Analysis_of_Binder/binder_alloc.c:489-508 | with the struct allocation failing after the pages were taken included: on success the carved list's page accounting holds, on failure the old one |
| Allocator.FreeExtentIsOneBuffer | Operating_System/Android_Develop/Concise_Analysis_of_the_Android_Framework_Kernel/Chapter_1_In-depth_Analysis_of_Binder/binder_alloc.c:444-479 | a contiguous run of n free bytes exists exactly when one single free buffer has n bytes, so the ENOSPC of the search means that there is no such run |
| Allocator.ChargesCarve | Operating_System/Android_Develop/Concise_Analysis_of_the_Android_Framework_Kernel/Chapter_1_In-depth_Analysis_of_Binder/binder_alloc.c:528-529 | an async allocation adds its padded request and the bookkeeping unit to what live async buffers hold |
| Allocator.ChargesReleased | Operating_System/Android_Develop/Concise_Analysis_of_the_Android_Framework_Kernel/Chapter_1_In-depth_Analysis_of_Binder/binder_alloc.c:664-665 | a free takes away the charge of that buffer and of no other |
| Allocator.AsyncWrapIff | Operating_System/Android_Develop/Concise_Analysis_of_the_Android_Framework_Kernel/Chapter_1_In-depth_Analysis_of_Binder/binder_alloc.c:418-427 | the budget test comes before the padding: an accepted request takes the budget below zero (and it wraps) exactly when the request is empty and the padding is not covered |
| Allocator.AsyncWrapHappens | Operating_System/Android_Develop/Concise_Analysis_of_the_Android_Framework_Kernel/Chapter_1_In-depth_Analysis_of_Binder/binder_alloc.c:418-529 | a budget of one bookkeeping unit and an empty async request is such a case |
| AllocSteps.AsyncRoundTrip | Operating_System/Android_Develop/Concise_Analysis_of_the_Android_Framework_Kernel/Chapter_1_In-depth_Analysis_of_Binder/binder_alloc.c:528-665 | allocating and freeing an async buffer restores the budget exactly when the request is not empty |
| AllocSteps.BudgetExact | Operating_System/Android_Develop/Concise_Analysis_of_the_Android_Framework_Kernel/Chapter_1_In-depth_Analysis_of_Binder/binder_alloc.c:528-665 | in every state that satisfies the invariant, and so in every reachable one: free budget plus charges of live async buffers is half the region, exactly when 8-byte losses of empty requests and wraps cancel; always so if no empty async request was made, and then the budget is never below zero |
| PagedCopy.CopyLoop | Operating_System/Android_Develop/Concise_Analysis_of_the_Android_Framework_Kernel/Chapter_1_In-depth_Analysis_of_Binder/binder_alloc.c:1241-1268 | the page by page copy ends, and is one splice of, or one slice from, the flat memory; only pages under the range change, and only their contents |
| PagedCopy.ClearLoop | Operating_System/Android_Develop/Concise_Analysis_of_the_Android_Framework_Kernel/Chapter_1_In-depth_Analysis_of_Binder/binder_alloc.c:1166-1184 | the page by page memset is one splice of zeroes |
| PageMemory.ChunkSplices | Operating_System/Android_Develop/Concise_Analysis_of_the_Android_Framework_Kernel/Chapter_1_In-depth_Analysis_of_Binder/binder_alloc.c:1248-1256 | writing at an offset of one page is a splice of the flat memory at the address of that offset |
| PageMemory.ReadOverWrite | Operating_System/Android_Develop/Concise_Analysis_of_the_Android_Framework_Kernel/Chapter_1_In-depth_Analysis_of_Binder/binder_alloc.c:1253-1256 | reading a range that was written returns what was written, reading elsewhere is unaffected |
| AllocSteps.WrittenThenRead | Operating_System/Android_Develop/Concise_Analysis_of_the_Android_Framework_Kernel/Chapter_1_In-depth_Analysis_of_Binder/binder_alloc.c:1230-1288 | what was copied into a buffer is what is copied out of it again |
| AllocSteps.ContentFrame | Operating_System/Android_Develop/Concise_Analysis_of_the_Android_Framework_Kernel/Chapter_1_In-depth_Analysis_of_Binder/binder_alloc.c:181-310 | contents of an allocated buffer depend only on pages in use, so allocating, freeing and reclaiming elsewhere cannot change them |
| AllocSteps.FindAllocated | Operating_System/Android_Develop/Concise_Analysis_of_the_Android_Framework_Kernel/Chapter_1_In-depth_Analysis_of_Binder/binder_alloc.c:126-157 | the descent by address finds a buffer exactly when one of the allocated buffers starts there |
| AllocSteps.AllFree | Operating_System/Android_Develop/Concise_Analysis_of_the_Android_Framework_Kernel/Chapter_1_In-depth_Analysis_of_Binder/binder_alloc.c:813-825 | with nothing allocated a single free buffer is left and, if no empty async request was made, the whole budget |
| BinderAlloc.Alloc.MmapHandler | Operating_System/Android_Develop/Concise_Analysis_of_the_Android_Framework_Kernel/Chapter_1_In-depth_Analysis_of_Binder/binder_alloc.c:741-800 | one free buffer, of address 0, covers the region of at most 4 MB, half of it is async budget, and no page is present; EBUSY and ENOMEM without effect otherwise |
| BinderAlloc.Alloc.NewBuf | Operating_System/Android_Develop/Concise_Analysis_of_the_Android_Framework_Kernel/Chapter_1_In-depth_Analysis_of_Binder/binder_alloc.c:378-549 | refusals in order, each with its exact condition and error; on success the buffer at the returned address holds exactly the request, is not free and may not be freed by user space yet; every other allocated buffer is there unchanged, with all its fields, and there is no other; every other state is as it was; pages are in use exactly if an allocated buffer overlaps them |
| BinderAlloc.Alloc.NewBufThenFree | Operating_System/Android_Develop/Concise_Analysis_of_the_Android_Framework_Kernel/Chapter_1_In-depth_Analysis_of_Binder/binder_alloc.c:126-157 | a free that user space asks for right after an allocation, before the buffer was delivered, is refused with EPERM |
| BinderAlloc.Alloc.DeleteFreeBuffer | Operating_System/Android_Develop/Concise_Analysis_of_the_Android_Framework_Kernel/Chapter_1_In-depth_Analysis_of_Binder/binder_alloc.c:594-641 | the list loses one free buffer, and the page of its start is parked exactly when neither neighbour needs it |
| BinderAlloc.Alloc.MergeFreed | Operating_System/Android_Develop/Concise_Analysis_of_the_Android_Framework_Kernel/Chapter_1_In-depth_Analysis_of_Binder/binder_alloc.c:678-695 | merging with free neighbours, tree updates and the two boundary pages |
| BinderAlloc.Alloc.FreeBufLocked | Operating_System/Android_Develop/Concise_Analysis_of_the_Android_Framework_Kernel/Chapter_1_In-depth_Analysis_of_Binder/binder_alloc.c:643-697 | exactly the freed buffer leaves the allocated ones and every other is there with all its fields; the list is the coalesced one, the budget is refunded, the object's invariant (tiling, trees, pages, budget) holds and no BUG_ON on size or address fires |
| BinderAlloc.Alloc.PrepareToFree | Operating_System/Android_Develop/Concise_Analysis_of_the_Android_Framework_Kernel/Chapter_1_In-depth_Analysis_of_Binder/binder_alloc.c:126-157 | not found, refused and handed over are told apart exactly; a buffer is handed to user space's free request once |
| BinderAlloc.Alloc.DoBufferCopy | Operating_System/Android_Develop/Concise_Analysis_of_the_Android_Framework_Kernel/Chapter_1_In-depth_Analysis_of_Binder/binder_alloc.c:1108-1268 | carried out exactly if the range lies in the buffer, the offset is a multiple of 4, and the buffer is neither free nor one that user space may free while a transaction is attached to it; refused without effect otherwise; a write is a splice of that buffer's contents and leaves every other buffer's contents alone; a read returns a slice |
| BinderAlloc.Alloc.ClearBuf | Operating_System/Android_Develop/Concise_Analysis_of_the_Android_Framework_Kernel/Chapter_1_In-depth_Analysis_of_Binder/binder_alloc.c:1163-1184 | the buffer holds zeroes afterwards and no other buffer changes |
| BinderAlloc.Alloc.FreeBuf | Operating_System/Android_Develop/Concise_Analysis_of_the_Android_Framework_Kernel/Chapter_1_In-depth_Analysis_of_Binder/binder_alloc.c:708-726 | exactly the freed buffer leaves the allocated ones; a free with clear_on_free wipes that buffer's bytes and nothing else; contents of every other buffer stay |
| BinderAlloc.Alloc.FreePage | Operating_System/Android_Develop/Concise_Analysis_of_the_Android_Framework_Kernel/Chapter_1_In-depth_Analysis_of_Binder/binder_alloc.c:975-1038 | the shrinker drops a listed page or skips it, never one in use; contents of allocated buffers stay |
| BinderAlloc.Alloc.ReleaseAll | Operating_System/Android_Develop/Concise_Analysis_of_the_Android_Framework_Kernel/Chapter_1_In-depth_Analysis_of_Binder/binder_alloc.c:813-825 | frees exactly as many buffers as were allocated and ends with one free buffer and, if no empty async request was made, the full budget |
| BinderAlloc.Alloc.DeferredRelease | Operating_System/Android_Develop/Concise_Analysis_of_the_Android_Framework_Kernel/Chapter_1_In-depth_Analysis_of_Binder/binder_alloc.c:803-860 | nothing stays behind, no page is present, and neither WARN_ON about the buffer list fires |
| CallStack.TopOfCaller | Operating_System/Android_Develop/Concise_Analysis_of_the_Android_Framework_Kernel/Chapter_1_In-depth_Analysis_of_Binder/binder.c:1756-1766 | a transaction without calls of its own whose sender lives is on top of the sender's stack: both BUG_ONs of the pop and the "bad target transaction stack" branch are unreachable |
| CallStack.LiveOrEnded | Operating_System/Android_Develop/Concise_Analysis_of_the_Android_Framework_Kernel/Chapter_1_In-depth_Analysis_of_Binder/binder.c:1917-1973 | read off the invariant: every call ever made is under way or has its final outcome, never both and never neither; that every step keeps it is what the *Inv lemmas of CallSteps and CallEnds prove |
| CallStack.LeafReaches | Operating_System/Android_Develop/Concise_Analysis_of_the_Android_Framework_Kernel/Chapter_1_In-depth_Analysis_of_Binder/binder.c:1917-1973 | below any call there is a single chain of calls made because of it |
| CallStack.UniqueLeaf | Operating_System/Android_Develop/Concise_Analysis_of_the_Android_Framework_Kernel/Chapter_1_In-depth_Analysis_of_Binder/binder.c:1917-1973 | so at most one call without calls of its own leads to any given call |
| CallStack.StackReaches | Operating_System/Android_Develop/Concise_Analysis_of_the_Android_Framework_Kernel/Chapter_1_In-depth_Analysis_of_Binder/binder.c:3432-3435 | whatever lies higher on a thread's stack was called because of what lies lower |
| CallStack.ChildlessPlace | Operating_System/Android_Develop/Concise_Analysis_of_the_Android_Framework_Kernel/Chapter_1_In-depth_Analysis_of_Binder/binder.c:2978-3016 | a call that was not delivered yet has led to no other call |
| CallStack.FoundIsWaiting | Operating_System/Android_Develop/Concise_Analysis_of_the_Android_Framework_Kernel/Chapter_1_In-depth_Analysis_of_Binder/binder.c:3018-3031 | the thread that the target search picks from the caller chain is alive, belongs to the target process and waits on top of its stack for a call that led to this one |
| CallStack.FindCallerNearest | Operating_System/Android_Develop/Concise_Analysis_of_the_Android_Framework_Kernel/Chapter_1_In-depth_Analysis_of_Binder/binder.c:3018-3031 | the search finds nobody exactly if no call from the stack's top up the chain was sent by a thread of the target process, and otherwise the sender of the latest such call |
| CallSteps.TopServed | Operating_System/Android_Develop/Concise_Analysis_of_the_Android_Framework_Kernel/Chapter_1_In-depth_Analysis_of_Binder/binder.c:2867-2882 | to_thread of the stack's top tells whether the thread serves it; otherwise the thread itself sent it |
| CallSteps.NoCallWaiting | Operating_System/Android_Develop/Concise_Analysis_of_the_Android_Framework_Kernel/Chapter_1_In-depth_Analysis_of_Binder/binder.c:2978-2998 | looking at the head of the todo list is enough: a thread allowed to send has no call anywhere on its list |
| CallSteps.ServerFacts | Operating_System/Android_Develop/Concise_Analysis_of_the_Android_Framework_Kernel/Chapter_1_In-depth_Analysis_of_Binder/binder.c:2750-2764 | the thread a call is queued for has no other call queued, is not the sender and is not about to send itself |
| CallSteps.WithPushInv | Operating_System/Android_Develop/Concise_Analysis_of_the_Android_Framework_Kernel/Chapter_1_In-depth_Analysis_of_Binder/binder.c:3432-3435 | pushing the new transaction keeps the invariant of all stacks, lists and chains |
| CallSteps.QueueAtInv | Operating_System/Android_Develop/Concise_Analysis_of_the_Android_Framework_Kernel/Chapter_1_In-depth_Analysis_of_Binder/binder.c:2756-2762 | so does queueing it for a thread |
| CallSteps.WithoutTopInv | Operating_System/Android_Develop/Concise_Analysis_of_the_Android_Framework_Kernel/Chapter_1_In-depth_Analysis_of_Binder/binder.c:1917-1950 | so does ending a transaction whose sender lives, by reply or by failure, for the sender |
| CallSteps.WithoutOrphanInv | Operating_System/Android_Develop/Concise_Analysis_of_the_Android_Framework_Kernel/Chapter_1_In-depth_Analysis_of_Binder/binder.c:1950-1973 | so does ending one whose sender is gone, which makes its parent the next to fail |
| CallEnds.AcceptInv | Operating_System/Android_Develop/Concise_Analysis_of_the_Android_Framework_Kernel/Chapter_1_In-depth_Analysis_of_Binder/binder.c:4538-4543 | so does the delivery onto the server's stack |
| CallEnds.ReplyPopInv | Operating_System/Android_Develop/Concise_Analysis_of_the_Android_Framework_Kernel/Chapter_1_In-depth_Analysis_of_Binder/binder.c:2883-2893 | so does taking the call off the server's stack at the start of a reply |
| CallEnds.DieInv | Operating_System/Android_Develop/Concise_Analysis_of_the_Android_Framework_Kernel/Chapter_1_In-depth_Analysis_of_Binder/binder.c:4722-4781 | so does the death of a thread with whatever is on its stack |
| CallStable.StableTrans | Operating_System/Android_Develop/Concise_Analysis_of_the_Android_Framework_Kernel/Chapter_1_In-depth_Analysis_of_Binder/binder.c:2730-2773 | what one region leaves alone of everybody else's business, any sequence of regions leaves alone |
| CallStable.WithoutTopStable | Operating_System/Android_Develop/Concise_Analysis_of_the_Android_Framework_Kernel/Chapter_1_In-depth_Analysis_of_Binder/binder.c:1756-1766 | ending a call does not disturb other threads, the calls they have in hand, other failing calls or dead processes' lists |
| CallStable.WithoutOrphanStable | Operating_System/Android_Develop/Concise_Analysis_of_the_Android_Framework_Kernel/Chapter_1_In-depth_Analysis_of_Binder/binder.c:1950-1973 | nor does ending one whose sender is gone, although it makes another call fail |
| CallStable.TakeOwnStable | Operating_System/Android_Develop/Concise_Analysis_of_the_Android_Framework_Kernel/Chapter_1_In-depth_Analysis_of_Binder/binder.c:4231-4256 | nor does taking a call off a list |
| CallStable.ReplyPopStable | Operating_System/Android_Develop/Concise_Analysis_of_the_Android_Framework_Kernel/Chapter_1_In-depth_Analysis_of_Binder/binder.c:2883-2893 | nor does the start of a reply |
| CallDriver.FailEndsChain | Operating_System/Android_Develop/Concise_Analysis_of_the_Android_Framework_Kernel/Chapter_1_In-depth_Analysis_of_Binder/binder.c:1917-1973 | error propagation ends exactly the failed call and, while callers are gone, the calls it was made for: each once, no other |
| CallDriver.FailTells | Operating_System/Android_Develop/Concise_Analysis_of_the_Android_Framework_Kernel/Chapter_1_In-depth_Analysis_of_Binder/binder.c:1917-1973 | at most one thread hears of it, the nearest living caller up the chain, and no other thread's stack or list changes |
| CallDriver.WalkAt | Operating_System/Android_Develop/Concise_Analysis_of_the_Android_Framework_Kernel/Chapter_1_In-depth_Analysis_of_Binder/binder.c:4754-4781 | on a dying thread's stack every transaction is served or sent by that thread: the BUG of the walk is unreachable and the walk follows the stack |
| CallDriver.Driver.FailOnce | Operating_System/Android_Develop/Concise_Analysis_of_the_Android_Framework_Kernel/Chapter_1_In-depth_Analysis_of_Binder/binder.c:1917-1973 | one round: the sender has its stack back and one error on its list, and the chain ends, or the parent is next; nothing else changes; the call gets its one final outcome, which it had not before |
| CallDriver.Driver.Apply | Operating_System/Android_Develop/Concise_Analysis_of_the_Android_Framework_Kernel/Chapter_1_In-depth_Analysis_of_Binder/binder.c:2730-2773 | any region of any operation, run if it can: its effect is the one that is stated region by region, the invariant and the history are kept, and nobody else's business is disturbed |
| CallDriver.Driver.Others | Operating_System/Android_Develop/Concise_Analysis_of_the_Android_Framework_Kernel/Chapter_1_In-depth_Analysis_of_Binder/binder.c:1917-1973 | any sequence of regions of others has the effect of these regions one after the other, and leaves what an operation carries from one region to the next as it was: its thread, the calls in its hands, the call it is failing |
| CallDriver.Driver.SendFailedReply | Operating_System/Android_Develop/Concise_Analysis_of_the_Android_Framework_Kernel/Chapter_1_In-depth_Analysis_of_Binder/binder.c:1917-1973 | with anything others do between the rounds: the loop ends; the calls it ended form a chain, each ended once and made for the next; the callers of all but the last were gone; the last one's caller was told and has its stack back, unless there is none; and when nothing comes in between the state is that of the error propagation function |
| CallDriver.Driver.PlanSend | Operating_System/Android_Develop/Concise_Analysis_of_the_Android_Framework_Kernel/Chapter_1_In-depth_Analysis_of_Binder/binder.c:2963-3032 | a send is refused exactly for the own process, by the security hook, for a transaction at the head of the todo list (one-way ones and replies included) or for a stack top served elsewhere; otherwise a target thread is planned exactly if a call on the chain from the stack's top up was sent by a thread of the target process, and it is the sender of the latest such call; nothing but the planning thread changes |
| CallDriver.Driver.PushSend | Operating_System/Android_Develop/Concise_Analysis_of_the_Android_Framework_Kernel/Chapter_1_In-depth_Analysis_of_Binder/binder.c:3432-3435 | the transaction gets the sender's stack as parent, the planned target and its process, and becomes the top; nothing else changes |
| CallDriver.Driver.ProcTransaction | Operating_System/Android_Develop/Concise_Analysis_of_the_Android_Framework_Kernel/Chapter_1_In-depth_Analysis_of_Binder/binder.c:2730-2773 | refused without effect exactly if the target process or thread is dead; otherwise queued last for the thread that is named, else for the waiting one, which wakes, else last for the process; the sender is done and nothing else changes |
| CallDriver.Driver.UndoPop | Operating_System/Android_Develop/Concise_Analysis_of_the_Android_Framework_Kernel/Chapter_1_In-depth_Analysis_of_Binder/binder.c:1756-1766 | the pop of a refused call restores the sender's stack, and neither BUG_ON of it fires |
| CallDriver.Driver.UndoSend | Operating_System/Android_Develop/Concise_Analysis_of_the_Android_Framework_Kernel/Chapter_1_In-depth_Analysis_of_Binder/binder.c:3437-3466 | whatever others do in between, a refused call ends unsent and the sender is told; when nothing comes in between the first completion item leaves the sender's list, the error joins it, and the stack is as before the send |
| CallDriver.Driver.ReadOwn | Operating_System/Android_Develop/Concise_Analysis_of_the_Android_Framework_Kernel/Chapter_1_In-depth_Analysis_of_Binder/binder.c:4231-4256 | the head of the own list is taken, and only calls go on to delivery |
| CallDriver.Driver.ReadProc | Operating_System/Android_Develop/Concise_Analysis_of_the_Android_Framework_Kernel/Chapter_1_In-depth_Analysis_of_Binder/binder.c:4231-4256 | the head of the process's list, so the call queued first, is taken by a thread with nothing to do; nothing else changes |
| CallDriver.Driver.Deliver | Operating_System/Android_Develop/Concise_Analysis_of_the_Android_Framework_Kernel/Chapter_1_In-depth_Analysis_of_Binder/binder.c:4460-4546 | a call read is put on the reader's stack, or a failed reply ends it, whatever others do in between |
| CallDriver.Driver.PopReply | Operating_System/Android_Develop/Concise_Analysis_of_the_Android_Framework_Kernel/Chapter_1_In-depth_Analysis_of_Binder/binder.c:2883-2893 | the replying thread's stack loses exactly the call it serves |
| CallDriver.Driver.BeginReply | Operating_System/Android_Develop/Concise_Analysis_of_the_Android_Framework_Kernel/Chapter_1_In-depth_Analysis_of_Binder/binder.c:2855-2911 | refused without effect unless the stack's top is a call the thread serves; otherwise the call leaves the stack, and it is under way with a caller, or it has ended with an error up the chain; without interference the former exactly if the caller lives |
| CallDriver.Driver.HandReply | Operating_System/Android_Develop/Concise_Analysis_of_the_Android_Framework_Kernel/Chapter_1_In-depth_Analysis_of_Binder/binder.c:3409-3421 | the caller's stack loses exactly the answered call and the reply is queued last for the caller; the replying thread is done, and nothing else changes |
| CallDriver.Driver.FailReply | Operating_System/Android_Develop/Concise_Analysis_of_the_Android_Framework_Kernel/Chapter_1_In-depth_Analysis_of_Binder/binder.c:3437-3466 | the error path of a reply: the call ends once, by an error up the chain, whatever others do |
| CallDriver.Driver.EndReply | Operating_System/Android_Develop/Concise_Analysis_of_the_Android_Framework_Kernel/Chapter_1_In-depth_Analysis_of_Binder/binder.c:3409-3466 | a reply that cannot be handed over, also because the caller died meanwhile, becomes a failed reply up the chain; either way, and whatever others do in between, the call ends once |
| CallDriver.Driver.ReleaseStack | Operating_System/Android_Develop/Concise_Analysis_of_the_Android_Framework_Kernel/Chapter_1_In-depth_Analysis_of_Binder/binder.c:4744-4781 | every call the dying thread served loses its server, and the one on top starts to fail; every call it made loses its caller; the thread is dead with an empty stack, and nothing else changes |
| CallDriver.Driver.ReleaseItem | Operating_System/Android_Develop/Concise_Analysis_of_the_Android_Framework_Kernel/Chapter_1_In-depth_Analysis_of_Binder/binder.c:4575-4632 | one item of a dead thread's list: a call starts to fail, anything else is dropped |
| CallDriver.Driver.ReleaseWork | Operating_System/Android_Develop/Concise_Analysis_of_the_Android_Framework_Kernel/Chapter_1_In-depth_Analysis_of_Binder/binder.c:4575-4632 | whatever others do between the items, the list ends empty and every call that was on it has ended; without interference they fail one by one, in order |
| CallDriver.Driver.ReleaseProcWork | Operating_System/Android_Develop/Concise_Analysis_of_the_Android_Framework_Kernel/Chapter_1_In-depth_Analysis_of_Binder/binder.c:4575-4632 | the same for a dead process's list |
| CallDriver.Driver.ThreadRelease | Operating_System/Android_Develop/Concise_Analysis_of_the_Android_Framework_Kernel/Chapter_1_In-depth_Analysis_of_Binder/binder.c:4722-4812 | stack walk, failed reply and list in this order, with steps of others between all of them: the thread stays dead with nothing on its list, and the call it served and the calls on its list have ended |
| NodeRefs.NewDesc | Operating_System/Android_Develop/Concise_Analysis_of_the_Android_Framework_Kernel/Chapter_1_In-depth_Analysis_of_Binder/binder.c:1436-1450 | the search through the references in order of descriptor gives the smallest unused one, from 0 for the context manager and from 1 otherwise |
| NodeRefs.LinkedKeeps | Operating_System/Android_Develop/Concise_Analysis_of_the_Android_Framework_Kernel/Chapter_1_In-depth_Analysis_of_Binder/binder.c:1436-1466 | a new reference takes an unused descriptor, so the duplicate-descriptor BUG is unreachable, and changes no count |
| NodeRefs.FreedOnlyWhenZero | Operating_System/Android_Develop/Concise_Analysis_of_the_Android_Framework_Kernel/Chapter_1_In-depth_Analysis_of_Binder/binder.c:1225-1283 | a node goes only when all its counts are zero and nothing links to it, although the last test does not read internal_strong_refs |
| NodeTold.IncNodeTold | Operating_System/Android_Develop/Concise_Analysis_of_the_Android_Framework_Kernel/Chapter_1_In-depth_Analysis_of_Binder/binder.c:1164-1215 | an increment keeps every owner told of what is held (a strongly held node has its strong flag or is queued for its owner, a node with a weakly held reference its weak flag or is queued), and after an accepted weak one the flag is set or the node is queued |
| NodeTold.DecNodeTold | Operating_System/Android_Develop/Concise_Analysis_of_the_Android_Framework_Kernel/Chapter_1_In-depth_Analysis_of_Binder/binder.c:1225-1283 | a decrement leaves the owner told of what is gone: a living node with the strong flag and no strong count left, or with the weak flag and nothing left at all, is queued for its owner |
| NodeTold.DecLocalExact | Operating_System/Android_Develop/Concise_Analysis_of_the_Android_Framework_Kernel/Chapter_1_In-depth_Analysis_of_Binder/binder.c:1225-1283 | a decrement of a local count takes one from that count of that node; the node goes exactly if nothing is left and its owner is dead or was never told; no other node and no reference changes |
| NodeRefs.IncRefShifts | Operating_System/Android_Develop/Concise_Analysis_of_the_Android_Framework_Kernel/Chapter_1_In-depth_Analysis_of_Binder/binder.c:1531-1561 | one count of one reference grows by one or nothing changes; internal_strong_refs stays the number of strongly held references |
| NodeRefs.IncRefForNodeShifts | Operating_System/Android_Develop/Concise_Analysis_of_the_Android_Framework_Kernel/Chapter_1_In-depth_Analysis_of_Binder/binder.c:1724-1754 | with the reference made if missing: exactly that count grows, or none does |
| NodeRefs.DecRefShifts | Operating_System/Android_Develop/Concise_Analysis_of_the_Android_Framework_Kernel/Chapter_1_In-depth_Analysis_of_Binder/binder.c:1563-1591 | exactly the count asked for falls by one if it was not zero; nothing else changes, reference and node going away included |
| ObjectRefs.TranslateOneWorks | Operating_System/Android_Develop/Concise_Analysis_of_the_Android_Framework_Kernel/Chapter_1_In-depth_Analysis_of_Binder/binder.c:2413-2537 | a translated object stands for exactly one new count in the target; a failed translation leaves every count as it was, wherever it failed |
| ObjectRefs.TranslatedSame | Operating_System/Android_Develop/Concise_Analysis_of_the_Android_Framework_Kernel/Chapter_1_In-depth_Analysis_of_Binder/binder.c:2413-2537 | what is handed over denotes the sender's node, with the sender's strength; it is the owner's own pointer and cookie exactly where it goes back to a living node's owner, and a handle of the receiver otherwise |
| ObjectRefs.BinderSame | Operating_System/Android_Develop/Concise_Analysis_of_the_Android_Framework_Kernel/Chapter_1_In-depth_Analysis_of_Binder/binder.c:2413-2465 | a binder object is translated exactly if its cookie is that of the node known under its pointer, or there is memory for a new node, the security hook agrees, and the receiver has a reference or there is memory for one |
| NodeTold.TranslateOneTold | Operating_System/Android_Develop/Concise_Analysis_of_the_Android_Framework_Kernel/Chapter_1_In-depth_Analysis_of_Binder/binder.c:2413-2537 | a translation, also one that fails half way, leaves every owner told of what is held |
| NodeTold.TranslateOneNew | Operating_System/Android_Develop/Concise_Analysis_of_the_Android_Framework_Kernel/Chapter_1_In-depth_Analysis_of_Binder/binder.c:1436-1466 | a reference that a translation makes has the smallest descriptor that its process did not use, counted from 0 for the context manager and from 1 otherwise |
| ObjectRefs.StrongForwardAccepted | Operating_System/Android_Develop/Concise_Analysis_of_the_Android_Framework_Kernel/Chapter_1_In-depth_Analysis_of_Binder/binder.c:2466-2537 | forwarding a handle held strongly is never refused by the node |
| ObjectRefs.WeakForwardIff | Operating_System/Android_Develop/Concise_Analysis_of_the_Android_Framework_Kernel/Chapter_1_In-depth_Analysis_of_Binder/binder.c:2466-2537 | forwarding a weak handle succeeds exactly if the node is the receiver's own, or already held weakly there, or its owner knows or is about to hear of a weak reference |
| ObjectRefs.WeakForwardRefused | Operating_System/Android_Develop/Concise_Analysis_of_the_Android_Framework_Kernel/Chapter_1_In-depth_Analysis_of_Binder/binder.c:1724-1754 | the refusal happens, and leaves a linked reference with zero counts behind |
| Conservation.RollbackRestores | Operating_System/Android_Develop/Concise_Analysis_of_the_Android_Framework_Kernel/Chapter_1_In-depth_Analysis_of_Binder/binder.c:3207-3275 | for any object table and any index where translation stops, releasing what was translated restores every node and reference count in both processes |
| Conservation.SendThenFree | Operating_System/Android_Develop/Concise_Analysis_of_the_Android_Framework_Kernel/Chapter_1_In-depth_Analysis_of_Binder/binder.c:3550-3581 | when nothing comes in between, a transaction that was sent and whose buffer is then freed leaves every count as it was, the target node's local strong count included |
| Conservation.FailedSendRestores | Operating_System/Android_Develop/Concise_Analysis_of_the_Android_Framework_Kernel/Chapter_1_In-depth_Analysis_of_Binder/binder.c:3463-3504 | the same for a transaction that fails part way: it releases its buffer, then the temporary count |
| Conservation.InternalFollows | Operating_System/Android_Develop/Concise_Analysis_of_the_Android_Framework_Kernel/Chapter_1_In-depth_Analysis_of_Binder/binder.c:1164-1283 | internal_strong_refs is then as before, too |
| Conservation.TranslateOneByOne | Operating_System/Android_Develop/Concise_Analysis_of_the_Android_Framework_Kernel/Chapter_1_In-depth_Analysis_of_Binder/binder.c:3207-3275 | the objects are translated one after the other, each in the state the one before left, until the end or the first refusal and no sooner |
| TableSteps.GoneIdle | Operating_System/Android_Develop/Concise_Analysis_of_the_Android_Framework_Kernel/Chapter_1_In-depth_Analysis_of_Binder/binder.c:1225-1283 | a step that takes at most one count away lets a node go only if before the step no count of it, its own or a reference's, was left but that one, and nothing linked to it but that count's reference |
| TableSteps.CellStep | Operating_System/Android_Develop/Concise_Analysis_of_the_Android_Framework_Kernel/Chapter_1_In-depth_Analysis_of_Binder/binder.c:2241-2317 | a step that changes one node count together with what buffers claim of it leaves every claim of every other buffer covered |
| TableSteps.TargetStep | Operating_System/Android_Develop/Concise_Analysis_of_the_Android_Framework_Kernel/Chapter_1_In-depth_Analysis_of_Binder/binder.c:2255-2256 | giving back the target's local strong count never misses the node and keeps the invariant; the count ends below zero exactly if the owner has died |
| TableSteps.ReleaseStep | Operating_System/Android_Develop/Concise_Analysis_of_the_Android_Framework_Kernel/Chapter_1_In-depth_Analysis_of_Binder/binder.c:2259-2317 | giving back one object takes exactly the one count it stands for, or nothing if that is gone, in any state others left |
| TableSteps.CleanupExact | Operating_System/Android_Develop/Concise_Analysis_of_the_Android_Framework_Kernel/Chapter_1_In-depth_Analysis_of_Binder/binder.c:1479-1519 | unlinking a reference frees its node exactly if it was the last link, nothing else counts, and the owner is dead or was never told of a reference; no count of any node changes |
| TableSteps.NodeReleasedExact | Operating_System/Android_Develop/Concise_Analysis_of_the_Android_Framework_Kernel/Chapter_1_In-depth_Analysis_of_Binder/binder.c:5372-5435 | a dying process's node goes exactly if nothing links to it and nobody holds it temporarily |
| TableSteps.OverdrawnForever | Operating_System/Android_Develop/Concise_Analysis_of_the_Android_Framework_Kernel/Chapter_1_In-depth_Analysis_of_Binder/binder.c:1225-1283 | a node whose local strong count fell below zero is never freed by any step |
| RefTable.NodeTable.SetContextManager | Operating_System/Android_Develop/Concise_Analysis_of_the_Android_Framework_Kernel/Chapter_1_In-depth_Analysis_of_Binder/binder.c:4918-4970 | only one context manager; its node gets one strong and one weak local count and no other count changes |
| RefTable.NodeTable.UpdateRef | Operating_System/Android_Develop/Concise_Analysis_of_the_Android_Framework_Kernel/Chapter_1_In-depth_Analysis_of_Binder/binder.c:3608-3676 | one count of the reference that the descriptor (or handle 0) names changes by one, or none; decrements succeed exactly if there is such a reference, strongly held for a strong one; increments through a descriptor exactly if it is held like that, or for weak ones the owner knows of a weak reference or is about to; increments of handle 0 exactly if the caller is not the manager itself and the manager's node takes the count, with the reference made if there is memory, or another reference at descriptor 0 does; a node goes only with its last count; marks, cookies and descriptors of all else stay, and owners are told, as Valid says |
| RefTable.NodeTable.Acknowledge | Operating_System/Android_Develop/Concise_Analysis_of_the_Android_Framework_Kernel/Chapter_1_In-depth_Analysis_of_Binder/binder.c:3677-3744 | an acknowledgement takes its local count and its pending mark exactly if one is pending and the cookie matches; the WARN_ON on a freed node does not fire; the node goes only if that was its last count, and no other node and no reference changes |
| RefTable.NodeTable.ReadNodeWork | Operating_System/Android_Develop/Concise_Analysis_of_the_Android_Framework_Kernel/Chapter_1_In-depth_Analysis_of_Binder/binder.c:4288-4355 | flags and local counts catch up with the references; the node is freed exactly if nothing holds it, and then none of its counts was left |
| RefTable.NodeTable.BeginSend | Operating_System/Android_Develop/Concise_Analysis_of_the_Android_Framework_Kernel/Chapter_1_In-depth_Analysis_of_Binder/binder.c:2796-2961 | a send finds its target exactly through a strongly held handle to a living node or, for handle 0, the context manager; it takes one local strong and one temporary count there, a new buffer claims both, and nothing else changes |
| RefTable.NodeTable.TranslateNext | Operating_System/Android_Develop/Concise_Analysis_of_the_Android_Framework_Kernel/Chapter_1_In-depth_Analysis_of_Binder/binder.c:3207-3275 | one object is translated in whatever state others left; the result denotes the sender's node with the sender's strength; the new count is claimed by the buffer; marks, cookies and descriptors of all else stay; the owner is told, as Valid says |
| RefTable.NodeTable.Accept | Operating_System/Android_Develop/Concise_Analysis_of_the_Android_Framework_Kernel/Chapter_1_In-depth_Analysis_of_Binder/binder.c:2750-2754 | accepted exactly if the target process is not dying |
| RefTable.NodeTable.ReleaseTarget | Operating_System/Android_Develop/Concise_Analysis_of_the_Android_Framework_Kernel/Chapter_1_In-depth_Analysis_of_Binder/binder.c:2255-2256 | the target node is still there, whoever died since the send began; its local strong count falls by one, below zero exactly if the owner died; it goes or is queued as its counts and flags say, and nothing else changes |
| RefTable.NodeTable.ReleaseNext | Operating_System/Android_Develop/Concise_Analysis_of_the_Android_Framework_Kernel/Chapter_1_In-depth_Analysis_of_Binder/binder.c:2259-2317 | one object gives back exactly the count it stands for, or nothing if that is gone; no other count changes, and a node goes only if that was its last count |
| RefTable.NodeTable.PutTarget | Operating_System/Android_Develop/Concise_Analysis_of_the_Android_Framework_Kernel/Chapter_1_In-depth_Analysis_of_Binder/binder.c:3463-3475 | the temporary count goes, and the node with it only if that was its last count; nothing else changes |
| RefTable.NodeTable.Retire | Operating_System/Android_Develop/Concise_Analysis_of_the_Android_Framework_Kernel/Chapter_1_In-depth_Analysis_of_Binder/binder.c:3578-3581 | an emptied buffer claims nothing |
| RefTable.NodeTable.BeginDeath | Operating_System/Android_Develop/Concise_Analysis_of_the_Android_Framework_Kernel/Chapter_1_In-depth_Analysis_of_Binder/binder.c:5447-5463 | a dying process is no context manager any more |
| RefTable.NodeTable.ReleaseNode | Operating_System/Android_Develop/Concise_Analysis_of_the_Android_Framework_Kernel/Chapter_1_In-depth_Analysis_of_Binder/binder.c:5372-5435 | a dying process's node is freed exactly if nothing links to it and nobody holds it temporarily; otherwise it stays dead with its local counts at zero, also below transactions under way |
| RefTable.NodeTable.ReleaseRefs | Operating_System/Android_Develop/Concise_Analysis_of_the_Android_Framework_Kernel/Chapter_1_In-depth_Analysis_of_Binder/binder.c:5496-5508 | a dead process keeps no reference, everyone else's are untouched, all local and temporary counts stay; a node goes exactly if the process had its last link, nothing else counts, and its owner is dead or was never told |
| RefTable.NodeTable.DropBuffers | Operating_System/Android_Develop/Concise_Analysis_of_the_Android_Framework_Kernel/Chapter_1_In-depth_Analysis_of_Binder/binder_alloc.c:813-825 | buffers delivered to a dead process go without giving anything back, which leaves all other claims covered |
| RefTable.NodeTable.TranslateObjects | Operating_System/Android_Develop/Concise_Analysis_of_the_Android_Framework_Kernel/Chapter_1_In-depth_Analysis_of_Binder/binder.c:3207-3275 | the loop over the objects, uninterrupted, computes the translation that the conservation lemmas speak about, and keeps the invariant |
| RefTable.NodeTable.ReleaseAll | Operating_System/Android_Develop/Concise_Analysis_of_the_Android_Framework_Kernel/Chapter_1_In-depth_Analysis_of_Binder/binder.c:2241-2317 | so does the release loop |
| RefTable.OverdrawnNode | Operating_System/Android_Develop/Concise_Analysis_of_the_Android_Framework_Kernel/Chapter_1_In-depth_Analysis_of_Binder/binder.c:3463-3475 | a run: a send begins, the target's owner dies, the send fails; the node is left with a local strong count of -1 and nothing holding it |
| ScatterGather.IpcBufferSize | Operating_System/Android_Develop/Concise_Analysis_of_the_Android_Framework_Kernel/Chapter_1_In-depth_Analysis_of_Binder/libhwbinder/Parcel.cpp:1600-1622 | the backward loop computes the announced size, with the machine's rounding and its give-up value 0 |
| ScatterGather.HandOut | Operating_System/Android_Develop/Concise_Analysis_of_the_Android_Framework_Kernel/Chapter_1_In-depth_Analysis_of_Binder/binder.c:3191-3205 | the driver accepts the buffers exactly if none is longer than what its predecessors leave; buffer i lands right after the rounded lengths before it |
| ScatterGather.FitsIff | Operating_System/Android_Develop/Concise_Analysis_of_the_Android_Framework_Kernel/Chapter_1_In-depth_Analysis_of_Binder/binder.c:3342-3373 | that is the case exactly if the sum of rounded lengths is within the area |
| ScatterGather.AnnouncedSuffices | Operating_System/Android_Develop/Concise_Analysis_of_the_Android_Framework_Kernel/Chapter_1_In-depth_Analysis_of_Binder/libhwbinder/Parcel.cpp:1600-1622 | with the announced size as area the "too large buffer" refusal never fires and the area is used up exactly, if and only if the true sum fits in a machine word |
| ScatterGather.SlotsApart | Operating_System/Android_Develop/Concise_Analysis_of_the_Android_Framework_Kernel/Chapter_1_In-depth_Analysis_of_Binder/binder.c:3342-3373 | the copied buffers occupy 8-aligned, pairwise disjoint ranges in order inside the area |
| Fixups.ValidateFixup | Operating_System/Android_Develop/Concise_Analysis_of_the_Android_Framework_Kernel/Chapter_1_In-depth_Analysis_of_Binder/binder.c:2140-2179 | the parent walk ends and accepts exactly if there is a current buffer not at offset 0, the target is it or one of its parents, and was not patched beyond the offset |
| Fixups.StepObject | Operating_System/Android_Develop/Concise_Analysis_of_the_Android_Framework_Kernel/Chapter_1_In-depth_Analysis_of_Binder/binder.c:3224-3394 | one object: bounds, parent, order and size checks in the order of the code give the step function; what it accepts and records is said object by object in StepIff and RunIff |
| Fixups.AllowedIff | Operating_System/Android_Develop/Concise_Analysis_of_the_Android_Framework_Kernel/Chapter_1_In-depth_Analysis_of_Binder/binder.c:2140-2179 | what the parent walk accepts, said on the objects: the parent is the current buffer or an ancestor of it, that is not at data offset 0 where that stands for none, and no accepted patch of that parent ends beyond the offset |
| Fixups.RunIff | Operating_System/Android_Develop/Concise_Analysis_of_the_Android_Framework_Kernel/Chapter_1_In-depth_Analysis_of_Binder/binder.c:3207-3403 | a table is accepted exactly if each object, taken alone, meets its bounds, order, parent and size conditions; and then the patches are exactly those the objects ask for, one for each pointer with a parent and one for each descriptor array, in table order, each with its object's parent, offset and length |
| Fixups.TranslateObjects | Operating_System/Android_Develop/Concise_Analysis_of_the_Android_Framework_Kernel/Chapter_1_In-depth_Analysis_of_Binder/binder.c:3207-3403 | the loop accepts exactly the tables all of whose objects are in order, and then has recorded exactly the patches the objects ask for; it gives the run function and keeps the whole invariant |
| Fixups.StepKeeps | Operating_System/Android_Develop/Concise_Analysis_of_the_Android_Framework_Kernel/Chapter_1_In-depth_Analysis_of_Binder/binder.c:3296-3394 | one accepted object keeps the invariant: along the chain of parents of the current buffer nothing was patched at or beyond the least offset still allowed |
| Fixups.PatchesApart | Operating_System/Android_Develop/Concise_Analysis_of_the_Android_Framework_Kernel/Chapter_1_In-depth_Analysis_of_Binder/binder.c:2602-2711 | for any object table: all accepted patches lie in the scatter-gather area, each inside its own parent's slot, at increasing offsets within a parent, and no two overlap, so objects, offsets and earlier patches are never overwritten |
| Fixups.DepthFirst | Operating_System/Android_Develop/Concise_Analysis_of_the_Android_Framework_Kernel/Chapter_1_In-depth_Analysis_of_Binder/binder.c:2140-2179 | patches go depth first: into the current buffer object or one of its parents only |
| Fixups.RefusedIff | Operating_System/Android_Develop/Concise_Analysis_of_the_Android_Framework_Kernel/Chapter_1_In-depth_Analysis_of_Binder/binder.c:2140-2179 | a patch that respects the order is refused if and only if the current buffer is the first object and lies at data offset 0, since 0 also means "none yet" |
| Fixups.NoPatchAtOffsetZero | Operating_System/Android_Develop/Concise_Analysis_of_the_Android_Framework_Kernel/Chapter_1_In-depth_Analysis_of_Binder/binder.c:2140-2179 | so a buffer object at offset 0 is never patched |
| Fixups.OffsetZeroRefused | Operating_System/Android_Develop/Concise_Analysis_of_the_Android_Framework_Kernel/Chapter_1_In-depth_Analysis_of_Binder/binder.c:2140-2179 | a pair of nested buffers is accepted at any offset but 0 |
| OneWay.Serial | Operating_System/Android_Develop/Concise_Analysis_of_the_Android_Framework_Kernel/Chapter_1_In-depth_Analysis_of_Binder/binder.c:2740-2764 | read off the invariant, which SendInv, DequeueInv, SetPlaceInv and FreeInv keep: the mark is set exactly while one buffer is out, never two, nothing waits without it, calls start in the order they were sent and none is skipped |
| OneWay.MarkExact | Operating_System/Android_Develop/Concise_Analysis_of_the_Android_Framework_Kernel/Chapter_1_In-depth_Analysis_of_Binder/binder.c:2740-2764 | the mark is set exactly while a call is queued, or delivered and not freed, if and only if no call to the node was lost between its queue and user space |
| OneWay.MarkCanStick | Operating_System/Android_Develop/Concise_Analysis_of_the_Android_Framework_Kernel/Chapter_1_In-depth_Analysis_of_Binder/binder.c:4590-4597 | two sends and a thread death after which a living process's node stays marked with nothing queued or delivered |
| OneWay.ReleaseBreaksIff | Operating_System/Android_Develop/Concise_Analysis_of_the_Android_Framework_Kernel/Chapter_1_In-depth_Analysis_of_Binder/binder.c:4575-4632 | a dying thread breaks it for a node exactly if a call to that node is on the thread's list |
| OneWay.DeliverBreaksIff | Operating_System/Android_Develop/Concise_Analysis_of_the_Android_Framework_Kernel/Chapter_1_In-depth_Analysis_of_Binder/binder.c:4460-4519 | so does a delivery, exactly if the call was to that node and is left behind because it cannot be written out |
| OneWay.DeadSendMarks | Operating_System/Android_Develop/Concise_Analysis_of_the_Android_Framework_Kernel/Chapter_1_In-depth_Analysis_of_Binder/binder.c:2740-2754 | a send to a dead process marks an idle node and queues nothing |
| OneWay.SendInv | Operating_System/Android_Develop/Concise_Analysis_of_the_Android_Framework_Kernel/Chapter_1_In-depth_Analysis_of_Binder/binder.c:2740-2764 | a send keeps all of this |
| OneWay.FreeInv | Operating_System/Android_Develop/Concise_Analysis_of_the_Android_Framework_Kernel/Chapter_1_In-depth_Analysis_of_Binder/binder.c:3559-3577 | so does the free of a buffer, with the next call taking its place |
| OneWay.Process.SendOneWay | Operating_System/Android_Develop/Concise_Analysis_of_the_Android_Framework_Kernel/Chapter_1_In-depth_Analysis_of_Binder/binder.c:2730-2773 | a one-way send to an idle node marks it and is queued last for the thread picked or the process, to a busy one it waits at the end of the node's list; nothing else changes |
| OneWay.Process.Take | Operating_System/Android_Develop/Concise_Analysis_of_the_Android_Framework_Kernel/Chapter_1_In-depth_Analysis_of_Binder/binder.c:4231-4256 | the head of a thread's or the process's list is taken, and nothing else changes |
| OneWay.Process.Deliver | Operating_System/Android_Develop/Concise_Analysis_of_the_Android_Framework_Kernel/Chapter_1_In-depth_Analysis_of_Binder/binder.c:4460-4519 | delivered, freed because its descriptors cannot be installed, or left behind because it cannot be written out |
| OneWay.Process.Free | Operating_System/Android_Develop/Concise_Analysis_of_the_Android_Framework_Kernel/Chapter_1_In-depth_Analysis_of_Binder/binder.c:3550-3581 | the BUG_ON on the mark does not fire; the first waiting call leaves the node's list and is queued last for the process, or the mark is cleared if none waits; nothing else changes |
| OneWay.Process.ThreadRelease | Operating_System/Android_Develop/Concise_Analysis_of_the_Android_Framework_Kernel/Chapter_1_In-depth_Analysis_of_Binder/binder.c:4575-4632 | exactly the calls on the dying thread's list are lost, their buffers staying allocated |
| Death.AttachedListed | Operating_System/Android_Develop/Concise_Analysis_of_the_Android_Framework_Kernel/Chapter_1_In-depth_Analysis_of_Binder/binder.c:3944-3965 | read off the invariant that the *Inv lemmas below keep: an attached notification that is on a list has type DEAD_BINDER, so the BUG_ON of the clear is unreachable |
| Death.UnlistedWhileAlive | Operating_System/Android_Develop/Concise_Analysis_of_the_Android_Framework_Kernel/Chapter_1_In-depth_Analysis_of_Binder/binder.c:5404-5426 | likewise: before its node dies an attached notification is on no list, so the BUG_ON of the node's release is unreachable |
| Death.DetachedKinds | Operating_System/Android_Develop/Concise_Analysis_of_the_Android_Framework_Kernel/Chapter_1_In-depth_Analysis_of_Binder/binder.c:4575-4632 | likewise: once the references are gone every notification left is of a kind that teardown frees; a bare DEAD_BINDER item is never met |
| Death.OnThreadIsClear | Operating_System/Android_Develop/Concise_Analysis_of_the_Android_Framework_Kernel/Chapter_1_In-depth_Analysis_of_Binder/binder.c:4575-4632 | likewise: only cleared notifications sit on a thread's list |
| Death.ClearedOnce | Operating_System/Android_Develop/Concise_Analysis_of_the_Android_Framework_Kernel/Chapter_1_In-depth_Analysis_of_Binder/binder.c:4375-4415 | over any run: at most one CLEAR_DONE per notification, after the request to clear and only once a reported death was acknowledged; then it is freed, and freed for good |
| Death.DeathNotLost | Operating_System/Android_Develop/Concise_Analysis_of_the_Android_Framework_Kernel/Chapter_1_In-depth_Analysis_of_Binder/binder.c:5404-5426 | no death is lost and none is reported twice, in every reachable state: the notification on a reference to a dead node waits on the process's list unreported, or was reported exactly once |
| Death.ClearInv | Operating_System/Android_Develop/Concise_Analysis_of_the_Android_Framework_Kernel/Chapter_1_In-depth_Analysis_of_Binder/binder.c:3926-3966 | clearing keeps the invariant, with a pending death turned into death-and-clear |
| Death.ReportInv | Operating_System/Android_Develop/Concise_Analysis_of_the_Android_Framework_Kernel/Chapter_1_In-depth_Analysis_of_Binder/binder.c:4375-4415 | so does reading a notification |
| Death.DoneInv | Operating_System/Android_Develop/Concise_Analysis_of_the_Android_Framework_Kernel/Chapter_1_In-depth_Analysis_of_Binder/binder.c:3970-4018 | so does the acknowledgement |
| Death.NodeDiesInv | Operating_System/Android_Develop/Concise_Analysis_of_the_Android_Framework_Kernel/Chapter_1_In-depth_Analysis_of_Binder/binder.c:5404-5426 | so does the death of a node |
| Death.DropRefInv | Operating_System/Android_Develop/Concise_Analysis_of_the_Android_Framework_Kernel/Chapter_1_In-depth_Analysis_of_Binder/binder.c:1510-1518 | so does the cleanup of a reference, which frees its notification off whatever list it is on |
| Death.Notifications.RequestDeath | Operating_System/Android_Develop/Concise_Analysis_of_the_Android_Framework_Kernel/Chapter_1_In-depth_Analysis_of_Binder/binder.c:3846-3925 | refused exactly for a missing reference, one that has a notification already, or no memory; otherwise the reference has a new notification with the cookie asked for, queued at once and last if the node is dead already; nothing else changes |
| Death.Notifications.ClearRequest | Operating_System/Android_Develop/Concise_Analysis_of_the_Android_Framework_Kernel/Chapter_1_In-depth_Analysis_of_Binder/binder.c:3926-3966 | accepted exactly if there is a notification with that cookie; it leaves the reference, and is queued as cleared for the looper or the process, or, on a list already, becomes death-and-clear where it is; nothing else changes |
| Death.Notifications.NodeDeath | Operating_System/Android_Develop/Concise_Analysis_of_the_Android_Framework_Kernel/Chapter_1_In-depth_Analysis_of_Binder/binder.c:5404-5426 | the notification attached to the reference to that node is now the last on the process's list, with type DEAD_BINDER; every other notification and every other list is as it was; the node is dead |
| Death.Notifications.Read | Operating_System/Android_Develop/Concise_Analysis_of_the_Android_Framework_Kernel/Chapter_1_In-depth_Analysis_of_Binder/binder.c:4375-4415 | the head of the list is reported and leaves it: a clear is freed, a death is kept as the last of the delivered; nothing else changes |
| Death.Notifications.DeadBinderDone | Operating_System/Android_Develop/Concise_Analysis_of_the_Android_Framework_Kernel/Chapter_1_In-depth_Analysis_of_Binder/binder.c:3970-4018 | the first delivered notification with that cookie, or none if there is none; it leaves the delivered list, and is queued again, as a clear, exactly if it was cleared meanwhile; nothing else changes |
| Death.Notifications.DropReference | Operating_System/Android_Develop/Concise_Analysis_of_the_Android_Framework_Kernel/Chapter_1_In-depth_Analysis_of_Binder/binder.c:1510-1518 | a reference that goes takes its notification off whatever list it is on and frees it; every other notification and list keeps its content and order |
| Death.Notifications.ThreadExit | Operating_System/Android_Develop/Concise_Analysis_of_the_Android_Framework_Kernel/Chapter_1_In-depth_Analysis_of_Binder/binder.c:4575-4632 | exactly the notifications on the dying thread's list are freed |
| Death.Notifications.Elsewhere | Operating_System/Android_Develop/Concise_Analysis_of_the_Android_Framework_Kernel/Chapter_1_In-depth_Analysis_of_Binder/binder.c:5404-5426 | nodes of others dying while this process is torn down become dead, and queue notifications only as long as there are references |
| Death.Notifications.Scrap | Operating_System/Android_Develop/Concise_Analysis_of_the_Android_Framework_Kernel/Chapter_1_In-depth_Analysis_of_Binder/binder.c:4575-4632 | one left-over item is freed, off whatever list it is on; its kind is one that the code frees |
| Death.Notifications.ReleaseThreads | Operating_System/Android_Develop/Concise_Analysis_of_the_Android_Framework_Kernel/Chapter_1_In-depth_Analysis_of_Binder/binder.c:5463-5474 | every thread's list ends empty, with nodes dying in between |
| Death.Notifications.ReleaseRefs | Operating_System/Android_Develop/Concise_Analysis_of_the_Android_Framework_Kernel/Chapter_1_In-depth_Analysis_of_Binder/binder.c:5496-5508 | no reference is left, and no thread's list fills up again, with nodes dying in between |
| Death.Notifications.ReleaseLists | Operating_System/Android_Develop/Concise_Analysis_of_the_Android_Framework_Kernel/Chapter_1_In-depth_Analysis_of_Binder/binder.c:5510-5511 | the process's two lists end empty |
| Death.Notifications.Teardown | Operating_System/Android_Develop/Concise_Analysis_of_the_Android_Framework_Kernel/Chapter_1_In-depth_Analysis_of_Binder/binder.c:5437-5511 | threads, references, then what is left, with nodes dying between any two steps: every notification ever made has been freed |
| ParcelCodec.DecodeEncode | Operating_System/Android_Develop/Concise_Analysis_of_the_Android_Framework_Kernel/Chapter_1_In-depth_Analysis_of_Binder/libhwbinder/Parcel.cpp:897-1191 | reading a value of its kind where it was written returns it and moves right past it, whatever surrounds it |
| ParcelCodec.RoundTrip | Operating_System/Android_Develop/Concise_Analysis_of_the_Android_Framework_Kernel/Chapter_1_In-depth_Analysis_of_Binder/libhwbinder/Parcel.cpp:897-1191 | for any list of numbers, padded blocks, C strings and 16-bit strings: reading back what was written one after the other gives the same values and ends at the data size |
| ParcelCodec.WordLayout | Operating_System/Android_Develop/Concise_Analysis_of_the_Android_Framework_Kernel/Chapter_1_In-depth_Analysis_of_Binder/libhwbinder/Parcel.cpp:958-970 | a number is written as its bytes, least significant first |
| ParcelCodec.UnitLayout | Operating_System/Android_Develop/Concise_Analysis_of_the_Android_Framework_Kernel/Chapter_1_In-depth_Analysis_of_Binder/libhwbinder/Parcel.cpp:602-617 | unit k of a 16-bit string is at bytes 2k and 2k + 1 of its body, least significant byte first |
| ParcelData.GrowthLeavesRoom | Operating_System/Android_Develop/Concise_Analysis_of_the_Android_Framework_Kernel/Chapter_1_In-depth_Analysis_of_Binder/libhwbinder/Parcel.cpp:1750-1761 | for every capacity, size, position and length that needs growth: exactly when the retried write is in bounds, exactly when the position is moved on the way, and that a position inside the data has room and stays |
| ParcelData.GrowthFallsShort | Operating_System/Android_Develop/Concise_Analysis_of_the_Android_Framework_Kernel/Chapter_1_In-depth_Analysis_of_Binder/libhwbinder/Parcel.cpp:1750-1761 | capacity 8, size 4, position 1000, length 4 is out of bounds after growth; capacity 100 is in bounds, at position 12 |
| ParcelData.InsideStays | Operating_System/Android_Develop/Concise_Analysis_of_the_Android_Framework_Kernel/Chapter_1_In-depth_Analysis_of_Binder/libhwbinder/Parcel.cpp:447-507 | a write inside or right behind the data is never out of bounds and starts at the position |
| ParcelData.SilentIff | Operating_System/Android_Develop/Concise_Analysis_of_the_Android_Framework_Kernel/Chapter_1_In-depth_Analysis_of_Binder/libhwbinder/Parcel.cpp:447-461 | the silent condition in terms of what decides about a write: no room found although no error is remembered |
| ParcelData.Parcel.ContinueWrite | Operating_System/Android_Develop/Concise_Analysis_of_the_Android_Framework_Kernel/Chapter_1_In-depth_Analysis_of_Binder/libhwbinder/Parcel.cpp:1924-1975 | exact status and error state; growth keeps size, contents and position (the first allocation resets the position), a size within the capacity cuts the data and moves the position back to it; no memory changes nothing |
| ParcelData.Parcel.GrowData | Operating_System/Android_Develop/Concise_Analysis_of_the_Android_Framework_Kernel/Chapter_1_In-depth_Analysis_of_Binder/libhwbinder/Parcel.cpp:1750-1761 | success exactly if the new capacity stays within limits and memory; capacity and position afterwards, from any position; the contents stay |
| ParcelData.Parcel.MakeRoom | Operating_System/Android_Develop/Concise_Analysis_of_the_Android_Framework_Kernel/Chapter_1_In-depth_Analysis_of_Binder/libhwbinder/Parcel.cpp:447-507 | growth if needed, and what becomes of the write then: in place, refused, or out of bounds |
| ParcelData.Parcel.FinishWrite | Operating_System/Android_Develop/Concise_Analysis_of_the_Android_Framework_Kernel/Chapter_1_In-depth_Analysis_of_Binder/libhwbinder/Parcel.cpp:403-420 | position and size move together; sizes an int cannot hold are refused |
| ParcelData.Parcel.WriteInplace | Operating_System/Android_Develop/Concise_Analysis_of_the_Android_Framework_Kernel/Chapter_1_In-depth_Analysis_of_Binder/libhwbinder/Parcel.cpp:463-507 | from any position: null, room for the padded length with zero pad bytes and all other bytes kept, or a retry outside the buffer, each with its exact condition and the error state after it |
| ParcelData.Parcel.Write | Operating_System/Android_Develop/Concise_Analysis_of_the_Android_Framework_Kernel/Chapter_1_In-depth_Analysis_of_Binder/libhwbinder/Parcel.cpp:447-461 | from any position: the padded block is in place, or nothing changed, or the retry was outside the buffer, each exactly when; the status is OK without anything written exactly if no error is pending and a size limit, and not memory, stopped the growth (or an empty block met an empty parcel) |
| ParcelData.Parcel.WriteAligned | Operating_System/Android_Develop/Concise_Analysis_of_the_Android_Framework_Kernel/Chapter_1_In-depth_Analysis_of_Binder/libhwbinder/Parcel.cpp:958-970 | the same three outcomes for a number, from any position |
| ParcelData.Parcel.WriteString16 | Operating_System/Android_Develop/Concise_Analysis_of_the_Android_Framework_Kernel/Chapter_1_In-depth_Analysis_of_Binder/libhwbinder/Parcel.cpp:602-617 | at any position: length, units and terminator; a failure in the middle leaves only the length behind; only the length can be out of bounds |
| ParcelData.Parcel.WriteAll | Operating_System/Android_Develop/Concise_Analysis_of_the_Android_Framework_Kernel/Chapter_1_In-depth_Analysis_of_Binder/libhwbinder/Parcel.cpp:447-617 | any list of values written into an empty parcel with whatever growth that takes leaves exactly their encodings, and succeeds if memory lasts and the whole is not too large |
| ParcelData.Parcel.ReadValue | Operating_System/Android_Develop/Concise_Analysis_of_the_Android_Framework_Kernel/Chapter_1_In-depth_Analysis_of_Binder/libhwbinder/Parcel.cpp:897-1132 | reading does exactly what the decoding says, position included |
| ParcelData.Parcel.ReadString16 | Operating_System/Android_Develop/Concise_Analysis_of_the_Android_Framework_Kernel/Chapter_1_In-depth_Analysis_of_Binder/libhwbinder/Parcel.cpp:1143-1191 | the same for 16-bit strings and the null string |
| ParcelData.Parcel.ReadAll | Operating_System/Android_Develop/Concise_Analysis_of_the_Android_Framework_Kernel/Chapter_1_In-depth_Analysis_of_Binder/libhwbinder/Parcel.cpp:897-1191 | the same for a list of readers |
| ParcelData.Parcel.WriteThenRead | Operating_System/Android_Develop/Concise_Analysis_of_the_Android_Framework_Kernel/Chapter_1_In-depth_Analysis_of_Binder/libhwbinder/Parcel.cpp:447-1191 | on the object: a list written, the position set back, the same kinds read: the same values, and the position at the end of the data |
| ParcelData.StrayWrite | Operating_System/Android_Develop/Concise_Analysis_of_the_Android_Framework_Kernel/Chapter_1_In-depth_Analysis_of_Binder/libhwbinder/Parcel.cpp:447-507 | a run on a fresh parcel that ends in a write outside the buffer |
| ParcelData.SilentRefusal | Operating_System/Android_Develop/Concise_Analysis_of_the_Android_Framework_Kernel/Chapter_1_In-depth_Analysis_of_Binder/libhwbinder/Parcel.cpp:447-461 | a block of INT32_MAX - 1 bytes written to a fresh parcel: OK, and nothing written |
| ParcelObjects.ObjectTable.UpdateCache | Operating_System/Android_Develop/Concise_Analysis_of_the_Android_Framework_Kernel/Chapter_1_In-depth_Analysis_of_Binder/libhwbinder/Parcel.cpp:774-792 | the incremental cache equals a full scan of the object table |
| ParcelObjects.ObjectTable.WriteObject | Operating_System/Android_Develop/Concise_Analysis_of_the_Android_Framework_Kernel/Chapter_1_In-depth_Analysis_of_Binder/libhwbinder/Parcel.cpp:625-691 | at any position, listed ones included: an object is listed unless it is null; a descriptor is refused when not allowed; the cache is still what a scan of its prefix gives exactly if no cached object is overwritten by one that looks different to it; appending keeps the table ascending |
| ParcelObjects.RescanTells | Operating_System/Android_Develop/Concise_Analysis_of_the_Android_Framework_Kernel/Chapter_1_In-depth_Analysis_of_Binder/libhwbinder/Parcel.cpp:774-792 | two tables scan to the same cache exactly if they look the same to it, object by object |
| ParcelObjects.StaleCache | Operating_System/Android_Develop/Concise_Analysis_of_the_Android_Framework_Kernel/Chapter_1_In-depth_Analysis_of_Binder/libhwbinder/Parcel.cpp:774-792 | a run that overwrites a cached buffer object in place and leaves the cache stale |
| ParcelObjects.ObjectTable.Truncate | Operating_System/Android_Develop/Concise_Analysis_of_the_Android_Framework_Kernel/Chapter_1_In-depth_Analysis_of_Binder/libhwbinder/Parcel.cpp:1821-1922 | exactly the objects at or beyond the new size go, and hint and cache are reset if any does |
| ParcelObjects.ObjectTable.FindBuffer | Operating_System/Android_Develop/Concise_Analysis_of_the_Android_Framework_Kernel/Chapter_1_In-depth_Analysis_of_Binder/libhwbinder/Parcel.cpp:794-823 | found exactly if some listed buffer object contains the range, by the machine's additions, and then it is the latest such; a pointer that only touches one is told apart |
| ParcelObjects.WithinPlain | Operating_System/Android_Develop/Concise_Analysis_of_the_Android_Framework_Kernel/Chapter_1_In-depth_Analysis_of_Binder/libhwbinder/Parcel.cpp:794-823 | where no addition wraps that is plain inclusion of the range in the buffer |
| ParcelObjects.ObjectTable.Search | Operating_System/Android_Develop/Concise_Analysis_of_the_Android_Framework_Kernel/Chapter_1_In-depth_Analysis_of_Binder/libhwbinder/Parcel.cpp:1256-1300 | with an ascending table the walk forward from the hint and then back succeeds exactly if the position is listed, whatever the hint |
| ParcelObjects.SearchFails | Operating_System/Android_Develop/Concise_Analysis_of_the_Android_Framework_Kernel/Chapter_1_In-depth_Analysis_of_Binder/libhwbinder/Parcel.cpp:1256-1300 | two walks that met nothing leave no index where the position could be |
| ParcelObjects.ObjectTable.ReadObject | Operating_System/Android_Develop/Concise_Analysis_of_the_Android_Framework_Kernel/Chapter_1_In-depth_Analysis_of_Binder/libhwbinder/Parcel.cpp:1218-1310 | an object within the data is returned exactly if it is null or listed |
| ParcelObjects.ListedOrExempt | Operating_System/Android_Develop/Concise_Analysis_of_the_Android_Framework_Kernel/Chapter_1_In-depth_Analysis_of_Binder/libhwbinder/Parcel.cpp:625-691 | the rule of the writer and the rule of the reader complement each other except for an object without binder that carries a cookie |
| Numbers.SpfProduct | Programming/C_CPP/Pointers_On_C/Chapter Six Pointers/Program Exercise 6.18/Question4_5_6.c:52-59 | times a prime no larger than its smallest prime factor, that prime becomes the smallest one |
| Numbers.CompositeSplits | Programming/C_CPP/Pointers_On_C/Chapter Six Pointers/Program Exercise 6.18/Question4_5_6.c:52-59 | every composite is such a product, in exactly one way |
| Sieve.StrikesOnce | Programming/C_CPP/Pointers_On_C/Chapter Six Pointers/Program Exercise 6.18/Question4_5_6.c:52-59 | what a round of the linear sieve marks is composite, has the round's number as cofactor of its smallest prime, and no earlier round marked it |
| Sieve.RoundEnds | Programming/C_CPP/Pointers_On_C/Chapter Six Pointers/Program Exercise 6.18/Question4_5_6.c:52-59 | whichever of its three ways the inner loop ends, the round marked everything with its cofactor below the bound |
| Sieve.UnstruckIsPrime | Programming/C_CPP/Pointers_On_C/Chapter Six Pointers/Program Exercise 6.18/Question4_5_6.c:47-50 | a number is unmarked when its round comes exactly if it is prime |
| Sieve.Table.Strike | Programming/C_CPP/Pointers_On_C/Chapter Six Pointers/Program Exercise 6.18/Question4_5_6.c:52-59 | one round adds exactly its marks, each to an unmarked number and by its smallest prime factor |
| Sieve.Table.EulerSieve | Programming/C_CPP/Pointers_On_C/Chapter Six Pointers/Program Exercise 6.18/Question4_5_6.c:43-61 | for every bound: the primes below it in ascending order, marks on exactly the composites, each marked once and by its smallest prime factor |
| Sieve.Table.EratosthenesSieve | Programming/C_CPP/Pointers_On_C/Chapter Six Pointers/Program Exercise 6.18/Question4_5_6.c:27-40 | the plain sieve gives the same primes and marks |
| Sieve.Table.Sift | Programming/C_CPP/Pointers_On_C/Chapter Six Pointers/Program Exercise 6.18/Question4_5_6.c:34-37 | the inner loop marks exactly the larger multiples |
| AvlModel.InsertKeys | Programming/Data_Structure_and_Algorithms/Data_Structure/Tree/BinaryBalanceTree.c:103-146 | on any tree insertion adds the key and no other, and keeps a search tree a search tree |
| AvlModel.InsertGrows | Programming/Data_Structure_and_Algorithms/Data_Structure/Tree/BinaryBalanceTree.c:103-146 | on a balanced tree with exact heights the result is balanced with exact heights and at most one higher |
| AvlModel.GrowLeft | Programming/Data_Structure_and_Algorithms/Data_Structure/Tree/BinaryBalanceTree.c:123-143 | a node out of balance after an insertion on its left falls under one of the four cases, and that rotation restores balance |
| AvlModel.GrowRight | Programming/Data_Structure_and_Algorithms/Data_Structure/Tree/BinaryBalanceTree.c:123-143 | the same on its right |
| AvlModel.Reassociate | Programming/Data_Structure_and_Algorithms/Data_Structure/Tree/BinaryBalanceTree.c:71-101 | rotating keeps the keys and the search order, both ways |
| AvlModel.InsertAvl | Programming/Data_Structure_and_Algorithms/Data_Structure/Tree/BinaryBalanceTree.c:103-146 | for every AVL tree and key: an AVL tree with the key added whose stored height is its real one, at most one more than before |
| AvlTree.LeftRotate | Programming/Data_Structure_and_Algorithms/Data_Structure/Tree/BinaryBalanceTree.c:71-85 | relinking in place: the right child becomes the root of the same nodes, shaped as the rotated tree |
| AvlTree.RightRotate | Programming/Data_Structure_and_Algorithms/Data_Structure/Tree/BinaryBalanceTree.c:87-101 | the mirror image |
| AvlTree.Settle | Programming/Data_Structure_and_Algorithms/Data_Structure/Tree/BinaryBalanceTree.c:116-145 | height and the four cases in the order of the code |
| AvlTree.InsertNode | Programming/Data_Structure_and_Algorithms/Data_Structure/Tree/BinaryBalanceTree.c:103-146 | on linked nodes: keeps every node, stays a proper tree, and its shape is that of the insertion on values |

## Left out

- AllocSteps.Locate: stands for following a buffer pointer; buffers are values in a list, named by address or position, so pointer aliasing is not modelled.
- SizeTree.InsertOrdered: the trees are unbalanced; colours and rotations of the kernel's red-black trees are not modelled, only order and membership.
- BinderAlloc.Alloc.NewBuf: the search of the source updates statistics and detects spammers on low async space; neither changes the allocator and neither is modelled, nor is `pages_high`.
- BinderAlloc.Alloc.FreePage: the case of a page freed meanwhile cannot arise here because a step is atomic; the real function drops the allocator's lock before it frees the page.
- BinderAlloc.Alloc.DeferredRelease: requires what its BUG_ONs on the mapping and on pending transactions require; that the driver ensures it is not part of this model.
- BinderAlloc.Alloc.FreeBufLocked: requires an allocated buffer without pending transaction, as its BUG_ONs do.
- CallDriver.Driver.ProcTransaction: the waiting thread that is woken is a parameter; the order of the list of waiting threads is not modelled.
- CallDriver.Driver.HandReply: the reply transaction is a work item, not a call of its own; its buffer and its own delivery failure are not modelled.
- CallDriver.Driver.ReleaseStack: which buffers are detached from the transactions is not modelled; buffers are the allocator's business.
- CallDriver.Driver.ThreadRelease: requires a thread that is not inside another operation; the driver calls it at thread exit or file release.
- CallDriver.Driver.Others: others do not act for the thread whose operation is under way, and no two of them fail the same call; a thread is in one system call at a time, and a failing call has one holder.
- CallDriver.Driver.Deliver: install failure and write failure of a delivered call are one choice (`ok`), since both end in a failed reply.
- RefTable.NodeTable.ReadNodeWork: the commands written to user space (BR_INCREFS, BR_ACQUIRE, BR_RELEASE, BR_DECREFS) are left out; they follow the flags.
- Conservation.SendThenFree: nothing comes between send and free here; with others in between the steps are those of `RefTable.NodeTable`, each with its exact effect.
- RefTable.NodeTable.TranslateNext: one object's translation, one object's release and the release of one node are single steps, although the driver takes and drops locks within them.
- RefTable.NodeTable.ReleaseNext: what a handle in a buffer stands for is looked up when it is given back, as the driver does; that user space did not drop it before is not assumed, and then nothing is given back.
- RefTable.NodeTable.BeginDeath: requires that no thread of the process is inside the driver, which the release of the file guarantees.
- Fixups.TranslateObjects: objects are records at given offsets; reading one from raw bytes and its size and alignment checks are left out, an unreadable object being refused before the step.
- Fixups.StepObject: whether descriptors of an array can be translated is a parameter.
- One-way calls are those of one process and its nodes; the release of a dead node's waiting calls is left out.
- OneWay.Process.Deliver: a call left behind keeps its buffer until the process dies; the free at process death is left out.
- Death notifications are those of one process; the deaths of nodes elsewhere are events.
- ParcelData.Parcel.WriteInplace: a retry outside the buffer is an outcome (`Outside`), after which nothing is claimed about memory; malloc of 0 bytes is taken to give a pointer that is not null.
- ParcelData.Parcel.ContinueWrite: the owner-switching branch is modelled for the object table only (`ParcelObjects.ObjectTable.Truncate`).
- ParcelData.Parcel.WriteAligned: numbers of 4 and 8 bytes in little-endian order; floats and doubles are bit patterns and not modelled separately.
- ParcelObjects.ObjectTable.WriteObject: the growth of the arrays that hold the table is one choice (`memOk`); reference counts taken on objects by user space are left out; headers are kept by position, so overlapping headers do not affect each other.
- ParcelObjects.ObjectTable.ReadObject: header types are as found; casting a position to a type it was not written with is left out.
- Sieve.Table.EulerSieve: numbers are unbounded; the source's int products stay below its bound of array cells except for the test `i * primes[j] < N`, which could overflow for bounds above 46340.
- AvlTree.InsertNode: heights and keys are unbounded integers, and allocation does not fail; the source does not check malloc.
- Locks, memory barriers, wait queues, scheduling priority, polling, RCU: each locked region is one step.
- Faults of user-space copies other than those named above, ioctl decoding, VMA handling, security hooks, file objects and descriptor installation: assumed or a parameter.
- Debug output, statistics, transaction logs, tracepoints, module and device set-up.
- `ServiceManager.cpp`, `IPCThreadState.cpp`, `ProcessState.cpp`: permission checks, driver calls and logging, with state rules easier than the driver's.
- AVL deletion, heaps, hash tables, sorts and book exercises of the repository: standard, or as written not meeting their intent.
