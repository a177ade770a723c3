# OpenRTOS: kernel and allocators

A verification project for the core of OpenRTOS, a FreeRTOS 10 kernel with Doug Lea's allocator. What works in place
in C works in place here: the pointer walks, list surgery, header words and critical sections are methods over memory,
fields and arrays, each proved against a value that says what it is for.

- The allocator (`mallocr.c`): bit tricks and bin indices (`Bits`, `TreeIndex`), the tree bins as tries of linked chunks
  (`Trie`, `TrieDepth`, `TreeLinks`, `TrieSearch`, `TreeBins`), the small bins (`SmallBins`), the header words that
  tile the segments (`Tags`, `Segments`, `Arena`), where each free chunk is kept (`Placement`), and on top of these
  malloc, free, realloc, memalign, the growing and the trimming of the heap (`Dlmalloc`, `Alignment`).
- The kernel's own pool (`heap_4.c`): `FreeList` and `Heap4`.
- Lists and time sharing (`list.c`): `Lists` links the rings, `RoundRobin` bounds how long a ready task is passed over.
- The scheduler (`tasks.c`): `Scheduler` keeps tasks in lists against a clock that never wraps; `Timeouts` does the
  same for time-outs and periodic delays.
- Queues, semaphores and mutexes (`queue.c`): `QueueRing` for the storage, `QueueProtocol` for blocking and waking
  over every interleaving of critical sections, `Mutexes` for ownership and priority inheritance.
- Stream and message buffers (`stream_buffer.c`): `StreamBuffer` for one call at a time, `StreamInterleaving` for a
  writer and a reader interleaved at every load and store.
- Event groups (`event_groups.c`) and co-routines (`croutine.c`): `EventGroups`, `CoRoutines`.

Words are natural numbers below 2^32, and every place where the source wraps or masks says so. Against a clock or
a count that never wraps the model keeps ghost values; the code reads only the wrapped ones. Memory is a map from
addresses to headers or links, null is 0. What the system, a caller or an interrupt decides is a parameter or an event.

Some of what the source or its comments promise does not hold for every input. For each such promise there is a lemma
with the exact condition under which it holds, and one with inputs, or a run from the initial state, for which it
does not:

- a time-out is noticed, unless two wraps of the tick counter hide it: `Timeouts.CheckExact`, `Timeouts.MissedExample`;
- a periodic delay is skipped once its wake time is over, unless a full count of ticks has elapsed:
  `Timeouts.DelayUntilExact`, `Timeouts.DelayUntilLate`;
- resetting a queue wakes enough senders, unless two or more wait and the queue is longer than the senders already
  woken plus one: `QueueProtocol.ResetExact`, `QueueProtocol.ResetLosesWakeup`;
- the 8-bit lock counts record all that interrupts do to a locked queue, up to 127 operations:
  `QueueProtocol.LockCountExact`, `QueueProtocol.RxLockCountExact` and the runs of 128;
- priority inheritance keeps every holder at or above the tasks that wait for its mutex, but for three cases: a holder
  inherits a priority while it waits itself for a mutex held below that priority; a task takes a free mutex while a
  higher one is still in its event list; a wait is given up while a task behind the head of the event list is above
  both the head and the holder's base priority. `Mutexes.ServeExact` says so for every event and
  `Mutexes.HolderNeverOutranked` for every run, with `Mutexes.ChainInverts`, `Mutexes.GiveUpInverts` and
  `Mutexes.TakeInverts`;
- the rounding of an alignment ends, for alignments up to 2^31 and no others: `Alignment.DoublingEnds`;
- a receiver without room for a message puts its length back, unless the writer has claimed the space meanwhile:
  `StreamInterleaving.GoingBackExact`, `StreamInterleaving.RaceLosesMessages`;
- the number of steps in a tree bin is at most 21 (`mallocr.c:2462-2466`), in every bin but the last, where it can be
  29: `TrieDepth.StepsExact`.

## Model

| member | source | states |
|---|---|---|
| Bits.LeastBitIsLowest | openrtos/malloc/mallocr.c:3003 | x & -x of a non-zero word is the power of 2 of its lowest set bit, and that bit is below 32 |
| Bits.LeftBitsAbove | openrtos/malloc/mallocr.c:3005-3006 | masking a bin map with left_bits of bin i keeps exactly the marked bins above i, bin 31 included, where the shift runs out of the word |
| Bits.Bit2IdxExact | openrtos/malloc/mallocr.c:3041-3051 | the narrowing shifts of compute_bit2idx return j on the word 2^j, for every j below 32 |
| Bits.FirstMarked | openrtos/malloc/mallocr.c:3003-3051 | compute_bit2idx of least_bit of a non-empty map is a marked bin, and no bin below it is marked |
| Bits.MarkIsUpdate | openrtos/malloc/mallocr.c:2991-2998 | marking bin i in a map sets the mark of i and leaves every other mark as it is |
| Bits.ClearIsUpdate | openrtos/malloc/mallocr.c:2991-2999 | clearing bin i in a map resets the mark of i and leaves every other mark as it is |
| Bits.MaskLow | openrtos/malloc/mallocr.c:1681-1687 | masking with 2^k - 1 is the remainder by 2^k, for every number and every k |
| Bits.MaskHigh | openrtos/malloc/mallocr.c:2749-2751 | masking an n-bit number with the complement of 2^k - 1 drops its remainder by 2^k |
| TreeIndex.LeadingBitExact | openrtos/malloc/mallocr.c:2954-2970 | the three normalising steps of compute_tree_index and its last shift find the position of the leading one bit of every X from 1 to 0xFFFF |
| TreeIndex.TreeBinRange | openrtos/malloc/mallocr.c:2954-2971 | the index computed for a large size is a bin whose least size is not above that size, and the next bin's least size is above it |
| TreeIndex.TreeBinUnique | openrtos/malloc/mallocr.c:2954-2986 | the table of least sizes and compute_tree_index agree: a size lies between the least sizes of a bin and its successor only for the bin computed |
| TreeIndex.TreeBinMonotone | openrtos/malloc/mallocr.c:2954-2986 | a larger size never has a smaller bin, which the search in the next marked bin relies on |
| TreeIndex.BinIsRange | openrtos/malloc/mallocr.c:2439-2444 | the sizes of a bin are within the power-of-2 range that the bin's trie halves level by level |
| TreeIndex.KeyStart | openrtos/malloc/mallocr.c:2977-2980 | the size shifted by leftshift_for_tree_index, in 32-bit arithmetic, is the offset of the size in its bin's range scaled to the top of a word |
| TreeIndex.KeyStep | openrtos/malloc/mallocr.c:3738-3742 | the top bit of the key says which half of the current range the size is in, and doubling the key, in 32-bit arithmetic, gives the key for that half |
| TreeIndex.NormaliseExact | openrtos/malloc/mallocr.c:2961-2967 | the normalising steps shift out exactly the leading zeros that they count, from every start value above their floor |
| Trie.InsertShape | openrtos/malloc/mallocr.c:2431-2453 | inserting a size of the range keeps the trie: sizes are unique, each subtree has the sizes of its half, and no chunk is in two places |
| Trie.InsertSets | openrtos/malloc/mallocr.c:2431-2437 | insertion adds exactly the new chunk to the chunks held and its size to the sizes held |
| Trie.RemoveShape | openrtos/malloc/mallocr.c:2446-2452 | removal keeps the trie; the last chunk of a size is replaced by a leaf from below it |
| Trie.RemoveSets | openrtos/malloc/mallocr.c:2446-2452 | removal takes exactly the one chunk away and adds no size |
| Trie.DepthBound | openrtos/malloc/mallocr.c:2462-2466 | no path to a node is longer than the number of size bits that the bin resolves |
| Trie.OldestFirst | openrtos/malloc/mallocr.c:2431-2434 | chunks of one size leave in the order in which they came: a new one is chained as the youngest, and unhooking the tree member promotes the next oldest |
| Trie.PromoteShape | openrtos/malloc/mallocr.c:2450-2452 | moving the replacement leaf to the place of a removed interior node keeps the trie and loses exactly the node's own chunks and size |
| TrieDepth.StepsExact | openrtos/malloc/mallocr.c:2462-2466 | for every bin, the longest way to a node in a trie of chunk sizes of that bin takes exactly i / 2 + 4 steps, and 29 in the last bin, so that the bound of 21 holds for exactly the bins below the last |
| TrieDepth.AlignedDepth | openrtos/malloc/mallocr.c:2439-2444 | as chunk sizes are multiples of 8, no way to a node is longer than the bits of the range less three |
| TreeLinks.AttachLeaf | openrtos/malloc/mallocr.c:3743-3747 | the stores that hang a chunk below a tree member leave memory linking the tree with the new leaf, parent pointers and bin indices included |
| TreeLinks.AttachChain | openrtos/malloc/mallocr.c:3754-3761 | the stores that chain a chunk of an existing size leave memory linking the tree with the longer ring at that member |
| TreeLinks.UnhookMiddle | openrtos/malloc/mallocr.c:3792-3802 | unhooking a chained chunk leaves the ring of the others linked both ways, the tree member still in front |
| TreeLinks.UnhookFirst | openrtos/malloc/mallocr.c:3792-3802 | unhooking the tree member leaves the ring linked both ways with its bk neighbour in front |
| TreeLinks.CutLeaf | openrtos/malloc/mallocr.c:3805-3817 | clearing the child slot above a leaf cuts that leaf off and leaves the rest of the tree linked |
| TreeLinks.AdoptRep | openrtos/malloc/mallocr.c:3833-3856 | handing the parent and both children of a removed member over to its replacement links the tree with the replacement in its place |
| TrieSearch.RemainderTest | openrtos/malloc/mallocr.c:4522-4523 | the unsigned test that the remainder is below rsize holds exactly for sizes from nb up to nb + rsize, so that too small a chunk never passes it by wrapping |
| TrieSearch.BranchDown | openrtos/malloc/mallocr.c:4520-4537 | one step down the path of nb keeps the search invariant: every size not yet looked at is either on the path or in the deepest untaken right subtree, or no better than the best so far |
| TrieSearch.PathEnds | openrtos/malloc/mallocr.c:4530-4535 | when the path ends, only the deepest untaken right subtree can still hold a better fit |
| TrieSearch.StepLeft | openrtos/malloc/mallocr.c:2454-2460 | of a subtree of sizes that fit, only the left child, or the right one if there is no left, can hold a better fit than its root |
| TreeBins.TreeBins.constructor | openrtos/malloc/mallocr.c:3986-3994 | the tree bins start empty and consistent |
| TreeBins.TreeBins.InsertLargeChunk | openrtos/malloc/mallocr.c:3721-3770 | the pointer walk and stores end in linked tries equal to the insertion on values, with the bin map right, and the size map gains exactly the chunk with its size |
| TreeBins.TreeBins.UnlinkLargeChunk | openrtos/malloc/mallocr.c:3789-3858 | for a chained chunk, a tree member with a ring, an interior member and a leaf alike, memory ends linking the tries without the chunk, with roots and bin map right, and the size map loses exactly that chunk |
| TreeBins.TreeBins.DetachLastLeaf | openrtos/malloc/mallocr.c:3803-3818 | the descent that prefers the right child ends at a leaf below the member, which is cut off with the rest still linked, or finds that there is none |
| TreeBins.TreeBins.FindBestFit | openrtos/malloc/mallocr.c:4510-4556 | both loops together find a chunk of the least size that is at least nb among all tree bins, a tree member behind which others of its size are chained, with its remainder, or null exactly when every large chunk is smaller than nb |
| TreeBins.TreeBins.FindSmallest | openrtos/malloc/mallocr.c:4585-4596 | the leftmost walk from the first marked bin finds a chunk that no large chunk is smaller than, a tree member behind which others of its size are chained |
| TreeBins.TreeBins.InsertBelowRoot | openrtos/malloc/mallocr.c:3734-3769 | in a bin that is not empty the walk ends, at a free child slot or at a member of the same size, and the stores link the tree with the chunk there, every other bin's memory unchanged |
| TreeBins.TreeBins.TakeReplacement | openrtos/malloc/mallocr.c:3789-3818 | the first half of unlinking leaves the replacement ready: the bk neighbour of a ring, a leaf cut off below, or none |
| TreeBins.TreeBins.Relink | openrtos/malloc/mallocr.c:3819-3857 | the second half puts the replacement where the member was, in the root slot or below a parent, and clears the bin's mark exactly when the bin becomes empty |
| TreeBins.TreeBins.WalkPath | openrtos/malloc/mallocr.c:4516-4538 | the walk down the path of nb ends with the best fit seen and the one subtree in which a better one can still be |
| TreeBins.TreeBins.WalkLeft | openrtos/malloc/mallocr.c:4549-4556 | from the root of that subtree the leftmost path settles it: no size in the bin is a better fit than the one found |
| TreeBins.NextBin | openrtos/malloc/mallocr.c:4539-4547 | if nothing in the bin of nb fits, the bin computed from the map is the next non-empty one, or there is none above |
| TreeBins.SmallestBin | openrtos/malloc/mallocr.c:4585-4588 | the bin computed from the map is the first non-empty one, and its root is there |
| TreeBins.TreeBins.BranchAt | openrtos/malloc/mallocr.c:4528-4536 | a step of the walk goes to the child that the key names, sets the right child aside if the key names the left one, and ends with the last one set aside when there is no child |
| SmallBins.SmallBins.constructor | openrtos/malloc/mallocr.c:3986-3994 | the small bins start empty and consistent |
| SmallBins.SmallBins.InsertSmallChunk | openrtos/malloc/mallocr.c:3643-3659 | the chunk is the first of its bin, whose list stays linked both ways, the mark is set, and the size map gains exactly the chunk |
| SmallBins.SmallBins.UnlinkSmallChunk | openrtos/malloc/mallocr.c:3662-3703 | the chunk leaves its place in the bin's list, which stays linked both ways, the mark is cleared exactly when it was the last, and the size map loses exactly the chunk |
| SmallBins.SmallBins.First | openrtos/malloc/mallocr.c:4660-4663 | the first chunk of a marked bin is a chunk held, of exactly the size of that bin |
| SmallBins.RemainderlessTest | openrtos/malloc/mallocr.c:4656-4660 | the test of two bits finds a chunk in the bin of the request or the next, and the step by the complemented bit picks the first of the two that is marked |
| SmallBins.NextSmall | openrtos/malloc/mallocr.c:4672-4679 | if the shifted map is not empty, the bin computed from it is the first marked one, at least two above the bin of the request; if it is empty no bin from there up is marked |
| Placement.PlacedOnce | openrtos/malloc/mallocr.c:3496-3554 | a chunk is free exactly when it is dv, in a small bin or in a tree bin, and it is in only one of the three |
| Tags.Recut | openrtos/malloc/mallocr.c:3122-3140 | cutting a run of neighbouring chunks anew, at other places, keeps the header invariant of the whole heap, provided the new chunks are right inside the run and the words around it agree with them |
| Tags.CutOne | openrtos/malloc/mallocr.c:3127-3140 | a run turned into one chunk, in use or free, with the word behind it rewritten, keeps the invariant and the size of top |
| Tags.CutTwo | openrtos/malloc/mallocr.c:4565-4570 | a run turned into a chunk in use and a second chunk, in use or free, keeps the invariant and the size of top |
| Tags.CutNewTop | openrtos/malloc/mallocr.c:4810-4813 | a run that ends in top turned into a new top keeps the invariant |
| Tags.CutUseThenTop | openrtos/malloc/mallocr.c:4734-4739 | a run that ends in top turned into a chunk in use and a new top keeps the invariant |
| Segments.SegmentTiled | openrtos/malloc/mallocr.c:3496-3526 | every address of a segment between its first chunk and its trailer lies in exactly one chunk |
| Segments.FreeIsolated | openrtos/malloc/mallocr.c:2218-2224 | the chunks before and behind a free chunk are in use, and the word behind it holds its size, from which it is found again |
| Segments.PayloadsApart | openrtos/malloc/mallocr.c:3326-3334 | the payloads of two chunks in use, which may extend into the next chunk's foot word, do not overlap |
| Segments.MoveTiled | openrtos/malloc/mallocr.c:4281-4285 | growing or trimming top's segment at its end keeps the header invariant |
| Segments.DownAll | openrtos/malloc/mallocr.c:4292-4298 | growing a segment downwards, the new region being one chunk in use, keeps the header invariant |
| Segments.AddedTiled | openrtos/malloc/mallocr.c:4058-4108 | a new segment with its own top, the record and fenceposts at the end of the old one, and old top left as a free chunk, keep the header invariant |
| Arena.Arena.SetInuse | openrtos/malloc/mallocr.c:3132-3135 | a run becomes one chunk in use and the heap stays tiled; the maps of free and used chunks lose the run and gain that chunk |
| Arena.Arena.SetFreeWithPinuse | openrtos/malloc/mallocr.c:2363-2365 | a run before a chunk in use becomes one free chunk, that chunk's PINUSE bit included, and the heap stays tiled |
| Arena.Arena.SetFree | openrtos/malloc/mallocr.c:2359-2361 | the same where the word behind already says that the chunk before is free |
| Arena.Arena.SplitFree | openrtos/malloc/mallocr.c:4568-4569 | a free chunk becomes a chunk in use of nb bytes and a free remainder, and the heap stays tiled |
| Arena.Arena.SplitInuse | openrtos/malloc/mallocr.c:4900-4902 | a run becomes two chunks in use, and the heap stays tiled |
| Arena.Arena.SplitLeader | openrtos/malloc/mallocr.c:5011-5012 | leading space of a chunk in use is cut off as a chunk in use of its own, in the order of the two stores, and the heap stays tiled |
| Arena.Arena.GrowInto | openrtos/malloc/mallocr.c:4923-4931 | a chunk in use takes part of the free space behind it, the rest stays free, and the heap stays tiled |
| Arena.Arena.GrowIntoTop | openrtos/malloc/mallocr.c:4908-4915 | a chunk in use takes the front of top, top being what remains, and the heap stays tiled |
| Arena.Arena.SplitTop | openrtos/malloc/mallocr.c:4734-4739 | the front of top becomes a chunk in use, top is smaller by it, and no other chunk changes |
| Arena.Arena.JoinTop | openrtos/malloc/mallocr.c:4810-4813 | a freed run before top joins it, with the sizes added, and the heap stays tiled |
| Arena.Arena.SegmentHolding | openrtos/malloc/mallocr.c:2773-2782 | the walk over the segment list returns a segment that holds the address |
| Arena.Arena.InitTop | openrtos/malloc/mallocr.c:3969-3984 | top starts at the aligned address, its size is smaller by the alignment, the trailer's word follows it, and the trim threshold is reset |
| Arena.Arena.AddFirst | openrtos/malloc/mallocr.c:4252-4263 | the first region becomes a tiled segment that is all top, with nothing else free or in use |
| Arena.Arena.Append | openrtos/malloc/mallocr.c:4279-4284 | a region behind top's segment adds its size to top and changes no chunk |
| Arena.Arena.AddSegment | openrtos/malloc/mallocr.c:4058-4108 | the new region holds top; old top becomes a free chunk exactly when it is large enough to be one; no chunk in use changes |
| Arena.Arena.InsertFenceposts | openrtos/malloc/mallocr.c:4086-4095 | the loop ends, and writes a fencepost into every word from the start up to the last whose successor lies in the segment, and into no other |
| Arena.Arena.PrependFree | openrtos/malloc/mallocr.c:4023-4048 | the front of a region below a segment becomes a chunk in use, and the rest, with a free first chunk, one free chunk; the heap stays tiled |
| Arena.Arena.PrependToTop | openrtos/malloc/mallocr.c:4030-4034 | where the first chunk of the segment is top, the rest of the region joins top, and the heap stays tiled |
| Arena.Arena.GiveBack | openrtos/malloc/mallocr.c:4416-4420 | top shrinks by the bytes released and nothing else changes |
| Arena.Arena.RetireTop | openrtos/malloc/mallocr.c:4098-4105 | old top in front of the segment record becomes a free chunk, or is the record's place if it is too small |
| Alignment.PowerTest | openrtos/malloc/mallocr.c:4970 | for a positive number, n & (n - 1) is 0 exactly when n is a power of 2 |
| Alignment.DoublingEnds | openrtos/malloc/mallocr.c:4970-4974 | the loop that doubles the alignment ends exactly for alignments up to 2^31; above, the word wraps to 0 and stays there |
| Alignment.RoundAlignment | openrtos/malloc/mallocr.c:4968-4974 | the alignment used is the least power of 2 that is at least 16 and the alignment asked for |
| Alignment.Masks | openrtos/malloc/mallocr.c:4988-4999 | for a power of 2, masking a word with a - 1 takes its remainder, and masking it with -a drops it |
| Dlmalloc.RequestFacts | openrtos/malloc/mallocr.c:2302-2309 | the padded size is a multiple of 8 that holds the bytes and a header word, with less than 8 bytes to spare or the minimum size; it is a small size exactly for small requests, and cannot be met from MAX_REQUEST on |
| Dlmalloc.MallocState.constructor | openrtos/malloc/mallocr.c:3986-3994 | the state starts valid and empty, with no segment and no top |
| Dlmalloc.MallocState.InsertChunk | openrtos/malloc/mallocr.c:3862-3864 | the chunk goes to the one bin that its size asks for |
| Dlmalloc.MallocState.UnlinkChunk | openrtos/malloc/mallocr.c:3866-3868 | the chunk leaves its bin, and every other free chunk stays where it is kept |
| Dlmalloc.MallocState.ReplaceDv | openrtos/malloc/mallocr.c:3707-3716 | the new chunk is dv, and the old dv, if any, is in its small bin |
| Dlmalloc.MallocState.ConsolidateBackward | openrtos/malloc/mallocr.c:4781-4806 | a free chunk before the one freed is found through its foot word, leaves its bin unless it is dv, and joins the run |
| Dlmalloc.MallocState.ConsolidateForward | openrtos/malloc/mallocr.c:4808-4838 | before top, dv or a binned chunk, the freed run joins it: top or dv moves to the front of the run, or one free chunk is kept where its size asks for; only the freed chunk leaves the chunks in use |
| Dlmalloc.MallocState.DisposeChunk | openrtos/malloc/mallocr.c:4439-4505 | exactly the chunk given leaves the chunks in use, and with the free chunks on either side becomes one free chunk or the front of top, dv keeping its role if it is one of them; the whole state stays valid: tiled, coalesced, every free chunk in its place |
| Dlmalloc.MallocState.TmallocLarge | openrtos/malloc/mallocr.c:4510-4578 | it declines, with nothing changed, exactly when no large chunk fits better than dv; otherwise a best fit of all tree bins, strictly better than dv if dv fits, serves the request, cut where a whole chunk is left, and nothing else changes |
| Dlmalloc.MallocState.TmallocSmall | openrtos/malloc/mallocr.c:4581-4616 | a smallest large chunk serves the request, where no small chunk fits; what makes a whole chunk of the rest becomes dv |
| Dlmalloc.MallocState.TakeExact | openrtos/malloc/mallocr.c:4658-4669 | the first chunk of a remainderless fit, which no binned chunk that fits is smaller than, serves the request whole, and nothing else changes |
| Dlmalloc.MallocState.TakeSmall | openrtos/malloc/mallocr.c:4672-4696 | the first chunk of the next marked small bin, which no binned chunk that fits is smaller than, serves the request, and its remainder becomes dv |
| Dlmalloc.MallocState.TakeDv | openrtos/malloc/mallocr.c:4714-4732 | dv serves the request, split where a whole chunk is left, which is then dv, and whole otherwise, when there is no dv any more |
| Dlmalloc.MallocState.PrependAlloc | openrtos/malloc/mallocr.c:4016-4055 | a chunk of nb bytes at the aligned start of the region serves the request; the segment grows to the front, and the rest of the region joins its old first chunk if that is top, dv or free, and is a free chunk if not |
| Dlmalloc.MallocState.AddSegment | openrtos/malloc/mallocr.c:4058-4108 | a new first segment holds top, old top is a free chunk if it is large enough, and nothing else changes |
| Dlmalloc.MallocState.FindSegment | openrtos/malloc/mallocr.c:4276-4291 | the walk returns the first segment that ends, or starts, at the address, or the end of the list if there is none |
| Dlmalloc.MallocState.SysAlloc | openrtos/malloc/mallocr.c:4113-4319 | nothing changes if the system refuses; else the region continues top, is put in front of a segment, which serves the request at once, or is a new segment that holds top, and the front of top serves exactly if it is large enough; whenever the system grants the padded size the request is served |
| Dlmalloc.MallocState.MallocFromBins | openrtos/malloc/mallocr.c:4651-4712 | a binned chunk serves that no other one that fits is smaller than and that comes first of its size; none does exactly when dv is to serve, or no free chunk is large enough, and then nothing changes |
| Dlmalloc.MallocState.Malloc | openrtos/malloc/mallocr.c:4620-4754 | the pointer is aligned to 8 and its chunk was not in use; a binned chunk serves only if no binned chunk that fits is smaller, dv exactly if it fits and no binned chunk is to be preferred, and top and then the system only if no free chunk fits; the chunk is cut where a whole chunk is left, which becomes dv for a small request or if it was dv; all other chunks stay as they are; null is returned only when no free chunk is large enough and top is not larger than nb, and never when the system grants what is asked for |
| Dlmalloc.MallocState.Free | openrtos/malloc/mallocr.c:4758-4865 | exactly the freed chunk leaves the chunks in use and joins its free neighbours or top; dv, if there is one, only grows or joins top; a top that grew over the threshold is trimmed; the state stays valid, and a null pointer changes nothing |
| Dlmalloc.MallocState.SysTrim | openrtos/malloc/mallocr.c:4371-4434 | if the system takes memory back, exactly the units above the pad and the trailer but one are released, top shrinks by them and nothing else changes; the trim threshold is reset by a release, and put out of reach by a failure above it |
| Dlmalloc.TrimUnits | openrtos/malloc/mallocr.c:4378-4381 | the bytes to release are whole units, none negative, and less than the room above the pad |
| Dlmalloc.MallocState.TryReallocChunk | openrtos/malloc/mallocr.c:4887-4964 | it succeeds exactly when the chunk is large enough or top or the free chunk behind makes up for the rest; then the chunk has nb to nb + 15 bytes, what makes a whole chunk of the rest is freed or stays free, as dv if it was dv, and no other chunk in use changes; otherwise nothing changes at all |
| Dlmalloc.MallocState.Realloc | openrtos/malloc/mallocr.c:5261-5304 | in place whenever the room allows; else the request is served as dlmalloc serves it and then the old chunk is freed; a request too large for any chunk fails with nothing changed, and any other only if there is no room in place, no free chunk is large enough and top is not larger than nb, never when the system grants what is asked for, and then no chunk in use changes; without an old pointer it does what dlmalloc does |
| Dlmalloc.MallocState.Memalign | openrtos/malloc/mallocr.c:4966-5038 | the pointer is a multiple of the least power of 2 that is at least 16 and the alignment asked for; a chunk of the padded request is allocated as by dlmalloc and cut to the first aligned place and to nb to nb + 16 bytes, leader and spare room being freed; a request too large for any chunk fails with nothing changed, and any other only if no free chunk and not top is large enough for the padded request, never when the system grants that, and then no chunk in use changes |
| Dlmalloc.MallocState.AlignChunk | openrtos/malloc/mallocr.c:4988-5016 | a pointer that is aligned stays; else it moves to the first aligned place with at least a whole chunk before it, which is freed, and nb bytes still fit |
| Dlmalloc.MallocState.TrimSpare | openrtos/malloc/mallocr.c:5018-5028 | exactly the room beyond nb bytes is freed if it is more than a minimal chunk, and nothing changes if not |
| Dlmalloc.PadRequest | openrtos/malloc/mallocr.c:2303-2304 | the mask rounds the bytes with their header word up to the next multiple of 8 |
| Dlmalloc.GranularityAlign | openrtos/malloc/mallocr.c:2749-2751 | the mask rounds up to a multiple of the granularity, in 32-bit arithmetic, for every granularity that is a power of 2 |
| Dlmalloc.NothingFits | openrtos/malloc/mallocr.c:4620-4712 | where neither the bins nor dv hold a chunk that fits, no free chunk of the heap does |
| Dlmalloc.MallocState.TakeLarge | openrtos/malloc/mallocr.c:4558-4573 | an unlinked large chunk serves the request, its remainder, if it makes a chunk, goes to the bin that its size asks for, and nothing else changes |
| Dlmalloc.MallocState.ServeKeepingRest | openrtos/malloc/mallocr.c:4598-4611 | an unlinked chunk serves a small request, its remainder, if it makes a chunk, becomes dv and the old dv goes to its small bin |
| Dlmalloc.MallocState.FindNextSmall | openrtos/malloc/mallocr.c:4672-4683 | the chunk chosen is the first of its bin, no binned chunk that fits is smaller, and it is large enough to leave a whole chunk |
| Dlmalloc.MallocState.MallocOutsideBins | openrtos/malloc/mallocr.c:4714-4746 | dv serves if it is large enough, else the front of top if that is larger, else the system is asked; null means that none of them was large enough and that no chunk in use has changed |
| Dlmalloc.MallocState.Extend | openrtos/malloc/mallocr.c:4247-4315 | a region that starts where the segment of top ends is added to top; any other one is put in front of the segment that starts where it ends and serves the request, or is a new segment that holds top |
| Dlmalloc.MallocState.PrependToBin | openrtos/malloc/mallocr.c:4041-4051 | the remainder of the region, joined with a free first chunk of the segment, is one free chunk in its bin |
| Dlmalloc.MallocState.JoinBinned | openrtos/malloc/mallocr.c:4828-4848 | a binned chunk behind leaves its bin and joins the freed run, which is dv already or goes to a bin |
| Dlmalloc.MallocState.JoinDv | openrtos/malloc/mallocr.c:4822-4827 | dv behind the freed run grows to the front by exactly that run |
| Dlmalloc.MallocState.ShrinkChunk | openrtos/malloc/mallocr.c:4897-4906 | a chunk that is large enough keeps nb bytes, and a remainder that makes a chunk is freed and coalesced |
| Dlmalloc.MallocState.GrowIntoDv | openrtos/malloc/mallocr.c:4919-4939 | the chunk grows into dv, which keeps what makes a chunk or goes altogether |
| Dlmalloc.MallocState.GrowIntoNext | openrtos/malloc/mallocr.c:4941-4957 | the chunk grows into the free chunk behind it, and a remainder that makes a chunk is freed and coalesced |
| Dlmalloc.MallocState.MoveAway | openrtos/malloc/mallocr.c:5293-5299 | the request is served as dlmalloc serves it and then the old chunk is freed; it fails only where dlmalloc does, and then nothing in use changes |
| Dlmalloc.MallocState.DropLeader | openrtos/malloc/mallocr.c:5010-5014 | the leader is freed and coalesced, and the rest of the chunk stays in use |
| Dlmalloc.LeaderFits | openrtos/malloc/mallocr.c:4997-5003 | the aligned place, or the next, leaves a leader of at least a whole chunk and not more than the alignment and 8 bytes |
| Dlmalloc.MallocState.SmallFromBins | openrtos/malloc/mallocr.c:4651-4703 | a small request is served by a remainderless fit, kept for dv, or served by the smallest binned chunk that fits, in this order; dv is left to serve exactly when it is large enough and no small bin has a remainderless fit, and nothing is served from the bins when no free chunk fits |
| Dlmalloc.MallocState.LargeFromBins | openrtos/malloc/mallocr.c:4706-4712 | a large request is served by a best fit of all binned chunks unless dv fits at least as well; dv is left to serve exactly then |
| Dlmalloc.MallocState.FindExact | openrtos/malloc/mallocr.c:4656-4664 | the chunk of the remainderless fit is the first of its bin, at most 8 bytes more than asked for, and no binned chunk that fits is smaller |
| Dlmalloc.MallocState.ExtendAside | openrtos/malloc/mallocr.c:4285-4301 | a region that does not continue top is put in front of the one segment that starts where it ends, and serves the request, or becomes a new first segment that holds top, with old top a free chunk if it can be one |
| Dlmalloc.MallocState.JoinTop | openrtos/malloc/mallocr.c:4810-4817 | the freed run becomes the front of top, with the sizes added, and dv is given up exactly if it was part of the run |
| Dlmalloc.MallocState.FreeBinned | openrtos/malloc/mallocr.c:4839-4846 | the freed run, with a binned chunk before it, is one free chunk in the bin of its size; dv stays as it is |
| Dlmalloc.MallocState.FreeDv | openrtos/malloc/mallocr.c:4797-4801 | dv before the freed chunk grows over it |
| Dlmalloc.MallocState.AlignAndTrim | openrtos/malloc/mallocr.c:4988-5028 | the chunk is cut to the first aligned place that leaves nothing or a whole chunk before it, and to the size asked for with at most a minimal chunk more |
| Dlmalloc.EnlargedCovers | openrtos/malloc/mallocr.c:4247-4315 | whether the region continues top or becomes a segment, the addresses of all segments grow by exactly those of the region |
| Dlmalloc.PrependedCovers | openrtos/malloc/mallocr.c:4295-4300 | so they do where the region is put in front of a segment |
| Dlmalloc.TrimExtra | openrtos/malloc/mallocr.c:4376-4383 | what is asked back is less than the room, and whole units that leave at most one unit of it, unless half the address space limits it |
| FreeList.CanonicalUnique | openrtos/openrtos/heap_4.c:390-448 | two address-ordered, fully coalesced free lists that cover the same bytes are the same list |
| FreeList.AllFree | openrtos/openrtos/heap_4.c:342-387 | the coalesced list that covers the whole pool is the single initial block |
| FreeList.MergedCanonical | openrtos/openrtos/heap_4.c:390-448 | inserting a block between its neighbours, merged with those that touch it, keeps the list ordered and coalesced |
| FreeList.MergedCovers | openrtos/openrtos/heap_4.c:390-448 | the insertion makes exactly the block's own bytes free |
| FreeList.MergedTotal | openrtos/openrtos/heap_4.c:390-448 | the insertion adds the block's size to the total of the free bytes, however it merges |
| Heap4.Heap.constructor | openrtos/openrtos/heap_4.c:342-387 | for any start address and size the pool lies inside the region, loses less than 8 bytes at either end, and starts as one free block that is all its free bytes |
| Heap4.Heap.InsertBlock | openrtos/openrtos/heap_4.c:390-448 | the walk stops at the place of the block, and the stores leave the headers linking the list with the block merged in; no header outside the free blocks is touched |
| Heap4.Heap.Search | openrtos/openrtos/heap_4.c:165-172 | the walk stops at the lowest block that is large enough, with its predecessor, or at the end marker if there is none |
| Heap4.Heap.Malloc | openrtos/openrtos/heap_4.c:113-236 | the lowest block that is large enough is used, split when more than 16 bytes are left; the pointer is 8-aligned, the block was not allocated before, and exactly its bytes leave the free ones and the count of free bytes, whose lowest value ever is kept; on refusal nothing changes |
| Heap4.Heap.Free | openrtos/openrtos/heap_4.c:272-321 | exactly the bytes of the block become free again, merged with free neighbours, its header leaves the allocated ones, the free-byte count is right and its lowest value stays; a null pointer changes nothing |
| Heap4.FreeUndoesMalloc | openrtos/openrtos/heap_4.c:113-321 | freeing the block just allocated gives back the very free list from before, block for block |
| Heap4.AllFreed | openrtos/openrtos/heap_4.c:272-321 | once no block is allocated, in whatever order that came about, the free list is the single initial block |
| Heap4.FreeListDetermined | openrtos/openrtos/heap_4.c:390-448 | two states of one pool with the same allocated blocks have the same free list, whatever led to them |
| Heap4.LowestFit | openrtos/openrtos/heap_4.c:165-172 | no block that is large enough lies below the one that first fit chooses |
| Heap4.HeadersApart | openrtos/openrtos/heap_4.c:69-73 | in every reachable state two block headers, free, allocated or end marker, do not overlap |
| Heap4.PayloadApart | openrtos/openrtos/heap_4.c:69-73 | no block header overlaps the payload of an allocated block |
| Heap4.Heap.TakeBlock | openrtos/openrtos/heap_4.c:175-224 | the block leaves the list, is split where more than 16 bytes remain, and is marked; exactly its bytes leave the free ones |
| Heap4.Heap.SplitBlock | openrtos/openrtos/heap_4.c:189-206 | the rest of the block is free again and exactly the granted bytes are not |
| Heap4.Heap.Place | openrtos/openrtos/heap_4.c:405-448 | merging with the block below, the block above, both or neither, and linking, gives the headers of the merged list |
| Heap4.Heap.PutBack | openrtos/openrtos/heap_4.c:390-448 | insertion into the list frees exactly the block's bytes and adds its size to the total |
| Lists.List.constructor | openrtos/openrtos/list.c:36-58 | an empty list whose index is at the sentinel |
| Lists.List.InsertEnd | openrtos/openrtos/list.c:73-99 | the item becomes the last before the index, both link directions and the count are right, and the ready-list view makes an arrival |
| Lists.List.Insert | openrtos/openrtos/list.c:102-166 | the item goes behind all items whose values are not greater, also for the highest value, and both link directions are right |
| Lists.InsertSorted | openrtos/openrtos/list.c:102-130 | insertion at that place keeps a sorted list sorted, and the new value is behind every equal one |
| Lists.List.Remove | openrtos/openrtos/list.c:169-195 | the item leaves, the others keep their order and links, an index at the item steps back, the count left is returned, and the view makes a departure |
| Lists.List.NextEntry | openrtos/include/openrtos/list.h:275-286 | the index moves to the next item, stepping over the sentinel, and the item is the one that the round-robin view chooses |
| Lists.List.FindPlace | openrtos/openrtos/list.c:122-148 | the search ends, at the sentinel at the latest, at the item behind which the value belongs |
| Lists.RemoveUndoesInsert | openrtos/openrtos/list.c:102-195 | removing an item gives back the list from before its insertion, wherever it went |
| RoundRobin.PickRank | openrtos/include/openrtos/list.h:255-286 | a selection brings every other task of the list one place nearer and puts the chosen one last |
| RoundRobin.ArriveRank | openrtos/openrtos/list.c:73-99 | an arrival goes behind all tasks of the list, except that the task at the index falls one place back |
| RoundRobin.LeaveRank | openrtos/openrtos/list.c:169-195 | a departure never puts a remaining task further back |
| RoundRobin.WaitBound | openrtos/openrtos/tasks.c:150-165 | over any run of selections, arrivals and departures in which a task stays ready, it is passed over no more often than its first rank plus the arrivals made while it is at the index |
| RoundRobin.FairShare | openrtos/openrtos/tasks.c:150-165 | without such arrivals a ready task is passed over fewer times than the list has members: equal shares for equal priorities |
| RoundRobin.LeaveUndoesArrive | openrtos/openrtos/list.c:73-195 | a departure right after an arrival gives back the ready list from before, its index included |
| RoundRobin.PickRotates | openrtos/include/openrtos/list.h:255-286 | a selection takes the first in the order of selections and puts it last |
| RoundRobin.JoinAllRuns | openrtos/openrtos/tasks.c:235-239 | when tasks join the ready lists one after the other, what happens to the list of one priority is the run of the arrivals of that priority, in order |
| Scheduler.WakeTime | openrtos/openrtos/tasks.c:4956-4989 | the wake time, in 32-bit arithmetic, stands for the deadline that many ticks from now, and it wraps exactly when the deadline is in the next count |
| Scheduler.AdvanceInv | openrtos/openrtos/tasks.c:2601-2616 | when the tick count wraps to 0 the current delayed list is empty, and after the swap nothing in it is overdue |
| Scheduler.Kernel.constructor | openrtos/openrtos/tasks.c:1901-2018 | the state before the first task switch: only the idle task, ready |
| Scheduler.Kernel.AddNewTask | openrtos/openrtos/tasks.c:1026-1106 | the new task joins the ready list of its priority, no other task moves, and a yield is asked for exactly if it is of a higher priority than the current task |
| Scheduler.Kernel.AddCurrentToDelayed | openrtos/openrtos/tasks.c:4919-5028 | any current task but the idle one leaves its ready list and waits forever, last of the suspended tasks, or until the deadline that many ticks from now, in the delayed list in which its wake time falls, behind all that wake no later; no other task moves, and the next unblock time is lowered exactly if it is the first to wake |
| Scheduler.Kernel.AdvanceTick | openrtos/openrtos/tasks.c:2601-2616 | the clock behind the tick count advances by one, also across the wrap |
| Scheduler.Kernel.WakeTasks | openrtos/openrtos/tasks.c:2622-2698 | only tasks whose deadline is now become ready, from the head of the delayed list and in its order, none stays overdue, exactly these leave their event lists, the next unblock time is that of the first task left, and a switch is asked for exactly when one of them is not of a lower priority than the current task |
| Scheduler.Kernel.ProcessTick | openrtos/openrtos/tasks.c:2599-2757 | exactly the tasks whose deadline is the new tick become ready, in the order of the delayed list, exactly these leave their event lists, and a switch is asked for exactly when one of them preempts, the current task shares its priority, or a yield is pending |
| Scheduler.Kernel.Tick | openrtos/openrtos/tasks.c:2589-2758 | every tick interrupt is processed at once or, while the scheduler is suspended, counted with nothing else changed; with the scheduler running each task wakes at exactly its deadline, joins its ready list in the order of the delayed list and leaves its event list, which no other task does, and the switch request is exact in both cases |
| Scheduler.Kernel.MissedYield | openrtos/openrtos/tasks.c:3168-3171 | a yield is pending from now on |
| Scheduler.Kernel.SuspendAll | openrtos/openrtos/tasks.c:2032-2039 | suspension nests |
| Scheduler.Kernel.ResumeAll | openrtos/openrtos/tasks.c:2105-2212 | after the outermost resume the clock has made up every tick that was pended; all pending tasks in their order, and then all whose deadlines passed meanwhile in theirs, have joined the ready lists and left their event lists, no other has, and it says that it yielded exactly when a yield was pending, a task that became ready preempts, or ticks were made up while the priority is shared |
| Scheduler.Kernel.MovePending | openrtos/openrtos/tasks.c:2127-2150 | every task of the pending list becomes ready, in the order of that list, and no other moves; a yield is pending exactly if it was or one of them preempts |
| Scheduler.Kernel.MakeUpTicks | openrtos/openrtos/tasks.c:2164-2192 | every pended tick is processed, and the tasks whose deadlines it passed are ready, in the order of the delayed lists, and off their event lists |
| Scheduler.Kernel.SwitchContext | openrtos/openrtos/tasks.c:2851-2907 | while suspended only a yield is recorded; otherwise the next task in turn of the highest priority that has any becomes current |
| Scheduler.Kernel.PlaceOnEventList | openrtos/openrtos/tasks.c:2910-2924 | the current task is in an event list and waits until its deadline, or for ever, in the delayed list and at the place that its wake time asks for |
| Scheduler.Kernel.RemoveFromEventList | openrtos/openrtos/tasks.c:2983-3048 | the task leaves the event list; it leaves its delayed list and joins its ready list at once, or is last of the pending ones while the scheduler is suspended; the result says whether it is of a higher priority than the current one, and then a yield is pending |
| Scheduler.Kernel.ResetNextTaskUnblockTime | openrtos/openrtos/tasks.c:3730-3751 | the time is that of the first delayed task, or the maximum if there is none |
| Scheduler.Kernel.ChangePriority | openrtos/openrtos/tasks.c:3828-3849 | a ready task leaves its ready list and joins that of its new priority; for a waiting one the ready lists stay as they are; every other task keeps its priority |
| Scheduler.BlockInv | openrtos/openrtos/tasks.c:4919-4989 | taking a ready task other than the idle one off its ready list into the list of its spot keeps the lists sorted, disjoint and complete |
| Scheduler.MakeReadyInv | openrtos/openrtos/tasks.c:235-239 | readying a waiting task keeps the lists sorted, disjoint and complete |
| Scheduler.RepriorInv | openrtos/openrtos/tasks.c:3828-3849 | moving a task to another priority keeps the lists complete and the top ready priority high enough |
| Scheduler.HeadDue | openrtos/openrtos/tasks.c:2642-2661 | a task at the head of the delayed list that is not later than the tick count has its deadline exactly now |
| Scheduler.Kernel.WakeDue | openrtos/openrtos/tasks.c:2618-2698 | before the next unblock time nothing is due, so the walk may be skipped and nothing changes |
| Scheduler.Kernel.MoveFirst | openrtos/openrtos/tasks.c:2129-2146 | the first pending task leaves its delayed list and joins its ready list, and a yield is pending from then on exactly if it was or the task is not of a lower priority than the current one |
| Scheduler.Kernel.CatchUp | openrtos/openrtos/tasks.c:2125-2187 | the pending list is emptied before the pended ticks are made up, and both together ready exactly the pending tasks and those overdue |
| Scheduler.EnteredBehind | openrtos/openrtos/tasks.c:4956-4981 | the task stands in the delayed list behind exactly those that do not wake later |
| Timeouts.TimeOut.constructor | openrtos/openrtos/tasks.c:3097-3102 | the entry state stands for the moment of the call |
| Timeouts.TimeOut.Check | openrtos/openrtos/tasks.c:3105-3165 | whenever it says that the time is not over, the entry state moves to now, and the ticks left are reduced by the wrapped difference, which is exactly what elapsed unless two wraps hid a time-out; an unlimited wait never times out, and a wait that is over leaves no ticks unless a wrap tells that it is |
| Timeouts.CheckExact | openrtos/openrtos/tasks.c:3105-3165 | the answer is right, for a finite wait, exactly when the time-out is not one that two wraps of the tick counter since entry have hidden |
| Timeouts.OneWrapExact | openrtos/openrtos/tasks.c:3140-3160 | while the tick counter has wrapped at most once since entry, the answer is always right |
| Timeouts.MissedExample | openrtos/openrtos/tasks.c:3140-3160 | a finite wait that is over and is taken for not over, two wraps later |
| Timeouts.BudgetKept | openrtos/openrtos/tasks.c:3105-3165 | over any sequence of checks, what is left and what elapsed add up to the wait asked for, so a call retried any number of times blocks for no longer in all |
| Timeouts.DelayUntil | openrtos/openrtos/tasks.c:1204-1281 | the next wake time is one period after the last one, the task delays exactly when that is ahead of the wrapped difference, and then for exactly the ticks that are missing |
| Timeouts.DelayUntilExact | openrtos/openrtos/tasks.c:1222-1251 | the comparisons of wrapped counts decide right exactly when less than a full count has elapsed or the increment is not above the wrapped difference |
| Timeouts.ElapsedTime | openrtos/openrtos/tasks.c:3116 | the wrapped difference of two tick counts is the time elapsed less the full turns of the counter |
| Timeouts.DelayUntilLate | openrtos/openrtos/tasks.c:1222-1251 | for every period, a task that comes back a full count of ticks late, and by less than a period more, waits although its wake time is over |
| QueueRing.Queue.constructor | openrtos/openrtos/queue.c:407-446 | a new queue is empty |
| QueueRing.Queue.Reset | openrtos/openrtos/queue.c:252-259 | a reset queue is empty |
| QueueRing.Queue.CopyDataToQueue | openrtos/openrtos/queue.c:2035-2111 | seen as a sequence, the queue gains the item at its back or its front, or the one item of a queue of length one is replaced, also across the end of the ring |
| QueueRing.Queue.CopyDataFromQueue | openrtos/openrtos/queue.c:2114-2129 | what is copied out is the first item of the sequence |
| QueueRing.Queue.Receive | openrtos/openrtos/queue.c:1265-1274 | what is received is the first item and the rest stay in order |
| QueueRing.Queue.Peek | openrtos/openrtos/queue.c:1631-1640 | what is seen is the first item and the queue is as before |
| QueueProtocol.NoLostWakeup | openrtos/openrtos/queue.c:724-2249 | over every interleaving of critical sections of senders, receivers, peekers, time-outs, interrupts and resets: while tasks wait for messages, no more messages are available than tasks have been woken, or will be on unlocking, to take them, and the same for senders and space unless the queue was reset; every woken task is off the list and retries |
| QueueProtocol.QuietMeansEmptyOrFull | openrtos/openrtos/queue.c:724-1375 | in every such run, once no lock is held and no woken task has yet to retry, receivers wait only on an empty queue and senders only on a full one, and not both |
| QueueProtocol.StepKeeps | openrtos/openrtos/queue.c:724-2249 | each critical section keeps the invariant behind these two |
| QueueProtocol.WakesHighest | openrtos/openrtos/tasks.c:2983-3048 | an event wakes a waiting task that no other outranks |
| QueueProtocol.EnlistsBehind | openrtos/openrtos/tasks.c:2910-2924 | a new waiter leaves those before it in place and goes behind those of its own priority |
| QueueProtocol.DrainWakes | openrtos/openrtos/queue.c:2132-2249 | unlocking wakes the first waiters, as many as events were counted or all if they are fewer, and ends unlocked |
| QueueProtocol.ResetExact | openrtos/openrtos/queue.c:246-296 | a reset leaves space that nobody is woken to use exactly when two or more senders wait and the queue is longer than the senders already woken plus one |
| QueueProtocol.ResetLosesWakeup | openrtos/openrtos/queue.c:252-283 | for every queue longer than one, a run from the start in which a sender is left waiting on an empty queue after a reset, with too few tasks woken for the space |
| QueueProtocol.LockCountExact | openrtos/openrtos/queue.c:1051-1056 | while the queue is locked, a post from an interrupt that succeeds, overwriting or not, loses a wake-up exactly when the 8-bit lock count is at its maximum, a receiver waits and fewer receivers are woken already than there are messages |
| QueueProtocol.LockCountLosesWakeup | openrtos/openrtos/queue.c:1051-1056 | a run of 128 posts in one lock window after which a receiver waits on a queue that holds 128 messages |
| QueueProtocol.RxLockCountExact | openrtos/openrtos/queue.c:1815-1820 | the same condition for receives from interrupts and waiting senders |
| QueueProtocol.RxLockCountLosesWakeup | openrtos/openrtos/queue.c:1815-1820 | a run of 128 receives in one lock window after which a sender waits on a queue with room for 128 items |
| QueueProtocol.Queue.TrySend | openrtos/openrtos/queue.c:744-840 | a send succeeds exactly on a queue with space or when it overwrites, and then adds a message, unless it replaces one, and takes the first receiver off the list; otherwise nothing changes |
| QueueProtocol.Queue.SendFromISR | openrtos/openrtos/queue.c:952-1066 | the same from an interrupt, which on a locked queue counts the event, in eight bits, in place of waking a task |
| QueueProtocol.Queue.TryReceive | openrtos/openrtos/queue.c:1263-1297 | a receive succeeds exactly on a queue that is not empty, and then takes one message and the first sender off the list; otherwise nothing changes |
| QueueProtocol.Queue.ReceiveFromISR | openrtos/openrtos/queue.c:1770-1830 | the same from an interrupt, with the event counted on a locked queue |
| QueueProtocol.Queue.TryPeek | openrtos/openrtos/queue.c:1623-1663 | a peek succeeds exactly on a queue that is not empty, takes nothing, and hands the message on by waking the next receiver |
| QueueProtocol.Queue.LockQueue | openrtos/openrtos/queue.c:231-243 | locking starts both counts and does not disturb one already started |
| QueueProtocol.Queue.UnlockTx | openrtos/openrtos/queue.c:2140-2218 | as many receivers as posts were counted leave the list from its front, or all if they are fewer, and the count is unlocked |
| QueueProtocol.Queue.UnlockRx | openrtos/openrtos/queue.c:2220-2248 | as many senders as receives were counted leave the list from its front, or all if they are fewer, and the count is unlocked |
| QueueProtocol.Queue.GenericReset | openrtos/openrtos/queue.c:252-283 | the messages go, both counts are unlocked, and the first waiting sender, if there is one, is woken and no other |
| QueueProtocol.FullLeadsTo | openrtos/openrtos/queue.c:870-916 | for every queue length, a run from the start that leaves two senders waiting on a full queue |
| QueueProtocol.ReturnsExactly | openrtos/openrtos/queue.c:742-945 | a call ends exactly when it is served, when it cannot be and may not wait, or when its time is over, for a receiver only if the queue is still empty |
| QueueProtocol.MessagesExact | openrtos/openrtos/queue.c:742-1066 | the messages change only where a send or receive is served, by one and not for an overwrite, or where the queue is reset |
| QueueProtocol.ExpiresLeadTo | openrtos/openrtos/queue.c:868-935 | a call that has to wait and whose time is over returns with the queue, its lists and all other calls as they were |
| QueueProtocol.TimeOutUnblocks | openrtos/openrtos/tasks.c:2642-2671 | the tick that ends the wait of a task takes it off the event list that it is on, and nothing else changes |
| Mutexes.Accounts | openrtos/openrtos/tasks.c:3801-4065 | over every run of takes, gives, blocks and give-ups: a task's count of mutexes held is the number that name it as holder, its priority is never below its base, and with none held it is its base; a mutex is free exactly when it has no holder |
| Mutexes.FreedByOutermost | openrtos/openrtos/queue.c:573-663 | a task holds a mutex exactly while its successful takes outnumber its successful gives, and of a recursive mutex the difference is its call count |
| Mutexes.HolderNeverOutranked | openrtos/openrtos/tasks.c:3801-4065 | over every run from the start: after each of its events no task waits for a mutex whose holder has a lower priority, if and only if every event serves |
| Mutexes.BlockExact | openrtos/openrtos/tasks.c:3801-3881 | blocking a task leaves such an inversion exactly when it lends its priority to a holder that itself waits for a mutex held by a task of a lower priority than it |
| Mutexes.ChainInverts | openrtos/openrtos/tasks.c:3801-3881 | for any three tasks of increasing priority and any two mutexes, a run from the start that ends with a task waiting for a mutex whose holder has a lower priority |
| Mutexes.GiveUpExact | openrtos/openrtos/queue.c:1558-1582 | a waiter that gave up leaves the holder of just that mutex at its base priority or that of the first waiter in the list, and this leaves an inversion exactly when another waiter is higher than both |
| Mutexes.StepKeeps | openrtos/openrtos/tasks.c:3801-4065 | each event keeps the accounts |
| Mutexes.Kernel.PriorityInherit | openrtos/openrtos/tasks.c:3801-3881 | the holder has the greater of its own priority and that of the caller, its event value follows unless it is in other use, and nothing else changes; the result says whether the holder runs on a loan |
| Mutexes.Kernel.PriorityDisinherit | openrtos/openrtos/tasks.c:3888-3961 | the count goes down by one, the base priority returns exactly with the last mutex given back, and nothing else changes; a switch is asked for exactly when the priority changed |
| Mutexes.Kernel.PriorityDisinheritAfterTimeout | openrtos/openrtos/tasks.c:3968-4065 | the priority falls to the greater of the base and the highest waiter, only for a task that holds no other mutex, and nothing else changes |
| Mutexes.Kernel.TryTake | openrtos/openrtos/queue.c:1408-1459 | a take succeeds exactly on a free mutex, which then names the caller and counts among those it holds, or again on a recursive one held by the caller, which counts one call more; otherwise nothing changes |
| Mutexes.Kernel.Wait | openrtos/openrtos/queue.c:1502-1538 | the caller stands in the event list behind those of its own or a higher priority, the holder's priority is raised to its own if it was lower, and nothing else changes |
| Mutexes.Kernel.GiveUpWaiting | openrtos/openrtos/queue.c:1558-1582 | a waiter that timed out ends the loan as far as the first that still waits allows, for a holder of no other mutex, and nothing else changes |
| Mutexes.Kernel.GiveMutex | openrtos/openrtos/queue.c:573-621 | a give succeeds exactly for the holder; an inner one counts one call less; the outermost frees the mutex, takes one off the count of the holder, with its base priority back exactly if it was the last, and wakes the first waiter and no other |
| Mutexes.ServeExact | openrtos/openrtos/tasks.c:3801-4065 | for every event, from any state in which no holder is outranked by a task that waits for its mutex: it leads to another such state if and only if it serves, which only a take, a block or a give-up can fail to |
| Mutexes.TakeExact | openrtos/openrtos/queue.c:1416-1437 | taking a free mutex leaves no holder outranked exactly when the taker is of no lower priority than every task that still waits for it |
| Mutexes.OrderServes | openrtos/openrtos/queue.c:2010-2030 | while the event list of a mutex is in order of priority, giving up a wait for it always serves |
| Mutexes.RiseExact | openrtos/openrtos/tasks.c:3814-3849 | a holder that inherits a priority while it waits for another mutex keeps its place in that event list, which stays in order exactly when no task before it is now of a lower priority |
| Mutexes.GiveUpInverts | openrtos/openrtos/queue.c:1558-1582 | for any five tasks of increasing priority and any two mutexes, a run from the start in which every event serves up to a time-out, after which a holder that waits for nothing is left below a task that waits for its mutex |
| Mutexes.TakeInverts | openrtos/openrtos/queue.c:1416-1437 | the same run continued: the mutex is given back and goes to the head of the list, while a task of higher priority behind it is not woken and waits |
| Mutexes.OneMutexAtATime | openrtos/openrtos/tasks.c:3801-3881 | over every run in which tasks block only while they hold no mutex, and none is taken while a higher task still waits for it, no holder is outranked |
| Mutexes.LendsTo | openrtos/openrtos/queue.c:1508-1538 | a task that blocks changes nothing but its place in the event list, behind those of its own or a higher priority from the front, and the priority of a lower holder, whose event value follows unless it is in other use |
| StreamBuffer.DecodeEncode | openrtos/openrtos/stream_buffer.c:666-669 | the length written before a message is the length read back, for every length that fits |
| StreamBuffer.EncodeDecode | openrtos/openrtos/stream_buffer.c:866-867 | any four bytes read as a length are those that the length would be written as |
| StreamBuffer.Buffer.constructor | openrtos/openrtos/stream_buffer.c:1141-1169 | a new buffer is empty |
| StreamBuffer.Buffer.BytesInBuffer | openrtos/openrtos/stream_buffer.c:1121-1138 | the result is the number of bytes between tail and head around the ring |
| StreamBuffer.Buffer.SpacesAvailable | openrtos/openrtos/stream_buffer.c:451-472 | the result is what still fits, one place of the ring being never used |
| StreamBuffer.Buffer.WriteBytes | openrtos/openrtos/stream_buffer.c:1020-1063 | the bytes are appended to the contents, also when they wrap around the end of the ring |
| StreamBuffer.Buffer.ReadBytes | openrtos/openrtos/stream_buffer.c:1066-1118 | the first bytes of the contents are read and leave it, as many as are available and asked for, also around the end of the ring |
| StreamBuffer.Buffer.Send | openrtos/openrtos/stream_buffer.c:553-688 | a stream takes as many bytes as fit; a message buffer takes the whole message behind its length, or nothing |
| StreamBuffer.Buffer.ReceiveStream | openrtos/openrtos/stream_buffer.c:760-899 | data received followed by what stays is what was there, and it is as much as there is and fits |
| StreamBuffer.Buffer.ReceiveMessage | openrtos/openrtos/stream_buffer.c:852-899 | from a buffer of messages the first is received whole if it fits in the receiver's memory, and otherwise everything, its length included, stays as it was |
| StreamBuffer.TailBack | openrtos/openrtos/stream_buffer.c:873-882 | moving the tail back over bytes that are still there puts them in front of the contents |
| StreamInterleaving.DeliveredIsPrefix | openrtos/openrtos/stream_buffer.c:1020-1138 | one writer and one reader interleaved at every load, byte and store: on every stream, and in a message buffer as long as no tail is moved back, what was consumed is a prefix of what was published and less than a ring behind it; a stream delivers exactly the bytes sent, in order |
| StreamInterleaving.MessagesInOrder | openrtos/openrtos/stream_buffer.c:639-899 | in a message buffer, with a receiver that always has room, the messages received are a prefix of those sent, whole and in order |
| StreamInterleaving.StepKeeps | openrtos/openrtos/stream_buffer.c:639-1138 | every load, byte and store keeps the invariant behind these two |
| StreamInterleaving.WholeMessage | openrtos/openrtos/stream_buffer.c:765-772 | a reader that sees more bytes than a length sees at least one whole message |
| StreamInterleaving.GoingBackRestores | openrtos/openrtos/stream_buffer.c:873-882 | when the receiver has no room and the writer's claim leaves space for the length, moving the tail back restores the length in front of the contents, and the messages with it |
| StreamInterleaving.GoingBackExact | openrtos/openrtos/stream_buffer.c:873-882 | moving the tail back keeps the buffer sound exactly when what the writer has claimed, the contents and a length together are less than the ring; otherwise bytes published are gone, or the writer is to overwrite what the reader sees |
| StreamInterleaving.RaceLosesMessages | openrtos/openrtos/stream_buffer.c:873-882 | for every ring and any two messages that fit with one length but not with both, a run from the start in which both are sent, none is received, and the contents end up a whole ring short |
| StreamInterleaving.StreamRoomy | openrtos/openrtos/stream_buffer.c:888-893 | the reader of a stream never moves the tail back |
| StreamInterleaving.SendsLeadTo | openrtos/openrtos/stream_buffer.c:639-688 | an undisturbed send of a message that fits stores it whole behind its length |
| StreamInterleaving.StreamSends | openrtos/openrtos/stream_buffer.c:639-688 | from any state, an undisturbed send to a stream with space adds to the contents as many of the bytes as fit, and nothing else changes |
| StreamInterleaving.StreamReceives | openrtos/openrtos/stream_buffer.c:691-792 | from any state, an undisturbed receive from a stream that is not empty hands over the next bytes, as many as there are and fit |
| StreamInterleaving.MessageReceives | openrtos/openrtos/stream_buffer.c:852-899 | from any state of a message buffer that holds a message, an undisturbed receive with room for it hands over that message |
| EventGroups.SetReleasesExactly | openrtos/openrtos/event_groups.c:504-595 | one pass releases exactly the waiters whose condition the new bits meet, each with the bits as they were before any was cleared; then exactly the bits are cleared that a released task asked to have cleared |
| EventGroups.OrderIrrelevant | openrtos/openrtos/event_groups.c:519-585 | what is cleared does not depend on the order of the list |
| EventGroups.NobodyOverlooked | openrtos/openrtos/event_groups.c:176-595 | between calls, in every run, no task is left waiting for a condition that the bits meet |
| EventGroups.ClearingMeetsNothing | openrtos/openrtos/event_groups.c:446-470 | clearing bits meets no waiter's condition, so nobody need be looked at |
| EventGroups.Gather | openrtos/openrtos/event_groups.c:209-218 | while some bit is missing, every party that has arrived at a rendezvous waits, in order, and no bit is lost |
| EventGroups.RendezvousReleasesAll | openrtos/openrtos/event_groups.c:176-293 | the arrival that completes the bits releases every party with the same full bits, and the rendezvous bits are cleared once |
| EventGroups.StepKeeps | openrtos/openrtos/event_groups.c:176-595 | each call keeps the invariant that no waiter's condition is met |
| EventGroups.EventGroup.SetBits | openrtos/openrtos/event_groups.c:504-585 | exactly the waiters whose condition the new bits meet leave the list, each with these bits in its item; exactly the bits that one of them asks for are cleared; the items of all others stay |
| EventGroups.EventGroup.ClearBits | openrtos/openrtos/event_groups.c:446-470 | the bits are cleared and the former bits returned |
| EventGroups.EventGroup.StartWait | openrtos/openrtos/event_groups.c:314-381 | the caller blocks exactly when its condition is not met and it has ticks to wait, last of the list and with what it waits for in its item; a condition met at once clears exactly the bits waited for, if asked to; otherwise nothing changes, and whoever does not block gets the bits as they were |
| EventGroups.EventGroup.StartSync | openrtos/openrtos/event_groups.c:191-233 | the caller sets its bits, which releases others as SetBits does, and blocks exactly when some are still missing and it has ticks to wait; when all are set it gets all and exactly those of the rendezvous are cleared, and when it may not wait it gets the bits as they are |
| EventGroups.EventGroup.FinishWait | openrtos/openrtos/event_groups.c:395-436 | a task released by bits returns those bits without the control bits; one that timed out returns the current bits, and clears those it waited for exactly if the condition was met meanwhile and it asked to; nothing else changes |
| EventGroups.Matches | openrtos/openrtos/event_groups.c:656-688 | the test of all or any of the bits, with the flags taken from the item |
| EventGroups.EventGroup.AfterSetBits | openrtos/openrtos/event_groups.c:585-594 | what is returned are the bits at the time when the scheduler has resumed, whatever calls came in between |
| EventGroups.ConditionExact | openrtos/openrtos/event_groups.c:656-688 | waiting for all bits is met exactly when they are a subset of the bits set, and waiting for any when one of them is set |
| EventGroups.KeptInOrder | openrtos/openrtos/event_groups.c:520-570 | the tasks that go on waiting after a pass keep their order |
| EventGroups.EventGroup.WalkList | openrtos/openrtos/event_groups.c:515-576 | the walk, whose items leave the list on the way, does what a pass over the list at its start would |
| CoRoutines.BlockInv | openrtos/openrtos/croutine.c:158-193 | the co-routine waits in the list of the wrap in which its deadline falls, and the invariant of the lists is kept |
| CoRoutines.AdvanceInv | openrtos/openrtos/croutine.c:224-239 | the list that is swapped out at a wrap is empty, and nothing in the other is overdue |
| CoRoutines.CoRoutineScheduler.constructor | openrtos/openrtos/croutine.c:307-324 | no co-routine yet, all lists empty |
| CoRoutines.CoRoutineScheduler.Create | openrtos/openrtos/croutine.c:101-155 | the co-routine joins the ready list of its priority, which if too high is lowered to the highest, and the first one created is current |
| CoRoutines.CoRoutineScheduler.AddToDelayedList | openrtos/openrtos/croutine.c:158-193 | the current co-routine leaves its ready list and waits until the deadline that many ticks from now, in the overflow list exactly when the wake time wraps, behind all that wake no later; it joins an event list exactly if one is given; no other moves |
| CoRoutines.CoRoutineScheduler.RemoveFromEventList | openrtos/openrtos/croutine.c:327-349 | the co-routine moves from its event list to the pending list, while its delay goes on, and the result says whether it is of no lower priority than the current one |
| CoRoutines.CoRoutineScheduler.CheckPendingReadyList | openrtos/openrtos/croutine.c:196-216 | every pending co-routine leaves its delayed list and joins its ready list, in the order of the pending list, and no other moves |
| CoRoutines.CoRoutineScheduler.PassTick | openrtos/openrtos/croutine.c:226-270 | exactly the co-routines whose deadline is the new tick become ready, in the order of the delayed list, and leave their event lists, also across a wrap |
| CoRoutines.CoRoutineScheduler.CheckDelayedList | openrtos/openrtos/croutine.c:219-274 | the tick count catches up with the kernel's, and exactly those whose deadline was passed on the way become ready, in the order of the delayed lists, and leave their event lists |
| CoRoutines.CoRoutineScheduler.Schedule | openrtos/openrtos/croutine.c:277-304 | the pending ones in their order, and then all whose deadlines passed in theirs, join the ready lists and leave their event lists, and no other does; then the co-routine is chosen whose turn it is in the highest list that is not empty, or none exactly when none is ready |
| CoRoutines.CoRoutineScheduler.Select | openrtos/openrtos/croutine.c:285-298 | the choice is the next in turn of the highest list that is not empty, so that no ready co-routine exceeds its priority, and the turn moves on; none is chosen exactly when none is ready |
| CoRoutines.CoRoutineScheduler.MoveFirst | openrtos/openrtos/croutine.c:196-216 | the first pending co-routine leaves its delayed list and is the next to join the ready list of its priority |

## Left out

Allocator (`mallocr.c`)

- mmapped chunks, mspaces, footers, locks, calloc, the independent and bulk calls, inspection, statistics, footprint limits and tuning by mallopt: only the main state of a 32-bit build with 8-byte alignment is modelled, with `pad_request` as for CPUs other than WB.
- release_unused_segments, which has nothing to do where no segment is mmapped, and the counter that calls it.
- Corruption handling, the address checks (`ok_address` and its kin) and least_addr: the invariants say what those checks look for.
- Dlmalloc.MallocState.SysAlloc: the dialogue with MORECORE is one parameter, refused or a granted region, which does not overlap any segment and ends on a multiple of 8; its base may be anywhere.
- Dlmalloc.MallocState.SysTrim: whether the system takes memory back is a parameter; partial success of the shrinking call is not modelled.
- Dlmalloc.MallocState.MoveAway: as for Realloc, which it is part of.
- Dlmalloc.MallocState.Realloc: the copy of the payload is not modelled, as memory holds only header words and links.
- Dlmalloc.MallocState.Memalign: alignments above 2^31 are excluded; for exactly those the source's loop does not end (`Alignment.DoublingEnds`).
- The storage of a chunk is seen in three separate views, header words, small-bin links and tree links; that the links lie inside free chunks of sufficient size follows from the sizes, but an overlap of the views themselves is not expressed.

Pool (`heap_4.c`)

- Heap4.Heap.Malloc: the fallback to the C library's malloc when the pool is exhausted, the failure hook and the suspension of the scheduler around the call.
- Heap4.Heap.Free: the test that passes addresses of the C heap on to free; pointers that the source's assertions reject are excluded.
- Heap4.Heap.constructor: a region too small for a block and its end marker, which the source does not check for, and one of 2^31 bytes or more are excluded; the header size is 8 bytes.

Lists and scheduler (`list.c`, `tasks.c`)

- The scheduler's lists are sequences whose operations are those that `Lists` proves of the linked rings; item pointers and list ownership are not repeated there.
- Task selection is the generic one; the port-optimised selection finds the same priority with a count of leading zeros.
- vTaskDelete, vTaskSuspend and vTaskResume, vTaskAbortDelay, tickless idle, task notifications, hooks, run-time statistics, trace and the creation of tasks before the scheduler runs.
- Scheduler.Kernel.AddCurrentToDelayed: the idle task does not block, as the source's own comment on idle hooks demands (`tasks.c:3278-3282`).
- Scheduler.Kernel.ChangePriority: the list move that inheritance and vTaskPrioritySet share; the idle task's priority stays 0, and the bookkeeping of base priorities is in `Mutexes`.
- Scheduler.Kernel.PlaceOnEventList: the event lists themselves belong to `QueueProtocol`, `Mutexes` and `EventGroups`; the scheduler keeps only which tasks are in one.
- Scheduler.Kernel.RemoveFromEventList: that the task is the head of its event list is the owner's part, as in `QueueProtocol.WakesHighest`.
- Timeouts.TimeOut.Check: xNumOfOverflows does not wrap, and a delay is not aborted.

Queues and mutexes (`queue.c`)

- QueueRing positions count items, one slot standing for the bytes of an item.
- Queue sets, the queue registry, deletion, peeking from interrupts, and semaphores given from interrupts apart from their being a send of nothing.
- QueueProtocol.NoLostWakeup: items are the subject of `QueueRing`; woken tasks are not deleted or suspended before they retry; at most 127 interrupt operations of a kind in one lock window, and no reset for the senders' half, for which the exact conditions and the failing runs are given.
- Mutexes.OneMutexAtATime: a corollary for tasks that follow a discipline; `Mutexes.HolderNeverOutranked` has no such condition.
- Mutexes.Kernel.PriorityInherit: the move of a ready holder between ready lists is `Scheduler.Kernel.ChangePriority`, as it is for the two ways of disinheriting.
- Mutexes.Kernel.PriorityDisinherit: the same.
- Mutexes.Kernel.PriorityDisinheritAfterTimeout: the same.
- Mutexes.Accounts: vTaskPrioritySet and the deletion of a holder are not among the events.

Stream buffers (`stream_buffer.c`)

- Blocking, notifications and the trigger level; StreamBuffer.Buffer.Send and its receiving counterparts are the calls without waiting, or after it.
- Empty messages, and messages longer than 2^32 bytes with their length, which the source does not accept or cannot represent.
- StreamInterleaving.MessagesInOrder: a receiver without room is excluded, for which the exact condition and the failing run are given.

Event groups and co-routines (`event_groups.c`, `croutine.c`)

- Words of event bits are sets of bit positions; deletion of a group and the deferral of calls from interrupts to the timer task.
- CoRoutines.CoRoutineScheduler.RemoveFromEventList: that the co-routine is the head of its event list is left to the owner of the list.
- Co-routines are switched off in this build's configuration; interrupts come between the calls of the scheduler, 2^32 or more missed ticks look like fewer as they do in the source, and co-routine queue calls are not modelled.

Everything around the kernel (ports, timers, POSIX layer, command line, drivers, file systems, the SDK) is not part of this model.
