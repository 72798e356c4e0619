# A model of the virtmem allocator

This project models the virtual memory allocator of virtmem: a small machine's RAM holds a few
*pages* of a much larger, slow memory pool (a file, a serial link, SPI RAM chips), and
everything above the pages is to look like one flat, byte addressed memory. What is proved is
that it does.

`dafny verify dfyconfig.toml` checks the whole project (Dafny 4.11).

## How the model is built

| file | module | stands for |
|---|---|---|
| `layers.dfy` | `Layers` | one caching layer: windows over a slower memory, and what may be done to them |
| `page_lists.dfy`, `page_state.dfy` | `PageLists`, `PageState` | page records, the free and locked list of each size class, and how records stand for windows |
| `base_alloc.dfy` | `BaseAlloc` | class `BaseVAlloc`: the paged cache and the locks on top of it |
| `heap_state.dfy`, `heap.dfy` | `HeapState`, `Heap` | the free list inside virtual memory, and class `VHeap`: allocation |
| `vptr_utils.dfy` | `VPtrUtils` | class `VPtrLock`, and memcpy, memset, memcmp, strcpy, strcmp over locks |
| `memory_runs.dfy`, `heap_runs.dfy` | `MemoryRuns`, `HeapRuns` | whole runs, against a flat memory, and against objects with locks on them |
| `multi_chip.dfy` | `MultiChip` | class `MultiSPIRAM`: one pool over several chips |
| `limits.dfy` | `Limits` | what the boundaries below are for |

Three memories lie on top of each other, each seen through the windows of one layer:

    store   the backing pool (an array)
      |     `cached`: big pages on the free list, written back lazily
    base    what reads and writes of big pages see
      |     `held`: pages on the locked lists of the three size classes
    mem     what clients see

`LayerOk(layer, under, over)` is the one invariant, used for both layers: windows do not
overlap, each shows the bytes above, and only a dirty window may hide a difference from below.
`SeenThrough` and `ViewIsUnique` say that this determines the memory above. `BaseVAlloc.Valid`
is this for both layers, together with the page lists, the lock counts and the page buffers.
`mem`, `base`, `cached`, `held` and `counts` are ghost fields; the page records, list heads,
buffers and the pool are the fields the code changes. A method that does not list `mem` in its
`modifies` clause leaves every byte of the flat memory as it was, whatever pages it swaps.

The heap keeps its headers in `mem` through the very reads and writes of the cache.
`HeapOk` says that the free list threaded there is circular and sorted by address, that it
contains the outside header and all free blocks, and that free and live blocks tile the heap.

## Boundaries

Most of these are `requires` clauses, because the code does not work beyond them. A run in
`MemoryRuns` checks those it needs before each operation (`CanWrite`, `CanRelease`, `CanLock`,
`CanDataLock`).

- A big page locked at its full size must not overlap a free big page when its last lock goes: it
  joins the free list with no look at overlaps (`src/base_alloc.cpp:407-414`). `ReleaseLock` and
  `FreeLockedPage` take such a page too and say that the cache stays in order if and only if there
  is no overlap (`Clearance`). `Limits.WholePageJoins` says what that means to clients: exactly
  then is there a memory that all pages show, whatever is stored in the page.
  `Limits.StaleRead` is a run from the start of the allocator that finds
  a byte which has been overwritten. A lock that `MakeFittingLock` or `MakeDataLock` puts on a fresh
  big page is clear of all free ones, and stays so through any pairing of locks the copy loops use
  (`VPtrUtils.FirstClear`).
- A write that ends in a locked page must fit the page's buffer from its first byte on
  (`WriteFits`): the code copies all of the rest there (`src/base_alloc.cpp:801-806`).
- `MakeDataLock` needs that no lock is on a page around `ptr`, and none at `ptr` is larger
  (`Clear`). Otherwise bytes get lost (`src/base_alloc.cpp:1072-1096`, `1134`): `Limits.LockInsideLock`
  says exactly which, `Limits.LockInsideClean` that none are, whatever the pool holds, exactly when the
  page around is clean or the new lock is writable and reaches as far, and `Limits.TailLost` has
  an example.
- Reads, writes and the heap need a big page on the free list; no more than 255 locks count on
  one page; ranges lie inside the pool, start above address 0 and are not empty. An object is not
  freed while part of it is locked.
- `getMem` adds up in 32 bits (`src/base_alloc.cpp:47-50`). `HeapState.RoomTestRight` says
  exactly when its test for room is right, `HeapState.RoomTestWrong` has an example.
- Two virtual pointers of the same type whose distance is a multiple of 65536 give the chunk
  bound zero (`src/internal/vptr_utils.hpp:65`), so that the loop does not advance:
  `VPtrUtils.NoProgress`, `VPtrUtils.StuckApart`.
- `strcpy` and `strcmp` ask for a whole chunk before they look for the zero, and a lock may not
  reach past the end of the pool: the code trims a big page there when it writes it back or reads
  it anew (`src/base_alloc.cpp:78`, `276`), but not what it copies from and to the pool for other
  pages (`src/base_alloc.cpp:125`, `178`). `VPtrUtils.ChunksInPool` says that `InPool` is exactly when
  no chunk can ask for too much, wherever chunks start; `VPtrUtils.StringNearEnd` has a string for
  which one does.

Where code and comment disagree the model follows the code: the comment in `freeRaw` says that
adjacent free blocks are combined (`src/base_alloc.cpp:652-655`), but the tests for it
(`src/base_alloc.cpp:687`, `700`) compare an address plus a number of header units with an
address, and never succeed (`HeapState.NeverJoins`, `Limits.NeighboursStayApart`). And the
overlap bound of `getMaxLockSize` only applies to operands of the very same type, so not to
`memcpy` and `strcpy`, whose source is a pointer to const.

## Model

| member | source | states |
|---|---|---|
| `Layers.SeenThrough` | src/base_alloc.cpp:724-761 | where a window covers an address the memory above has its byte, elsewhere the byte below |
| `Layers.ViewIsUnique` | src/base_alloc.cpp:71-183 | windows and the memory below leave one possible memory above |
| `Layers.WriteBack` | src/base_alloc.cpp:71-87 | writing a window back makes it clean and changes no byte seen through the layer |
| `Layers.StoreInside` | src/base_alloc.cpp:770-813 | a store into a window is that store into the memory above |
| `Layers.SaveDown` | src/base_alloc.cpp:343-365 | a window whose bytes are saved below can go |
| `Layers.Attach` | src/base_alloc.cpp:403-437 | a window that overlaps no other may join, and its bytes then show |
| `Layers.AllCleanShowsBelow` | src/base_alloc.cpp:820-846 | under clean windows only, the memory below is the memory above |
| `PageLists.UnlinkThreads` | src/base_alloc.cpp:383-398 | cutting a page out of one list cuts one page out of its walk, and leaves the walk of the other list |
| `PageLists.MoveKeepsPartition` | src/base_alloc.cpp:383-437 | moving a page from one list to the other keeps both acyclic and a partition of all pages |
| `PageLists.Unlink` | src/base_alloc.cpp:383-398 | the search for the predecessor ends, and exactly that page is unlinked |
| `PageLists.StartPages` | src/base_alloc.cpp:515-537 | all pages are on the free list, in order, empty, clean and unlocked |
| `PageState.ListsAfterLock` | src/base_alloc.cpp:367-401 | the lists stay a partition, and the next page to swap is on the free list or -1 exactly when it is empty |
| `PageState.ListsAfterFree` | src/base_alloc.cpp:403-437 | the same for a page given back |
| `BaseAlloc.BaseVAlloc.Start` | src/base_alloc.cpp:507-541 | a valid allocator without locks whose memory is what the pool holds |
| `BaseAlloc.BaseVAlloc.SyncBigPage` | src/base_alloc.cpp:71-87 | the page becomes clean, no byte of `base` changes |
| `BaseAlloc.BaseVAlloc.CopyRawData` | src/base_alloc.cpp:89-130 | the buffer gets exactly the bytes of `base` on the range, whichever free pages hold them |
| `BaseAlloc.BaseVAlloc.SaveRawData` | src/base_alloc.cpp:132-183 | `base` changes on exactly the range, to the bytes saved |
| `BaseAlloc.BaseVAlloc.SaveToPage` | src/base_alloc.cpp:146-175 | the same for one page, which stays clean if it has those bytes already |
| `BaseAlloc.BaseVAlloc.SaveThenCopy` | src/base_alloc.cpp:89-183 | copy after save gives the bytes saved |
| `BaseAlloc.BaseVAlloc.FindFreePage` | src/base_alloc.cpp:319-330 | finds a free page that holds the range if there is one |
| `BaseAlloc.BaseVAlloc.FindVictim` | src/base_alloc.cpp:195-279 | empties exactly the pages in the way of the place to load, and takes one of those, else an empty page, else a clean one or one passed over five times, else the next in turn (`Best`, `Emptied`) |
| `BaseAlloc.BaseVAlloc.Skip` | src/base_alloc.cpp:228-232 | a dirty page is counted as passed over once more, in 8 bits, and taken if and only if the count has come to five |
| `BaseAlloc.BaseVAlloc.MoveSwap` | src/base_alloc.cpp:250-257 | the next in turn is the page that follows on the list the one just taken in its turn, round to the first, and else the first |
| `BaseAlloc.BaseVAlloc.PullRawData` | src/base_alloc.cpp:185-296 | returns a place that shows `base` on the range; free pages stay disjoint; no byte of `base` changes; a page that fits is used as it is, and else exactly the pages in the way are emptied and all others stay (`Pulled`) |
| `BaseAlloc.BaseVAlloc.PushRawData` | src/base_alloc.cpp:298-302 | `base` changes on exactly the range |
| `BaseAlloc.BaseVAlloc.SyncLockedPage` | src/base_alloc.cpp:343-365 | below the page `base` then is `mem`, and `mem` is as it was |
| `BaseAlloc.BaseVAlloc.LockPage` | src/base_alloc.cpp:367-401 | a page moves from the free to the locked list; a big one holds the bytes wanted and leaves the cache, which shows the same but where the page was dirty and taken whole |
| `BaseAlloc.BaseVAlloc.FreeLockedPage` | src/base_alloc.cpp:403-437 | a page moves to the free list and `mem` is as it was; a big page held whole joins the cache, others are saved; the cache stays in order if and only if a page that joins it whole overlaps none there |
| `BaseAlloc.BaseVAlloc.FindLockedIn` | src/base_alloc.cpp:439-448 | finds the locked page of the class that holds the address, if there is one |
| `BaseAlloc.BaseVAlloc.FindLockedPage` | src/base_alloc.cpp:450-465 | the same in all classes |
| `BaseAlloc.BaseVAlloc.GetUnlockedPages` | src/base_alloc.cpp:467-482 | the number of pages of the class with no lock |
| `BaseAlloc.BaseVAlloc.GetFreeBigPages` | src/base_alloc.cpp:852-863 | the number of big pages on the free list that hold nothing |
| `BaseAlloc.BaseVAlloc.Read` | src/base_alloc.cpp:724-761 | returns a place that shows `mem` on the range, also when it lies in several locked pages; `mem` is as it was |
| `BaseAlloc.BaseVAlloc.Write` | src/base_alloc.cpp:770-813 | `mem` changes on exactly the range; no lock moves |
| `BaseAlloc.BaseVAlloc.Flush` | src/base_alloc.cpp:820-828 | the pool is `base`, and `mem` but where a dirty locked page is; the same pages stay cached, and are clean |
| `BaseAlloc.BaseVAlloc.ClearPages` | src/base_alloc.cpp:835-846 | the same, and every free big page is empty |
| `BaseAlloc.BaseVAlloc.ScanClass` | src/base_alloc.cpp:1156-1190 | the page of a class that holds `ptr`, or else a size that misses all its pages, cut only at one that is locked; only unused pages that begin inside the range asked for go |
| `BaseAlloc.BaseVAlloc.MakeFresh` | src/base_alloc.cpp:1195-1241 | readies a page of the largest class that is not all locked, and cuts the size short only if it is too small; fails only when all pages are locked |
| `BaseAlloc.BaseVAlloc.MakeFittingLock` | src/base_alloc.cpp:1146-1262 | the page that holds `ptr` already, or one of the largest class that is not all locked; a size from 1 to the one asked for, and why if less; a buffer that shows `mem`; one more lock on that page, which becomes dirty only for a lock that may write (`FittingLock`); no lock moves or shrinks; fails only when all pages are locked |
| `BaseAlloc.BaseVAlloc.MakeDataLock` | src/base_alloc.cpp:866-1142 | a page that starts at `ptr`, shows `mem`, and is as large as asked but for another lock or the class of a lock already there; a fresh one is of the smallest class that fits what was asked for, unless all its pages are locked, but where a big page would be needed and another lock leaves less, of the smallest class left for that (`DataLock`, `DataClass`); it becomes dirty only for a lock that may write; no lock moves or shrinks; a fresh big page held whole overlaps no free one; fails only when all pages of the smallest class that fits, and all larger ones, are locked |
| `BaseAlloc.BaseVAlloc.ClassFor` | src/base_alloc.cpp:871-877 | the smallest class whose pages hold that many bytes |
| `BaseAlloc.BaseVAlloc.ScanAllData` | src/base_alloc.cpp:881-975 | the page to lock at `ptr`, or that there is none; why the size is cut; unused pages of the class that fits, or a larger one, are remembered |
| `BaseAlloc.BaseVAlloc.OpenScanned` | src/base_alloc.cpp:1032-1069 | readies a page of the class looked for if there is one to use, else of a larger one, medium before big if there are free pages, and only then one to fall back on (`OpenedIn`) |
| `BaseAlloc.BaseVAlloc.ShrinkUnused` | src/base_alloc.cpp:913-926 | an unused page is cut short and its excess saved |
| `BaseAlloc.BaseVAlloc.GrowHeld` | src/base_alloc.cpp:1111-1125 | a locked page grows over what `mem` has there, and keeps its bytes |
| `BaseAlloc.BaseVAlloc.MoveToSmaller` | src/base_alloc.cpp:981-1028 | a lock cut short moves to the smallest class it still fits that is not all locked |
| `BaseAlloc.BaseVAlloc.FindUnusedLockedPage` | src/base_alloc.cpp:332-341 | finds a page on the locked list of the class that no lock is on, if there is one |
| `BaseAlloc.BaseVAlloc.ReleaseLock` | src/base_alloc.cpp:1264-1277 | one lock less on the page that holds `ptr`; a big page goes with its last lock; `mem` is as it was, and the locked pages show it; the allocator stays valid if and only if the page that goes, when it is held whole, overlaps no free big page |
| `BaseAlloc.BaseVAlloc.FreeIsUnlocked` | src/base_alloc.cpp:367-437 | there is a big page on the free list if and only if there is one with no lock |
| `HeapState.HeaderRoundTrip` | src/internal/base_alloc.h:50-59 | a header read back is the header stored |
| `HeapState.HeapDependsOnHeaders` | src/base_alloc.cpp:304-317 | the heap is intact as long as the headers of its blocks are |
| `HeapState.PayloadStored` | src/base_alloc.cpp:770-813 | a store into a live block leaves the heap intact |
| `HeapState.LiveUntouched` | src/base_alloc.cpp:560-713 | what only changes headers of free blocks changes no byte of a live one |
| `HeapState.ArcStep` | src/base_alloc.cpp:576-639 | each step round the list leaves one element behind, so the walk ends |
| `HeapState.PlaceExists` | src/base_alloc.cpp:668-681 | the walk for a place to insert ends at the latest at the highest element below |
| `HeapState.PlaceFound` | src/base_alloc.cpp:668-681 | where it ends, the block may be inserted and the list stays sorted |
| `HeapState.ThreadOk` | src/base_alloc.cpp:683-712 | two header updates put a live block on the list, which stays circular and sorted |
| `HeapState.UnlinkOk` | src/base_alloc.cpp:592-604 | one header update takes a block off the list, which stays circular and sorted |
| `HeapState.CutOk` | src/base_alloc.cpp:605-617 | cutting off the tail of a free block leaves a tiling and the list |
| `HeapState.NeverJoins` | src/base_alloc.cpp:686-706 | the tests for an adjacent neighbour never succeed |
| `HeapState.Units` | src/base_alloc.cpp:562 | the fewest units that hold the bytes asked for, and one for the header |
| `HeapState.Grow` | src/base_alloc.cpp:47 | the units asked for, or 16 if they are fewer |
| `HeapState.OneFirstFit` | src/base_alloc.cpp:576-639 | there is only one first block on the list that is large enough |
| `HeapState.RoomTestRight` | src/base_alloc.cpp:47-50 | the test for room is right if and only if the sum does not wrap round to something that fits |
| `HeapState.RoomTestWrong` | src/base_alloc.cpp:47-50 | a request for which it is wrong |
| `HeapState.TiledSum` | src/base_alloc.cpp:45-69 | the sizes of all blocks add up to what has been taken from the pool |
| `HeapState.OneMoreLive` | src/base_alloc.cpp:560-640 | one more live block adds its units, and the others keep theirs |
| `Heap.VHeap.constructor` | src/base_alloc.cpp:507-513 | an empty heap |
| `Heap.VHeap.GetHeaderConst` | src/base_alloc.cpp:304-309 | the header stored at the address, or the outside one |
| `Heap.VHeap.UpdateHeader` | src/base_alloc.cpp:311-317 | that header changes and nothing else |
| `Heap.VHeap.GetMem` | src/base_alloc.cpp:45-69 | fails exactly when the rest of the pool is smaller than the units asked for or than 16; else adds one free block of the larger number, which is next on the list |
| `Heap.VHeap.AllocRaw` | src/base_alloc.cpp:560-640 | fails exactly when no free block is large enough and the rest of the pool is smaller than the units needed or than 16; else the tail of the first block that is large enough, on the list from where the last operation left off, or of what the heap grows by, which is the larger of the units needed and 16 (`Served`); live blocks keep place, size and bytes |
| `Heap.VHeap.FindPlace` | src/base_alloc.cpp:665-681 | the walk ends where the block belongs |
| `Heap.VHeap.FreeRaw` | src/base_alloc.cpp:647-713 | the block is free; only headers of free blocks change |
| `Heap.VHeap.Free` | src/base_alloc.cpp:647-713 | the other live blocks keep place, size and bytes; the next search starts before the block just freed |
| `Heap.VHeap.WriteBlock` | src/base_alloc.cpp:770-813 | a client's write into its block leaves the heap intact and every other block as it was |
| `Heap.VHeap.UnitsConserved` | src/base_alloc.cpp:45-69 | free and live units add up to what has been taken from the pool |
| `VPtrUtils.VPtrLock.constructor` | src/internal/vptr_utils.h:95-96 | a lock that shows memory from `v` on, of the `s` bytes asked for, or fewer as `makeFittingLock` has it (`FittingLock`) |
| `VPtrUtils.VPtrLock.Lock` | src/internal/vptr_utils.h:114-122 | the lock is taken again, with the size it had, or less for the same reasons |
| `VPtrUtils.VPtrLock.LockAt` | src/internal/vptr_utils.h:127-131 | another lock is taken, of the size asked for, or less for the same reasons |
| `VPtrUtils.VPtrLock.Unlock` | src/internal/vptr_utils.h:136-147 | what the lock did to the counts is undone |
| `VPtrUtils.BothGiven` | src/internal/vptr_utils.h:76-159 | two locks taken and given back leave all counts, and the place of every other lock |
| `VPtrUtils.NoProgress` | src/internal/vptr_utils.hpp:59-69 | the chunk bound is zero if and only if the distance is a multiple of 65536 |
| `VPtrUtils.StuckApart` | src/internal/vptr_utils.hpp:59-69 | two pointers for which it is |
| `VPtrUtils.NearBound` | src/internal/vptr_utils.hpp:59-69 | for operands less than 65536 apart it is their distance, or the size of a page if that is less |
| `VPtrUtils.ChunksInPool` | src/internal/vptr_utils.hpp:74-173 | the bound on strings near the end of the pool is met if and only if no chunk, wherever it starts, asks for a lock past the end |
| `VPtrUtils.StringNearEnd` | src/internal/vptr_utils.hpp:74-125 | a string for which a chunk does |
| `VPtrUtils.CopyChunk` | src/internal/vptr_utils.hpp:107-122 | one chunk is copied, up to the first zero for strings, and all locks are given back |
| `VPtrUtils.ChunkCopied` | src/internal/vptr_utils.hpp:102-122 | a chunk of any size takes the copy further towards the one-shot result |
| `VPtrUtils.RawCopy` | src/internal/vptr_utils.hpp:74-125 | the result of one call on plain memory, no other byte touched, for any sizes of the locks granted |
| `VPtrUtils.StrCopier` | src/internal/vptr_utils.hpp:186-205 | copies up to the first zero and with it, and says whether there was none |
| `VPtrUtils.Comparator` | src/internal/vptr_utils.hpp:207-222 | the comparison of one chunk, and whether it decides |
| `VPtrUtils.CompareMeans` | src/internal/vptr_utils.hpp:207-222 | the sign of the first difference, if it comes before a string ends |
| `VPtrUtils.CompareChunks` | src/internal/vptr_utils.hpp:131-173 | comparing in two chunks is comparing in one, wherever they meet |
| `VPtrUtils.RawCompare` | src/internal/vptr_utils.hpp:131-173 | the result of one call on plain memory, for any sizes of the locks granted |
| `VPtrUtils.Memset` | src/internal/vptr_utils.hpp:266-292 | exactly the range is filled |
| `VPtrUtils.Memcpy` | src/internal/vptr_utils.hpp:242-249 | the range is copied and nothing else changes |
| `VPtrUtils.Strcpy` | src/internal/vptr_utils.hpp:339-342 | the string is copied with its zero, and nothing after it |
| `VPtrUtils.Memcmp` | src/internal/vptr_utils.hpp:299-309 | the comparison of the two ranges |
| `VPtrUtils.Strcmp` | src/internal/vptr_utils.hpp:361-362 | the comparison of the two strings |
| `MemoryRuns.CountedMore` | src/base_alloc.cpp:1253-1254 | a page is locked as often as there are outstanding locks on it, also after one more |
| `MemoryRuns.CountedLess` | src/base_alloc.cpp:1264-1277 | and after one less |
| `MemoryRuns.CanWrite` | src/base_alloc.cpp:801-806 | says whether the write fits the buffers of the locked pages it ends in |
| `MemoryRuns.CanRelease` | src/base_alloc.cpp:407-414 | says whether a page may join the free list |
| `MemoryRuns.Boot` | src/base_alloc.cpp:507-541 | a started allocator over any pool is a run whose flat memory is the pool |
| `MemoryRuns.Session.Do` | src/base_alloc.cpp:724-1277 | every operation does to the flat memory what it means; it is skipped exactly when its caller may not ask for it, and then changes nothing; a lock is put on the page and has the size that `FittingLock` or `DataLock` say, and is refused only when the pages it could be on are all locked; after a flush the pool has all that no dirty locked page holds, and at any time all that no dirty page holds; open locks stay in their places and show their bytes (`Steps`) |
| `MemoryRuns.Session.Run` | src/base_alloc.cpp:724-1277 | all that for each step of every run of reads, writes, flushes, fitting and data locks, stores and fetches through locks and releases; a lock is in the same place from the run's beginning to its end |
| `HeapRuns.Boot` | src/base_alloc.cpp:507-541 | a heap on a started allocator is a run without objects and locks |
| `HeapRuns.Session.Do` | src/base_alloc.cpp:560-1277 | every operation does to the objects what it means; it is skipped exactly when the owner may not ask for it, finds no room exactly when no free block and not the rest of the pool is large enough; blocks come and go with their objects, are taken from the first free one that fits, and tile the heap; locks and flushes do to memory what they do there (`Steps`) |
| `HeapRuns.Session.Run` | src/base_alloc.cpp:560-1277 | all that for each step of every run of allocating, freeing, writing, reading, flushing, fitting and data locks of parts of objects, stores and fetches through them and releases |
| `MultiChip.ConcatAt` | src/alloc/spiram_alloc.h:146-169 | byte `k` of a chip is at the address where the chip begins, plus `k` |
| `MultiChip.MultiSPIRAM.constructor` | src/alloc/spiram_alloc.h:203-209 | the pool is as large as all chips together |
| `MultiChip.MultiSPIRAM.DoRead` | src/alloc/spiram_alloc.h:146-169 | a read across chips is a read of their concatenation |
| `MultiChip.MultiSPIRAM.DoWrite` | src/alloc/spiram_alloc.h:171-194 | a write across chips is a store into their concatenation |
| `MultiChip.WriteThenRead` | src/alloc/spiram_alloc.h:146-194 | what is written can be read back |
| `Limits.OneHidesOther` | src/base_alloc.cpp:403-437 | pages over the same address show a memory only if they have the same byte there |
| `Limits.WholePageJoins` | src/base_alloc.cpp:403-437 | a page given back whole overlaps no free page if and only if there is a memory that all then show, whatever is stored in it |
| `Limits.StaleRead` | src/base_alloc.cpp:724-761 | a run after which a read finds a free page with a byte that has been overwritten, on any pool, at any address, for any sizes of pages as long as there are two big ones and these are the largest |
| `Limits.LockInsideLock` | src/base_alloc.cpp:1072-1096 | a data lock inside another lock keeps `mem` if and only if the bytes no dirty page holds any more are below already |
| `Limits.LockInsideClean` | src/base_alloc.cpp:1072-1096 | it does so whatever is below if and only if the page around was clean, or the new lock is writable and reaches as far |
| `Limits.TailLost` | src/base_alloc.cpp:1072-1096 | a lock for which it does not |
| `Limits.NeighboursStayApart` | src/base_alloc.cpp:686-706 | two adjacent free blocks that are not joined |

## Left out

- MakeDataLock: a lock strictly inside a page already locked, or at the start of a larger one, is
  excluded, because the code then loses bytes (`Limits.LockInsideLock` says which) or stops at an
  assertion.
- FreeRaw: free neighbours are not joined, because the code does not do so.
- RawCopy: both operands are virtual; copies to and from plain memory, and `strncpy`, which pads
  each chunk for itself, are not modelled. Ranges that overlap are excluded as for the C functions.
- RawCompare: both operands are virtual; `strncmp`, which does not see the end of a string in an
  earlier chunk, is not modelled. A string compared with itself is equal without a look at it.
- MultiSPIRAM: the chips are arrays; the SPI protocol is not modelled, and more than 255 chips are excluded.
- VHeap: sizes are those of a 64 bit machine, where a header and the alignment take 16 bytes and
  sizes are computed in 64 bits before they are cut to 32.
- The pool that `BaseVAlloc` reads and writes is one array; serial, SD, file and static backends are
  thin wrappers over the same two operations.
- The allocator is one class in the code; here the heap is a class of its own that uses the cache.
  Page records are values in a sequence, and the buffers rows of one array for each size class.
- `VPtr` and its wrappers, wrapped C pointers, `newClass` and `newArray`, `strlen`, statistics,
  Valgrind padding, `writeZeros`, `stop`, and code that is switched off.
