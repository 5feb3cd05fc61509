# Verified models of the stafeto kernel core

Dafny models of the algorithms in `kcore`, the hardware-independent core of the stafeto kernel, with proofs
of what they promise. `dafny verify dfyconfig.toml` checks the whole project.

What is modelled, hardest first:

* **ASID allocation** (`Asid*.dfy`). The lock-free switch, the slow activation, new generations and
  releases run as steps of a state machine, one atomic access a step, together with the TTBR0 writes
  and TLB maintenance their callers owe and with TLBs that may fill at any moment. In every run no CPU
  runs a space under a number for which its TLB holds another space's entry. The allocator's objects
  (bitmap, words, tags) are classes whose calls are proved to do the protocol's steps.
* **The buddy allocator** (`Buddy*.dfy`, `FrameSpec.dfy`, `FrameAllocator.dfy`). Metadata bytes, the
  doubly linked lists threaded through free memory and the counters change in place; blocks are
  aligned, apart and canonical, so the free blocks are a function of the free frames.
* **Translation tables** (`Descriptors.dfy`, `Table*.dfy`, `PageTables.dfy`). A four-level tree in
  word-addressed memory refines a map from addresses to addresses and rights. What a call of `map` comes
  to, and how far, is a function of the tree before the call; tables are counted exactly, and a resumable
  teardown has its reads and frees accounted for one by one.
* **Quiescent-state reclamation** (`Qsbr.dfy`), the **handle table** (`HandleSpec.dfy`, `Handles.dfy`),
  the **page list** (`PageListSpec.dfy`, `PageLists.dfy`), the **log ring** (`Log*.dfy`), the **mapping
  table** (`MapSpec.dfy`, `Maps.dfy`), the **device tree walker** (`Fdt*.dfy`, after section 5 of the
  Devicetree Specification) and the **ticket lock** (`Ticket.dfy`).

How the source is rendered:

* Atomics are sequentially consistent steps of any number of interleaved CPUs; a protocol is `Init`,
  `Enabled` and `Apply`, and a main result speaks of every state of every `Run`. Beside a protocol
  stands a class with the source's fields, whose methods are tied to the steps they make. The reading of
  a log ring by another CPU (`LogShared.dfy`) has no class of its own: there the accesses of reader and
  owner are the steps and nothing else.
* An object the source updates in place is a class. A loop becomes a method whose contract ties it to
  a function on values; what the loop promises is proved about that function.
* Panics and `Result`s are outcomes. A physical address is a frame number and an offset; a 64-bit map
  word is a sequence of 64 bits; a descriptor word is its low 12 bits, a 36-bit frame and its high 16
  bits. Widths that matter are written out: 16-bit tickets, 48-bit generations and addresses, 64-bit
  wrapping of `va`, truncation of output addresses to 48 bits.
* Memory behind a trait (`PhysMem`, `TableMemory`, `ChunkSource`, `ListMemory`) is a map of words and
  a supply of fresh frames; a table or node that was given back must not be read any more.
* The features `break-*` and `narrow-asid` are off, and fresh entries of a handle table start at generation 1.

Where code and documentation differ, the code is followed. `map` refuses an entry that holds anything
with AlreadyMapped. For pages that means exactly that the page translates (`TableWay.PageBlocked`,
`TableVerdict.PagesRefused`). For a 2 MiB block it does not: over a table that was emptied by unmapping the
block is refused although no address translates (`PageTables.EmptiedBlock`), and this is the only such
case, the range's own pages apart (`TableWay.BlockedTranslates`, `TableVerdict.RefusedMeans`).
The documentation of `protect_page` speaks of W^X, which holds over the whole tree; but the call tests only
the new attributes and leaves the memory type, so a device page can be made executable, which no mapping allows
(`Descriptors.DeviceMadeExecutable`, with the exact condition in `Descriptors.ProtectedValid`).
`passed` is documented as a condition under which an object may go; it is not stable: it goes back to false
when an idle CPU wakes with an epoch loaded before the retirement (`Qsbr.PassedIsNotStable`), and it stays
true exactly when no such load is under way (`Qsbr.PassedForever`, `Qsbr.PassedIsLost`); reclamation is safe
nevertheless (`Qsbr.NoUseAfterFree`).

## Model

| member | source | states |
|---|---|---|
| `AsidSafety.NoCpuRunsForeignEntries` | kcore/src/asid.rs:144-354 | in every state of every interleaving no CPU runs a space under an ASID while its TLB holds another space's entry for it, and neither the `expect` in `take` nor the assertion in `unset` fires |
| `AsidSafety.OwnersAreDistinct` | kcore/src/asid.rs:267-354 | in every state, also in the middle of an activation or release, two spaces that own numbers own different ones, none is 0, and `free` is the count of clear bits |
| `AsidSafety.NumbersAreDistinct` | kcore/src/asid.rs:267-385 | whenever the lock is free, tags that are current or reserved hold different numbers, each in range and marked used |
| `AsidSafety.WinnerKeepsNumber` | kcore/src/asid.rs:144-173 | a won compare-and-swap keeps the number its own until TTBR0 is written: in `active`, or in `reserved` when a generation began meanwhile |
| `AsidOutcomes.FastOutcome` | kcore/src/asid.rs:161-173 | in every interleaving a CPU wins the switch exactly when its word was not empty, the tag is current when it looks, and its word did not change between its load and its swap; else it goes for the lock |
| `AsidOutcomes.FlushExactly` | kcore/src/asid.rs:255-257 | in every interleaving an activation asks for a flush exactly when a generation began since the CPU's last one |
| `AsidSafety.StepInv` | kcore/src/asid.rs:161-354 | every single access of every path keeps the protocol invariant |
| `AsidSafety.RunInv` | kcore/src/asid.rs:161-354 | the invariant holds in every state of every run |
| `AsidFast.FastInstallInv` | kcore/src/tlb.rs:41-53 | the TTBR0 write after a lock-free switch keeps the invariant although the lock is not held |
| `AsidSlow.SlowFlushInv` | kcore/src/tlb.rs:63-79 | the flush a CPU owes, with TTBR0 parked on the empty table, clears what a new generation may hand out |
| `AsidReleases.RelInvalidateInv` | kcore/src/tlb.rs:119-130 | the invalidation after a release makes the freed number safe to hand out |
| `AsidSpec.FirstFreeIsLeast` | kcore/src/asid.rs:387-411 | the linear search answers with the least clear bit of the range, and with none only when all are set |
| `AsidSpec.NextFreeFinds` | kcore/src/asid.rs:376-385 | with a positive count the search finds the first free number from `next` on, and one below `next` only when none is ahead |
| `AsidSpec.MarkKeepsMap` | kcore/src/asid.rs:356-365 | marking a number keeps count and map in step, also when it was marked |
| `AsidSpec.UnmarkKeepsMap` | kcore/src/asid.rs:367-373 | unmarking a marked number keeps count and map in step |
| `AsidSpec.EmptyMapOk` | kcore/src/asid.rs:321-328 | an emptied map has the kernel's number used and the count that says so |
| `AsidBitmap.SummaryBit` | kcore/src/asid.rs:356-373 | setting or clearing a word's summary bit by the word's fullness keeps every summary bit right |
| `AsidBitmap.SearchStep` | kcore/src/asid.rs:400-410 | skipping the words the summary calls full skips no clear bit |
| `AsidBitmap.Bitmap.constructor` | kcore/src/asid.rs:206-223 | a fresh map is valid and empty but for the kernel's number |
| `AsidBitmap.Bitmap.EmptyMapInPlace` | kcore/src/asid.rs:300-328 | clearing the words in place gives the empty map of the specification |
| `AsidBitmap.Bitmap.Set` | kcore/src/asid.rs:356-365 | the words, the summary and the count after `set` are those of marking the number |
| `AsidBitmap.Bitmap.Unset` | kcore/src/asid.rs:367-373 | the same for `unset` of a marked number |
| `AsidBitmap.Bitmap.FirstFreeFast` | kcore/src/asid.rs:387-411 | the search through the summary returns exactly what the linear scan returns |
| `AsidBitmap.Bitmap.SearchSummary` | kcore/src/asid.rs:400-410 | the loop over summary words finds the first clear bit past the first word, or none |
| `AsidBitmap.Bitmap.Take` | kcore/src/asid.rs:375-385 | `take` marks the first free number around from `next` and moves `next` past it, wrapping |
| `AsidAllocator.AsidCpus.constructor` | kcore/src/asid.rs:121-128 | generation 1, nothing owed, every active word empty |
| `AsidAllocator.AsidCpus.Fast` | kcore/src/asid.rs:161-173 | the switch is won exactly when the CPU's word is not empty and the tag is current; then the word holds the tag, else nothing changed; these are the protocol's loads and its compare-and-swap |
| `AsidAllocator.FastTriedInv` | kcore/src/asid.rs:161-173 | those steps keep the protocol invariant |
| `AsidAllocator.AsidAllocator.constructor` | kcore/src/asid.rs:205-223 | an empty map and no reservations, for 8 or 16 bits |
| `AsidAllocator.AsidAllocator.Adopt` | kcore/src/asid.rs:282-295 | every reservation of exactly the old tag moves to the new tag, and only then the number is kept |
| `AsidAllocator.AsidAllocator.SwapWords` | kcore/src/asid.rs:303-312 | the loop over the CPUs does the protocol's swaps: active words emptied, what ran reserved and marked |
| `AsidAllocator.AsidAllocator.NewGeneration` | kcore/src/asid.rs:297-319 | the counter rises, the active words are empty, every CPU owes a flush, each keeps what it ran or had kept, and only the kernel's and the kept numbers are used; these are the protocol's steps |
| `AsidAllocator.AsidAllocator.NewContext` | kcore/src/asid.rs:265-280 | the tag that comes back is the one the protocol stores, adopted or taken, before or after a new generation |
| `AsidAllocator.AsidAllocator.Activate` | kcore/src/asid.rs:234-263 | a flush is asked for exactly when one was owed or a generation began; a current tag stays, a reserved one keeps its number, any other gets the first free one; a generation begins exactly when the tag is neither current nor reserved and no number is free; these are the protocol's steps |
| `AsidAllocator.ActivatedInv` | kcore/src/asid.rs:234-263 | a whole activation keeps the protocol invariant |
| `AsidAllocator.ActivatedIs` | kcore/src/asid.rs:234-319 | the protocol's steps of an activation come to that outcome, from any state of a run |
| `AsidAllocator.RaisedStarts` | kcore/src/asid.rs:297-328 | the swaps of a new generation, one after another, come to the map it starts with |
| `AsidAllocator.AsidAllocator.DropReserved` | kcore/src/asid.rs:341-344 | all reservations of the tag go, and it is told whether there were any |
| `AsidAllocator.AsidAllocator.ClearActive` | kcore/src/asid.rs:346-348 | the loop empties exactly the active words that hold the tag |
| `AsidAllocator.AsidAllocator.Release` | kcore/src/asid.rs:330-354 | the number comes back exactly when the tag was current or reserved; its reservations go, the active words that hold it are emptied and its bit is cleared; these are the protocol's steps |
| `AsidAllocator.ReleasedInv` | kcore/src/asid.rs:330-354 | a whole release keeps the protocol invariant |
| `AsidAllocator.ReleasedDrops` | kcore/src/asid.rs:330-354 | the protocol's steps of a release come to that outcome |
| `AsidAllocator.NumberIsMarked` | kcore/src/asid.rs:367-369 | a release that owns its number finds it marked: the assertion in `unset` holds |
| `Buddy.BuddyFacts` | kcore/src/frames.rs:152-159 | the flipped bit names the one block that makes an aligned block of the next order, and flipping twice returns |
| `BuddyMeta.FreeAtIs` | kcore/src/frames.rs:164-172 | the lookups of all orders find a free block over a frame exactly when one covers it |
| `BuddyLinks.PushChain` | kcore/src/frames.rs:204-215 | the three words written put the block first and keep the double links of its list |
| `BuddyLinks.UnlinkChain` | kcore/src/frames.rs:217-229 | the words around a block skip it, wherever it stands in its list |
| `BuddyFrames.FreeNotHeld` | kcore/src/frames.rs:16-22 | no frame is free and allocated |
| `BuddyFrames.NoBlockNoRun` | kcore/src/frames.rs:98-110 | a free block of at least the order exists exactly when some aligned run of 2^order frames is wholly free |
| `BuddyFrames.FreeHeadIs` | kcore/src/frames.rs:144-162 | a block is on the lists exactly when its run is wholly free and no larger run around it is |
| `BuddyFrames.CanonicalIsUnique` | kcore/src/frames.rs:144-162 | the set of free blocks is determined by the set of free frames alone |
| `BuddyRegions.OverlapIs` | kcore/src/frames.rs:174-190 | the test of `overlaps_a_block` finds exactly the runs that share a frame with a free or allocated block |
| `BuddyRegions.MetaUnique` | kcore/src/frames.rs:73-162 | the metadata bytes are determined by the held blocks and the free frames: no operation leaves another trace |
| `FrameSpec.FreedGood` | kcore/src/frames.rs:144-162 | coalescing keeps blocks apart and canonical, touches no held block and adds exactly the block's frames |
| `FrameSpec.AllottedGood` | kcore/src/frames.rs:110-118 | splitting keeps blocks apart and canonical and moves exactly one aligned run from free to held |
| `FrameSpec.Conserved` | kcore/src/frames.rs:98-142 | free and held frames together stay the same set, and so does the sum of their counts |
| `FrameSpec.FreeUndoesAlloc` | kcore/src/frames.rs:98-142 | giving back what was allocated restores the very metadata |
| `FrameSpec.ListsTellRuns` | kcore/src/frames.rs:103-109 | all lists from the order on are empty exactly when no aligned run of the order is wholly free |
| `FrameSpec.WholeFrames` | kcore/src/frames.rs:71-78 | the frames of a region are those that lie wholly inside it |
| `FrameSpec.OtherWord` | kcore/src/frames.rs:24-34 | a word outside the free frames is no link: writing it leaves every list as it was |
| `FrameAllocator.Frames.constructor` | kcore/src/frames.rs:45-60 | no block, no free frame, empty lists, whatever the bytes held |
| `FrameAllocator.Frames.Push` | kcore/src/frames.rs:206-215 | metadata and links agree again, with the block first in its list |
| `FrameAllocator.Frames.Unlink` | kcore/src/frames.rs:217-229 | metadata and links agree again, without the block |
| `FrameAllocator.Frames.Coalesce` | kcore/src/frames.rs:152-160 | the loop computes the block and the metadata of the coalescing function |
| `FrameAllocator.Frames.FreeBlock` | kcore/src/frames.rs:144-162 | the freed block's metadata and count; its double-free test does not fire |
| `FrameAllocator.Frames.Halve` | kcore/src/frames.rs:112-115 | the loop computes the metadata of the splitting function, links in step |
| `FrameAllocator.Frames.FirstList` | kcore/src/frames.rs:102-109 | the first list from the order on that is not empty, with all before it empty |
| `FrameAllocator.Frames.Alloc` | kcore/src/frames.rs:98-119 | None exactly when the order is too large or no aligned run of 2^order frames is wholly free, and then nothing changes; else an aligned run at the start of a smallest free block that will do moves from free to held, and the count follows |
| `FrameAllocator.Frames.InFreeBlock` | kcore/src/frames.rs:164-172 | true exactly when a free block covers the frame |
| `FrameAllocator.Frames.OverlapsABlock` | kcore/src/frames.rs:174-190 | true exactly when some frame of the run is free or allocated |
| `FrameAllocator.Frames.Free` | kcore/src/frames.rs:121-142 | accepted exactly when that very block is held at that order; it undoes the allocation; each of the five refusals exactly, in the order of the tests, and none changes anything |
| `FrameAllocator.Frames.LargestFit` | kcore/src/frames.rs:85-88 | the largest order whose aligned block fits before the end |
| `FrameAllocator.Frames.AddBlock` | kcore/src/frames.rs:89-93 | a block is added exactly when none of its frames is managed, and adds exactly its frames |
| `FrameAllocator.Frames.AddFrames` | kcore/src/frames.rs:83-95 | the loop adds exactly the frames of the range, or stops at an overlap with exactly a prefix added |
| `FrameAllocator.Frames.AddRegion` | kcore/src/frames.rs:71-96 | the span and overlap refusals exactly; on success the whole frames of the region, and nothing else, become free |
| `FrameAllocator.Frames.HolderWrites` | kcore/src/frames.rs:24-34 | whoever holds a frame may write it: nothing of the allocator is disturbed |
| `Descriptors.LeafDecodes` | kcore/src/paging.rs:156-187 | a page or block descriptor says exactly the attributes it was built from |
| `Descriptors.LeafWords` | kcore/src/paging.rs:156-191 | every bit of the words of pages, blocks and tables, in numbers: a user leaf, and no other, is not global |
| `Descriptors.ProtectedIs` | kcore/src/paging.rs:458-459 | a change of access rewrites the rights and no other bit of the word |
| `Descriptors.ProtectedGlobal` | kcore/src/paging.rs:458-459 | a change of access makes no leaf global and none private |
| `Descriptors.ProtectedValid` | kcore/src/paging.rs:422-459 | a change to valid attributes never gives a writable and executable word, and gives a valid one exactly unless device memory is made executable |
| `Descriptors.DeviceMadeExecutable` | kcore/src/paging.rs:430-459 | the input where it does not: a program's device page changed to read and execute |
| `TableTree.IndexIs` | kcore/src/paging.rs:237-239 | the indexes of an address are the digits of its 48-bit prefix |
| `TableTree.LeafIs` | kcore/src/paging.rs:490-507 | what an entry that ends a walk says, level by level and in numbers: 1 GiB, 2 MiB, 4 KiB or nothing |
| `TableTree.Descend` | kcore/src/paging.rs:486-509 | a walk comes to every table the tree has on the way of the address |
| `TableTree.ElsewhereSame` | kcore/src/paging.rs:486-509 | a written entry changes no address that does not go through it |
| `TableTree.GraftTree` | kcore/src/paging.rs:387-390 | linking a fresh table keeps the tree a tree |
| `TableTree.GraftSame` | kcore/src/paging.rs:387-390 | linking a zeroed table at an invalid entry changes no translation |
| `TableRange.LeafMaps` | kcore/src/paging.rs:364-374 | a written page or block maps its addresses one after the other to the output range with the attributes |
| `TableMap.WroteLeaf` | kcore/src/paging.rs:370-374 | writing a leaf changes exactly the addresses through its entry |
| `TableMap.RoomLeft` | kcore/src/paging.rs:358-375 | an empty entry is met only while the range has not wrapped round to itself |
| `TableMap.MappedStep` | kcore/src/paging.rs:358-375 | one more leaf extends the mapped prefix by exactly its span |
| `TableMap.CleanAfterGraft` | kcore/src/paging.rs:387-390 | a linked table keeps every entry of the tree empty, a table's or a leaf that translates |
| `TableWay.FreeIsVacant` | kcore/src/paging.rs:369-373 | where neither a leaf is above nor anything in the entry, no address through it translates |
| `TableWay.GraftKeeps` | kcore/src/paging.rs:387-390 | linking a table changes the way of an address only where an invalid entry gets the table |
| `TableWay.LeafKeeps` | kcore/src/paging.rs:373-373 | writing a leaf changes no entry on the way of an address outside it |
| `TableWay.EntryShort` | kcore/src/paging.rs:387-388 | where `entry` runs out of tables, no leaf was above and the way lacked more tables than there were |
| `TableWay.EntryTaken` | kcore/src/paging.rs:369-372 | the entry that was reached holds something exactly when something was in the way before the call, and then no table was lacking |
| `TableWay.BlockedTranslates` | kcore/src/paging.rs:369-372 | of a refused entry some address translates, except exactly where the table of an emptied block stands |
| `TableWay.PageBlocked` | kcore/src/paging.rs:369-372 | the entry of a page is refused exactly when the page translates |
| `TableVerdict.BarredNow` | kcore/src/paging.rs:358-375 | what is in the way at a turn of the loop is exactly what was there before the call, or the range has come round to itself |
| `TableVerdict.FreshStep` | kcore/src/paging.rs:369-373 | a turn that is not refused had no translated address before the call |
| `TableVerdict.OkIff` | kcore/src/paging.rs:339-377 | the call ends in Ok exactly when no turn is refused over the old tree and the tables its turns lack are in supply |
| `TableVerdict.AlreadyMappedIff` | kcore/src/paging.rs:369-372 | AlreadyMapped at an offset exactly when it is the first refused turn over the old tree and the tables before it suffice |
| `TableVerdict.NoMemoryIff` | kcore/src/paging.rs:387-388 | NoMemory at an offset exactly when no turn up to it is refused and it is the first whose tables are too many |
| `TableVerdict.StopsAtTurn` | kcore/src/paging.rs:358-375 | an error names a turn of the loop, AlreadyMapped exactly a refused one |
| `TableVerdict.RefusedMeans` | kcore/src/paging.rs:369-372 | a refused turn short of the wrap has a translated address, unless an emptied table stands at its block entry |
| `TableVerdict.PagesOkIff` | kcore/src/paging.rs:318-377 | in pages below the end of the space: Ok exactly when no address of the range translates and the tables suffice |
| `TableVerdict.PagesRefused` | kcore/src/paging.rs:318-377 | and AlreadyMapped names a page that translates |
| `TableBlocks.ShapedStep` | kcore/src/paging.rs:358-375 | one more leaf keeps every address so far in a block exactly where one goes |
| `TableBlocks.EdgeStep` | kcore/src/paging.rs:360-363 | the loop never stands in the middle of 2 MiB for which a block goes |
| `TableCount.AtMostBound` | kcore/src/paging.rs:241-252 | a range adds at most `tables_bound` tables to any tree |
| `TableCount.ExactlyBound` | kcore/src/paging.rs:241-252 | it adds exactly that many to a tree of its root alone |
| `TableCount.BoundSuffices` | kcore/src/paging.rs:241-252 | a range that runs out of tables had fewer than the bound to take |
| `PageTables.PageTable.New` | kcore/src/paging.rs:289-293 | NoMemory exactly when there is no frame; else a tree of one table that translates nothing |
| `PageTables.PageTable.Enter` | kcore/src/paging.rs:383-393 | one level of the way: the named table, or a fresh one linked, without changing any translation or any other entry |
| `PageTables.PageTable.Entry` | kcore/src/paging.rs:379-396 | the entry of the address at the level; the tree gains exactly the tables the way lacks, no translation changes; AlreadyMapped exactly when a leaf was above, NoMemory exactly when none was and the way lacked more tables than the supply has |
| `PageTables.PageTable.MapLeaf` | kcore/src/paging.rs:369-373 | a leaf goes only into an empty entry through which nothing translated, and changes exactly the addresses through it; the two errors exactly, over the tree before |
| `PageTables.PageTable.MapNext` | kcore/src/paging.rs:358-375 | one turn of the loop, with a block exactly where both addresses and the rest allow: it goes on or ends as the verdict over the tree before the call says, and maps only what did not translate before |
| `PageTables.PageTable.MapRange` | kcore/src/paging.rs:339-377 | the outcome and how far it comes are the verdict over the tree before the call; that prefix of the range did not translate before and translates to pa + offset now, by words that say the attributes bit for bit, with blocks exactly where they go; every other address is as before, and on Ok the new tables are exactly those the turns lack |
| `PageTables.PageTable.Map` | kcore/src/paging.rs:304-316 | the same with 2 MiB blocks: an address is translated by a block exactly when the aligned 2 MiB around it lie in the range on both sides; no address becomes writable and executable |
| `PageTables.PageTable.MapUser` | kcore/src/paging.rs:318-337 | the same in pages for user attributes below USER_END, so Ok exactly when no address of the range translated and the tables suffice, and AlreadyMapped at a page that did; at most `tables_bound` new tables, exactly that many on a tree of its root, and NoMemory only with fewer in supply; every page of the range is not global, and so is every translation of a tree whose translations all were |
| `PageTables.PageTable.FindPage` | kcore/src/paging.rs:405-417 | the walk finds the page's entry exactly when three tables and a page are there |
| `PageTables.PageTable.Lookup` | kcore/src/paging.rs:484-509 | the loop of `translate` over any words, a damaged tree's included, gives what the recursive walk gives |
| `PageTables.PageTable.UnmapPage` | kcore/src/paging.rs:398-420 | the page's address comes back, its own translation goes and no other; the errors exactly; no address becomes writable and executable, and none global |
| `PageTables.PageTable.ProtectPage` | kcore/src/paging.rs:422-460 | the page's word gets the new rights and no other address changes; the old word comes back; the errors in the order of the checks; no address of the tree becomes writable and executable, and none global |
| `PageTables.UnmapUndoesMap` | kcore/src/paging.rs:398-420 | unmapping a page mapped where nothing was leaves every address as before |
| `PageTables.EmptiedBlock` | kcore/src/paging.rs:339-420 | a page mapped in a tree that translates nothing and unmapped again: a block over it is refused with AlreadyMapped while no address translates |
| `TableTrace.WholeWalk` | kcore/src/paging.rs:512-553 | a teardown reads each entry of levels 0 to 2 once, enters each table of levels 1 and 2 once, frees each table once, and does nothing else |
| `TableTrace.WholeSteps` | kcore/src/paging.rs:512-553 | it takes exactly (tables - 1) + (tables of levels 0 to 2) steps |
| `TableTrace.OwnLast` | kcore/src/paging.rs:548-552 | a table goes after everything below it, so the root last |
| `TableRelease.Release.constructor` | kcore/src/paging.rs:472-483 | a release at its start, for any tree |
| `TableRelease.Release.ReadWord` | kcore/src/paging.rs:534-534 | only tables not yet given back are read |
| `TableRelease.Release.Scan` | kcore/src/paging.rs:533-537 | the entries from the cursor on are read in order up to the first that names a table |
| `TableRelease.Release.Step` | kcore/src/paging.rs:522-553 | one step reads consecutive entries of one table, then frees one table or enters one; true once the root went, and nothing happens after |
| `TableRelease.Release.Run` | kcore/src/paging.rs:462-470 | every table given back once, the root last, their number returned, after the exact number of steps |
| `Qsbr.NoUseAfterFree` | kcore/src/qsbr.rs:11-17 | in every run a freed object is held by no CPU and can be obtained by none |
| `Qsbr.ScannedIsUnreachable` | kcore/src/qsbr.rs:71-77 | from the end of a non-atomic scan that found every mark at the epoch or past it, the object is out of reach for good |
| `Qsbr.StepInv` | kcore/src/qsbr.rs:49-77 | every access of every CPU keeps the invariant that a mark at an object's epoch means the CPU does not hold it |
| `Qsbr.RunInv` | kcore/src/qsbr.rs:49-77 | the invariant holds in every state of every run |
| `Qsbr.PassedForever` | kcore/src/qsbr.rs:55-77 | `passed` stays true from a state on when no CPU is between its load and its store with an older epoch |
| `Qsbr.PassedIsLost` | kcore/src/qsbr.rs:55-77 | and when one is, its store makes it false |
| `Qsbr.PassedIsNotStable` | kcore/src/qsbr.rs:55-77 | a run of seven steps in which `passed` was true and then is not |
| `Qsbr.PeriodEnds` | kcore/src/qsbr.rs:49-77 | in every run, once every CPU idles or passed a quiescent point whose load came at the epoch or later, `passed` is true for it |
| `QsbrMarks.Grace.constructor` | kcore/src/qsbr.rs:40-47 | the counter at 1, and no CPU has shown an epoch |
| `QsbrMarks.Grace.Retire` | kcore/src/qsbr.rs:49-53 | the protocol's retirement: the counter moves on and its new value is the epoch |
| `QsbrMarks.Grace.LoadEpoch` | kcore/src/qsbr.rs:55-59 | the load of `quiesce`: the counter's value |
| `QsbrMarks.Grace.StoreMark` | kcore/src/qsbr.rs:55-59 | the store of `quiesce`, whatever came between: this mark, and no other, is what was loaded |
| `QsbrMarks.Grace.Idle` | kcore/src/qsbr.rs:61-64 | the mark of an idle CPU, and no other mark |
| `QsbrMarks.Grace.Passed` | kcore/src/qsbr.rs:71-77 | true exactly when each of the first CPUs' marks is the epoch or more |
| `HandleSpec.WordRoundTrip` | lib/abi/src/lib.rs:33-46 | index and generation pack into a word and back, both ways |
| `HandleSpec.InsertHistory` | kcore/src/handles.rs:271-276 | a handle issued at the entry's generation was never issued before, and every older one opens what it opened |
| `HandleSpec.RemoveHistory` | kcore/src/handles.rs:312-337 | after a removal the handle opens nothing, and every other opens what it opened |
| `HandleSpec.TakeEntry` | kcore/src/handles.rs:404-411 | the release hands out exactly the object of the live handle of the entry, not handed out before |
| `HandleSpec.StepsOfRelease` | kcore/src/handles.rs:375-384 | a release in steps of n takes as many steps for every chunk |
| `HandleSpec.PartsIs` | kcore/src/handles.rs:375-384 | and that is 64 / n, rounded up |
| `Handles.HandleTable.New` | kcore/src/handles.rs:108-127 | refused exactly above MAX_HANDLES; else empty with nothing issued |
| `Handles.HandleTable.Grow` | kcore/src/handles.rs:195-227 | a chunk more, the directory first; fails exactly when the source lacks one, and then no entry changes |
| `Handles.HandleTable.Reserve` | kcore/src/handles.rs:229-245 | LimitReached exactly when the room is less; NoMemory exactly when the capacity is less and the source cannot give; after Ok the next n inserts need no memory, and one chunk more was taken exactly when it was needed |
| `Handles.HandleTable.Insert` | kcore/src/handles.rs:247-277 | LimitReached exactly without room, NoMemory exactly without capacity when the source cannot give; a handle never issued before, for the object and rights given; capacity and room count down by one; errors change nothing |
| `Handles.HandleTable.Get` | kcore/src/handles.rs:279-290 | Ok exactly for a handle issued, not removed, not handed out and in reach, with what the issuing insert stored |
| `Handles.HandleTable.Remove` | kcore/src/handles.rs:310-337 | the same condition; the object comes back and the handle never opens again; the room grows by one, except for an entry retired at the last generation |
| `Handles.HandleTable.LastChunk` | kcore/src/handles.rs:393-433 | one portion of the work on the chunk at the end, which goes on at the stored cursor; an emptied chunk is returned, and no handle reaches its entries meanwhile |
| `Handles.HandleTable.ReleaseStep` | kcore/src/handles.rs:375-444 | objects handed out once each, chunks and then the directory given back, progress by exactly the portion, and at the end every object issued was removed or handed out |
| `Handles.HandleTable.ReleaseAll` | kcore/src/handles.rs:366-373 | all objects not removed go out, each once, in the exact number of steps |
| `PageListSpec.NeedsAdd` | kcore/src/pagelist.rs:149-169 | `fill_needs` adds up over any split of the filling to pages + nodes(pages) |
| `PageListSpec.NodesOf` | kcore/src/pagelist.rs:48-67 | no node for one page, one for 2 to 512, else a root and one for each 512 pages or part of them |
| `PageListSpec.FindIs` | kcore/src/pagelist.rs:204-213 | at most two reads find the frame of a page |
| `PageListSpec.YieldsAll` | kcore/src/pagelist.rs:215-245 | a release yields every frame of the list exactly once, also of one filled in part |
| `PageListSpec.RootLast` | kcore/src/pagelist.rs:215-245 | the root comes last |
| `PageListSpec.LeafAfterPages` | kcore/src/pagelist.rs:215-245 | a node comes after all of its pages |
| `PageLists.PageList.constructor` | kcore/src/pagelist.rs:87-100 | a list that holds no frame |
| `PageLists.PageList.FillPage` | kcore/src/pagelist.rs:119-144 | one page more: its nodes, its frame and the word that names it, taken from the supply |
| `PageLists.PageList.Fill` | kcore/src/pagelist.rs:112-147 | up to n pages in order; it takes exactly `fill_needs` frames, and none is lost or invented |
| `PageLists.PageList.Frame` | kcore/src/pagelist.rs:171-176 | the frame taken for the page |
| `PageLists.PageList.Frames` | kcore/src/pagelist.rs:178-202 | the frames of neighbouring pages, a leaf's address read once |
| `PageLists.PageList.YieldOne` | kcore/src/pagelist.rs:226-243 | the next frame of the release order; only nodes still to come are read |
| `PageLists.PageList.ReleaseCollect` | kcore/src/pagelist.rs:215-245 | the next frames of the release order, as many as asked or left; released exactly when none is left |
| `LogRing.Conservation` | kcore/src/log.rs:116-281 | each text record pushed unshown has exactly one of the fates taken, lost, shown later, waiting |
| `LogRing.TextConserved` | kcore/src/log.rs:116-281 | the text records pushed unshown are as many as the text among what readers were given, the lost ones in the ring's counter and in the reports, those shown later and the unshown text in the ring |
| `LogRing.PushHolds` | kcore/src/log.rs:116-144 | a push keeps every record within reach in its place |
| `LogRing.PushAccounted` | kcore/src/log.rs:126-132 | a push counts exactly the text record it writes over that nobody showed or took |
| `LogRing.TakeStep` | kcore/src/log.rs:229-236 | passing a record gives it exactly when nobody showed it |
| `LogRing.ShowStep` | kcore/src/log.rs:272-281 | showing a record marks it and no other |
| `LogBuffer.Ring.constructor` | kcore/src/log.rs:95-104 | an empty ring |
| `LogBuffer.Ring.Push` | kcore/src/log.rs:116-144 | the record is pushed with its first 64 bytes; fates and the lost count change as they must |
| `LogBuffer.Ring.Collect` | kcore/src/log.rs:227-237 | waiting records in order from the cursor, at most a batch |
| `LogBuffer.Ring.CountLeft` | kcore/src/log.rs:238-238 | exactly the records that still wait |
| `LogBuffer.Ring.Take` | kcore/src/log.rs:219-244 | each record taken once and in order, as it was pushed; the lost count is handed over and starts over; what is left is counted |
| `LogBuffer.Ring.Show` | kcore/src/log.rs:269-281 | exactly the waiting text records, oldest first, shown once |
| `LogBuffer.Ring.Peek` | kcore/src/log.rs:246-267 | records by number without moving the cursor: every record from `first` up to the next number that is not written over is given, the written-over ones are the lost ones, and next - first = count + lost when first is not past the head |
| `LogBuffer.Ring.Conserved` | kcore/src/log.rs:80-281 | the same of the ring in every valid state |
| `LogShared.AcceptRecord` | kcore/src/log.rs:171-189 | a copy under an unchanged even sequence number that is not reported lost is the record asked for, as it stood in its place at the first or at the last look, although the owner may mark it as shown meanwhile |
| `LogShared.StepInv` | kcore/src/log.rs:120-281 | every word the owner writes, every mark it sets without the sequence number and every word the reader copies keep the seqlock invariant |
| `LogShared.MarkKeepsReader` | kcore/src/log.rs:272-281 | a record marked as shown while it is copied leaves the copy between what was found and what is there |
| `LogShared.CopiesHaveMoments` | kcore/src/log.rs:197-217 | what a copy was found and left as did stand in the place, at two moments of the run under one sequence number |
| `LogShared.WholeRecordsOnly` | kcore/src/log.rs:146-281 | in every interleaving the reader gives whole records only, each the one with the number asked for, in order, equal to the pushed one in every word but the mark, whose value the record had during the copy; the records it passed and did not give are written over, and next - first = count + lost; it is done only at the head it saw or with a full batch |
| `MapSpec.OverlapIsSharing` | kcore/src/maps.rs:60-63 | ranges of whole pages overlap exactly when they share a page |
| `MapSpec.CutLook` | kcore/src/maps.rs:206-269 | a cut leaves what every page shows: object, object page and rights |
| `MapSpec.CutDisjoint` | kcore/src/maps.rs:206-269 | the parts of a cut share no page with each other or with another mapping |
| `MapSpec.CutUsed` | kcore/src/maps.rs:206-269 | the entries grow by exactly the edges |
| `Maps.MapTable.constructor` | kcore/src/maps.rs:74-78 | an empty table |
| `Maps.MapTable.CheckFree` | kcore/src/maps.rs:94-107 | Ok exactly when no mapping overlaps the range; for whole pages, exactly when no page of the range is mapped |
| `Maps.MapTable.InsertChecked` | kcore/src/maps.rs:135-154 | InvalidArgs exactly when a page is shared, LimitReached exactly when full; else the pages of the mapping, and only they, show it, in the first free place |
| `Maps.MapTable.Find` | kcore/src/maps.rs:156-164 | the mapping of exactly that range, or none is |
| `Maps.MapTable.FindInside` | kcore/src/maps.rs:166-178 | the mapping that holds all of the range, or none does |
| `Maps.MapTable.FindIdle` | kcore/src/maps.rs:180-188 | InvalidArgs exactly when no mapping is that range, BadState exactly when it is busy, else its index |
| `Maps.MapTable.FreePlaces` | kcore/src/maps.rs:238-247 | two free places, or all there are |
| `Maps.MapTable.Split` | kcore/src/maps.rs:206-269 | the three errors exactly and without change; else the range becomes a busy entry, every page shows what it showed, the edges are idle and in free places, and the entries grow by the result |
| `Maps.MapTable.SetBusy` | kcore/src/maps.rs:197-204 | the mark of one entry |
| `Maps.MapTable.ShrinkTo` | kcore/src/maps.rs:271-286 | exactly the suffix goes and the entry is idle; with no page left the object comes back; no other entry changes |
| `Maps.MapTable.DropPrefix` | kcore/src/maps.rs:288-305 | exactly the prefix goes and the entry is idle; with no page left the object comes back; no other entry changes |
| `Maps.MapTable.Remove` | kcore/src/maps.rs:307-310 | exactly the mapping's pages go |
| `Maps.MapTable.Drain` | kcore/src/maps.rs:312-322 | the mappings handed out and those left are those there were; true exactly when none is left |
| `Fdt.New` | kcore/src/fdt.rs:86-117 | every part of an accepted blob lies inside the bytes |
| `Fdt.NewIff` | kcore/src/fdt.rs:73-117 | each answer of `new` exactly, from the words of the header: BadMagic, the unsupported version, Truncated, or the parts as the header names them |
| `Fdt.WalkBalances` | kcore/src/fdt.rs:127-190 | for every byte string a walk that ends well gave balanced events of bounded depth |
| `Fdt.WalkNests` | kcore/src/fdt.rs:127-190 | for every byte string, however the walk ends, the events given close no unopened node and go no deeper than the limit, and every name is a string |
| `Fdt.Token` | kcore/src/fdt.rs:135-188 | one token: every read in bounds, and what the walk of FdtTokens.WalkReads makes of it |
| `Fdt.PropToken` | kcore/src/fdt.rs:157-177 | a property's length, name and value, with every bound checked |
| `Fdt.Walk` | kcore/src/fdt.rs:127-190 | the loop stays in bounds, ends and gives the events of the walk; they nest and are well named also before an error, and are balanced on success; what those events are is FdtTokens.WalkReads |
| `FdtBuilder.RoundTrip` | kcore/src/fdt.rs:86-299 | walking the blob built from balanced events with good names gives those very events |
| `FdtBuilder.WalkBack` | kcore/src/fdt.rs:127-260 | the same for any part of the structure block |
| `FdtBuilder.HeaderBack` | kcore/src/fdt.rs:86-298 | the reader accepts a written header and finds its parts |
| `FdtTokens.WalkReads` | kcore/src/fdt.rs:127-190 | walking the bytes of any token stream, with NOPs anywhere, names anywhere in the strings and any padding, gives the events of its tokens and ends as its end says, for thirteen kinds of end and their errors |
| `FdtTokens.NopsVanish` | kcore/src/fdt.rs:179-179 | two structure blocks that differ only in NOPs walk alike |
| `FdtTokens.EndIs` | kcore/src/fdt.rs:135-188 | every way a stream can end: the end token inside or outside a node, a close too many, an unknown token, too few bytes, an unended or ill-formed name, a node too deep, a property cut short or without a name |
| `FdtBuilder.Builder.Begin` | kcore/src/fdt.rs:242-248 | the bytes of a node's start, padded |
| `FdtBuilder.Builder.Property` | kcore/src/fdt.rs:250-260 | the bytes of a property, its name in the strings |
| `FdtBuilder.Builder.End` | kcore/src/fdt.rs:268-270 | the bytes of a node's end |
| `FdtBuilder.Builder.Done` | kcore/src/fdt.rs:272-298 | the blob of the events written so far |
| `Ticket.MutualExclusion` | kcore/src/sync.rs:119-195 | in every interleaving of up to 2^16 CPUs at most one holds the lock, across the wrap of the numbers |
| `Ticket.InOrderTaken` | kcore/src/sync.rs:119-195 | CPUs enter in the order in which they took tickets |
| `Ticket.EntersAfterItsTurn` | kcore/src/sync.rs:119-195 | a CPU with k CPUs ahead enters after exactly k unlocks |
| `Ticket.NeverStuck` | kcore/src/sync.rs:171-195 | when nobody holds the lock, the first waiting CPU may enter |
| `Ticket.StepInv` | kcore/src/sync.rs:140-195 | every access keeps tickets consecutive along the queue |
| `Ticket.RunInv` | kcore/src/sync.rs:140-195 | in every state of every run |
| `TicketCounters.TicketLock.TakeTicket` | kcore/src/sync.rs:140-146 | the counter's step, wrapping at 16 bits |
| `TicketCounters.TicketLock.Served` | kcore/src/sync.rs:171-177 | one look of the wait: true exactly when the CPU may enter |
| `TicketCounters.TicketLock.Unlock` | kcore/src/sync.rs:179-185 | the next ticket is served |
| `TicketCounters.TicketLock.UnlockHeld` | kcore/src/sync.rs:187-195 | the same without the ticket: the number served is the holder's |
| `TicketCounters.TicketLock.IsFree` | kcore/src/sync.rs:212-215 | true exactly when no CPU holds or awaits the lock, with fewer than 2^16 CPUs |

## Left out

- Weak memory order: atomics are sequentially consistent; fences, `wfe`, `sev` and the volatile reads are not modelled.
- Counter overflow: generations of the ASID allocator, epochs and the seqlock number are unbounded; an epoch is kept below the idle mark.
- AsidBitmap.Bitmap.Unset: requires the number to be marked, as the assertion demands; that callers meet it is AsidAllocator.NumberIsMarked.
- AsidAllocator.AsidCpus.Fast: stated for a CPU whose loads and compare-and-swap no other CPU comes between; the interleavings, in which the swap may fail, are those of AsidOutcomes.FastOutcome.
- AsidAllocator.AsidAllocator.Activate: stated for a CPU that runs its section without other CPUs in between; the interleavings are those of AsidSafety.StepInv and AsidOutcomes.FlushExactly.
- AsidAllocator.AsidAllocator.Release: the same, for the release of a number.
- FrameAllocator.Frames.constructor: requires the aligned base that the source asserts.
- FrameAllocator.Frames.Alloc: does not say which of several smallest blocks is taken.
- TableRelease.Release.Step: what a table holds after it was given back is not modelled beyond being unreadable.
- FdtTokens.WalkReads: stated for a structure block at a multiple of four bytes, as the Devicetree Specification demands; what a walk gives of bytes whose last padding is cut off is left to Fdt.WalkNests.
- PageTables.PageTable.New: the tree of a foreign root (`from_root`) is any state that meets `Valid`, not an operation; its entries are then empty, tables or leaves that translate, as these operations write them.
- Handles.HandleTable.Insert: chunks lie one after the other in one sequence; the directory's pointers are not modelled.
- Handles.HandleTable.ReleaseStep: at its end the table's history starts over, as the source's generations do.
- Maps.MapTable.InsertChecked: requires a mapping of at least one whole page, as the callers check.
- Maps.MapTable.Split: requires a page-aligned start, as the callers check.
- LogBuffer.Ring.Push: times and kinds are numbers without width; the bytes past the text's length are not modelled.
- `get_as`, which tests the type and the rights of what a handle names, and `duplicate`, which inserts a copy with some of them; `insert` of a mapping, which asserts what `InsertChecked` tests; `len`, `iter` and `unshown`, which list entries without changing them: not modelled.
- `Chunks`, which cuts text into pieces of 64 bytes for `push`; `words`, which packs a record for a message; the reservations of a device tree, a list of address ranges; the named attribute constants: not modelled.
- LogShared.WholeRecordsOnly: which records `show` picks is not modelled; the owner may mark any record in reach, at any moment at which it writes none.
- `memmap.rs`, `sched.rs`, `slab.rs`, `timer.rs`, `upcall.rs`, `notify.rs`, `token.rs`, `quota.rs`, `gic.rs` and the other files of `kcore`, and the kernel itself: not modelled.
- The other parts of `sync.rs` and of `tlb.rs` beyond the switch and the retirement of a number: not modelled.
