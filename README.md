# Physical memory manager of SimpleKernel (x86_64), in Dafny

This project models the physical memory manager of SimpleKernel's x86_64 port in two parts.

**First-fit page allocator** (`src/kernel/mem/first_fit.c`).
- The free list is a circular doubly-linked list.
- Its nodes live inside the page-descriptor array: each descriptor has `next`, `prev`, `npages` and `flag` fields.
- The manager keeps the managed address range and two `uint32_t` counters: total pages and free pages.
- `alloc` rounds bytes up to pages and takes the first unused run, in list order, that is large enough. It splits off the rest only when more than one page remains.
- `free` finds the run by its start address, marks it unused and coalesces it with free neighbours.

**Memory-map import and page-registry build** (`src/arch/x86_64/mm/pmm.c`).
- The boot loader's memory-map records are copied into a table of eight E820 entries.
- The pages of the available region at 1 MiB are counted, and one descriptor per page is filled.
- Each page falls into the DMA (below 16 MiB), Normal (below 896 MiB) or HighMem zone.
- The zones' extents and counters are accumulated, and four fatal consistency checks follow.
- The public `pmm_alloc`, `pmm_free` and `pmm_free_pages_count` forward to the allocator.

Layout:
- `pmm_types.dfy`: constants, the descriptor, page rounding and the fixed-width wrap-around.
- `ff_runs.dfy`: the free list as a value. It is a sequence of runs in list order, starting at the head. Each list operation is a function on that sequence.
- `ff_props.dfy`: properties of those functions. They cover free totals, well-formedness, lookup and round trips.
- `ff_list.dfy`: the linked list inside the descriptor array. It holds the arena invariant `Wf` and the list helpers as methods on the array.
- `ff_steps.dfy`: each in-place step of `alloc` and `free`, proved to keep `Wf` and to act on the runs as the specification function says.
- `first_fit.dfy`: `FirstFitManager`, the allocator as a class over the descriptor array. Its ghost `order` lists the nodes' indices in list order.
- `ff_findings.dfy`: behaviour of first_fit.c as written where it departs from the evident intent.
- `e820.dfy`: the memory-map table and the import.
- `zones.dfy`: classification, descriptor filling, zone accounting and the build checks.
- `pmm.dfy`: `PhysicalMemory`, which holds the statics of pmm.c and implements `pmm_init` and the forwarding calls.

The model departs from the code where the code is wrong:
- `init` makes the head one unused run of all pages. The code leaves it used and empty.
- `free` of an address no run starts at reports `NotFound` and changes nothing. The code frees the head.
- Coalescing never crosses the head of the circular list.
- The node split off by `alloc` is stored at descriptor index `entry + pages`, the descriptor of the page it describes. The code writes `entry + sizeof(list_entry_t)`, which C scales to whole descriptors.
- The descriptor array is placed one page past the kernel image, rounded down. The code's offset is scaled by `sizeof(ptr_t *)`, 8.

Each departure is exhibited under "## Findings".

## Model

| member | source | states |
|---|---|---|
| PmmTypes.PagesFor | src/kernel/mem/first_fit.c:135-139 | The page count is the least number of whole pages covering the bytes, and at least one for a nonzero size. |
| PmmTypes.Wrap32 | src/kernel/mem/first_fit.c:105-108 | A `uint32_t` counter holds its value modulo 2^32: below 2^32, equal to the value when it fits, and congruent to it otherwise. |
| PmmTypes.Wrap64 | src/arch/x86_64/mm/pmm.c:158 | A 64-bit `size_t` result is below 2^64, equals the value when it fits, and otherwise is congruent to it modulo 2^64, as the subtraction in the Normal-length check wraps when fewer than 0xF00 pages were counted. |
| FirstFitRuns.FirstFitFrom | src/kernel/mem/first_fit.c:140-169 | The scan from a position returns a fitting run with no fitting run between that position and it, or none when no later run fits. |
| FirstFitRuns.FirstFit | src/kernel/mem/first_fit.c:140-169 | `alloc` chooses a run exactly when some unused run has enough pages, and then the first such run in list order from the head. |
| FirstFitRuns.FindFrom | src/kernel/mem/first_fit.c:182-183 | The scan after the head returns the first node starting at the address, or none when no later node does. |
| FirstFitRuns.ScanStop | src/kernel/mem/first_fit.c:182-183 | The `free` scan stops on the head exactly when no node after the head starts at the address, and otherwise on a node that does. |
| FirstFitRuns.FindRun | src/kernel/mem/first_fit.c:182-187 | The node `free` releases starts at the address, and there is none exactly when no run starts there. |
| FirstFitRuns.Remainder | src/kernel/mem/first_fit.c:145-151 | The node split off behind an allocated block: a free, unreferenced run that starts `pages` pages into the chosen run and holds the rest of its pages, present only when more than one page remains. `FirstFitProps.AllocFreeTotal` shows that a single spare page is lost. |
| FirstFitRuns.AllocAt | src/kernel/mem/first_fit.c:145-157 | The list after `alloc` took `pages` pages from node `k`: the node keeps its start, holds exactly `pages` pages, is used with one reference, and the remainder follows it. `FirstFitProps.AllocAtIndex`, `AllocPreservesGood` and `AllocFreeTotal` state its effect. |
| FirstFitRuns.MarkFree | src/kernel/mem/first_fit.c:186-187 | The released node becomes unused with no reference, and no other run changes. |
| FirstFitRuns.MergeNext | src/kernel/mem/first_fit.c:191-196 | A free next node that is not the head is absorbed into node `j`; otherwise the list is unchanged. `FirstFitProps.MergeNextIndex` and `MergeNextFreeTotal` state its effect. |
| FirstFitRuns.MergePrev | src/kernel/mem/first_fit.c:198-203 | Node `j`, when it is not the head and its previous node is free, is absorbed into that node; otherwise the list is unchanged. `FirstFitProps.MergePrevIndex` and `MergePrevFreeTotal` state its effect. |
| FirstFitRuns.ReleaseAt | src/kernel/mem/first_fit.c:186-203 | The list after `free` released node `j`: marked free, then merged forward, then backward. `FirstFitProps.ReleasePreservesGood` and `ReleaseFreeTotal` state its effect. |
| FirstFitList.ListInitHead | src/kernel/mem/first_fit.c:56-60 | The node links to itself in both directions, and no other descriptor changes. |
| FirstFitList.ListAddMiddle | src/kernel/mem/first_fit.c:63-68 | The array becomes the specified four-link insertion of the new node between the two given nodes. |
| FirstFitList.ListAddAfter | src/kernel/mem/first_fit.c:71-74 | `p.next` becomes the new node, `n.prev == p`, `n.next` is the old `p.next`, and the old `p.next` points back to `n`. |
| FirstFitList.ListAddBefore | src/kernel/mem/first_fit.c:77-80 | `n.prev` becomes the new node, which links forward to `n` and back to the old `n.prev`, and the old `n.prev` points forward to it. |
| FirstFitList.ListDel | src/kernel/mem/first_fit.c:83-87 | The array becomes the specified removal: the old `x.prev` links forward to the old `x.next`, and that links back to it. |
| FirstFitList.LinkFacts | src/kernel/mem/first_fit.c:63-68 | The insertion links the new node between its neighbours and leaves every other node's links as they were. |
| FirstFitList.UnlinkFacts | src/kernel/mem/first_fit.c:83-87 | The removal joins the node's neighbours and leaves every other node's links as they were. |
| FirstFitList.Link | src/kernel/mem/first_fit.c:63-68 | The four stores of `list_add_middle`, in source order, on the descriptor array. `LinkFacts` and `LinkAfterLinked` state their effect. |
| FirstFitList.Unlink | src/kernel/mem/first_fit.c:83-86 | The two stores of `list_del`, in source order, each reading the node afresh. `UnlinkFacts` and `UnlinkLinked` state their effect. |
| FirstFitList.ListNext | src/kernel/mem/first_fit.c:95-97 | The descriptor a node's `next` link names, as both scans step to it. For a listed node of a well-formed arena, `FirstFitSteps.WfNode` shows it is the next node in list order. |
| FirstFitList.ListPrev | src/kernel/mem/first_fit.c:90-92 | The descriptor a node's `prev` link names. For a listed node of a well-formed arena, `FirstFitSteps.WfNode` shows it is the previous node in list order. |
| FirstFitList.Runs | src/kernel/mem/first_fit.c:99-114 | The list read from the descriptors: one run per listed node, in list order, with the node's address, page count, flag and reference. |
| FirstFitList.Insert | src/kernel/mem/first_fit.c:71-74 | The list order after inserting a node behind position `k`: earlier nodes keep their positions, the new node follows `k`, and later ones move back by one. |
| FirstFitList.Remove | src/kernel/mem/first_fit.c:83-87 | The list order after removing position `j`: earlier nodes keep their positions and later ones move forward by one. |
| FirstFitList.HeadOnlyAtZero | src/kernel/mem/first_fit.c:140-142 | In a list whose order follows descriptor order, the head's descriptor occurs only at position 0: a scan stops on the head only after every other node. |
| FirstFitList.LinkAfterLinked | src/kernel/mem/first_fit.c:71-74 | Inserting a node not yet in the list after a list node keeps the whole list doubly-linked, with the node in the next position. |
| FirstFitList.UnlinkLinked | src/kernel/mem/first_fit.c:83-87 | Removing a node other than the head keeps the rest of the list doubly-linked. |
| FirstFitProps.AllocFreeTotal | src/kernel/mem/first_fit.c:145-159 | An allocation takes exactly the requested pages from the free runs, plus the one leftover page when a run had exactly one page more. |
| FirstFitProps.ReleaseFreeTotal | src/kernel/mem/first_fit.c:186-203 | Releasing a used run adds exactly its pages to the free runs, and releasing a free one adds none: coalescing neither adds nor loses pages. |
| FirstFitProps.MergeNextFreeTotal | src/kernel/mem/first_fit.c:191-196 | Merging a free run with the next one keeps the number of free pages. |
| FirstFitProps.MergePrevFreeTotal | src/kernel/mem/first_fit.c:198-203 | Merging a free run into the previous one keeps the number of free pages. |
| FirstFitProps.AllocAtIndex | src/kernel/mem/first_fit.c:145-159 | After an allocation, runs before the chosen one are unchanged. The chosen run is used with the requested pages and one reference. The remainder, when split, follows it, and later runs shift by its length. |
| FirstFitProps.MergeNextIndex | src/kernel/mem/first_fit.c:191-196 | A forward merge widens the run by the next run's pages and shifts the later runs forward by one. |
| FirstFitProps.MergePrevIndex | src/kernel/mem/first_fit.c:198-203 | A backward merge widens the previous run by the released run's pages and shifts the later runs forward by one. |
| FirstFitProps.FindRunUnique | src/kernel/mem/first_fit.c:182-183 | In a well-formed list the scan finds each run by its own start. |
| FirstFitProps.OrderedDisjoint | src/kernel/mem/first_fit.c:145-153 | Distinct runs of an ordered list occupy disjoint page ranges. |
| FirstFitProps.AllocPreservesGood | src/kernel/mem/first_fit.c:140-159 | An allocation keeps the list well formed: positive, address-ordered, aligned, coalesced, and free runs unreferenced. |
| FirstFitProps.MergeNextShaped | src/kernel/mem/first_fit.c:191-196 | Absorbing a free next run keeps the list ordered and leaves only the pair before the released run uncoalesced. |
| FirstFitProps.MergePrevGood | src/kernel/mem/first_fit.c:198-203 | Absorbing the released run into a free previous run completes coalescing. |
| FirstFitProps.ReleasePreservesGood | src/kernel/mem/first_fit.c:186-203 | Releasing any run keeps the list well formed. |
| FirstFitProps.AllocThenRelease | src/kernel/mem/first_fit.c:133-206 | Allocating and then freeing the same block restores the list, except that a run with one page to spare comes back one page short. |
| FirstFitProps.SplitThenRelease | src/kernel/mem/first_fit.c:145-196 | Freeing a block that was split off a run merges the remainder back and restores the list exactly. |
| FirstFitProps.WholeThenRelease | src/kernel/mem/first_fit.c:155-187 | Freeing a block that took a whole run gives the list back with that run free again but only the allocated length: a spare page is lost. |
| FirstFitProps.AllocationsDisjoint | src/kernel/mem/first_fit.c:140-159 | A second allocation never overlaps the first, and both are page-aligned. |
| FirstFitSteps.WfNode | src/kernel/mem/first_fit.c:119-131 | Every list node lies in the array, records the address of its own descriptor, spans pages up to the next node, and links to its list neighbours. |
| FirstFitSteps.SplitStep | src/kernel/mem/first_fit.c:145-153 | Storing the remainder at index `entry + pages` and linking it after the entry keeps the arena well formed and yields the specified allocation. |
| FirstFitSteps.TakeStep | src/kernel/mem/first_fit.c:155-159 | Cutting the entry to `pages`, with `ref = 1` and marked used, keeps the arena well formed and yields the specified allocation. |
| FirstFitSteps.MarkStep | src/kernel/mem/first_fit.c:186-187 | Setting `ref = 0` and unused keeps the arena well formed and marks exactly that run free. |
| FirstFitSteps.MergeNextStep | src/kernel/mem/first_fit.c:191-196 | Summing the next node's pages into the entry, zeroing it and unlinking it keeps the arena well formed and yields the specified forward merge. |
| FirstFitSteps.MergePrevStep | src/kernel/mem/first_fit.c:198-203 | Summing the entry's pages into the previous node, zeroing it and unlinking it keeps the arena well formed and yields the specified backward merge. |
| FirstFitSteps.SplitAt | src/kernel/mem/first_fit.c:147-157 | The stores of the split branch on node `e`: fill in node `t`, link it after `e`, then cut `e` to `pages` pages, used, one reference. `SplitStep` states their effect on the runs. |
| FirstFitSteps.TakeAt | src/kernel/mem/first_fit.c:155-157 | The stores of the branch without a split: node `e` cut to `pages` pages, used, one reference. `TakeStep` states their effect on the runs. |
| FirstFitSteps.Released | src/kernel/mem/first_fit.c:186-187 | A released descriptor: no reference and unused. `MarkStep` states the effect on the runs. |
| FirstFitSteps.AbsorbNext | src/kernel/mem/first_fit.c:192-195 | The stores of the forward merge: the next node's pages added to `e`, the next node left with none and unlinked. `MergeNextStep` states their effect on the runs. |
| FirstFitSteps.AbsorbIntoPrev | src/kernel/mem/first_fit.c:199-202 | The stores of the backward merge: the pages of `e` added to the previous node, `e` left with none and unlinked. `MergePrevStep` states their effect on the runs. |
| FirstFit.FirstFitManager.Init | src/kernel/mem/first_fit.c:119-131 | Both counters are the page count, the range runs from the first to the last descriptor address, and the list is one self-linked head: a free run of all pages. |
| FirstFit.FirstFitManager.FindFit | src/kernel/mem/first_fit.c:140-169 | The loop finds a node exactly when the specification's first fit exists, and then it finds that node. |
| FirstFit.FirstFitManager.Alloc | src/kernel/mem/first_fit.c:133-172 | Success returns the chosen run's start, applies the specified allocation and lowers the counter by the pages. Failure returns 0 and changes nothing. |
| FirstFit.FirstFitManager.SplitRun | src/kernel/mem/first_fit.c:145-159 | The split branch applies the specified allocation and keeps the manager valid. |
| FirstFit.FirstFitManager.TakeRun | src/kernel/mem/first_fit.c:155-159 | The no-split branch applies the specified allocation and keeps the manager valid. |
| FirstFit.FirstFitManager.ScanFor | src/kernel/mem/first_fit.c:182-183 | The loop stops on the node at the specified scan position. |
| FirstFit.FirstFitManager.Free | src/kernel/mem/first_fit.c:174-206 | A known start is released as specified, and the counter rises by the requested pages. An unknown one gives `NotFound` and changes nothing. |
| FirstFit.FirstFitManager.ReleaseFound | src/kernel/mem/first_fit.c:186-204 | Once the scan has found the run at the address, the list becomes that run released and coalesced, and the counter rises by the requested pages, wrapped to 32 bits. |
| FirstFit.FirstFitManager.SetFreePages | src/kernel/mem/first_fit.c:204 | Updating the free counter leaves every run of the list unchanged. |
| FirstFit.FirstFitManager.Release | src/kernel/mem/first_fit.c:186-203 | Marking and both merges together apply the specified release and keep the manager valid. |
| FirstFit.FirstFitManager.MarkReleased | src/kernel/mem/first_fit.c:186-187 | The run is marked free with no reference, and the arena stays consistent. |
| FirstFit.FirstFitManager.CoalesceNext | src/kernel/mem/first_fit.c:191-196 | A free next run that is not the head is absorbed as specified. |
| FirstFit.FirstFitManager.CoalescePrev | src/kernel/mem/first_fit.c:198-203 | When the run is not the head and its previous run is free, the run is absorbed into it as specified. |
| FirstFit.FirstFitManager.FreePagesCount | src/kernel/mem/first_fit.c:208-210 | The free-page count fits in 32 bits. |
| FirstFit.SplitOff | src/kernel/mem/first_fit.c:147-153 | The stores of the split branch produce exactly the specified split array. |
| FirstFit.AbsorbNextNode | src/kernel/mem/first_fit.c:192-195 | The stores of the forward merge produce exactly the specified array. |
| FirstFit.AbsorbIntoPrevNode | src/kernel/mem/first_fit.c:199-202 | The stores of the backward merge produce exactly the specified array. |
| FirstFitFindings.InitAsWritten | src/kernel/mem/first_fit.c:119-131 | The list `init` leaves as written: the head linked to itself, carrying the run fields of its descriptor. |
| FirstFitFindings.InitAsWrittenNeverFits | src/kernel/mem/first_fit.c:119-131 | As written, the head handed over by pmm.c is a used run of no pages, so no request can be met. |
| FirstFitFindings.InitRunFits | src/kernel/mem/first_fit.c:140-143 | With the head one free run of `n` pages, a request is met from the head exactly when it needs at most `n` pages. |
| FirstFitFindings.FreeAsWritten | src/kernel/mem/first_fit.c:182-187 | `free` with the scan as written: release wherever the scan stops, on the head when nothing matched. The release is the corrected one, without coalescing across the head. |
| FirstFitFindings.FreeUnknownReleasesHead | src/kernel/mem/first_fit.c:182-187 | As written, freeing an address no run starts at stops on the head and leaves the head's run free. |
| FirstFitFindings.FreeUnknownExample | src/kernel/mem/first_fit.c:182-196 | After one one-page allocation, freeing 0x500000 as written returns the allocated page to one free run of all pages. |
| FirstFitFindings.ReleaseHeadAsWritten | src/kernel/mem/first_fit.c:186-203 | Release of the head as written: after the forward merge, a free last node absorbs the head, which is unlinked while the list still starts there. |
| FirstFitFindings.FreeHeadAsWrittenOverruns | src/kernel/mem/first_fit.c:198-203 | After two allocations, freeing the head as written merges it into the last run, which then ends one page past RAM. |
| FirstFitFindings.ReleaseWithinEnd | src/kernel/mem/first_fit.c:186-203 | Without merging across the head, no run reaches past the end any run reached before the release. |
| FirstFitFindings.SplitNodeAsWritten | src/kernel/mem/first_fit.c:147 | The descriptor index the split node is written to as written: `entrySize` descriptors past the entry. |
| FirstFitFindings.SplitNodeAsWrittenMisplaced | src/kernel/mem/first_fit.c:147-148 | As written, the split node's descriptor disagrees with the address it records whenever the descriptor size differs from the page count. |
| FirstFitFindings.SplitOntoLiveNodeLoops | src/kernel/mem/first_fit.c:145-164 | When the node after a free entry is the descriptor `entrySize` past it, the split as written lands on that live node and links it to itself. Every later walk from the entry stays there, never returning to the head, so the scan of an `alloc` no run satisfies does not end. |
| E820.Convert | src/arch/x86_64/mm/pmm.c:32-34 | A table entry carries the record's address, length and type unchanged. |
| E820.ConvertAll | src/arch/x86_64/mm/pmm.c:29-36 | The converted records, one entry per record, in order. |
| E820.E820Map.constructor | src/arch/x86_64/mm/pmm.c:180-181 | A cleared map: no entries in use, and all eight slots zero. |
| E820.E820Map.GetRamInfo | src/arch/x86_64/mm/pmm.c:27-38 | Records are copied in order. The import is fatal exactly when there are more than eight records. `nrMap` ends at the record count, or 8 when fatal. Slots beyond it are unchanged. |
| Zones.Classify | src/arch/x86_64/mm/pmm.c:98-120 | DMA below 16 MiB, Normal from 16 MiB up to 896 MiB, HighMem above 896 MiB, and no zone at exactly 896 MiB. |
| Zones.Describe | src/arch/x86_64/mm/pmm.c:98-120 | A classified page gets its zone and address and zero attribute, reference and age. The page at 896 MiB is left as it was. |
| Zones.Region | src/arch/x86_64/mm/pmm.c:92-124 | The cleared and filled descriptors of the region: descriptor `i` describes the page at `start + i * 4096`. |
| Zones.Grow | src/arch/x86_64/mm/pmm.c:140-142 | One page added to a zone: its end becomes the page's address plus a page, its length grows by a page and its free count by one. |
| Zones.AccountPage | src/arch/x86_64/mm/pmm.c:128-149 | One step of the accounting loop: the descriptor's address picks DMA, Normal or HighMem, and the address at exactly 896 MiB picks none. `AccountPageCounted` and `AccountPageOther` state its effect per zone. |
| Zones.AccountAll | src/arch/x86_64/mm/pmm.c:127-150 | The accounting loop over the descriptors, in order. `AccountAllZones` gives its result in closed form. |
| Zones.Padding | src/arch/x86_64/mm/pmm.c:132-135 | The 1 MiB added to the DMA length once the zone has counted 0xF00 pages, 15 MiB. |
| Zones.AccountPageCounted | src/arch/x86_64/mm/pmm.c:128-136 | Counting one more page in a zone extends its end to that page, grows its length by a page (with the DMA pad at 15 MiB) and its free count by one. |
| Zones.AccountPageOther | src/arch/x86_64/mm/pmm.c:127-150 | A page counted in another zone leaves this zone unchanged. |
| Zones.AccountAllZones | src/arch/x86_64/mm/pmm.c:127-150 | Per zone: the free count is the number of descriptors counted in it, and the length is a page per descriptor plus 1 MiB for DMA once it reached 15 MiB. The end is the last such address plus a page. |
| Zones.RegionPage | src/arch/x86_64/mm/pmm.c:97-150 | Page `i` of the region at 1 MiB is counted in DMA below index 0xF00 or at the boundary index 0x37F00, in Normal between them, and in HighMem beyond. |
| Zones.CountAppend | src/arch/x86_64/mm/pmm.c:127-150 | One more descriptor adds one to its zone's count and becomes that zone's last address. |
| Zones.RegionStep | src/arch/x86_64/mm/pmm.c:97-124 | The region of `n` pages is the region of `n - 1` pages followed by page `n - 1`. |
| Zones.RegionDmaCount | src/arch/x86_64/mm/pmm.c:127-136 | The region of `n` pages has `min(n, 0xF00)` DMA pages, plus the boundary page once `n > 0x37F00`. |
| Zones.RegionDmaLast | src/arch/x86_64/mm/pmm.c:127-136 | The last DMA address is that of the last page below 16 MiB, or 0 once the zeroed boundary page is reached. |
| Zones.RegionNormalCount | src/arch/x86_64/mm/pmm.c:138-142 | The Normal pages are those from index 0xF00 up to the boundary index. |
| Zones.RegionNormalLast | src/arch/x86_64/mm/pmm.c:138-142 | The last Normal address is that of the last page before the boundary. |
| Zones.RegionHigh | src/arch/x86_64/mm/pmm.c:144-148 | The HighMem pages are those past the boundary index. |
| Zones.RegionZonesClosed | src/arch/x86_64/mm/pmm.c:127-150 | Closed forms of the DMA and Normal zones' counts, lengths and ends, and of the HighMem count, for the region of `n` pages at 1 MiB. |
| Zones.Checks | src/arch/x86_64/mm/pmm.c:152-160 | The four checks after the accounting loop in source order, giving the first that fails, with the Normal-length subtraction taken modulo 2^64. `RegionChecks` states when all four pass. |
| Zones.RegionChecks | src/arch/x86_64/mm/pmm.c:153-160 | For the region at 1 MiB, all four checks pass exactly when `0xF00 < n <= 0x37F00`. |
| Zones.BoundaryPageCountedAsDma | src/arch/x86_64/mm/pmm.c:115-136 | A region reaching 896 MiB has its zeroed boundary descriptor counted as DMA. The DMA end becomes 0x1000 and the DMA length check fails. |
| Zones.WorkedExampleZones | src/arch/x86_64/mm/pmm.c:127-160 | For 0x2000 pages: 3840 DMA pages with the length padded to 0x1000000, a Normal length of 0x1100000 = 0x2000 * 0x1000 - 0xF00000, and every check passes. |
| Pmm.Usable | src/arch/x86_64/mm/pmm.c:81-82 | The entries the page count takes: available RAM whose low 32 address bits are 1 MiB. |
| Pmm.AvailablePages | src/arch/x86_64/mm/pmm.c:80-91 | The pages the count loop adds: the length, rounded up to whole pages, of every usable entry. `AvailablePagesAppend`, `AvailablePagesUnusable` and `SingleEntry` state its properties. |
| Pmm.RegionStartOf | src/arch/x86_64/mm/pmm.c:80-91 | The start the count loop settles on: the address of the last usable entry, or 0. `RegionStartIsLastUsable` states it. |
| Pmm.AvailablePagesAppend | src/arch/x86_64/mm/pmm.c:80-91 | The page counts of the parts of a map add up. |
| Pmm.AvailablePagesUnusable | src/arch/x86_64/mm/pmm.c:81-82 | A map without an available entry at 1 MiB (low 32 bits) counts no page and leaves the start at 0. |
| Pmm.RegionStartIsLastUsable | src/arch/x86_64/mm/pmm.c:81-84 | The region start is the address of a usable entry with no usable entry after it. |
| Pmm.SingleEntry | src/arch/x86_64/mm/pmm.c:80-91 | One usable entry yields its length rounded up to pages, and its address as the start. |
| Pmm.Mask | src/include/mem/pmm.h:34 | Masking discards address bits 32 and up and rounds the low 32 bits down to a page: the result is page-aligned, below 4 GiB, and the largest such value not above the address taken modulo 4 GiB. For an address below 4 GiB that is the largest page-aligned value not above the address itself. |
| Pmm.Placement | src/arch/x86_64/mm/pmm.c:76 | The corrected placement: one page past the kernel end, masked to a page boundary. `PlacementBounds` states its bounds. |
| Pmm.PlacementAsWritten | src/arch/x86_64/mm/pmm.c:76 | The placement as written: the kernel end advanced by 0x1000 elements of eight bytes, then masked. `PlacementAsWrittenOvershoots` states where it lands. |
| Pmm.PlacementBounds | src/arch/x86_64/mm/pmm.c:76 | The descriptor array is page-aligned, strictly above the kernel end, and at most one page past it. |
| Pmm.PlacementAsWrittenOvershoots | src/arch/x86_64/mm/pmm.c:76 | The placement as written lies more than seven pages past the kernel end. |
| Pmm.PhysicalMemory.constructor | src/arch/x86_64/mm/pmm.c:21-70 | Before `pmm_init`: no pages counted, the three zones as statically initialised, and no allocator. |
| Pmm.PhysicalMemory.CountPages | src/arch/x86_64/mm/pmm.c:80-91 | The count grows by the rounded-up pages of every usable entry. The start is the address of the last usable entry. |
| Pmm.PhysicalMemory.FillDescriptors | src/arch/x86_64/mm/pmm.c:97-124 | Every descriptor is filled as `Describe` says for the page at `start + i * 4096`. |
| Pmm.PhysicalMemory.AccountZones | src/arch/x86_64/mm/pmm.c:127-150 | The zones become the accounting fold over the descriptors, in order. |
| Pmm.PhysicalMemory.PhyInit | src/arch/x86_64/mm/pmm.c:72-166 | The array is placed and cleared and the pages counted. A start other than 1 MiB is fatal. Otherwise the descriptors are the region's, the zones are accounted, and the status is the first failing check. |
| Pmm.PhysicalMemory.Build | src/arch/x86_64/mm/pmm.c:179-182 | Import then build. More than eight records are fatal. A start other than 1 MiB is fatal. Otherwise the zones are the region's closed form, and the build passes exactly when `0xF00 < n <= 0x37F00`. |
| Pmm.PhysicalMemory.StartAllocator | src/arch/x86_64/mm/pmm.c:168-173 | The allocator receives the descriptors and holds all pages as one free run, with its counter at the page count. |
| Pmm.PhysicalMemory.Init | src/arch/x86_64/mm/pmm.c:175-191 | `pmm_init`: the build's outcome, and after a successful build the allocator holds one free run of all pages with `pmm_free_pages_count() == phy_pages_count`. |
| Pmm.PhysicalMemory.Alloc | src/arch/x86_64/mm/pmm.c:193-197 | `pmm_alloc` returns what the allocator's first-fit gives, with the same effect: on success the specified allocation and the counter lowered by the pages, on failure 0 with the list and the counter unchanged. Before `pmm_init` it returns 0. |
| Pmm.PhysicalMemory.Free | src/arch/x86_64/mm/pmm.c:199-202 | `pmm_free` has the allocator's effect: release of the run at the address, or nothing for an unknown one. |
| Pmm.PhysicalMemory.FreePagesCount | src/arch/x86_64/mm/pmm.c:204-206 | The allocator's free counter, or 0 before `pmm_init`. |
| Pmm.ScenarioAllocs | src/kernel/mem/first_fit.c:140-159 | From one run of 0x2000 pages at 1 MiB, a one-page request takes the head and a second one takes the remainder. |
| Pmm.ScenarioSecondAlloc | src/kernel/mem/first_fit.c:145-159 | The second one-page allocation leaves used pages at 0x100000 and 0x101000 and a free run of 0x1FFE pages. |
| Pmm.ScenarioFrees | src/kernel/mem/first_fit.c:182-203 | Freeing 0x100000 and then 0x101000 coalesces the list back into one free run of all 0x2000 pages. |
| Pmm.AllocPage | src/arch/x86_64/mm/pmm.c:193-197 | A one-page `pmm_alloc` on a known list returns the chosen run's start and lowers the counter by one. |
| Pmm.FreePage | src/arch/x86_64/mm/pmm.c:199-202 | A one-page `pmm_free` of a known run start releases it and raises the counter by one. |
| Pmm.BootOneRegion | src/arch/x86_64/mm/pmm.c:175-191 | `pmm_init` with one available entry of 32 MiB at 1 MiB builds 0x2000 pages, and the allocator holds them as one free run. |
| Pmm.BootScenario | src/arch/x86_64/mm/pmm.c:175-206 | After boot, two `pmm_alloc(0x1000)` calls return 0x100000 and 0x101000. Freeing both restores one run of 0x2000 pages and the counter 0x2000. |

## Left out

- Interrupt masking around `pmm_init` (`local_intr_store`/`local_intr_restore`) is a hardware concurrency primitive. `pmm_init` is modelled as the plain sequence: import, build, allocator init.
- Logging (`printk_info`, `printk_err`) is output only.
- The linker symbols `kernel_end`, `mmap_entries` and `mmap_tag` become parameters. The kernel end is an address, and the memory-map tag is the sequence of its records. The byte-stride walk over the tag is not modelled.
- `bzero` is modelled on descriptors and table entries, not bytes. The `zone_info` reference is modelled as a zone name, with none for the 896 MiB page.
- The strategy table `pmm_manage_t` is a direct reference to the one first-fit manager. Dispatch through the table is not modelled.
- The `CPU_PSE` 4 MiB page size and the unused kernel-stack and `KERNEL_BASE` constants of pmm.h are not modelled. The page size is fixed at 4 KiB.
- Pmm.PhysicalMemory.Alloc: requires a nonzero size, because it forwards to the allocator's `alloc`, which needs one (next line).
- FirstFit.FirstFitManager.Alloc: requires a nonzero size. `alloc(0)` computes zero pages, and the split node would then coincide with the entry.
- Pmm.PhysicalMemory.Free: requires `pmm_init` to have run. Before it, `free` would read the NULL `free_list`, which has no meaning in the model.
- FirstFit.FirstFitManager.FreePagesCount: states only the 32-bit bound. The value is the `freePages` field, whose changes `Alloc` and `Free` state.
- The 64-bit wrap-around of `addr + length` in the page count, of the address stepping there and in the filling loop, and of the zone lengths is not modelled. Addresses and lengths are unbounded naturals; only the Normal-length check uses an explicit 64-bit subtraction.
- `pmm_init` is assumed to run once. `Init` starts from the static state, although `phy_pages_count` and the zones accumulate from their previous values (as `PhyInit` states).
- An import past eight records is modelled as a fatal status before the ninth write. The code writes `map[8]`, past the table, before its check fails.
- The four fatal checks after the build, and a start other than 1 MiB, end `pmm_init` with a status. The kernel would halt there.
- The scenario with the map `[{0x100000, 0x2000000, available}]` ends, after freeing both pages, with one free run of all 0x2000 pages starting at 0x100000, not a run of 2 pages: the second free merges with the remainder after it as well.
- The descriptor type is the union of the pmm.h fields and the list fields first_fit.c uses (`next`, `prev`, `npages`, `flag`, `ref`). Links are indices into the descriptor array.

## Findings

| source | as written | input that shows it | evidently intended | confidence | as-written member | corrected member |
|---|---|---|---|---|---|---|
| src/kernel/mem/first_fit.c:119-131 | `init` only links the head to itself. The head keeps `flag == FF_USED` (0) and `npages == 0`. | any `pmm_init`; then every `alloc` returns 0 | head is one unused run of `page_count` pages, matching the counters | high, not executed | FirstFitFindings.InitAsWrittenNeverFits | FirstFit.FirstFitManager.Init |
| src/kernel/mem/first_fit.c:182-187 | when no node after the head starts at the address, the scan stops on the head, which is then freed | after one `alloc(0x1000)`, `free(0x500000, 0x1000)` frees the page at 0x100000 | report a missing run and change nothing | high, not executed | FirstFitFindings.FreeUnknownExample | FirstFit.FirstFitManager.Free |
| src/kernel/mem/first_fit.c:191-203 | the neighbour tests follow the circular links, so the last run can absorb the head and the node `free_list` points at is unlinked | after two `alloc(0x1000)`, `free(0x100000, 0x1000)` leaves a run of 0x1FFF pages at 0x102000, one page past 0x2100000 | coalesce only with neighbours in address order | high, not executed | FirstFitFindings.FreeHeadAsWrittenOverruns | FirstFitFindings.ReleaseWithinEnd |
| src/kernel/mem/first_fit.c:147 | `entry + sizeof(list_entry_t)` advances by whole descriptors, S of them, so the split node can land on a live node | with `init` corrected: `alloc(0x1000)`, `alloc(0x3000)`, `alloc(0x1000)` put nodes at descriptors 0, S, 2S and 3S; `free(base + 0x1000, 0x3000)` frees S; the next `alloc(0x1000)` writes its split node onto 2S and links 2S to itself, so node 3S leaves the list and an `alloc` nothing satisfies never returns | the descriptor of the page at `phy_addr + pages * PMM_PAGE_SIZE`, index `entry + pages` | high, not executed | FirstFitFindings.SplitOntoLiveNodeLoops | FirstFitSteps.SplitStep |
| src/arch/x86_64/mm/pmm.c:76 | `&kernel_end + PMM_PAGE_SIZE` advances a `ptr_t **` by 0x1000 elements of 8 bytes (0x8000 bytes) | any kernel end below 4 GiB - 0x8000: the array lands more than seven pages past it | one page past the kernel end, rounded down | medium, not executed | Pmm.PlacementAsWrittenOvershoots | Pmm.PlacementBounds |
