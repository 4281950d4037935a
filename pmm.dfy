/**
 * The physical memory manager of pmm.c: import of the memory map, the page count of the
 * available region at 1 MiB, the descriptor array and the zone registry built over it, and the
 * public calls, which forward to the first-fit allocator.
 */
module Pmm {
  import opened PmmTypes
  import opened E820
  import opened Zones
  import opened FirstFitRuns
  import opened FirstFit

  /** Multiboot2 memory-map type of available RAM. */
  const MULTIBOOT_MEMORY_AVAILABLE: nat := 1
  /** `sizeof(ptr_t *)` on x86_64: the stride of arithmetic on the address of `kernel_end`. */
  const PTR_SIZE: nat := 8

  // ---------------------------------------------------------------------------------------------
  // Page count

  /** An entry the page count takes: available RAM whose low 32 address bits are 1 MiB. */
  predicate Usable(e: E820Entry) {
    e.etype == MULTIBOOT_MEMORY_AVAILABLE && e.addr % TWO_TO_32 == REGION_START
  }

  /** The pages counted for `es`: whole pages, rounded up, of every usable entry. */
  function AvailablePages(es: seq<E820Entry>): nat {
    if es == [] then 0
    else AvailablePages(es[..|es| - 1]) + (if Usable(es[|es| - 1]) then PagesFor(es[|es| - 1].length) else 0)
  }

  /** The region start the page count settles on: the address of the last usable entry, or 0. */
  function RegionStartOf(es: seq<E820Entry>): nat {
    if es == [] then 0
    else if Usable(es[|es| - 1]) then es[|es| - 1].addr
    else RegionStartOf(es[..|es| - 1])
  }

  /** Contributions of separate parts of the map add up. */
  lemma {:induction false} AvailablePagesAppend(a: seq<E820Entry>, b: seq<E820Entry>)
    ensures AvailablePages(a + b) == AvailablePages(a) + AvailablePages(b)
    decreases |b|
  {
    if b == [] {
      assert a + b == a;
    } else {
      assert (a + b)[..|a + b| - 1] == a + b[..|b| - 1];
      AvailablePagesAppend(a, b[..|b| - 1]);
    }
  }

  /** Only usable entries contribute: a map without one counts no page. */
  lemma {:induction false} AvailablePagesUnusable(es: seq<E820Entry>)
    requires forall i :: 0 <= i < |es| ==> !Usable(es[i])
    ensures AvailablePages(es) == 0
    ensures RegionStartOf(es) == 0
  {
    if es != [] {
      AvailablePagesUnusable(es[..|es| - 1]);
    }
  }

  /** The region start is the address of a usable entry no later usable entry follows. */
  lemma {:induction false} RegionStartIsLastUsable(es: seq<E820Entry>)
    requires exists i :: 0 <= i < |es| && Usable(es[i])
    ensures exists i :: 0 <= i < |es| && Usable(es[i]) && RegionStartOf(es) == es[i].addr
                        && forall j :: i < j < |es| ==> !Usable(es[j])
  {
    var n := |es|;
    if Usable(es[n - 1]) {
      assert Usable(es[n - 1]) && RegionStartOf(es) == es[n - 1].addr;
    } else {
      var init := es[..n - 1];
      var i :| 0 <= i < n && Usable(es[i]);
      assert Usable(init[i]);
      RegionStartIsLastUsable(init);
      var k :| 0 <= k < n - 1 && Usable(init[k]) && RegionStartOf(init) == init[k].addr
               && forall j :: k < j < n - 1 ==> !Usable(init[j]);
      assert forall j :: k < j < n ==> !Usable(es[j]) by {
        forall j | k < j < n ensures !Usable(es[j]) {
          if j < n - 1 {
            assert es[j] == init[j];
          }
        }
      }
    }
  }

  /** Any whole number of pages that covers `len` bytes is at least `PagesFor(len)`. */
  lemma PagesForLeast(len: nat, c: nat)
    requires len <= c * PMM_PAGE_SIZE
    ensures PagesFor(len) <= c
  {
    var n := PagesFor(len);
    assert n * PMM_PAGE_SIZE < (c + 1) * PMM_PAGE_SIZE;
  }

  /** One usable entry of `len` bytes yields its pages, rounded up, and its address. */
  lemma SingleEntry(e: E820Entry)
    requires Usable(e)
    ensures AvailablePages([e]) == PagesFor(e.length) && RegionStartOf([e]) == e.addr
  {
    assert [e][..0] == [];
  }

  // ---------------------------------------------------------------------------------------------
  // Placement of the descriptor array

  /** `x & PMM_PAGE_MASK`: the 32-bit mask keeps address bits 12 to 31. */
  function Mask(x: nat): (r: nat)
    ensures r % PMM_PAGE_SIZE == 0 && r < TWO_TO_32
    ensures x < TWO_TO_32 ==> r <= x < r + PMM_PAGE_SIZE
    ensures r <= x % TWO_TO_32 < r + PMM_PAGE_SIZE
  {
    (x % TWO_TO_32) / PMM_PAGE_SIZE * PMM_PAGE_SIZE
  }

  /**
   * The placement as written: `&kernel_end + PMM_PAGE_SIZE` advances the address of a `ptr_t *`
   * variable by PMM_PAGE_SIZE elements of eight bytes each before masking.
   */
  function PlacementAsWritten(kernelEnd: nat): nat {
    Mask(Wrap64(kernelEnd + PTR_SIZE * PMM_PAGE_SIZE))
  }

  /** The placement as intended: one page past the kernel image, rounded down to a page boundary. */
  function Placement(kernelEnd: nat): nat {
    Mask(Wrap64(kernelEnd + PMM_PAGE_SIZE))
  }

  /** The intended placement is page-aligned, above the kernel image and at most a page past it. */
  lemma PlacementBounds(kernelEnd: nat)
    requires kernelEnd + PMM_PAGE_SIZE < TWO_TO_32
    ensures var p := Placement(kernelEnd);
            p % PMM_PAGE_SIZE == 0 && kernelEnd < p <= kernelEnd + PMM_PAGE_SIZE
  {
  }

  /** The placement as written lands more than seven pages past the kernel image. */
  lemma PlacementAsWrittenOvershoots(kernelEnd: nat)
    requires kernelEnd + PTR_SIZE * PMM_PAGE_SIZE < TWO_TO_32
    ensures var p := PlacementAsWritten(kernelEnd);
            p % PMM_PAGE_SIZE == 0 && kernelEnd + 7 * PMM_PAGE_SIZE < p
            && p > Placement(kernelEnd) + 6 * PMM_PAGE_SIZE
  {
  }

  // ---------------------------------------------------------------------------------------------
  // The manager

  class PhysicalMemory {
    /** `phy_pages_count`. */
    var phyPagesCount: nat
    /** `pmm_pages`: the address the descriptor array is placed at, and the array itself. */
    var pmmPagesAddr: nat
    var pages: array<PageFrame>
    /** `mem_zone_dma`, `mem_zone_normal`, `mem_zone_high`. */
    var zones: ZoneSet
    /** The allocator `pmm_manager` forwards to, once it has been initialised. */
    var manager: FirstFitManager?

    /** The static state before `pmm_init`: nothing counted, zones as initialised, no allocator. */
    ghost predicate Booting()
      reads this
    {
      phyPagesCount == 0 && zones == INITIAL_ZONES && manager == null
    }

    /** The allocator is in place and manages the descriptor array. */
    ghost predicate Ready()
      reads this, manager, if manager == null then {} else {manager.frames}
    {
      manager != null && manager.Valid() && manager.frames == pages
    }

    constructor ()
      ensures Booting() && pmmPagesAddr == 0 && pages.Length == 0
    {
      phyPagesCount := 0;
      pmmPagesAddr := 0;
      pages := new PageFrame[0];
      zones := INITIAL_ZONES;
      manager := null;
    }

    /**
     * The counting loop: for each usable entry, one page per page-size step from its address
     * while below its end. The region start is the address of the last usable entry.
     */
    method CountPages(m: E820Map) returns (start: nat)
      requires m.Valid()
      modifies this`phyPagesCount
      ensures phyPagesCount == old(phyPagesCount) + AvailablePages(m.Entries())
      ensures start == RegionStartOf(m.Entries())
    {
      start := 0;
      var i := 0;
      while i < m.nrMap
        invariant i <= m.nrMap
        invariant phyPagesCount == old(phyPagesCount) + AvailablePages(m.table[..i])
        invariant start == RegionStartOf(m.table[..i])
      {
        var e := m.table[i];
        assert m.table[..i + 1][..i] == m.table[..i];
        if e.etype == MULTIBOOT_MEMORY_AVAILABLE && e.addr % TWO_TO_32 == REGION_START {
          start := e.addr;
          var addr := e.addr;
          ghost var c := 0;
          var n := PagesFor(e.length);
          while addr < e.addr + e.length
            invariant addr == e.addr + c * PMM_PAGE_SIZE && c <= n
            invariant phyPagesCount == old(phyPagesCount) + AvailablePages(m.table[..i]) + c
            decreases e.addr + e.length - addr
          {
            phyPagesCount := phyPagesCount + 1;
            addr := addr + PMM_PAGE_SIZE;
            c := c + 1;
          }
          PagesForLeast(e.length, c);
        }
        i := i + 1;
      }
      assert m.table[..m.nrMap] == m.Entries();
    }

    /**
     * The filling loop over the region of `pages.Length` pages at `start`: each descriptor gets
     * its zone, its address and zero attribute, reference and age, except the one for the page at
     * 896 MiB, which is left as it was.
     */
    method FillDescriptors(start: nat)
      requires pages.Length == phyPagesCount
      modifies pages
      ensures forall i :: 0 <= i < pages.Length ==> pages[i] == Describe(old(pages[i]), start + i * PMM_PAGE_SIZE)
    {
      var end := start + PMM_PAGE_SIZE * phyPagesCount;
      var i := 0;
      var addr := start;
      while addr < end
        invariant i <= phyPagesCount && addr == start + i * PMM_PAGE_SIZE
        invariant forall j :: 0 <= j < i ==> pages[j] == Describe(old(pages[j]), start + j * PMM_PAGE_SIZE)
        invariant forall j :: i <= j < pages.Length ==> pages[j] == old(pages[j])
        decreases end - addr
      {
        if addr < ZONE_HIGHMEM_ADDR {
          if addr < ZONE_NORMAL_ADDR {
            pages[i] := pages[i].(zone := Some(Dma), phyAddr := addr, attribute := 0, ref := 0, age := 0);
          } else {
            pages[i] := pages[i].(zone := Some(Normal), phyAddr := addr, attribute := 0, ref := 0, age := 0);
          }
        } else if addr > ZONE_HIGHMEM_ADDR {
          pages[i] := pages[i].(zone := Some(HighMem), phyAddr := addr, attribute := 0, ref := 0, age := 0);
        }
        i := i + 1;
        // the fatal check inside the loop cannot fail
        assert i <= phyPagesCount;
        addr := addr + PMM_PAGE_SIZE;
      }
    }

    /** The accounting loop: every descriptor, in order, counted into the zone its address names. */
    method AccountZones()
      requires pages.Length == phyPagesCount
      modifies this`zones
      ensures zones == AccountAll(old(zones), pages[..])
    {
      var i := 0;
      while i < phyPagesCount
        invariant i <= phyPagesCount
        invariant zones == AccountAll(old(zones), pages[..i])
      {
        assert pages[..i + 1][..i] == pages[..i];
        var f := pages[i];
        if f.phyAddr < ZONE_NORMAL_ADDR {
          zones := zones.(dma := zones.dma.(end := f.phyAddr + PMM_PAGE_SIZE, length := zones.dma.length + PMM_PAGE_SIZE));
          if zones.dma.length == DMA_PAD_AT {
            zones := zones.(dma := zones.dma.(length := zones.dma.length + DMA_PAD));
          }
          zones := zones.(dma := zones.dma.(free := zones.dma.free + 1));
        } else if f.phyAddr < ZONE_HIGHMEM_ADDR {
          zones := zones.(normal := zones.normal.(end := f.phyAddr + PMM_PAGE_SIZE, length := zones.normal.length + PMM_PAGE_SIZE, free := zones.normal.free + 1));
        } else if f.phyAddr > ZONE_HIGHMEM_ADDR {
          zones := zones.(high := zones.high.(end := f.phyAddr + PMM_PAGE_SIZE, length := zones.high.length + PMM_PAGE_SIZE, free := zones.high.free + 1));
        }
        i := i + 1;
      }
      assert pages[..i] == pages[..];
    }

    /**
     * `pmm_phy_init`: place and clear the descriptor array, count the pages, require the region
     * at 1 MiB, fill the descriptors, account the zones and run the four checks.
     */
    method PhyInit(m: E820Map, kernelEnd: nat) returns (status: BuildStatus)
      requires m.Valid()
      modifies this
      ensures pmmPagesAddr == Placement(kernelEnd)
      ensures phyPagesCount == old(phyPagesCount) + AvailablePages(m.Entries())
      ensures fresh(pages) && pages.Length == phyPagesCount && manager == old(manager)
      ensures RegionStartOf(m.Entries()) != REGION_START ==>
                status == StartNotAt1MiB && zones == old(zones) && forall i :: 0 <= i < pages.Length ==> pages[i] == ZEROED
      ensures RegionStartOf(m.Entries()) == REGION_START ==>
                && pages[..] == Region(REGION_START, phyPagesCount)
                && zones == AccountAll(old(zones), pages[..])
                && status == Checks(zones, phyPagesCount)
    {
      pmmPagesAddr := Placement(kernelEnd);
      var start := CountPages(m);
      pages := new PageFrame[phyPagesCount](_ => ZEROED);
      if start != REGION_START {
        return StartNotAt1MiB;
      }
      FillDescriptors(start);
      assert pages[..] == Region(REGION_START, phyPagesCount);
      AccountZones();
      status := Checks(zones, phyPagesCount);
    }

    /** The import and the build of `pmm_init`, from the records on, up to the allocator. */
    method Build(records: seq<MmapRecord>, kernelEnd: nat) returns (status: BuildStatus)
      requires Booting()
      modifies this
      ensures manager == null
      ensures status == TooManyRecords <==> |records| > E820_MAX
      ensures |records| <= E820_MAX ==> phyPagesCount == AvailablePages(ConvertAll(records))
      ensures |records| <= E820_MAX && RegionStartOf(ConvertAll(records)) != REGION_START ==> status == StartNotAt1MiB
      ensures |records| <= E820_MAX && RegionStartOf(ConvertAll(records)) == REGION_START ==>
                && zones == RegionZones(phyPagesCount)
                && status == Checks(zones, phyPagesCount)
                && (status == Built <==> DMA_PAGES < phyPagesCount <= BOUNDARY_INDEX)
      ensures status != TooManyRecords ==> fresh(pages) && pages.Length == phyPagesCount
      ensures status == Built ==> pages[..] == Region(REGION_START, phyPagesCount)
    {
      var m := new E820Map();
      var fatal := m.GetRamInfo(records);
      if fatal {
        return TooManyRecords;
      }
      assert m.Entries() == ConvertAll(records);
      status := PhyInit(m, kernelEnd);
      if RegionStartOf(m.Entries()) == REGION_START {
        RegionChecks(phyPagesCount);
      }
    }

    /** `pmm_mamage_init`: hand the descriptors of the region at 1 MiB to the allocator. */
    method StartAllocator()
      requires pages.Length == phyPagesCount && 0 < phyPagesCount < TWO_TO_32
      requires pages[0].phyAddr == REGION_START
      modifies this`manager, pages
      ensures Ready() && fresh(manager)
      ensures manager.List() == [Run(REGION_START, phyPagesCount, true, 0)]
      ensures manager.FreePagesCount() == phyPagesCount
    {
      manager := new FirstFitManager.Init(pages, phyPagesCount);
    }

    /**
     * `pmm_init`: import the map, build the registry, and hand the descriptors to the allocator.
     * The build succeeds exactly when the map's usable RAM is one region at 1 MiB of more than
     * 0xF00 and at most 0x37F00 pages; the allocator then holds all of them as one free run.
     */
    method Init(records: seq<MmapRecord>, kernelEnd: nat) returns (status: BuildStatus)
      requires Booting()
      modifies this
      ensures status == TooManyRecords <==> |records| > E820_MAX
      ensures |records| <= E820_MAX ==> phyPagesCount == AvailablePages(ConvertAll(records))
      ensures |records| <= E820_MAX && RegionStartOf(ConvertAll(records)) != REGION_START ==> status == StartNotAt1MiB
      ensures |records| <= E820_MAX && RegionStartOf(ConvertAll(records)) == REGION_START ==>
                && zones == RegionZones(phyPagesCount)
                && status == Checks(zones, phyPagesCount)
                && (status == Built <==> DMA_PAGES < phyPagesCount <= BOUNDARY_INDEX)
      ensures status != Built ==> manager == null
      ensures status != TooManyRecords ==> fresh(pages)
      ensures status == Built ==> && Ready() && fresh(manager)
                                  && manager.List() == [Run(REGION_START, phyPagesCount, true, 0)]
                                  && manager.FreePagesCount() == phyPagesCount
    {
      status := Build(records, kernelEnd);
      if status == Built {
        assert pages[0] == Region(REGION_START, phyPagesCount)[0];
        StartAllocator();
      }
    }

    /** `pmm_alloc`: the allocator's answer; before `pmm_init` its empty list answers 0. */
    method Alloc(bytes: nat) returns (addr: nat)
      requires bytes > 0
      requires manager != null ==> manager.Valid()
      modifies if manager == null then {} else {manager, manager.frames}
      ensures manager == null ==> addr == 0
      ensures manager != null ==> && manager.Valid()
                                  && match FirstFitRuns.FirstFit(old(manager.List()), PagesFor(bytes))
                                     case None => addr == 0 && manager.List() == old(manager.List()) && manager.freePages == old(manager.freePages)
                                     case Some(k) => && addr == old(manager.List())[k].start
                                                     && manager.List() == AllocAt(old(manager.List()), k, PagesFor(bytes))
                                                     && manager.freePages == Wrap32(old(manager.freePages) - PagesFor(bytes))
    {
      if manager == null {
        return 0;
      }
      addr := manager.Alloc(bytes);
    }

    /** `pmm_free`: the allocator releases the run starting at `addr`, if there is one. */
    method Free(addr: nat, bytes: nat) returns (r: FreeResult)
      requires manager != null && manager.Valid()
      modifies manager, manager.frames
      ensures manager.Valid()
      ensures manager.FreeEffect(old(manager.List()), old(manager.freePages), addr, bytes, r)
    {
      r := manager.Free(addr, bytes);
    }

    /** `pmm_free_pages_count`: the allocator's free-page counter, 0 before `pmm_init`. */
    function FreePagesCount(): (n: nat)
      reads this, manager, if manager == null then {} else {manager.frames}
      requires manager != null ==> manager.Valid()
      ensures n < TWO_TO_32
      ensures manager == null ==> n == 0
      ensures manager != null ==> n == manager.freePages
    {
      if manager == null then 0 else manager.FreePagesCount()
    }
  }

  /** The list after the boot scenario's two one-page allocations, and the allocations' addresses. */
  lemma ScenarioAllocs()
    ensures var r0 := [Run(0x10_0000, 0x2000, true, 0)];
            && PagesFor(0x1000) == 1
            && FirstFitRuns.FirstFit(r0, 1) == Some(0)
            && AllocAt(r0, 0, 1) == [Run(0x10_0000, 1, false, 1), Run(0x10_1000, 0x1FFF, true, 0)]
            && FirstFitRuns.FirstFit(AllocAt(r0, 0, 1), 1) == Some(1)
  {
    var r0 := [Run(0x10_0000, 0x2000, true, 0)];
    assert Fits(r0[0], 1);
    var r1 := AllocAt(r0, 0, 1);
    assert r1 == [Run(0x10_0000, 1, false, 1)] + [Run(0x10_1000, 0x1FFF, true, 0)] + [];
    assert !Fits(r1[0], 1) && Fits(r1[1], 1);
  }

  lemma ScenarioSecondAlloc()
    ensures var r1 := [Run(0x10_0000, 1, false, 1), Run(0x10_1000, 0x1FFF, true, 0)];
            AllocAt(r1, 1, 1) == [Run(0x10_0000, 1, false, 1), Run(0x10_1000, 1, false, 1), Run(0x10_2000, 0x1FFE, true, 0)]
  {
    var r1 := [Run(0x10_0000, 1, false, 1), Run(0x10_1000, 0x1FFF, true, 0)];
    assert r1[..1] == [Run(0x10_0000, 1, false, 1)] && r1[2..] == [];
  }

  /** Freeing the two pages, first then second, coalesces the list back into one run. */
  lemma ScenarioFrees()
    ensures var r2 := [Run(0x10_0000, 1, false, 1), Run(0x10_1000, 1, false, 1), Run(0x10_2000, 0x1FFE, true, 0)];
            var r3 := [Run(0x10_0000, 1, true, 0), Run(0x10_1000, 1, false, 1), Run(0x10_2000, 0x1FFE, true, 0)];
            && FindRun(r2, 0x10_0000) == Some(0) && ReleaseAt(r2, 0) == r3
            && FindRun(r3, 0x10_1000) == Some(1) && ReleaseAt(r3, 1) == [Run(0x10_0000, 0x2000, true, 0)]
  {
    var r2 := [Run(0x10_0000, 1, false, 1), Run(0x10_1000, 1, false, 1), Run(0x10_2000, 0x1FFE, true, 0)];
    var r3 := [Run(0x10_0000, 1, true, 0), Run(0x10_1000, 1, false, 1), Run(0x10_2000, 0x1FFE, true, 0)];
    assert MarkFree(r2, 0) == r3;
    var m := MarkFree(r3, 1);
    var n := MergeNext(m, 1);
    assert n == [Run(0x10_0000, 1, true, 0), Run(0x10_1000, 0x1FFF, true, 0)];
    assert MergePrev(n, 1) == [Run(0x10_0000, 0x2000, true, 0)];
  }

  /** One `pmm_alloc` of a single page from a ready manager whose list and counter are known. */
  method AllocPage(pm: PhysicalMemory, ghost before: seq<Run>, ghost k: nat, ghost count: nat) returns (addr: nat)
    requires pm.Ready() && pm.manager.List() == before && pm.manager.freePages == count && 1 <= count
    requires FirstFitRuns.FirstFit(before, 1) == Some(k)
    modifies pm.manager, pm.manager.frames
    ensures pm.Ready() && pm.manager == old(pm.manager)
    ensures addr == before[k].start && pm.manager.List() == AllocAt(before, k, 1) && pm.manager.freePages == count - 1
  {
    assert PagesFor(0x1000) == 1;
    addr := pm.Alloc(0x1000);
  }

  /** One `pmm_free` of a single page at a run start of a ready manager whose list and counter are known. */
  method FreePage(pm: PhysicalMemory, addr: nat, ghost before: seq<Run>, ghost j: nat, ghost count: nat)
    requires pm.Ready() && pm.manager.List() == before && pm.manager.freePages == count && count + 1 < TWO_TO_32
    requires |before| >= 1 && FindRun(before, addr) == Some(j)
    modifies pm.manager, pm.manager.frames
    ensures pm.Ready() && pm.manager == old(pm.manager)
    ensures pm.manager.List() == ReleaseAt(before, j) && pm.manager.freePages == count + 1
  {
    assert PagesFor(0x1000) == 1;
    var r := pm.Free(addr, 0x1000);
  }

  /** `pmm_init` over the one available entry of 32 MiB at 1 MiB. */
  method BootOneRegion(kernelEnd: nat) returns (pm: PhysicalMemory, status: BuildStatus)
    ensures status == Built && pm.Ready() && fresh(pm) && fresh(pm.manager) && fresh(pm.manager.frames)
    ensures pm.phyPagesCount == 0x2000 && pm.zones == RegionZones(0x2000)
    ensures pm.manager.List() == [Run(0x10_0000, 0x2000, true, 0)] && pm.manager.freePages == 0x2000
  {
    pm := new PhysicalMemory();
    var record := MmapRecord(0x10_0000, 0x200_0000, MULTIBOOT_MEMORY_AVAILABLE);
    assert ConvertAll([record]) == [Convert(record)];
    SingleEntry(Convert(record));
    status := pm.Init([record], kernelEnd);
    RegionChecks(0x2000);
  }

  /**
   * Boot with one available entry of 32 MiB at 1 MiB: 0x2000 pages, and the build succeeds. Two
   * one-page allocations return 0x100000 and 0x101000; freeing both, first then second, leaves
   * one free run of all 0x2000 pages at 0x100000 and the counter back at 0x2000.
   */
  method BootScenario(kernelEnd: nat) returns (status: BuildStatus, first: nat, second: nat, ghost runs: seq<Run>, count: nat)
    ensures status == Built
    ensures first == 0x10_0000 && second == 0x10_1000
    ensures runs == [Run(0x10_0000, 0x2000, true, 0)] && count == 0x2000
  {
    var pm;
    pm, status := BootOneRegion(kernelEnd);
    ScenarioAllocs();
    ScenarioSecondAlloc();
    ScenarioFrees();
    ghost var r0 := [Run(0x10_0000, 0x2000, true, 0)];
    ghost var r1 := [Run(0x10_0000, 1, false, 1), Run(0x10_1000, 0x1FFF, true, 0)];
    ghost var r2 := [Run(0x10_0000, 1, false, 1), Run(0x10_1000, 1, false, 1), Run(0x10_2000, 0x1FFE, true, 0)];
    ghost var r3 := [Run(0x10_0000, 1, true, 0), Run(0x10_1000, 1, false, 1), Run(0x10_2000, 0x1FFE, true, 0)];
    first := AllocPage(pm, r0, 0, 0x2000);
    second := AllocPage(pm, r1, 1, 0x1FFF);
    FreePage(pm, 0x10_0000, r2, 0, 0x1FFE);
    FreePage(pm, 0x10_1000, r3, 1, 0x1FFF);
    runs := pm.manager.List();
    count := pm.FreePagesCount();
  }
}
