/**
 * The page registry pmm.c builds: zone classification of each page, the descriptor it writes,
 * the per-zone accounting over the descriptor array, and the consistency checks that follow.
 */
module Zones {
  import opened PmmTypes

  /** `attribute` values of the three zones (include/mem/pmm.h). */
  const ZONE_DMA: nat := 0
  const ZONE_NORMAL: nat := 1
  const ZONE_HIGHMEM: nat := 2

  /** The DMA zone's length is padded once it reaches 15 MiB, for the low 1 MiB never counted. */
  const DMA_PAD_AT: nat := 0xF0_0000
  const DMA_PAD: nat := 0x10_0000
  /** The number of pages from 1 MiB up to 16 MiB, and from 1 MiB up to 896 MiB. */
  const DMA_PAGES: nat := 0xF00
  const BOUNDARY_INDEX: nat := 0x3_7F00
  /** The region the registry is built for starts at 1 MiB. */
  const REGION_START: nat := 0x10_0000

  /** `mem_zone_t`: extent, length, attribute and page counters of one zone (uint64 fields). */
  datatype Zone = Zone(start: nat, end: nat, length: nat, attribute: nat, using: nat, free: nat)

  datatype ZoneSet = ZoneSet(dma: Zone, normal: Zone, high: Zone)

  /** `mem_zone_dma`, `mem_zone_normal`, `mem_zone_high` as statically initialised. */
  const INITIAL_ZONES: ZoneSet := ZoneSet(
    Zone(ZONE_DMA_ADDR, 0, 0, ZONE_DMA, 0, 0),
    Zone(ZONE_NORMAL_ADDR, 0, 0, ZONE_NORMAL, 0, 0),
    Zone(ZONE_HIGHMEM_ADDR, 0, 0, ZONE_HIGHMEM, 0, 0))

  function Pick(zs: ZoneSet, k: ZoneKind): Zone {
    match k
    case Dma => zs.dma
    case Normal => zs.normal
    case HighMem => zs.high
  }

  // ---------------------------------------------------------------------------------------------
  // Filling the descriptors

  /** The zone the filling loop gives the page at `addr`; the page at exactly 896 MiB gets none. */
  function Classify(addr: nat): (z: Option<ZoneKind>)
    ensures z == Some(Dma) <==> addr < ZONE_NORMAL_ADDR
    ensures z == Some(Normal) <==> ZONE_NORMAL_ADDR <= addr < ZONE_HIGHMEM_ADDR
    ensures z == Some(HighMem) <==> addr > ZONE_HIGHMEM_ADDR
    ensures z == None <==> addr == ZONE_HIGHMEM_ADDR
  {
    if addr < ZONE_HIGHMEM_ADDR then
      if addr < ZONE_NORMAL_ADDR then Some(Dma) else Some(Normal)
    else if addr > ZONE_HIGHMEM_ADDR then Some(HighMem)
    else None
  }

  /**
   * Descriptor `f` after the filling loop visited the page at `addr`: a classified page gets its
   * zone and address and zero attribute, reference and age; an unclassified one is not written.
   */
  function Describe(f: PageFrame, addr: nat): (d: PageFrame)
    ensures Classify(addr).Some? ==> d == f.(zone := Classify(addr), phyAddr := addr, attribute := 0, ref := 0, age := 0)
    ensures Classify(addr).None? ==> d == f
  {
    match Classify(addr)
    case None => f
    case Some(z) => f.(zone := Some(z), phyAddr := addr, attribute := 0, ref := 0, age := 0)
  }

  /** The zeroed descriptors of the region of `n` pages at `start`, as the filling loop leaves them. */
  function Region(start: nat, n: nat): (r: seq<PageFrame>)
    ensures |r| == n
    ensures forall i :: 0 <= i < n ==> r[i] == Describe(ZEROED, start + i * PMM_PAGE_SIZE)
  {
    if n == 0 then [] else Region(start, n - 1) + [Describe(ZEROED, start + (n - 1) * PMM_PAGE_SIZE)]
  }

  // ---------------------------------------------------------------------------------------------
  // Zone accounting

  /** The zone the accounting loop counts a descriptor in, by its recorded address, if any. */
  predicate CountedIn(f: PageFrame, k: ZoneKind) {
    match k
    case Dma => f.phyAddr < ZONE_NORMAL_ADDR
    case Normal => ZONE_NORMAL_ADDR <= f.phyAddr < ZONE_HIGHMEM_ADDR
    case HighMem => f.phyAddr > ZONE_HIGHMEM_ADDR
  }

  /** One page added to a zone: extend its end, grow its length, count it free. */
  function Grow(z: Zone, addr: nat): Zone {
    z.(end := addr + PMM_PAGE_SIZE, length := z.length + PMM_PAGE_SIZE, free := z.free + 1)
  }

  /** One step of the accounting loop. */
  function AccountPage(zs: ZoneSet, f: PageFrame): ZoneSet {
    if f.phyAddr < ZONE_NORMAL_ADDR then
      var d := Grow(zs.dma, f.phyAddr);
      zs.(dma := if d.length == DMA_PAD_AT then d.(length := d.length + DMA_PAD) else d)
    else if f.phyAddr < ZONE_HIGHMEM_ADDR then
      zs.(normal := Grow(zs.normal, f.phyAddr))
    else if f.phyAddr > ZONE_HIGHMEM_ADDR then
      zs.(high := Grow(zs.high, f.phyAddr))
    else zs
  }

  /** The accounting loop over the descriptors `fs`, in order. */
  function AccountAll(zs: ZoneSet, fs: seq<PageFrame>): ZoneSet {
    if fs == [] then zs else AccountPage(AccountAll(zs, fs[..|fs| - 1]), fs[|fs| - 1])
  }

  /** How many of `fs` the accounting loop counts in zone `k`. */
  function CountIn(fs: seq<PageFrame>, k: ZoneKind): nat {
    if fs == [] then 0 else CountIn(fs[..|fs| - 1], k) + (if CountedIn(fs[|fs| - 1], k) then 1 else 0)
  }

  /** The address of the last of `fs` counted in zone `k`. */
  function LastIn(fs: seq<PageFrame>, k: ZoneKind): Option<nat> {
    if fs == [] then None
    else if CountedIn(fs[|fs| - 1], k) then Some(fs[|fs| - 1].phyAddr)
    else LastIn(fs[..|fs| - 1], k)
  }

  /** The padding the DMA zone's length receives once `count` pages are counted in it. */
  function Padding(k: ZoneKind, count: nat): nat {
    if k == Dma && count >= DMA_PAGES then DMA_PAD else 0
  }

  /** What a zone holds after the accounting loop counted `count` pages, the last one at `last`. */
  function Accounted(k: ZoneKind, count: nat, last: Option<nat>): Zone {
    var z := Pick(INITIAL_ZONES, k);
    z.(end := if last.Some? then last.value + PMM_PAGE_SIZE else 0,
       length := count * PMM_PAGE_SIZE + Padding(k, count),
       free := count)
  }

  lemma AccountPageOther(zs: ZoneSet, f: PageFrame, k: ZoneKind)
    requires !CountedIn(f, k)
    ensures Pick(AccountPage(zs, f), k) == Pick(zs, k)
  {
  }

  lemma AccountPageCounted(zs: ZoneSet, f: PageFrame, k: ZoneKind, count: nat, last: Option<nat>)
    requires CountedIn(f, k) && Pick(zs, k) == Accounted(k, count, last)
    ensures Pick(AccountPage(zs, f), k) == Accounted(k, count + 1, Some(f.phyAddr))
  {
    if k == Dma {
      var l := count * PMM_PAGE_SIZE + Padding(k, count) + PMM_PAGE_SIZE;
      if count + 1 == DMA_PAGES {
        assert l == DMA_PAD_AT;
      } else if count + 1 < DMA_PAGES {
        assert l < DMA_PAD_AT;
      } else {
        assert l > DMA_PAD_AT;
      }
    }
  }

  /**
   * After the accounting loop each zone has counted exactly its descriptors free, grown by one
   * page per descriptor (the DMA zone padded by 1 MiB once it reached 15 MiB), and ends one page
   * after the last descriptor counted in it.
   */
  lemma {:induction false} AccountAllZones(fs: seq<PageFrame>, k: ZoneKind)
    ensures Pick(AccountAll(INITIAL_ZONES, fs), k) == Accounted(k, CountIn(fs, k), LastIn(fs, k))
    decreases |fs|
  {
    if fs != [] {
      var init := fs[..|fs| - 1];
      var f := fs[|fs| - 1];
      AccountAllZones(init, k);
      if CountedIn(f, k) {
        AccountPageCounted(AccountAll(INITIAL_ZONES, init), f, k, CountIn(init, k), LastIn(init, k));
      } else {
        AccountPageOther(AccountAll(INITIAL_ZONES, init), f, k);
      }
    }
  }

  // ---------------------------------------------------------------------------------------------
  // The region at 1 MiB

  /** Page i of the region at 1 MiB: DMA below index 0xF00; the page at 896 MiB stays zeroed. */
  lemma RegionPage(i: nat)
    ensures var f := Describe(ZEROED, REGION_START + i * PMM_PAGE_SIZE);
            && (CountedIn(f, Dma) <==> i < DMA_PAGES || i == BOUNDARY_INDEX)
            && (CountedIn(f, Normal) <==> DMA_PAGES <= i < BOUNDARY_INDEX)
            && (CountedIn(f, HighMem) <==> i > BOUNDARY_INDEX)
            && f.phyAddr == if i == BOUNDARY_INDEX then 0 else REGION_START + i * PMM_PAGE_SIZE
  {
  }

  function Min(a: nat, b: nat): nat {
    if a < b then a else b
  }

  /** Counting and locating one more descriptor appended after `fs`. */
  lemma CountAppend(fs: seq<PageFrame>, f: PageFrame, k: ZoneKind)
    ensures CountIn(fs + [f], k) == CountIn(fs, k) + (if CountedIn(f, k) then 1 else 0)
    ensures LastIn(fs + [f], k) == if CountedIn(f, k) then Some(f.phyAddr) else LastIn(fs, k)
  {
    assert (fs + [f])[..|fs|] == fs;
  }

  /** The region of n pages is the region of n - 1 pages and page n - 1. */
  lemma RegionStep(n: nat)
    requires n > 0
    ensures var f := Describe(ZEROED, REGION_START + (n - 1) * PMM_PAGE_SIZE);
            && Region(REGION_START, n) == Region(REGION_START, n - 1) + [f]
            && (forall k :: CountIn(Region(REGION_START, n), k) == CountIn(Region(REGION_START, n - 1), k) + (if CountedIn(f, k) then 1 else 0))
            && (forall k :: LastIn(Region(REGION_START, n), k) == if CountedIn(f, k) then Some(f.phyAddr) else LastIn(Region(REGION_START, n - 1), k))
  {
    var f := Describe(ZEROED, REGION_START + (n - 1) * PMM_PAGE_SIZE);
    forall k {
      CountAppend(Region(REGION_START, n - 1), f, k);
    }
  }

  /** DMA pages of the region of n pages at 1 MiB: those below 16 MiB, plus the zeroed boundary page. */
  lemma {:induction false} RegionDmaCount(n: nat)
    ensures CountIn(Region(REGION_START, n), Dma) == Min(n, DMA_PAGES) + (if n > BOUNDARY_INDEX then 1 else 0)
  {
    if n > 0 {
      RegionDmaCount(n - 1);
      RegionPage(n - 1);
      RegionStep(n);
    }
  }

  lemma {:induction false} RegionDmaLast(n: nat)
    ensures LastIn(Region(REGION_START, n), Dma) ==
              if n == 0 then None
              else if n > BOUNDARY_INDEX then Some(0)
              else Some(REGION_START + (Min(n, DMA_PAGES) - 1) * PMM_PAGE_SIZE)
  {
    if n > 0 {
      RegionDmaLast(n - 1);
      RegionPage(n - 1);
      RegionStep(n);
    }
  }

  lemma {:induction false} RegionNormalCount(n: nat)
    ensures CountIn(Region(REGION_START, n), Normal) == if n <= DMA_PAGES then 0 else Min(n, BOUNDARY_INDEX) - DMA_PAGES
  {
    if n > 0 {
      RegionNormalCount(n - 1);
      RegionPage(n - 1);
      RegionStep(n);
    }
  }

  lemma {:induction false} RegionNormalLast(n: nat)
    ensures LastIn(Region(REGION_START, n), Normal) ==
              if n <= DMA_PAGES then None
              else Some(REGION_START + (Min(n, BOUNDARY_INDEX) - 1) * PMM_PAGE_SIZE)
  {
    if n > 0 {
      RegionNormalLast(n - 1);
      RegionPage(n - 1);
      RegionStep(n);
    }
  }

  lemma {:induction false} RegionHigh(n: nat)
    ensures CountIn(Region(REGION_START, n), HighMem) == if n <= BOUNDARY_INDEX + 1 then 0 else n - BOUNDARY_INDEX - 1
  {
    if n > 0 {
      RegionHigh(n - 1);
      RegionPage(n - 1);
      RegionStep(n);
    }
  }

  // ---------------------------------------------------------------------------------------------
  // The checks after the build

  /** How the build ends: built, or the first fatal check that fails. */
  datatype BuildStatus =
    | Built
    | TooManyRecords
    | StartNotAt1MiB
    | DmaLengthWrong
    | DmaEndWrong
    | NormalLengthWrong
    | NormalEndWrong

  /** The four checks after the accounting loop, in the source's order, for `count` pages. */
  function Checks(zs: ZoneSet, count: nat): BuildStatus {
    if zs.dma.length != ZONE_NORMAL_ADDR - ZONE_DMA_ADDR then DmaLengthWrong
    else if zs.dma.end != ZONE_NORMAL_ADDR then DmaEndWrong
    else if zs.normal.length != Wrap64(count * PMM_PAGE_SIZE - DMA_PAD_AT) then NormalLengthWrong
    else if zs.normal.end != ZONE_NORMAL_ADDR + zs.normal.length then NormalEndWrong
    else Built
  }

  /** The zones after accounting the region of `n` pages at 1 MiB. */
  function RegionZones(n: nat): ZoneSet {
    AccountAll(INITIAL_ZONES, Region(REGION_START, n))
  }

  lemma RegionZonesClosed(n: nat)
    ensures var zs := RegionZones(n);
            var d := Min(n, DMA_PAGES) + (if n > BOUNDARY_INDEX then 1 else 0);
            var m := if n <= DMA_PAGES then 0 else Min(n, BOUNDARY_INDEX) - DMA_PAGES;
            && zs.dma.free == d
            && zs.dma.length == d * PMM_PAGE_SIZE + (if d >= DMA_PAGES then DMA_PAD else 0)
            && zs.dma.end == (if n == 0 then 0 else if n > BOUNDARY_INDEX then PMM_PAGE_SIZE
                              else REGION_START + Min(n, DMA_PAGES) * PMM_PAGE_SIZE)
            && zs.normal.free == m && zs.normal.length == m * PMM_PAGE_SIZE
            && zs.normal.end == (if n <= DMA_PAGES then 0 else REGION_START + Min(n, BOUNDARY_INDEX) * PMM_PAGE_SIZE)
            && zs.high.free == (if n <= BOUNDARY_INDEX + 1 then 0 else n - BOUNDARY_INDEX - 1)
  {
    var fs := Region(REGION_START, n);
    AccountAllZones(fs, Dma);
    AccountAllZones(fs, Normal);
    AccountAllZones(fs, HighMem);
    RegionDmaCount(n);
    RegionDmaLast(n);
    RegionNormalCount(n);
    RegionNormalLast(n);
    RegionHigh(n);
  }

  /**
   * For the one region at 1 MiB, the four checks pass exactly when it has more than 0xF00 pages
   * (so the Normal zone is not empty) and no more than 0x37F00 (so it stops short of 896 MiB,
   * whose zeroed descriptor would be counted in the DMA zone).
   */
  lemma RegionChecks(n: nat)
    ensures Checks(RegionZones(n), n) == Built <==> DMA_PAGES < n <= BOUNDARY_INDEX
  {
    RegionZonesClosed(n);
    var zs := RegionZones(n);
    if DMA_PAGES < n <= BOUNDARY_INDEX {
      assert zs.dma.length == ZONE_NORMAL_ADDR;
      assert n * PMM_PAGE_SIZE - DMA_PAD_AT == (n - DMA_PAGES) * PMM_PAGE_SIZE < TWO_TO_64;
    } else if n <= DMA_PAGES {
      if n == DMA_PAGES {
        assert zs.normal.end == 0;
        assert zs.normal.length == 0 == Wrap64(n * PMM_PAGE_SIZE - DMA_PAD_AT);
      } else {
        assert zs.dma.length < ZONE_NORMAL_ADDR;
      }
    } else {
      assert zs.dma.length == ZONE_NORMAL_ADDR + PMM_PAGE_SIZE;
    }
  }

  /** The page at 896 MiB, reached by a region of more than 0x37F00 pages, ends up in the DMA zone. */
  lemma BoundaryPageCountedAsDma(n: nat)
    requires n > BOUNDARY_INDEX
    ensures var zs := RegionZones(n);
            && zs.dma.free == DMA_PAGES + 1
            && zs.dma.end == PMM_PAGE_SIZE
            && Checks(zs, n) == DmaLengthWrong
  {
    RegionZonesClosed(n);
  }

  /**
   * The region of 0x2000 pages at 1 MiB (32 MiB of RAM): 3840 DMA pages with the length padded to
   * 16 MiB, a Normal zone of 0x1100000 bytes, and every check passes.
   */
  lemma WorkedExampleZones()
    ensures var zs := RegionZones(0x2000);
            && zs.dma.free == 3840 && zs.dma.length == 0x100_0000 && zs.dma.end == 0x100_0000
            && zs.normal.free == 0x1100 && zs.normal.length == 0x110_0000
            && zs.normal.length == 0x2000 * PMM_PAGE_SIZE - 0xF0_0000
            && zs.normal.end == 0x210_0000
            && Checks(zs, 0x2000) == Built
  {
    RegionZonesClosed(0x2000);
    RegionChecks(0x2000);
  }
}
