/** Constants and shared types of the physical memory manager (include/mem/pmm.h, include/mem/e820.h). */
module PmmTypes {

  /** Page size without CPU_PSE: 4 KiB. */
  const PMM_PAGE_SIZE: nat := 0x1000
  /** The 32-bit page mask `0xFFFFF000UL`. */
  const PMM_PAGE_MASK: nat := 0xFFFF_F000

  const ZONE_DMA_ADDR: nat := 0x0
  /** 16 MiB: first address of the Normal zone. */
  const ZONE_NORMAL_ADDR: nat := 0x100_0000
  /** 896 MiB: the HighMem threshold. */
  const ZONE_HIGHMEM_ADDR: nat := 0x3800_0000

  const TWO_TO_32: nat := 0x1_0000_0000
  const TWO_TO_64: nat := 0x1_0000_0000_0000_0000

  datatype Option<T> = None | Some(value: T)

  /** The three zones; a descriptor's `zone_info` is one of them or NULL (None). */
  datatype ZoneKind = Dma | Normal | HighMem

  /**
   * One page descriptor. It carries the fields pmm.c writes (zone_info, phy_addr, attribute,
   * ref, age) and the free-list fields first_fit.c reads and writes in the same storage
   * (next, prev, npages, flag). Links are indices into the descriptor array.
   */
  datatype PageFrame = PageFrame(
    zone: Option<ZoneKind>,
    phyAddr: nat,
    attribute: nat,
    ref: nat,
    age: nat,
    next: nat,
    prev: nat,
    npages: nat,
    flag: nat)

  /** A descriptor after `bzero`. */
  const ZEROED: PageFrame := PageFrame(None, 0, 0, 0, 0, 0, 0, 0, 0)

  /** A `uint32_t` store: the value modulo 2^32. */
  function Wrap32(x: int): (r: nat)
    ensures r < TWO_TO_32
    ensures 0 <= x < TWO_TO_32 ==> r == x
    ensures (r - x) % TWO_TO_32 == 0
  {
    x % TWO_TO_32
  }

  /** A `uint64_t` result: the value modulo 2^64. */
  function Wrap64(x: int): (r: nat)
    ensures r < TWO_TO_64
    ensures 0 <= x < TWO_TO_64 ==> r == x
    ensures (r - x) % TWO_TO_64 == 0
  {
    x % TWO_TO_64
  }

  /**
   * Bytes to whole pages, as `alloc` and `free` compute it: `bytes / PMM_PAGE_SIZE`, plus one
   * when there is a remainder. The result is the least page count that covers `bytes`.
   */
  function PagesFor(bytes: nat): (n: nat)
    ensures bytes <= n * PMM_PAGE_SIZE < bytes + PMM_PAGE_SIZE
    ensures bytes > 0 ==> n >= 1
  {
    bytes / PMM_PAGE_SIZE + (if bytes % PMM_PAGE_SIZE != 0 then 1 else 0)
  }
}
