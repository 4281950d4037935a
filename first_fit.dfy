/**
 * The first-fit page manager of first_fit.c: the `ff_manage` record and the descriptor array the
 * free list lives in, with `init`, `alloc`, `free` and `free_pages_count`.
 *
 * The ghost `order` lists the list's nodes from the head; `List()` is the list seen as runs, and
 * each operation is proved to do to `List()` what FirstFitRuns specifies.
 */
module FirstFit {
  import opened PmmTypes
  import opened FirstFitRuns
  import opened FirstFitList
  import opened FirstFitSteps
  import opened FirstFitProps

  /** What `free` did: released a run, or found no run starting at the address. */
  datatype FreeResult = Freed | NotFound

  class FirstFitManager {
    /** `pmm_info`: the descriptor array the list is kept in. */
    const frames: array<PageFrame>
    /** `pmm_addr_start`, `pmm_addr_end`: addresses of the first and the last descriptor. */
    const addrStart: nat
    const addrEnd: nat
    /** `phy_page_count` (uint32). */
    const totalPages: nat
    /** `free_list`: the head node; the list always includes it. */
    const freeList: nat
    /** `phy_page_now_count` (uint32). */
    var freePages: nat
    ghost var order: seq<nat>

    /** The arena is well formed and the counters fit their uint32 fields. */
    ghost predicate Arena()
      reads this, frames
    {
      && Wf(frames[..], order, addrStart)
      && order[0] == freeList
      && addrStart % PMM_PAGE_SIZE == 0
      && totalPages < TWO_TO_32 && freePages < TWO_TO_32
    }

    /** The free list as runs, from the head. */
    ghost function List(): seq<Run>
      reads this, frames
      requires Arena()
    {
      Runs(frames[..], order)
    }

    ghost predicate Valid()
      reads this, frames
    {
      Arena() && Good(List())
    }

    /**
     * What `free` leaves, from the list `before` and the counter `count` it found: the run starting
     * at `addr` released and the counter raised by the requested pages, or `NotFound` and nothing
     * changed when no run starts there.
     */
    ghost predicate FreeEffect(before: seq<Run>, count: nat, addr: nat, bytes: nat, r: FreeResult)
      reads this, frames
      requires Arena() && |before| >= 1
    {
      match FindRun(before, addr)
      case None => r == NotFound && List() == before && freePages == count
      case Some(j) => r == Freed && List() == ReleaseAt(before, j) && freePages == Wrap32(count + PagesFor(bytes))
    }

    /**
     * init: manage the `count` descriptors of `pages`. The head becomes one unused run of `count`
     * pages, as the counters (every page free) presume; see README for the as-written head.
     */
    constructor Init(pages: array<PageFrame>, count: nat)
      requires 0 < count <= pages.Length
      requires pages[0].phyAddr % PMM_PAGE_SIZE == 0
      modifies pages
      ensures Valid() && frames == pages && freeList == 0
      ensures totalPages == Wrap32(count) && freePages == Wrap32(count)
      ensures addrStart == old(pages[0].phyAddr) && addrEnd == old(pages[count - 1].phyAddr)
      ensures List() == [Run(addrStart, count, true, 0)]
      ensures frames[0].next == 0 && frames[0].prev == 0
      ensures frames[..] == old(pages[..])[0 := old(pages[0]).(next := 0, prev := 0, npages := count, flag := FF_UNUSED, ref := 0)]
    {
      frames := pages;
      totalPages := Wrap32(count);
      freePages := Wrap32(count);
      addrStart := pages[0].phyAddr;
      addrEnd := pages[count - 1].phyAddr;
      freeList := 0;
      order := [0];
      new;
      ListInitHead(frames, 0);
      frames[0] := frames[0].(npages := count, flag := FF_UNUSED, ref := 0);
      assert PlacedAt(frames[..], order, addrStart, 0) && LinkedAt(frames[..], order, 0);
      assert List()[0] == Run(addrStart, count, true, 0);
    }

    /** The scan of `alloc`: the node of the first run, from the head, that fits `pages` pages. */
    method FindFit(pages: nat) returns (entry: Option<nat>)
      requires Valid()
      ensures entry.Some? <==> FirstFit(List(), pages).Some?
      ensures entry.Some? ==> entry.value == order[FirstFit(List(), pages).value]
    {
      var e := freeList;
      ghost var k := 0;
      while true
        invariant k < |order| && e == order[k]
        invariant forall j :: 0 <= j < k ==> !Fits(List()[j], pages)
        decreases |order| - k
      {
        WfNode(frames[..], order, addrStart, k);
        if frames[e].npages >= pages && frames[e].flag == FF_UNUSED {
          return Some(e);
        } else if ListNext(frames, e) != freeList {
          e := ListNext(frames, e);
          k := k + 1;
        } else {
          HeadOnlyAtZero(order, Succ(k, |order|));
          return None;
        }
      }
    }

    /**
     * alloc: take `PagesFor(bytes)` pages from the first run that fits and return its address,
     * or return 0 and change nothing when no run fits.
     */
    method Alloc(bytes: nat) returns (addr: nat)
      requires Valid() && bytes > 0
      modifies this, frames
      ensures Valid()
      ensures var pages := PagesFor(bytes);
              match FirstFit(old(List()), pages)
              case None =>
                addr == 0 && List() == old(List()) && freePages == old(freePages)
              case Some(k) =>
                && addr == old(List())[k].start
                && List() == AllocAt(old(List()), k, pages)
                && freePages == Wrap32(old(freePages) - pages)
    {
      ghost var runs := List();
      var count := freePages;
      var pages := bytes / PMM_PAGE_SIZE;
      if bytes % PMM_PAGE_SIZE != 0 {
        pages := pages + 1;
      }
      assert pages == PagesFor(bytes);
      var found := FindFit(pages);
      if found.None? {
        assert FirstFit(runs, pages).None?;
        return 0;
      }
      var entry := found.value;
      ghost var k := FirstFit(List(), pages).value;
      WfNode(frames[..], order, addrStart, k);
      if frames[entry].npages - pages > 1 {
        SplitRun(entry, k, pages);
      } else {
        TakeRun(entry, k, pages);
      }
      freePages := Wrap32(count - pages);
      addr := frames[entry].phyAddr;
      assert addr == runs[k].start && FirstFit(runs, pages) == Some(k);
    }

    /** `alloc` on the run at position k when more than one page would remain: split it. */
    method SplitRun(entry: nat, ghost k: nat, pages: nat)
      requires Valid() && k < |order| && entry == order[k] && 1 <= pages
      requires Fits(List()[k], pages) && List()[k].npages - pages > 1
      modifies frames, this`order
      ensures Valid() && List() == AllocAt(old(List()), k, pages)
      ensures frames[entry].phyAddr == old(List())[k].start
    {
      ghost var s := frames[..];
      WfNode(s, order, addrStart, k);
      var tmp := entry + pages;
      SplitStep(s, order, addrStart, k, pages);
      ghost var s' := SplitAt(s, entry, tmp, pages);
      ghost var o' := Insert(order, k, tmp);
      AllocPreservesGood(Runs(s, order), k, pages);
      SplitOff(frames, entry, tmp, pages);
      order := o';
      SameArena(frames[..], s', order, addrStart);
    }

    /** `alloc` on the run at position k when at most one page would remain: take it whole. */
    method TakeRun(entry: nat, ghost k: nat, pages: nat)
      requires Valid() && k < |order| && entry == order[k] && 1 <= pages
      requires Fits(List()[k], pages) && List()[k].npages - pages <= 1
      modifies frames
      ensures Valid() && List() == AllocAt(old(List()), k, pages)
      ensures frames[entry].phyAddr == old(List())[k].start
    {
      ghost var s := frames[..];
      WfNode(s, order, addrStart, k);
      TakeStep(s, order, addrStart, k, pages);
      frames[entry] := Taken(frames[entry], pages);
      AllocPreservesGood(old(List()), k, pages);
    }

    /**
     * The scan of `free`: from the node after the head, the first node whose address is `addr`,
     * or the head when the scan comes back round to it.
     */
    method ScanFor(addr: nat) returns (entry: nat)
      requires Valid()
      ensures entry == order[ScanStop(List(), addr)]
    {
      ghost var n := |order|;
      WfNode(frames[..], order, addrStart, 0);
      entry := ListNext(frames, freeList);
      ghost var j := Succ(0, n);
      while entry != freeList && frames[entry].phyAddr != addr
        invariant j < n && entry == order[j]
        invariant entry == freeList <==> j == 0
        invariant forall m :: 1 <= m < (if j == 0 then n else j) ==> List()[m].start != addr
        decreases if j == 0 then 0 else n - j
      {
        WfNode(frames[..], order, addrStart, j);
        entry := ListNext(frames, entry);
        j := Succ(j, n);
        assert entry == freeList <==> j == 0 by {
          if j != 0 {
            assert order[0] < order[j];
          }
        }
      }
      WfNode(frames[..], order, addrStart, j);
      assert j != 0 ==> FindFrom(List(), addr, 1) == Some(j);
    }

    /**
     * free: release the run starting at `addr` and coalesce it with a free next run and a free
     * previous run, neither across the head; the counter grows by `PagesFor(bytes)`.
     */
    method Free(addr: nat, bytes: nat) returns (r: FreeResult)
      requires Valid()
      modifies this, frames
      ensures Valid()
      ensures FreeEffect(old(List()), old(freePages), addr, bytes, r)
    {
      var pages := bytes / PMM_PAGE_SIZE;
      if bytes % PMM_PAGE_SIZE != 0 {
        pages := pages + 1;
      }
      assert pages == PagesFor(bytes);
      var count := freePages;
      ghost var before := List();
      var entry := ScanFor(addr);
      ghost var j := ScanStop(before, addr);
      WfNode(frames[..], order, addrStart, j);
      if frames[entry].phyAddr != addr {
        assert FindRun(before, addr) == None;
        assert FreeEffect(before, count, addr, bytes, NotFound);
        return NotFound;
      }
      ReleaseFound(addr, bytes, pages, entry, j, before, count);
      r := Freed;
    }

    /** The found branch of `free`: release the run at position j and raise the counter. */
    method ReleaseFound(addr: nat, bytes: nat, pages: nat, entry: nat, ghost j: nat, ghost before: seq<Run>, count: nat)
      requires Valid() && List() == before && freePages == count && pages == PagesFor(bytes)
      requires j < |order| && entry == order[j] && FindRun(before, addr) == Some(j)
      modifies frames, this`order, this`freePages
      ensures Valid() && FreeEffect(before, count, addr, bytes, Freed)
    {
      Release(entry, j);
      SetFreePages(Wrap32(count + pages));
    }

    /** Store the free-page counter; the list is untouched. */
    method SetFreePages(n: nat)
      requires Valid() && n < TWO_TO_32
      modifies this`freePages
      ensures Valid() && List() == old(List()) && freePages == n
    {
      freePages := n;
    }

    /** The release of the run at position j: mark it, then coalesce forward, then backward. */
    method Release(entry: nat, ghost j: nat)
      requires Valid() && j < |order| && entry == order[j]
      modifies frames, this`order
      ensures Valid() && List() == ReleaseAt(old(List()), j)
    {
      MarkReleased(entry, j);
      CoalesceNext(entry, j);
      CoalescePrev(entry, j);
      ReleasePreservesGood(old(List()), j);
    }

    /** Node `entry` (position j) no longer referenced and unused. */
    method MarkReleased(entry: nat, ghost j: nat)
      requires Arena() && j < |order| && entry == order[j]
      modifies frames
      ensures Arena() && List() == MarkFree(old(List()), j)
    {
      MarkStep(frames[..], order, addrStart, j);
      frames[entry] := Released(frames[entry]);
    }

    /** Absorb the next run into the one at position j when it is free and is not the head. */
    method CoalesceNext(entry: nat, ghost j: nat)
      requires Arena() && j < |order| && entry == order[j]
      modifies frames, this`order
      ensures Arena() && List() == MergeNext(old(List()), j)
      ensures j < |order| && order[j] == entry
    {
      ghost var n := |order|;
      WfNode(frames[..], order, addrStart, j);
      var next := frames[entry].next;
      if next != freeList && frames[next].flag == FF_UNUSED {
        assert Succ(j, n) != 0;
        WfNode(frames[..], order, addrStart, j + 1);
        MergeNextStep(frames[..], order, addrStart, j);
        AbsorbNextNode(frames, entry, next);
        order := Remove(order, j + 1);
      } else if next == freeList {
        HeadOnlyAtZero(order, Succ(j, n));
      }
    }

    /** Absorb the run at position j into the previous run when that one is free and j is not the head. */
    method CoalescePrev(entry: nat, ghost j: nat)
      requires Arena() && j < |order| && entry == order[j]
      modifies frames, this`order
      ensures Arena() && List() == MergePrev(old(List()), j)
    {
      if entry != freeList {
        WfNode(frames[..], order, addrStart, j);
        WfNode(frames[..], order, addrStart, j - 1);
        var prev := frames[entry].prev;
        if frames[prev].flag == FF_UNUSED {
          MergePrevStep(frames[..], order, addrStart, j);
          AbsorbIntoPrevNode(frames, entry, prev);
          order := Remove(order, j);
        }
      }
    }

    /** free_pages_count: the free-page counter. */
    function FreePagesCount(): (n: nat)
      reads this, frames
      requires Valid()
      ensures n < TWO_TO_32
    {
      freePages
    }
  }

  /**
   * The arena facts proved of a ghost snapshot carry over to the array's contents once they are
   * known equal; stated apart so that the split branch's goals match the snapshot's facts.
   */
  lemma SameArena(a: seq<PageFrame>, b: seq<PageFrame>, order: seq<nat>, base: nat)
    requires a == b && Wf(b, order, base)
    ensures Wf(a, order, base) && Runs(a, order) == Runs(b, order)
  {
  }

  /** The stores of `alloc` when it splits node `e`: fill in node `t`, link it after `e`, take `e`. */
  method SplitOff(a: array<PageFrame>, e: nat, t: nat, pages: nat)
    requires e < a.Length && t < a.Length && a[e].next < a.Length && pages <= a[e].npages
    requires t != e && t != a[e].next
    modifies a
    ensures a[..] == SplitAt(old(a[..]), e, t, pages)
  {
    ghost var s := a[..];
    a[t] := a[t].(phyAddr := a[e].phyAddr + pages * PMM_PAGE_SIZE, npages := a[e].npages - pages, ref := 0, flag := FF_UNUSED);
    ListAddAfter(a, e, t);
    a[e] := Taken(a[e], pages);
  }

  /** The stores of `free` when it absorbs the next node `nx` into `e`. */
  method AbsorbNextNode(a: array<PageFrame>, e: nat, nx: nat)
    requires e < a.Length && nx < a.Length && nx != e
    requires a[nx].next < a.Length && a[nx].prev < a.Length && a[nx].next != nx && a[nx].prev != nx
    modifies a
    ensures a[..] == AbsorbNext(old(a[..]), e, nx)
  {
    a[e] := a[e].(npages := a[e].npages + a[nx].npages);
    a[nx] := a[nx].(npages := 0);
    ListDel(a, nx);
  }

  /** The stores of `free` when it absorbs node `e` into the previous node `pv`. */
  method AbsorbIntoPrevNode(a: array<PageFrame>, e: nat, pv: nat)
    requires e < a.Length && pv < a.Length && pv != e
    requires a[e].next < a.Length && a[e].prev < a.Length && a[e].next != e && a[e].prev != e
    modifies a
    ensures a[..] == AbsorbIntoPrev(old(a[..]), e, pv)
  {
    a[pv] := a[pv].(npages := a[pv].npages + a[e].npages);
    a[e] := a[e].(npages := 0);
    ListDel(a, e);
  }
}
