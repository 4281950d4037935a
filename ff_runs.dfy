/**
 * The first-fit free list of first_fit.c seen as a value: the runs in list order, starting at the
 * head. Each list operation of the allocator is specified here as a function on that sequence,
 * and the properties of the allocator are proved about these functions.
 */
module FirstFitRuns {
  import opened PmmTypes

  /** `flag` values of a run (first_fit.c): a zeroed descriptor reads as used. */
  const FF_USED: nat := 0x00
  const FF_UNUSED: nat := 0x01

  /** One list node: the run starting at `start` and spanning `npages` pages. */
  datatype Run = Run(start: nat, npages: nat, free: bool, ref: nat)

  function RunOf(f: PageFrame): Run {
    Run(f.phyAddr, f.npages, f.flag == FF_UNUSED, f.ref)
  }

  /** The test `alloc` applies to each node it visits. */
  predicate Fits(r: Run, pages: nat) {
    r.free && r.npages >= pages
  }

  // ---------------------------------------------------------------------------------------------
  // Invariants of the list

  /** Every run has at least one page. */
  ghost predicate Positive(runs: seq<Run>) {
    forall i :: 0 <= i < |runs| ==> runs[i].npages >= 1
  }

  /** List order is address order, and the page ranges of list-adjacent runs do not overlap. */
  ghost predicate Ordered(runs: seq<Run>) {
    forall i :: 0 <= i < |runs| - 1 ==> runs[i].start + runs[i].npages * PMM_PAGE_SIZE <= runs[i + 1].start
  }

  /** Every run starts on a page boundary. */
  ghost predicate Aligned(runs: seq<Run>) {
    forall i :: 0 <= i < |runs| ==> runs[i].start % PMM_PAGE_SIZE == 0
  }

  /** Coalescing is eager: no two list-adjacent runs are both free. */
  ghost predicate Coalesced(runs: seq<Run>) {
    forall i :: 0 <= i < |runs| - 1 ==> !(runs[i].free && runs[i + 1].free)
  }

  /** A free run holds no reference. */
  ghost predicate FreeUnreferenced(runs: seq<Run>) {
    forall i :: 0 <= i < |runs| ==> runs[i].free ==> runs[i].ref == 0
  }

  ghost predicate Good(runs: seq<Run>) {
    |runs| >= 1 && Positive(runs) && Ordered(runs) && Aligned(runs) && Coalesced(runs) && FreeUnreferenced(runs)
  }

  /** The pages held by the free runs. */
  function FreeTotal(runs: seq<Run>): nat {
    if runs == [] then 0 else FreeTotal(runs[..|runs| - 1]) + (if runs[|runs| - 1].free then runs[|runs| - 1].npages else 0)
  }

  // ---------------------------------------------------------------------------------------------
  // alloc

  /** The scan of `alloc` from list position `i` on: the first node that fits, if any. */
  function FirstFitFrom(runs: seq<Run>, pages: nat, i: nat): (k: Option<nat>)
    requires i <= |runs|
    ensures k.Some? ==> i <= k.value < |runs| && Fits(runs[k.value], pages)
    ensures k.Some? ==> forall j :: i <= j < k.value ==> !Fits(runs[j], pages)
    ensures k.None? ==> forall j :: i <= j < |runs| ==> !Fits(runs[j], pages)
    decreases |runs| - i
  {
    if i == |runs| then None
    else if Fits(runs[i], pages) then Some(i)
    else FirstFitFrom(runs, pages, i + 1)
  }

  /** The node `alloc` picks: the first free run, in list order from the head, with enough pages. */
  function FirstFit(runs: seq<Run>, pages: nat): (k: Option<nat>)
    ensures k.Some? <==> exists j :: 0 <= j < |runs| && Fits(runs[j], pages)
    ensures k.Some? ==> k.value < |runs| && Fits(runs[k.value], pages)
    ensures k.Some? ==> forall j :: 0 <= j < k.value ==> !Fits(runs[j], pages)
  {
    FirstFitFrom(runs, pages, 0)
  }

  /** The node split off behind an allocated run: only when more than one page remains. */
  function Remainder(r: Run, pages: nat): seq<Run>
    requires pages <= r.npages
  {
    if r.npages - pages > 1 then [Run(r.start + pages * PMM_PAGE_SIZE, r.npages - pages, true, 0)] else []
  }

  /**
   * The list after `alloc` took `pages` pages from node `k`: the node keeps its start, is cut to
   * exactly `pages` pages, marked used with one reference, and a remainder node follows it.
   */
  function AllocAt(runs: seq<Run>, k: nat, pages: nat): seq<Run>
    requires k < |runs| && Fits(runs[k], pages)
  {
    runs[..k] + [Run(runs[k].start, pages, false, 1)] + Remainder(runs[k], pages) + runs[k + 1..]
  }

  // ---------------------------------------------------------------------------------------------
  // free

  /** The scan of `free` over the nodes after the head, from list position `i` on. */
  function FindFrom(runs: seq<Run>, addr: nat, i: nat): (j: Option<nat>)
    requires 1 <= i <= |runs|
    ensures j.Some? ==> i <= j.value < |runs| && runs[j.value].start == addr
    ensures j.Some? ==> forall m :: i <= m < j.value ==> runs[m].start != addr
    ensures j.None? ==> forall m :: i <= m < |runs| ==> runs[m].start != addr
    decreases |runs| - i
  {
    if i == |runs| then None
    else if runs[i].start == addr then Some(i)
    else FindFrom(runs, addr, i + 1)
  }

  /**
   * Where the scan of `free` stops as written: the first node after the head whose start is
   * `addr`, or else the head itself, whatever its start.
   */
  function ScanStop(runs: seq<Run>, addr: nat): (j: nat)
    requires |runs| >= 1
    ensures j < |runs|
    ensures j == 0 <==> forall m :: 1 <= m < |runs| ==> runs[m].start != addr
    ensures j != 0 ==> runs[j].start == addr
  {
    match FindFrom(runs, addr, 1)
    case Some(j) => j
    case None => 0
  }

  /** The node `free` releases: where the scan stops, if that node does start at `addr`. */
  function FindRun(runs: seq<Run>, addr: nat): (j: Option<nat>)
    requires |runs| >= 1
    ensures j.Some? ==> j.value < |runs| && runs[j.value].start == addr
    ensures j.None? <==> forall m :: 0 <= m < |runs| ==> runs[m].start != addr
  {
    var j := ScanStop(runs, addr);
    if runs[j].start == addr then Some(j) else None
  }

  function MarkFree(runs: seq<Run>, j: nat): seq<Run>
    requires j < |runs|
  {
    runs[j := runs[j].(free := true, ref := 0)]
  }

  /** Absorb the next node when it is free and is not the head (that is, `j` is not the last node). */
  function MergeNext(runs: seq<Run>, j: nat): seq<Run>
    requires j < |runs|
  {
    if j + 1 < |runs| && runs[j + 1].free
    then runs[..j] + [runs[j].(npages := runs[j].npages + runs[j + 1].npages)] + runs[j + 2..]
    else runs
  }

  /** Absorb node `j` into the previous node when that one is free and `j` is not the head. */
  function MergePrev(runs: seq<Run>, j: nat): seq<Run>
    requires j < |runs|
  {
    if 0 < j && runs[j - 1].free
    then runs[..j - 1] + [runs[j - 1].(npages := runs[j - 1].npages + runs[j].npages)] + runs[j + 1..]
    else runs
  }

  /** The list after `free` released node `j`: mark it free, then merge forward, then backward. */
  function ReleaseAt(runs: seq<Run>, j: nat): seq<Run>
    requires j < |runs|
  {
    var marked := MarkFree(runs, j);
    MergePrev(MergeNext(marked, j), j)
  }
}
