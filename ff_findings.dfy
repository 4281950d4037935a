/**
 * Behaviour of first_fit.c as written where it departs from what the allocator evidently means
 * to do, each next to the property the corrected model keeps.
 */
module FirstFitFindings {
  import opened PmmTypes
  import opened FirstFitRuns
  import opened FirstFitList
  import FirstFitSteps
  import Zones

  /** The end address of a run: one past its last byte. */
  function End(r: Run): nat {
    r.start + r.npages * PMM_PAGE_SIZE
  }

  /** No run reaches past `e`. */
  ghost predicate WithinEnd(runs: seq<Run>, e: nat) {
    forall i :: 0 <= i < |runs| ==> End(runs[i]) <= e
  }

  // ---------------------------------------------------------------------------------------------
  // init leaves the head used and empty

  /**
   * The list `init` leaves as written: it only links the head to itself, so the head keeps the
   * run fields of its descriptor.
   */
  function InitAsWritten(head: PageFrame): seq<Run> {
    [RunOf(head.(next := 0, prev := 0))]
  }

  /**
   * The head descriptor pmm.c hands over is zeroed apart from its zone fields, so as written the
   * list is one used run of no pages and `alloc` fails for every request.
   */
  lemma InitAsWrittenNeverFits(pages: nat)
    ensures var head := Zones.Describe(ZEROED, Zones.REGION_START);
            && InitAsWritten(head) == [Run(Zones.REGION_START, 0, false, 0)]
            && FirstFit(InitAsWritten(head), pages) == None
  {
    var runs := InitAsWritten(Zones.Describe(ZEROED, Zones.REGION_START));
    assert !Fits(runs[0], pages);
  }

  /** With the head set up as one free run of all pages, every request up to that size is met. */
  lemma InitRunFits(start: nat, count: nat, pages: nat)
    ensures FirstFit([Run(start, count, true, 0)], pages) == if pages <= count then Some(0) else None
  {
    var runs := [Run(start, count, true, 0)];
    if pages <= count {
      assert Fits(runs[0], pages);
    }
  }

  // ---------------------------------------------------------------------------------------------
  // free of an address no run starts at releases the head

  /**
   * `free` with its scan as written: release wherever the scan stops, even on the head when
   * nothing matched. The release itself is the corrected one, which does not coalesce across the
   * head; ReleaseHeadAsWritten below is the release of the head as written.
   */
  function FreeAsWritten(runs: seq<Run>, addr: nat): seq<Run>
    requires |runs| >= 1
  {
    ReleaseAt(runs, ScanStop(runs, addr))
  }

  /** As written, freeing an address no run starts at always leaves the head's run free. */
  lemma FreeUnknownReleasesHead(runs: seq<Run>, addr: nat)
    requires |runs| >= 1 && FindRun(runs, addr) == None
    ensures ScanStop(runs, addr) == 0
    ensures |FreeAsWritten(runs, addr)| >= 1 && FreeAsWritten(runs, addr)[0].free
  {
    var m := MarkFree(runs, 0);
    assert MergePrev(MergeNext(m, 0), 0) == MergeNext(m, 0);
  }

  /**
   * After one one-page allocation from 32 MiB at 1 MiB, freeing the unknown address 0x500000 as
   * written hands the allocated page back: the list becomes one free run of all pages, whether
   * the head is released with the corrected coalescing or with the coalescing as written.
   */
  lemma FreeUnknownExample()
    ensures var r1 := [Run(0x10_0000, 1, false, 1), Run(0x10_1000, 0x1FFF, true, 0)];
            && FindRun(r1, 0x50_0000) == None
            && FreeAsWritten(r1, 0x50_0000) == [Run(0x10_0000, 0x2000, true, 0)]
            && ReleaseHeadAsWritten(r1) == [Run(0x10_0000, 0x2000, true, 0)]
  {
    var r1 := [Run(0x10_0000, 1, false, 1), Run(0x10_1000, 0x1FFF, true, 0)];
    assert ScanStop(r1, 0x50_0000) == 0;
    var m := MarkFree(r1, 0);
    assert m[..0] == [] && m[2..] == [];
  }

  // ---------------------------------------------------------------------------------------------
  // coalescing across the head

  /**
   * `free` of the head as written: the previous-neighbour test sees the last node, so a free last
   * run absorbs the head, and the head is unlinked while the list still starts there. The result
   * is the runs still linked, in order.
   */
  function ReleaseHeadAsWritten(runs: seq<Run>): seq<Run>
    requires |runs| >= 1
  {
    var n := MergeNext(MarkFree(runs, 0), 0);
    if |n| > 1 && n[|n| - 1].free
    then n[1..|n| - 1] + [n[|n| - 1].(npages := n[|n| - 1].npages + n[0].npages)]
    else n
  }

  /**
   * After two one-page allocations from 32 MiB at 1 MiB, freeing the first page as written
   * merges it into the last run, which then reaches one page past the end of RAM (0x2100000),
   * while the run at 0x100000 leaves the list.
   */
  lemma FreeHeadAsWrittenOverruns()
    ensures var r2 := [Run(0x10_0000, 1, false, 1), Run(0x10_1000, 1, false, 1), Run(0x10_2000, 0x1FFE, true, 0)];
            var w := ReleaseHeadAsWritten(r2);
            && WithinEnd(r2, 0x210_0000)
            && w == [Run(0x10_1000, 1, false, 1), Run(0x10_2000, 0x1FFF, true, 0)]
            && End(w[1]) == 0x210_1000
            && !WithinEnd(w, 0x210_0000)
            && ReleaseAt(r2, 0) == [Run(0x10_0000, 1, true, 0), Run(0x10_1000, 1, false, 1), Run(0x10_2000, 0x1FFE, true, 0)]
  {
    var r2 := [Run(0x10_0000, 1, false, 1), Run(0x10_1000, 1, false, 1), Run(0x10_2000, 0x1FFE, true, 0)];
    var n := MergeNext(MarkFree(r2, 0), 0);
    assert n == [Run(0x10_0000, 1, true, 0), Run(0x10_1000, 1, false, 1), Run(0x10_2000, 0x1FFE, true, 0)];
    assert n[1..2] == [Run(0x10_1000, 1, false, 1)];
    var w := ReleaseHeadAsWritten(r2);
    assert End(w[1]) > 0x210_0000;
  }

  /**
   * Without coalescing across the head, `free` never lets a run reach past the end the runs
   * had: merging joins a run only with the list-adjacent one after it in address order.
   */
  lemma ReleaseWithinEnd(runs: seq<Run>, j: nat, e: nat)
    requires Ordered(runs) && j < |runs| && WithinEnd(runs, e)
    ensures WithinEnd(ReleaseAt(runs, j), e)
  {
    var m := MarkFree(runs, j);
    var n := MergeNext(m, j);
    assert |n| >= 1 && j < |n| && n[j].start == runs[j].start && End(n[j]) <= e
           && (0 < j ==> n[j - 1] == runs[j - 1]) && WithinEnd(n, e) by {
      if j + 1 < |m| && m[j + 1].free {
        forall i | 0 <= i < |n|
          ensures (i < j ==> n[i] == m[i]) && (j < i ==> n[i] == m[i + 1])
          ensures i == j ==> n[i] == m[j].(npages := m[j].npages + m[j + 1].npages)
        {
        }
        assert End(n[j]) <= End(m[j + 1]) by {
          assert End(runs[j]) <= runs[j + 1].start;
        }
      }
    }
    if 0 < j && n[j - 1].free {
      var p := MergePrev(n, j);
      forall i | 0 <= i < |p|
        ensures End(p[i]) <= e
      {
        if i < j - 1 {
          assert p[i] == n[i];
        } else if i == j - 1 {
          assert p[i] == n[j - 1].(npages := n[j - 1].npages + n[j].npages);
          assert End(runs[j - 1]) <= runs[j].start;
        } else {
          assert p[i] == n[i + 1];
        }
      }
    }
  }

  // ---------------------------------------------------------------------------------------------
  // where the split node is stored

  /**
   * The descriptor index the split node is written to as written: `entry + sizeof(list_entry_t)`
   * advances by that many descriptors, not bytes.
   */
  function SplitNodeAsWritten(entry: nat, entrySize: nat): nat {
    entry + entrySize
  }

  /**
   * Written there, the split node records the address `pages` pages past the entry while its
   * descriptor is `entrySize` descriptors past it, so the arena no longer places every node at the
   * address of its own descriptor whenever the two differ.
   */
  lemma SplitNodeAsWrittenMisplaced(s: seq<PageFrame>, order: seq<nat>, base: nat, k: nat, entrySize: nat, pages: nat)
    requires InBounds(s, order) && k < |order| && PlacedAt(s, order, base, k) && entrySize != pages
    requires SplitNodeAsWritten(order[k], entrySize) < |s|
    ensures var t := SplitNodeAsWritten(order[k], entrySize);
            var s' := s[t := s[t].(phyAddr := s[order[k]].phyAddr + pages * PMM_PAGE_SIZE)];
            s'[t].phyAddr != base + t * PMM_PAGE_SIZE
  {
    var t := SplitNodeAsWritten(order[k], entrySize);
    assert s[order[k]].phyAddr == base + order[k] * PMM_PAGE_SIZE;
    if pages < entrySize {
      assert pages * PMM_PAGE_SIZE < entrySize * PMM_PAGE_SIZE;
    } else {
      assert pages * PMM_PAGE_SIZE > entrySize * PMM_PAGE_SIZE;
    }
  }

  /** The node reached from `x` by following `m` `next` links; an index outside the array stays put. */
  function Follow(s: seq<PageFrame>, x: nat, m: nat): nat
    decreases m
  {
    if m == 0 || x >= |s| then x else Follow(s, s[x].next, m - 1)
  }

  /** A node linked to itself is never left: every walk from it stays on it. */
  lemma {:induction false} FollowSelfLoop(s: seq<PageFrame>, x: nat, m: nat)
    requires x < |s| && s[x].next == x
    ensures Follow(s, x, m) == x
  {
    if m > 0 {
      FollowSelfLoop(s, x, m - 1);
    }
  }

  /**
   * With S descriptors per `sizeof(list_entry_t)` and `init` corrected, `alloc(0x1000)`,
   * `alloc(0x3000)` and `alloc(0x1000)` leave list nodes at descriptors 0, S, 2S and 3S, and
   * `free(base + 0x1000, 0x3000)` frees node S, whose next node is 2S = S + S. The next
   * `alloc(0x1000)` splits S again and, as written, stores the remainder onto the live node 2S;
   * `list_add_after(S, 2S)` is then `list_add_middle(S, 2S, 2S)`, whose stores leave 2S linked
   * to itself. From then on every walk from the entry stays on 2S: it never returns to the head,
   * node 3S is never reached again, and an `alloc` no run can satisfy steps along `next` forever.
   */
  lemma SplitOntoLiveNodeLoops(s: seq<PageFrame>, e: nat, entrySize: nat, pages: nat, m: nat)
    requires e < |s| && pages <= s[e].npages && 0 < entrySize
    requires s[e].next == SplitNodeAsWritten(e, entrySize) < |s|
    ensures var t := SplitNodeAsWritten(e, entrySize);
            var s' := FirstFitSteps.SplitAt(s, e, t, pages);
            && |s'| == |s| && s'[e].next == t && s'[t].next == t
            && Follow(s', e, m + 1) == t
  {
    var t := SplitNodeAsWritten(e, entrySize);
    var s1 := s[t := FirstFitSteps.Remnant(s, e, t, pages)];
    var s2 := Link(s1, e, t, t);
    var s' := FirstFitSteps.SplitAt(s, e, t, pages);
    assert s' == s2[e := FirstFitSteps.Taken(s2[e], pages)];
    assert s'[t].next == t && s'[e].next == t;
    FollowSelfLoop(s', t, m);
  }
}
