/** Properties of the first-fit list operations, proved on the run-sequence specification. */
module FirstFitProps {
  import opened PmmTypes
  import opened FirstFitRuns

  // ---------------------------------------------------------------------------------------------
  // Free-page totals

  lemma {:induction false} FreeTotalAppend(a: seq<Run>, b: seq<Run>)
    ensures FreeTotal(a + b) == FreeTotal(a) + FreeTotal(b)
    decreases |b|
  {
    if b == [] {
      assert a + b == a;
    } else {
      var b' := b[..|b| - 1];
      assert (a + b)[..|a + b| - 1] == a + b';
      FreeTotalAppend(a, b');
    }
  }

  lemma FreeTotalOne(r: Run)
    ensures FreeTotal([r]) == if r.free then r.npages else 0
  {
    assert [r][..0] == [];
  }

  /** FreeTotal of a list split around position `k`. */
  lemma FreeTotalAround(runs: seq<Run>, k: nat)
    requires k < |runs|
    ensures FreeTotal(runs) == FreeTotal(runs[..k]) + FreeTotal([runs[k]]) + FreeTotal(runs[k + 1..])
  {
    assert runs == runs[..k] + [runs[k]] + runs[k + 1..];
    FreeTotalAppend(runs[..k] + [runs[k]], runs[k + 1..]);
    FreeTotalAppend(runs[..k], [runs[k]]);
  }

  /**
   * A successful `alloc` of `pages` pages takes exactly `pages` pages out of the free runs,
   * except when the chosen run had exactly one page more: that page is split off into no run
   * and is lost to the free runs as well.
   */
  lemma AllocFreeTotal(runs: seq<Run>, k: nat, pages: nat)
    requires k < |runs| && Fits(runs[k], pages)
    ensures FreeTotal(AllocAt(runs, k, pages)) + pages + (if runs[k].npages - pages == 1 then 1 else 0)
            == FreeTotal(runs)
  {
    var r := runs[k];
    var used := Run(r.start, pages, false, 1);
    var rem := Remainder(r, pages);
    FreeTotalAround(runs, k);
    FreeTotalOne(r);
    FreeTotalOne(used);
    FreeTotalAppend(runs[..k] + [used] + rem, runs[k + 1..]);
    FreeTotalAppend(runs[..k] + [used], rem);
    FreeTotalAppend(runs[..k], [used]);
    if r.npages - pages > 1 {
      FreeTotalOne(rem[0]);
      assert rem == [rem[0]];
    } else {
      assert rem == [];
    }
  }

  /** `free` adds the released run's pages to the free runs (none if it was already free). */
  lemma ReleaseFreeTotal(runs: seq<Run>, j: nat)
    requires j < |runs|
    ensures FreeTotal(ReleaseAt(runs, j)) == FreeTotal(runs) + (if runs[j].free then 0 else runs[j].npages)
  {
    var m := MarkFree(runs, j);
    FreeTotalAround(runs, j);
    FreeTotalAround(m, j);
    assert m[..j] == runs[..j] && m[j + 1..] == runs[j + 1..];
    FreeTotalOne(runs[j]);
    FreeTotalOne(m[j]);
    var n := MergeNext(m, j);
    MergeNextFreeTotal(m, j);
    MergePrevFreeTotal(n, j);
  }

  /** Replacing two free neighbours by one run of their summed length keeps the total. */
  lemma MergeTwoFreeTotal(a: seq<Run>, x: Run, y: Run, c: seq<Run>)
    requires x.free && y.free
    ensures FreeTotal(a + [x, y] + c) == FreeTotal(a + [x.(npages := x.npages + y.npages)] + c)
  {
    var xy := x.(npages := x.npages + y.npages);
    FreeTotalAppend(a + [x, y], c);
    FreeTotalAppend(a, [x, y]);
    FreeTotalAppend(a + [xy], c);
    FreeTotalAppend(a, [xy]);
    assert [x, y] == [x] + [y];
    FreeTotalAppend([x], [y]);
    FreeTotalOne(x);
    FreeTotalOne(y);
    FreeTotalOne(xy);
  }

  lemma MergeNextFreeTotal(runs: seq<Run>, j: nat)
    requires j < |runs| && runs[j].free
    ensures FreeTotal(MergeNext(runs, j)) == FreeTotal(runs)
  {
    if j + 1 < |runs| && runs[j + 1].free {
      MergeWithNextFreeTotal(runs, j);
    }
  }

  lemma MergeWithNextFreeTotal(runs: seq<Run>, j: nat)
    requires j + 1 < |runs| && runs[j].free && runs[j + 1].free
    ensures FreeTotal(MergeNext(runs, j)) == FreeTotal(runs)
  {
    var a, x, y, c := runs[..j], runs[j], runs[j + 1], runs[j + 2..];
    assert runs == a + [x, y] + c;
    assert MergeNext(runs, j) == a + [x.(npages := x.npages + y.npages)] + c;
    MergeTwoFreeTotal(a, x, y, c);
  }

  lemma MergePrevFreeTotal(runs: seq<Run>, j: nat)
    requires j < |runs| && runs[j].free
    ensures FreeTotal(MergePrev(runs, j)) == FreeTotal(runs)
  {
    if 0 < j && runs[j - 1].free {
      var a, x, y, c := runs[..j - 1], runs[j - 1], runs[j], runs[j + 1..];
      assert runs == a + [x, y] + c;
      assert MergePrev(runs, j) == a + [x.(npages := x.npages + y.npages)] + c;
      MergeTwoFreeTotal(a, x, y, c);
    }
  }

  // ---------------------------------------------------------------------------------------------
  // Invariants kept by alloc and free

  /** Address order between any two positions, not only neighbours. */
  lemma {:induction false} OrderedDisjoint(runs: seq<Run>, i: nat, j: nat)
    requires Ordered(runs) && i < j < |runs|
    ensures runs[i].start + runs[i].npages * PMM_PAGE_SIZE <= runs[j].start
    decreases j - i
  {
    if i + 1 < j {
      OrderedDisjoint(runs, i + 1, j);
      assert runs[i + 1].start <= runs[i + 1].start + runs[i + 1].npages * PMM_PAGE_SIZE;
    }
  }

  /** In a well-formed list no two runs start at the same address, so `free` finds the one that does. */
  lemma FindRunUnique(runs: seq<Run>, j: nat)
    requires Good(runs) && j < |runs|
    ensures FindRun(runs, runs[j].start) == Some(j)
  {
    var f := FindRun(runs, runs[j].start);
    assert f.Some?;
    var i := f.value;
    if i < j {
      OrderedDisjoint(runs, i, j);
    } else if j < i {
      OrderedDisjoint(runs, j, i);
    }
  }

  lemma AllocAtIndex(runs: seq<Run>, k: nat, pages: nat, i: nat)
    requires k < |runs| && Fits(runs[k], pages)
    ensures var a := AllocAt(runs, k, pages);
            var d := |Remainder(runs[k], pages)|;
            && |a| == |runs| + d
            && (i < k ==> a[i] == runs[i])
            && a[k] == Run(runs[k].start, pages, false, 1)
            && (d == 1 ==> a[k + 1] == Remainder(runs[k], pages)[0])
            && (k + d < i < |a| ==> a[i] == runs[i - d])
  {
  }

  /** `alloc` keeps the list well formed, for every node it may pick. */
  lemma AllocPreservesGood(runs: seq<Run>, k: nat, pages: nat)
    requires Good(runs) && k < |runs| && Fits(runs[k], pages) && pages >= 1
    ensures Good(AllocAt(runs, k, pages))
  {
    var a := AllocAt(runs, k, pages);
    var d := |Remainder(runs[k], pages)|;
    forall i | 0 <= i < |a|
      ensures a[i].npages >= 1 && a[i].start % PMM_PAGE_SIZE == 0 && (a[i].free ==> a[i].ref == 0)
    {
      AllocAtIndex(runs, k, pages, i);
    }
    forall i | 0 <= i < |a| - 1
      ensures a[i].start + a[i].npages * PMM_PAGE_SIZE <= a[i + 1].start
      ensures !(a[i].free && a[i + 1].free)
    {
      AllocAtIndex(runs, k, pages, i);
      AllocAtIndex(runs, k, pages, i + 1);
      if i == k && d == 0 {
        assert a[i + 1] == runs[k + 1];
      }
    }
  }

  /** Coalesced everywhere except, possibly, at the pairs starting at `i0` and `i1`. */
  ghost predicate CoalescedExcept(runs: seq<Run>, i0: int, i1: int) {
    forall i :: 0 <= i < |runs| - 1 && i != i0 && i != i1 ==> !(runs[i].free && runs[i + 1].free)
  }

  ghost predicate Shaped(runs: seq<Run>) {
    Positive(runs) && Ordered(runs) && Aligned(runs) && FreeUnreferenced(runs)
  }

  lemma MergeNextIndex(runs: seq<Run>, j: nat, i: nat)
    requires j + 1 < |runs| && runs[j + 1].free
    ensures var n := MergeNext(runs, j);
            && |n| == |runs| - 1
            && (i < j ==> n[i] == runs[i])
            && n[j] == runs[j].(npages := runs[j].npages + runs[j + 1].npages)
            && (j < i < |n| ==> n[i] == runs[i + 1])
  {
  }

  lemma MergePrevIndex(runs: seq<Run>, j: nat, i: nat)
    requires 0 < j < |runs| && runs[j - 1].free
    ensures var p := MergePrev(runs, j);
            && |p| == |runs| - 1
            && (i < j - 1 ==> p[i] == runs[i])
            && p[j - 1] == runs[j - 1].(npages := runs[j - 1].npages + runs[j].npages)
            && (j - 1 < i < |p| ==> p[i] == runs[i + 1])
  {
  }

  /** The forward merge of `free` leaves at most the pair (j - 1, j) uncoalesced. */
  lemma MergeNextShaped(m: seq<Run>, j: nat)
    requires Shaped(m) && j < |m| && m[j].free && CoalescedExcept(m, j - 1, j)
    ensures var n := MergeNext(m, j);
            && Shaped(n) && j < |n| && n[j].free && CoalescedExcept(n, j - 1, j - 1)
            && (j + 1 < |n| ==> !n[j + 1].free)
  {
    if j + 1 < |m| && m[j + 1].free {
      var n := MergeNext(m, j);
      forall i | 0 <= i < |n|
        ensures n[i].npages >= 1 && n[i].start % PMM_PAGE_SIZE == 0 && (n[i].free ==> n[i].ref == 0)
      {
        MergeNextIndex(m, j, i);
      }
      forall i | 0 <= i < |n| - 1
        ensures n[i].start + n[i].npages * PMM_PAGE_SIZE <= n[i + 1].start
        ensures i != j - 1 ==> !(n[i].free && n[i + 1].free)
      {
        MergeNextIndex(m, j, i);
        MergeNextIndex(m, j, i + 1);
        if i == j {
          assert m[j + 1].start + m[j + 1].npages * PMM_PAGE_SIZE <= m[j + 2].start;
        }
      }
    }
  }

  /** The backward merge of `free` completes coalescing. */
  lemma MergePrevGood(n: seq<Run>, j: nat)
    requires Shaped(n) && j < |n| && n[j].free && CoalescedExcept(n, j - 1, j - 1)
    requires j + 1 < |n| ==> !n[j + 1].free
    ensures Good(MergePrev(n, j))
  {
    if 0 < j && n[j - 1].free {
      var p := MergePrev(n, j);
      forall i | 0 <= i < |p|
        ensures p[i].npages >= 1 && p[i].start % PMM_PAGE_SIZE == 0 && (p[i].free ==> p[i].ref == 0)
      {
        MergePrevIndex(n, j, i);
      }
      forall i | 0 <= i < |p| - 1
        ensures p[i].start + p[i].npages * PMM_PAGE_SIZE <= p[i + 1].start
        ensures !(p[i].free && p[i + 1].free)
      {
        MergePrevIndex(n, j, i);
        MergePrevIndex(n, j, i + 1);
        if i == j - 1 {
          assert n[j].start + n[j].npages * PMM_PAGE_SIZE <= n[j + 1].start;
        }
      }
    }
  }

  /** `free` keeps the list well formed, whichever node it releases. */
  lemma ReleasePreservesGood(runs: seq<Run>, j: nat)
    requires Good(runs) && j < |runs|
    ensures Good(ReleaseAt(runs, j))
  {
    var m := MarkFree(runs, j);
    assert Shaped(m) && CoalescedExcept(m, j - 1, j);
    MergeNextShaped(m, j);
    MergePrevGood(MergeNext(m, j), j);
  }

  // ---------------------------------------------------------------------------------------------
  // Round trips and the boot scenario

  /**
   * Freeing a block right after allocating it, with the same size, gives back the list as it was;
   * except that when the chosen run had exactly one page more than requested, the run comes back
   * one page short (that page was split off into no run).
   */
  lemma AllocThenRelease(runs: seq<Run>, k: nat, pages: nat)
    requires Good(runs) && k < |runs| && Fits(runs[k], pages) && pages >= 1
    ensures var a := AllocAt(runs, k, pages);
            && FindRun(a, runs[k].start) == Some(k)
            && ReleaseAt(a, k) == if runs[k].npages - pages == 1 then runs[k := runs[k].(npages := pages)] else runs
  {
    var a := AllocAt(runs, k, pages);
    AllocPreservesGood(runs, k, pages);
    AllocAtIndex(runs, k, pages, k);
    FindRunUnique(a, k);
    if runs[k].npages - pages > 1 {
      SplitThenRelease(runs, k, pages);
    } else if runs[k].npages == pages {
      WholeThenRelease(runs, k, pages);
      assert runs[k := runs[k].(npages := pages)] == runs;
    } else {
      WholeThenRelease(runs, k, pages);
    }
  }

  lemma SplitThenRelease(runs: seq<Run>, k: nat, pages: nat)
    requires Good(runs) && k < |runs| && Fits(runs[k], pages) && runs[k].npages - pages > 1
    ensures ReleaseAt(AllocAt(runs, k, pages), k) == runs
  {
    var a := AllocAt(runs, k, pages);
    var m := MarkFree(a, k);
    AllocAtIndex(runs, k, pages, k);
    AllocAtIndex(runs, k, pages, k + 1);
    var n := MergeNext(m, k);
    forall i | 0 <= i < |runs|
      ensures n[i] == runs[i]
    {
      MergeNextIndex(m, k, i);
      AllocAtIndex(runs, k, pages, i);
      AllocAtIndex(runs, k, pages, i + 1);
    }
    MergeNextIndex(m, k, 0);
    assert n == runs;
  }

  lemma WholeThenRelease(runs: seq<Run>, k: nat, pages: nat)
    requires Good(runs) && k < |runs| && Fits(runs[k], pages) && runs[k].npages - pages <= 1
    ensures ReleaseAt(AllocAt(runs, k, pages), k) == runs[k := runs[k].(npages := pages)]
  {
    var a := AllocAt(runs, k, pages);
    var m := MarkFree(a, k);
    assert m == runs[k := runs[k].(npages := pages)];
    assert MergeNext(m, k) == m;
  }

  /** The next allocation never overlaps one already handed out. */
  lemma AllocationsDisjoint(runs: seq<Run>, p1: nat, p2: nat)
    requires Good(runs) && p1 >= 1 && p2 >= 1 && FirstFit(runs, p1).Some?
    ensures var k1 := FirstFit(runs, p1).value;
            var a := AllocAt(runs, k1, p1);
            FirstFit(a, p2).Some? ==>
              var k2 := FirstFit(a, p2).value;
              && a[k2].start % PMM_PAGE_SIZE == 0
              && (a[k2].start + p2 * PMM_PAGE_SIZE <= runs[k1].start
                  || runs[k1].start + p1 * PMM_PAGE_SIZE <= a[k2].start)
  {
    var k1 := FirstFit(runs, p1).value;
    var a := AllocAt(runs, k1, p1);
    AllocPreservesGood(runs, k1, p1);
    AllocAtIndex(runs, k1, p1, k1);
    if FirstFit(a, p2).Some? {
      var k2 := FirstFit(a, p2).value;
      assert k2 != k1;
      if k2 < k1 {
        OrderedDisjoint(a, k2, k1);
      } else {
        OrderedDisjoint(a, k1, k2);
      }
    }
  }
}
