/**
 * The steps of `alloc` and `free` on the descriptor array, as functions, with the lemmas that each
 * step keeps the arena well formed and does to the list of runs what FirstFitRuns specifies.
 */
module FirstFitSteps {
  import opened PmmTypes
  import opened FirstFitRuns
  import opened FirstFitList
  import opened FirstFitProps

  /** A descriptor without its links: what RunOf and the arena's payload invariants see. */
  function Strip(f: PageFrame): PageFrame {
    f.(next := 0, prev := 0)
  }

  /** The split node `t` after `alloc` filled it in: the rest of node `e` beyond `pages` pages. */
  function Remnant(s: seq<PageFrame>, e: nat, t: nat, pages: nat): PageFrame
    requires e < |s| && t < |s| && pages <= s[e].npages
  {
    s[t].(phyAddr := s[e].phyAddr + pages * PMM_PAGE_SIZE, npages := s[e].npages - pages, ref := 0, flag := FF_UNUSED)
  }

  /** Node `e` after `alloc` took it: `pages` pages, one reference, used. */
  function Taken(f: PageFrame, pages: nat): PageFrame {
    f.(npages := pages, ref := 1, flag := FF_USED)
  }

  /** `alloc` on node `e` when the rest is split off into node `t`. */
  function SplitAt(s: seq<PageFrame>, e: nat, t: nat, pages: nat): seq<PageFrame>
    requires e < |s| && t < |s| && s[e].next < |s| && pages <= s[e].npages
  {
    var s1 := s[t := Remnant(s, e, t, pages)];
    var s2 := Link(s1, e, s[e].next, t);
    s2[e := Taken(s2[e], pages)]
  }

  /** `alloc` on node `e` when no split is made. */
  function TakeAt(s: seq<PageFrame>, e: nat, pages: nat): seq<PageFrame>
    requires e < |s|
  {
    s[e := Taken(s[e], pages)]
  }

  // ---------------------------------------------------------------------------------------------
  // Shared facts about the arena

  lemma RunOfStrip(f: PageFrame, g: PageFrame)
    requires Strip(f) == Strip(g)
    ensures RunOf(f) == RunOf(g) && f.npages == g.npages && f.phyAddr == g.phyAddr
  {
    assert f.phyAddr == Strip(f).phyAddr && g.phyAddr == Strip(g).phyAddr;
    assert f.npages == Strip(f).npages && g.npages == Strip(g).npages;
    assert f.flag == Strip(f).flag && g.flag == Strip(g).flag;
    assert f.ref == Strip(f).ref && g.ref == Strip(g).ref;
  }

  lemma InsertIncreasing(order: seq<nat>, k: nat, t: nat)
    requires Increasing(order) && k < |order| && order[k] < t
    requires k + 1 < |order| ==> t < order[k + 1]
    ensures Increasing(Insert(order, k, t)) && t !in order
  {
    var o' := Insert(order, k, t);
    forall a, b | 0 <= a < b < |o'| ensures o'[a] < o'[b] {
      if a <= k && b == k + 1 {
        assert o'[a] <= order[k];
      } else if a == k + 1 && b > k + 1 {
        assert o'[b] >= order[k + 1];
      }
    }
    forall i | 0 <= i < |order| ensures order[i] != t {
      if i <= k {
        assert order[i] <= order[k];
      } else {
        assert order[i] >= order[k + 1];
      }
    }
  }

  lemma RemoveIncreasing(order: seq<nat>, j: nat)
    requires Increasing(order) && j < |order|
    ensures Increasing(Remove(order, j))
  {
  }

  /** The node at position k of a well-formed arena, and where its run may end. */
  lemma WfNode(s: seq<PageFrame>, order: seq<nat>, base: nat, k: nat)
    requires Wf(s, order, base) && k < |order|
    ensures order[k] < |s| && 1 <= s[order[k]].npages
    ensures order[k] + s[order[k]].npages <= Limit(order, k, |s|) <= |s|
    ensures s[order[k]].phyAddr == base + order[k] * PMM_PAGE_SIZE
    ensures s[order[k]].next == order[Succ(k, |order|)] && s[order[k]].prev == order[Pred(k, |order|)]
    ensures Runs(s, order)[k] == RunOf(s[order[k]])
  {
    assert PlacedAt(s, order, base, k) && LinkedAt(s, order, k);
    if k + 1 < |order| {
      assert order[k + 1] < |s|;
    }
  }

  // ---------------------------------------------------------------------------------------------
  // alloc, with a split

  /** What the split step leaves in each descriptor, links aside. */
  lemma SplitPayload(s: seq<PageFrame>, e: nat, t: nat, pages: nat)
    requires e < |s| && t < |s| && s[e].next < |s| && pages <= s[e].npages
    requires t != e && t != s[e].next
    ensures var s' := SplitAt(s, e, t, pages);
            && |s'| == |s|
            && Strip(s'[e]) == Strip(Taken(s[e], pages))
            && Strip(s'[t]) == Strip(Remnant(s, e, t, pages))
            && forall x :: 0 <= x < |s| && x != e && x != t ==> Strip(s'[x]) == Strip(s[x])
  {
    var s1 := s[t := Remnant(s, e, t, pages)];
    var s2 := Link(s1, e, s[e].next, t);
    LinkFacts(s1, e, s[e].next, t);
  }

  /** What the split step leaves in the links: the new node follows `e`, as list_add_after does. */
  lemma SplitLinks(s: seq<PageFrame>, order: seq<nat>, k: nat, t: nat, pages: nat)
    requires InBounds(s, order) && Increasing(order) && Linked(s, order)
    requires k < |order| && t < |s| && t !in order && pages <= s[order[k]].npages
    ensures s[order[k]].next < |s|
    ensures var s' := SplitAt(s, order[k], t, pages);
            InBounds(s', Insert(order, k, t)) && Linked(s', Insert(order, k, t))
  {
    var e := order[k];
    var s1 := s[t := Remnant(s, e, t, pages)];
    assert forall x :: 0 <= x < |s| && x != t ==> s1[x] == s[x];
    assert SameLinks(s, s1);
    SameLinksLinked(s, s1, order);
    assert Increasing(order);
    LinkAfterLinked(s1, order, k, t);
    var s2 := Link(s1, e, s1[e].next, t);
    var s3 := s2[e := Taken(s2[e], pages)];
    assert SameLinks(s2, s3);
    SameLinksLinked(s2, s3, Insert(order, k, t));
    assert SplitAt(s, e, t, pages) == s3;
  }

  lemma SplitSpacedAt(s: seq<PageFrame>, s': seq<PageFrame>, order: seq<nat>, base: nat, k: nat, t: nat, pages: nat, i: nat)
    requires Wf(s, order, base) && k < |order| && 1 <= pages && s[order[k]].npages - pages > 1
    requires Fits(Runs(s, order)[k], pages)
    requires t == order[k] + pages && t !in order && t < |s| && |s'| == |s|
    requires Strip(s'[order[k]]) == Strip(Taken(s[order[k]], pages))
    requires Strip(s'[t]) == Strip(Remnant(s, order[k], t, pages))
    requires forall x :: 0 <= x < |s| && x != order[k] && x != t ==> Strip(s'[x]) == Strip(s[x])
    requires i < |order| + 1
    ensures var o' := Insert(order, k, t);
            && InBounds(s', o') && PlacedAt(s', o', base, i)
            && RunOf(s'[o'[i]]) == AllocAt(Runs(s, order), k, pages)[i]
  {
    if i == k {
      SplitSpacedEntry(s, s', order, base, k, t, pages);
    } else if i == k + 1 {
      SplitSpacedNew(s, s', order, base, k, t, pages);
    } else {
      SplitSpacedOther(s, s', order, base, k, t, pages, i);
    }
  }

  lemma SplitSpacedEntry(s: seq<PageFrame>, s': seq<PageFrame>, order: seq<nat>, base: nat, k: nat, t: nat, pages: nat)
    requires Wf(s, order, base) && k < |order| && 1 <= pages && s[order[k]].npages - pages > 1
    requires Fits(Runs(s, order)[k], pages)
    requires t == order[k] + pages && t !in order && t < |s| && |s'| == |s|
    requires Strip(s'[order[k]]) == Strip(Taken(s[order[k]], pages))
    requires Strip(s'[t]) == Strip(Remnant(s, order[k], t, pages))
    requires forall x :: 0 <= x < |s| && x != order[k] && x != t ==> Strip(s'[x]) == Strip(s[x])
    ensures var o' := Insert(order, k, t);
            && InBounds(s', o') && PlacedAt(s', o', base, k)
            && RunOf(s'[o'[k]]) == AllocAt(Runs(s, order), k, pages)[k]
  {
    var e := order[k];
    WfNode(s, order, base, k);
    AllocAtIndex(Runs(s, order), k, pages, k);
    RunOfStrip(s'[e], Taken(s[e], pages));
  }

  lemma SplitSpacedNew(s: seq<PageFrame>, s': seq<PageFrame>, order: seq<nat>, base: nat, k: nat, t: nat, pages: nat)
    requires Wf(s, order, base) && k < |order| && 1 <= pages && s[order[k]].npages - pages > 1
    requires Fits(Runs(s, order)[k], pages)
    requires t == order[k] + pages && t !in order && t < |s| && |s'| == |s|
    requires Strip(s'[order[k]]) == Strip(Taken(s[order[k]], pages))
    requires Strip(s'[t]) == Strip(Remnant(s, order[k], t, pages))
    requires forall x :: 0 <= x < |s| && x != order[k] && x != t ==> Strip(s'[x]) == Strip(s[x])
    ensures var o' := Insert(order, k, t);
            && InBounds(s', o') && PlacedAt(s', o', base, k + 1)
            && RunOf(s'[o'[k + 1]]) == AllocAt(Runs(s, order), k, pages)[k + 1]
  {
    var o' := Insert(order, k, t);
    var e := order[k];
    WfNode(s, order, base, k);
    AllocAtIndex(Runs(s, order), k, pages, k + 1);
    RunOfStrip(s'[t], Remnant(s, e, t, pages));
    if k + 1 < |order| {
      assert Limit(o', k + 1, |s'|) == order[k + 1];
    }
  }

  lemma SplitSpacedOther(s: seq<PageFrame>, s': seq<PageFrame>, order: seq<nat>, base: nat, k: nat, t: nat, pages: nat, i: nat)
    requires Wf(s, order, base) && k < |order| && 1 <= pages && s[order[k]].npages - pages > 1
    requires Fits(Runs(s, order)[k], pages)
    requires t == order[k] + pages && t !in order && t < |s| && |s'| == |s|
    requires Strip(s'[order[k]]) == Strip(Taken(s[order[k]], pages))
    requires Strip(s'[t]) == Strip(Remnant(s, order[k], t, pages))
    requires forall x :: 0 <= x < |s| && x != order[k] && x != t ==> Strip(s'[x]) == Strip(s[x])
    requires i < |order| + 1 && i != k && i != k + 1
    ensures var o' := Insert(order, k, t);
            && InBounds(s', o') && PlacedAt(s', o', base, i)
            && RunOf(s'[o'[i]]) == AllocAt(Runs(s, order), k, pages)[i]
  {
    var o' := Insert(order, k, t);
    var e := order[k];
    AllocAtIndex(Runs(s, order), k, pages, i);
    var oi := if i < k then i else i - 1;
    assert o'[i] == order[oi];
    WfNode(s, order, base, oi);
    assert order[oi] != e;
    RunOfStrip(s'[order[oi]], s[order[oi]]);
    assert Limit(o', i, |s'|) == Limit(order, oi, |s|);
  }

  /**
   * `alloc` with a split keeps the arena well formed, puts the new node at position k + 1, and
   * does to the runs exactly what AllocAt specifies.
   */
  lemma SplitStep(s: seq<PageFrame>, order: seq<nat>, base: nat, k: nat, pages: nat)
    requires Wf(s, order, base) && k < |order| && 1 <= pages
    requires Fits(Runs(s, order)[k], pages) && s[order[k]].npages - pages > 1
    ensures order[k] + pages < |s| && order[k] + pages !in order && s[order[k]].next < |s|
    ensures var t := order[k] + pages;
            var s' := SplitAt(s, order[k], t, pages);
            && Wf(s', Insert(order, k, t), base)
            && Runs(s', Insert(order, k, t)) == AllocAt(Runs(s, order), k, pages)
  {
    var e := order[k];
    var t := e + pages;
    WfNode(s, order, base, k);
    if k + 1 < |order| {
      assert t < order[k + 1];
    }
    InsertIncreasing(order, k, t);
    assert t != s[e].next by {
      if Succ(k, |order|) == 0 {
        assert order[0] <= e;
      }
    }
    SplitResult(s, order, base, k, pages);
  }

  lemma SplitResult(s: seq<PageFrame>, order: seq<nat>, base: nat, k: nat, pages: nat)
    requires Wf(s, order, base) && k < |order| && 1 <= pages
    requires Fits(Runs(s, order)[k], pages) && s[order[k]].npages - pages > 1
    requires order[k] + pages < |s| && s[order[k]].next < |s| && order[k] + pages != s[order[k]].next
    requires Increasing(Insert(order, k, order[k] + pages)) && order[k] + pages !in order
    ensures var t := order[k] + pages;
            var s' := SplitAt(s, order[k], t, pages);
            && Wf(s', Insert(order, k, t), base)
            && Runs(s', Insert(order, k, t)) == AllocAt(Runs(s, order), k, pages)
  {
    var e := order[k];
    var t := e + pages;
    var o' := Insert(order, k, t);
    var s' := SplitAt(s, e, t, pages);
    SplitPayload(s, e, t, pages);
    SplitLinks(s, order, k, t, pages);
    var a := AllocAt(Runs(s, order), k, pages);
    AllocAtIndex(Runs(s, order), k, pages, 0);
    forall i | 0 <= i < |o'|
      ensures PlacedAt(s', o', base, i)
      ensures RunOf(s'[o'[i]]) == a[i]
    {
      SplitSpacedAt(s, s', order, base, k, t, pages, i);
    }
    assert Runs(s', o') == a;
  }

  // ---------------------------------------------------------------------------------------------
  // alloc, without a split

  lemma TakeStep(s: seq<PageFrame>, order: seq<nat>, base: nat, k: nat, pages: nat)
    requires Wf(s, order, base) && k < |order| && 1 <= pages
    requires Fits(Runs(s, order)[k], pages) && s[order[k]].npages - pages <= 1
    ensures var s' := TakeAt(s, order[k], pages);
            && Wf(s', order, base)
            && Runs(s', order) == AllocAt(Runs(s, order), k, pages)
  {
    var s' := TakeAt(s, order[k], pages);
    var runs := Runs(s, order);
    TakeAtIndex(s, order, base, k, pages, 0);
    assert Wf(s', order, base) by {
      forall i | 0 <= i < |order| ensures PlacedAt(s', order, base, i) && LinkedAt(s', order, i) {
        TakeAtIndex(s, order, base, k, pages, i);
      }
    }
    assert Runs(s', order) == AllocAt(runs, k, pages) by {
      forall i | 0 <= i < |order| ensures RunOf(s'[order[i]]) == AllocAt(runs, k, pages)[i] {
        TakeAtIndex(s, order, base, k, pages, i);
      }
      AllocAtIndex(runs, k, pages, 0);
    }
  }

  lemma TakeAtIndex(s: seq<PageFrame>, order: seq<nat>, base: nat, k: nat, pages: nat, i: nat)
    requires Wf(s, order, base) && k < |order| && 1 <= pages && i < |order|
    requires Fits(Runs(s, order)[k], pages) && s[order[k]].npages - pages <= 1
    ensures var s' := TakeAt(s, order[k], pages);
            && InBounds(s', order) && PlacedAt(s', order, base, i) && LinkedAt(s', order, i)
            && RunOf(s'[order[i]]) == AllocAt(Runs(s, order), k, pages)[i]
  {
    WfNode(s, order, base, k);
    WfNode(s, order, base, i);
    AllocAtIndex(Runs(s, order), k, pages, i);
    if i != k {
      assert order[i] != order[k];
    }
  }

  // ---------------------------------------------------------------------------------------------
  // free: marking, and the two merges

  /** Node `e` after `free` marked it: no reference, unused. */
  function Released(f: PageFrame): PageFrame {
    f.(ref := 0, flag := FF_UNUSED)
  }

  /** Absorb the next node `nx` into `e` and unlink it; the absorbed node is left with no pages. */
  function AbsorbNext(s: seq<PageFrame>, e: nat, nx: nat): seq<PageFrame>
    requires e < |s| && nx < |s| && nx != e
    requires s[nx].next < |s| && s[nx].prev < |s|
  {
    var s1 := s[e := s[e].(npages := s[e].npages + s[nx].npages)];
    var s2 := s1[nx := s1[nx].(npages := 0)];
    Unlink(s2, nx)
  }

  /** Absorb node `e` into the previous node `pv` and unlink it; `e` is left with no pages. */
  function AbsorbIntoPrev(s: seq<PageFrame>, e: nat, pv: nat): seq<PageFrame>
    requires e < |s| && pv < |s| && pv != e
    requires s[e].next < |s| && s[e].prev < |s|
  {
    var s1 := s[pv := s[pv].(npages := s[pv].npages + s[e].npages)];
    var s2 := s1[e := s1[e].(npages := 0)];
    Unlink(s2, e)
  }

  lemma MarkStep(s: seq<PageFrame>, order: seq<nat>, base: nat, j: nat)
    requires Wf(s, order, base) && j < |order|
    ensures var s' := s[order[j] := Released(s[order[j]])];
            && Wf(s', order, base)
            && Runs(s', order) == MarkFree(Runs(s, order), j)
  {
    var e := order[j];
    var s' := s[e := Released(s[e])];
    forall i | 0 <= i < |order|
      ensures PlacedAt(s', order, base, i) && LinkedAt(s', order, i)
      ensures RunOf(s'[order[i]]) == MarkFree(Runs(s, order), j)[i]
    {
      WfNode(s, order, base, i);
      if i != j {
        assert order[i] != e;
      }
    }
    assert Runs(s', order) == MarkFree(Runs(s, order), j);
  }

  lemma AbsorbNextPayload(s: seq<PageFrame>, e: nat, nx: nat)
    requires e < |s| && nx < |s| && nx != e
    requires s[nx].next < |s| && s[nx].prev < |s| && s[nx].next != nx && s[nx].prev != nx
    ensures var s' := AbsorbNext(s, e, nx);
            && |s'| == |s|
            && Strip(s'[e]) == Strip(s[e].(npages := s[e].npages + s[nx].npages))
            && forall x :: 0 <= x < |s| && x != e && x != nx ==> Strip(s'[x]) == Strip(s[x])
  {
    var s1 := s[e := s[e].(npages := s[e].npages + s[nx].npages)];
    var s2 := s1[nx := s1[nx].(npages := 0)];
    UnlinkFacts(s2, nx);
  }

  lemma AbsorbNextLinks(s: seq<PageFrame>, order: seq<nat>, j: nat)
    requires InBounds(s, order) && Increasing(order) && Linked(s, order)
    requires j + 1 < |order|
    ensures s[order[j + 1]].next < |s| && s[order[j + 1]].prev < |s|
    ensures var s' := AbsorbNext(s, order[j], order[j + 1]);
            InBounds(s', Remove(order, j + 1)) && Linked(s', Remove(order, j + 1))
  {
    var e, nx := order[j], order[j + 1];
    var s1 := s[e := s[e].(npages := s[e].npages + s[nx].npages)];
    var s2 := s1[nx := s1[nx].(npages := 0)];
    assert InBounds(s2, order) && Linked(s2, order) by {
      assert SameLinks(s, s2);
      SameLinksLinked(s, s2, order);
    }
    UnlinkLinked(s2, order, j + 1);
    assert AbsorbNext(s, e, nx) == Unlink(s2, nx);
  }

  lemma MergeNextAt(s: seq<PageFrame>, s': seq<PageFrame>, order: seq<nat>, base: nat, j: nat, i: nat)
    requires Wf(s, order, base) && j + 1 < |order| && |s'| == |s|
    requires Strip(s'[order[j]]) == Strip(s[order[j]].(npages := s[order[j]].npages + s[order[j + 1]].npages))
    requires forall x :: 0 <= x < |s| && x != order[j] && x != order[j + 1] ==> Strip(s'[x]) == Strip(s[x])
    requires Runs(s, order)[j + 1].free
    requires i < |order| - 1
    ensures var o' := Remove(order, j + 1);
            && InBounds(s', o') && PlacedAt(s', o', base, i)
            && RunOf(s'[o'[i]]) == MergeNext(Runs(s, order), j)[i]
  {
    if i == j {
      MergeNextAtEntry(s, s', order, base, j);
    } else {
      MergeNextAtOther(s, s', order, base, j, i);
    }
  }

  lemma MergeNextAtEntry(s: seq<PageFrame>, s': seq<PageFrame>, order: seq<nat>, base: nat, j: nat)
    requires Wf(s, order, base) && j + 1 < |order| && |s'| == |s|
    requires Strip(s'[order[j]]) == Strip(s[order[j]].(npages := s[order[j]].npages + s[order[j + 1]].npages))
    requires Runs(s, order)[j + 1].free
    ensures var o' := Remove(order, j + 1);
            && InBounds(s', o') && PlacedAt(s', o', base, j)
            && RunOf(s'[o'[j]]) == MergeNext(Runs(s, order), j)[j]
  {
    var o' := Remove(order, j + 1);
    var e, nx := order[j], order[j + 1];
    MergeNextIndex(Runs(s, order), j, j);
    WfNode(s, order, base, j);
    WfNode(s, order, base, j + 1);
    RunOfStrip(s'[e], s[e].(npages := s[e].npages + s[nx].npages));
    assert Limit(o', j, |s'|) == Limit(order, j + 1, |s|);
  }

  lemma MergeNextAtOther(s: seq<PageFrame>, s': seq<PageFrame>, order: seq<nat>, base: nat, j: nat, i: nat)
    requires Wf(s, order, base) && j + 1 < |order| && |s'| == |s|
    requires forall x :: 0 <= x < |s| && x != order[j] && x != order[j + 1] ==> Strip(s'[x]) == Strip(s[x])
    requires Runs(s, order)[j + 1].free
    requires i < |order| - 1 && i != j
    ensures var o' := Remove(order, j + 1);
            && InBounds(s', o') && PlacedAt(s', o', base, i)
            && RunOf(s'[o'[i]]) == MergeNext(Runs(s, order), j)[i]
  {
    var o' := Remove(order, j + 1);
    MergeNextIndex(Runs(s, order), j, i);
    var oi := if i < j then i else i + 1;
    assert o'[i] == order[oi];
    WfNode(s, order, base, oi);
    assert order[oi] != order[j] && order[oi] != order[j + 1];
    RunOfStrip(s'[order[oi]], s[order[oi]]);
    assert Limit(o', i, |s'|) == Limit(order, oi, |s|);
  }

  /** Absorbing a free next node keeps the arena well formed and merges the runs as MergeNext does. */
  lemma MergeNextStep(s: seq<PageFrame>, order: seq<nat>, base: nat, j: nat)
    requires Wf(s, order, base) && j + 1 < |order| && Runs(s, order)[j + 1].free
    ensures order[j + 1] != order[j]
    ensures s[order[j + 1]].next < |s| && s[order[j + 1]].prev < |s|
    ensures s[order[j + 1]].next != order[j + 1] && s[order[j + 1]].prev != order[j + 1]
    ensures var s' := AbsorbNext(s, order[j], order[j + 1]);
            && Wf(s', Remove(order, j + 1), base)
            && Runs(s', Remove(order, j + 1)) == MergeNext(Runs(s, order), j)
  {
    var e, nx := order[j], order[j + 1];
    UnlinkLinked(s, order, j + 1);
    AbsorbNextLinks(s, order, j);
    var s' := AbsorbNext(s, e, nx);
    AbsorbNextPayload(s, e, nx);
    var o' := Remove(order, j + 1);
    RemoveIncreasing(order, j + 1);
    var m := MergeNext(Runs(s, order), j);
    MergeNextIndex(Runs(s, order), j, 0);
    forall i | 0 <= i < |o'|
      ensures PlacedAt(s', o', base, i)
      ensures RunOf(s'[o'[i]]) == m[i]
    {
      MergeNextAt(s, s', order, base, j, i);
    }
    assert Runs(s', o') == m;
  }

  lemma AbsorbIntoPrevPayload(s: seq<PageFrame>, e: nat, pv: nat)
    requires e < |s| && pv < |s| && pv != e
    requires s[e].next < |s| && s[e].prev < |s| && s[e].next != e && s[e].prev != e
    ensures var s' := AbsorbIntoPrev(s, e, pv);
            && |s'| == |s|
            && Strip(s'[pv]) == Strip(s[pv].(npages := s[pv].npages + s[e].npages))
            && forall x :: 0 <= x < |s| && x != e && x != pv ==> Strip(s'[x]) == Strip(s[x])
  {
    var s1 := s[pv := s[pv].(npages := s[pv].npages + s[e].npages)];
    var s2 := s1[e := s1[e].(npages := 0)];
    UnlinkFacts(s2, e);
  }

  lemma AbsorbIntoPrevLinks(s: seq<PageFrame>, order: seq<nat>, j: nat)
    requires InBounds(s, order) && Increasing(order) && Linked(s, order)
    requires 0 < j < |order|
    ensures s[order[j]].next < |s| && s[order[j]].prev < |s|
    ensures var s' := AbsorbIntoPrev(s, order[j], order[j - 1]);
            InBounds(s', Remove(order, j)) && Linked(s', Remove(order, j))
  {
    var e, pv := order[j], order[j - 1];
    var s1 := s[pv := s[pv].(npages := s[pv].npages + s[e].npages)];
    var s2 := s1[e := s1[e].(npages := 0)];
    assert InBounds(s2, order) && Linked(s2, order) by {
      assert SameLinks(s, s2);
      SameLinksLinked(s, s2, order);
    }
    UnlinkLinked(s2, order, j);
    assert AbsorbIntoPrev(s, e, pv) == Unlink(s2, e);
  }

  lemma MergePrevAt(s: seq<PageFrame>, s': seq<PageFrame>, order: seq<nat>, base: nat, j: nat, i: nat)
    requires Wf(s, order, base) && 0 < j < |order| && |s'| == |s|
    requires Strip(s'[order[j - 1]]) == Strip(s[order[j - 1]].(npages := s[order[j - 1]].npages + s[order[j]].npages))
    requires forall x :: 0 <= x < |s| && x != order[j] && x != order[j - 1] ==> Strip(s'[x]) == Strip(s[x])
    requires Runs(s, order)[j - 1].free
    requires i < |order| - 1
    ensures var o' := Remove(order, j);
            && InBounds(s', o') && PlacedAt(s', o', base, i)
            && RunOf(s'[o'[i]]) == MergePrev(Runs(s, order), j)[i]
  {
    if i == j - 1 {
      MergePrevAtEntry(s, s', order, base, j);
    } else {
      MergePrevAtOther(s, s', order, base, j, i);
    }
  }

  lemma MergePrevAtEntry(s: seq<PageFrame>, s': seq<PageFrame>, order: seq<nat>, base: nat, j: nat)
    requires Wf(s, order, base) && 0 < j < |order| && |s'| == |s|
    requires Strip(s'[order[j - 1]]) == Strip(s[order[j - 1]].(npages := s[order[j - 1]].npages + s[order[j]].npages))
    requires Runs(s, order)[j - 1].free
    ensures var o' := Remove(order, j);
            && InBounds(s', o') && PlacedAt(s', o', base, j - 1)
            && RunOf(s'[o'[j - 1]]) == MergePrev(Runs(s, order), j)[j - 1]
  {
    var o' := Remove(order, j);
    var e, pv := order[j], order[j - 1];
    MergePrevIndex(Runs(s, order), j, j - 1);
    WfNode(s, order, base, j);
    WfNode(s, order, base, j - 1);
    RunOfStrip(s'[pv], s[pv].(npages := s[pv].npages + s[e].npages));
    assert Limit(o', j - 1, |s'|) == Limit(order, j, |s|);
  }

  lemma MergePrevAtOther(s: seq<PageFrame>, s': seq<PageFrame>, order: seq<nat>, base: nat, j: nat, i: nat)
    requires Wf(s, order, base) && 0 < j < |order| && |s'| == |s|
    requires forall x :: 0 <= x < |s| && x != order[j] && x != order[j - 1] ==> Strip(s'[x]) == Strip(s[x])
    requires Runs(s, order)[j - 1].free
    requires i < |order| - 1 && i != j - 1
    ensures var o' := Remove(order, j);
            && InBounds(s', o') && PlacedAt(s', o', base, i)
            && RunOf(s'[o'[i]]) == MergePrev(Runs(s, order), j)[i]
  {
    var o' := Remove(order, j);
    MergePrevIndex(Runs(s, order), j, i);
    var oi := if i < j - 1 then i else i + 1;
    assert o'[i] == order[oi];
    WfNode(s, order, base, oi);
    assert order[oi] != order[j] && order[oi] != order[j - 1];
    RunOfStrip(s'[order[oi]], s[order[oi]]);
    assert Limit(o', i, |s'|) == Limit(order, oi, |s|);
  }

  /** Absorbing node j into a free previous node keeps the arena well formed, as MergePrev says. */
  lemma MergePrevStep(s: seq<PageFrame>, order: seq<nat>, base: nat, j: nat)
    requires Wf(s, order, base) && 0 < j < |order| && Runs(s, order)[j - 1].free
    ensures order[j - 1] != order[j] && s[order[j]].prev == order[j - 1]
    ensures s[order[j]].next < |s| && s[order[j]].prev < |s|
    ensures s[order[j]].next != order[j] && s[order[j]].prev != order[j]
    ensures var s' := AbsorbIntoPrev(s, order[j], order[j - 1]);
            && Wf(s', Remove(order, j), base)
            && Runs(s', Remove(order, j)) == MergePrev(Runs(s, order), j)
  {
    var e, pv := order[j], order[j - 1];
    WfNode(s, order, base, j);
    UnlinkLinked(s, order, j);
    AbsorbIntoPrevLinks(s, order, j);
    var s' := AbsorbIntoPrev(s, e, pv);
    AbsorbIntoPrevPayload(s, e, pv);
    var o' := Remove(order, j);
    RemoveIncreasing(order, j);
    var m := MergePrev(Runs(s, order), j);
    MergePrevIndex(Runs(s, order), j, 0);
    forall i | 0 <= i < |o'|
      ensures PlacedAt(s', o', base, i)
      ensures RunOf(s'[o'[i]]) == m[i]
    {
      MergePrevAt(s, s', order, base, j, i);
    }
    assert Runs(s', o') == m;
  }
}
