/**
 * The intrusive circular doubly-linked list of first_fit.c, kept inside the page-descriptor array.
 * A node is a descriptor index; `next` and `prev` are indices. The ghost `order` lists the nodes in
 * list order from the head. This module holds the list helpers (list_init_head, list_add_middle,
 * list_add_after, list_add_before, list_del, list_next, list_prev), the well-formedness of the
 * arena, and the lemmas that the allocator's steps keep it.
 */
module FirstFitList {
  import opened PmmTypes
  import opened FirstFitRuns

  function Succ(k: nat, n: nat): nat
    requires k < n
  {
    if k + 1 == n then 0 else k + 1
  }

  function Pred(k: nat, n: nat): nat
    requires k < n
  {
    if k == 0 then n - 1 else k - 1
  }

  ghost predicate InBounds(s: seq<PageFrame>, order: seq<nat>) {
    forall k :: 0 <= k < |order| ==> order[k] < |s|
  }

  /** List order follows descriptor order (so no node is listed twice). */
  ghost predicate Increasing(order: seq<nat>) {
    forall a, b :: 0 <= a < b < |order| ==> order[a] < order[b]
  }

  /** The `next` and `prev` fields of the node at position k point at its list neighbours. */
  ghost predicate LinkedAt(s: seq<PageFrame>, order: seq<nat>, k: nat)
    requires InBounds(s, order) && k < |order|
  {
    s[order[k]].next == order[Succ(k, |order|)] && s[order[k]].prev == order[Pred(k, |order|)]
  }

  /** The links of the listed nodes close the circle in list order. */
  ghost predicate Linked(s: seq<PageFrame>, order: seq<nat>)
    requires InBounds(s, order)
  {
    forall k :: 0 <= k < |order| ==> LinkedAt(s, order, k)
  }

  /** The descriptor index where the next node starts, or the end of the array. */
  function Limit(order: seq<nat>, k: nat, size: nat): nat
    requires k < |order|
  {
    if k + 1 < |order| then order[k + 1] else size
  }

  /**
   * The node at position k spans at least one descriptor, its run ends before the next node,
   * and it describes the page at `base + order[k] * PMM_PAGE_SIZE`.
   */
  ghost predicate PlacedAt(s: seq<PageFrame>, order: seq<nat>, base: nat, k: nat)
    requires InBounds(s, order) && k < |order|
  {
    && 1 <= s[order[k]].npages
    && order[k] + s[order[k]].npages <= Limit(order, k, |s|)
    && s[order[k]].phyAddr == base + order[k] * PMM_PAGE_SIZE
  }

  ghost predicate Placed(s: seq<PageFrame>, order: seq<nat>, base: nat)
    requires InBounds(s, order)
  {
    forall k :: 0 <= k < |order| ==> PlacedAt(s, order, base, k)
  }

  ghost predicate Wf(s: seq<PageFrame>, order: seq<nat>, base: nat) {
    && |order| >= 1
    && InBounds(s, order)
    && Increasing(order)
    && Placed(s, order, base)
    && Linked(s, order)
  }

  /** The list as runs, in list order. */
  ghost function Runs(s: seq<PageFrame>, order: seq<nat>): (r: seq<Run>)
    requires InBounds(s, order)
    ensures |r| == |order|
    ensures forall k {:trigger r[k]} :: 0 <= k < |order| ==> r[k] == RunOf(s[order[k]])
  {
    seq(|order|, k requires 0 <= k < |order| => RunOf(s[order[k]]))
  }

  // ---------------------------------------------------------------------------------------------
  // The link rewrites of list_add_middle and list_del, as functions of the descriptor array

  /** list_add_middle(prev, next, new): the four stores in the source's order. */
  function Link(s: seq<PageFrame>, pv: nat, nx: nat, nw: nat): seq<PageFrame>
    requires pv < |s| && nx < |s| && nw < |s|
  {
    var s1 := s[nx := s[nx].(prev := nw)];
    var s2 := s1[nw := s1[nw].(next := nx)];
    var s3 := s2[nw := s2[nw].(prev := pv)];
    s3[pv := s3[pv].(next := nw)]
  }

  /** list_del(x): the two stores in the source's order, each reading `x` afresh. */
  function Unlink(s: seq<PageFrame>, x: nat): seq<PageFrame>
    requires x < |s| && s[x].next < |s| && s[x].prev < |s|
  {
    var s1 := s[s[x].next := s[s[x].next].(prev := s[x].prev)];
    s1[s1[x].prev := s1[s1[x].prev].(next := s1[x].next)]
  }

  /** Only the link fields differ between two arrays. */
  ghost predicate SamePayload(s: seq<PageFrame>, t: seq<PageFrame>) {
    |s| == |t| && forall i :: 0 <= i < |s| ==> t[i] == s[i].(next := t[i].next, prev := t[i].prev)
  }

  /** Only the payload (everything but the links) differs between two arrays. */
  ghost predicate SameLinks(s: seq<PageFrame>, t: seq<PageFrame>) {
    |s| == |t| && forall i :: 0 <= i < |s| ==> t[i].next == s[i].next && t[i].prev == s[i].prev
  }

  lemma LinkFacts(s: seq<PageFrame>, pv: nat, nx: nat, nw: nat)
    requires pv < |s| && nx < |s| && nw < |s| && nw != pv && nw != nx
    ensures var t := Link(s, pv, nx, nw);
            && SamePayload(s, t)
            && t[pv].next == nw && t[nw].prev == pv && t[nw].next == nx && t[nx].prev == nw
            && (pv != nx ==> t[pv].prev == s[pv].prev && t[nx].next == s[nx].next)
            && forall i :: 0 <= i < |s| && i != pv && i != nx && i != nw ==> t[i] == s[i]
  {
  }

  lemma UnlinkFacts(s: seq<PageFrame>, x: nat)
    requires x < |s| && s[x].next < |s| && s[x].prev < |s| && s[x].next != x && s[x].prev != x
    ensures var t := Unlink(s, x);
            && SamePayload(s, t)
            && t[s[x].prev].next == s[x].next && t[s[x].next].prev == s[x].prev
            && (s[x].prev != s[x].next ==> t[s[x].prev].prev == s[s[x].prev].prev && t[s[x].next].next == s[s[x].next].next)
            && forall i :: 0 <= i < |s| && i != s[x].prev && i != s[x].next ==> t[i] == s[i]
  {
  }

  lemma SameLinksLinked(s: seq<PageFrame>, t: seq<PageFrame>, order: seq<nat>)
    requires SameLinks(s, t) && InBounds(s, order) && Linked(s, order)
    ensures InBounds(t, order) && Linked(t, order)
  {
    forall k | 0 <= k < |order| ensures LinkedAt(t, order, k) {
      assert LinkedAt(s, order, k);
    }
  }

  lemma SamePayloadRuns(s: seq<PageFrame>, t: seq<PageFrame>, order: seq<nat>, base: nat)
    requires SamePayload(s, t) && InBounds(s, order)
    ensures InBounds(t, order) && Runs(t, order) == Runs(s, order)
    ensures Placed(s, order, base) ==> Placed(t, order, base)
  {
    assert forall k :: 0 <= k < |order| ==> RunOf(t[order[k]]) == RunOf(s[order[k]]);
    if Placed(s, order, base) {
      forall k | 0 <= k < |order| ensures PlacedAt(t, order, base, k) {
        assert PlacedAt(s, order, base, k);
      }
    }
  }

  /** In a list without repeats, only position 0 holds the head. */
  lemma HeadOnlyAtZero(order: seq<nat>, i: nat)
    requires Increasing(order) && i < |order| && order[i] == order[0]
    ensures i == 0
  {
  }

  // ---------------------------------------------------------------------------------------------
  // Inserting a node after position k, and removing the node at position j

  function Insert(order: seq<nat>, k: nat, t: nat): (r: seq<nat>)
    requires k < |order|
    ensures |r| == |order| + 1 && r[k + 1] == t
    ensures forall i :: 0 <= i <= k ==> r[i] == order[i]
    ensures forall i :: k + 1 < i < |r| ==> r[i] == order[i - 1]
  {
    order[..k + 1] + [t] + order[k + 1..]
  }

  function Remove(order: seq<nat>, j: nat): (r: seq<nat>)
    requires j < |order|
    ensures |r| == |order| - 1
    ensures forall i :: 0 <= i < j ==> r[i] == order[i]
    ensures forall i :: j <= i < |r| ==> r[i] == order[i + 1]
  {
    order[..j] + order[j + 1..]
  }

  /** list_add_after on the node at position k keeps the circle closed, with `t` at position k + 1. */
  lemma LinkAfterLinked(s: seq<PageFrame>, order: seq<nat>, k: nat, t: nat)
    requires InBounds(s, order) && Increasing(order) && Linked(s, order)
    requires k < |order| && t < |s| && t !in order
    ensures s[order[k]].next < |s|
    ensures var s' := Link(s, order[k], s[order[k]].next, t);
            InBounds(s', Insert(order, k, t)) && Linked(s', Insert(order, k, t))
  {
    var s' := LinkInserted(s, order, k, t);
    var o' := Insert(order, k, t);
    forall i | 0 <= i < |o'|
      ensures LinkedAt(s', o', i)
    {
      InsertLinkedAt(s, s', order, k, t, i);
    }
  }

  lemma LinkInserted(s: seq<PageFrame>, order: seq<nat>, k: nat, t: nat) returns (s': seq<PageFrame>)
    requires InBounds(s, order) && Linked(s, order)
    requires k < |order| && t < |s| && t !in order
    ensures s[order[k]].next == order[Succ(k, |order|)]
    ensures s' == Link(s, order[k], order[Succ(k, |order|)], t)
    ensures Inserted(s, s', order, k, t) && InBounds(s', Insert(order, k, t))
  {
    assert LinkedAt(s, order, k);
    s' := Link(s, order[k], order[Succ(k, |order|)], t);
    LinkFacts(s, order[k], order[Succ(k, |order|)], t);
  }

  /** The four stores of an insertion of `t` after position `k`, as facts about `s'`. */
  ghost predicate Inserted(s: seq<PageFrame>, s': seq<PageFrame>, order: seq<nat>, k: nat, t: nat)
    requires k < |order| && InBounds(s, order) && t < |s|
  {
    var e, nx := order[k], order[Succ(k, |order|)];
    && |s'| == |s|
    && s'[e].next == t && s'[t].prev == e && s'[t].next == nx && s'[nx].prev == t
    && (e != nx ==> s'[e].prev == s[e].prev && s'[nx].next == s[nx].next)
    && forall x :: 0 <= x < |s| && x != e && x != nx && x != t ==> s'[x] == s[x]
  }

  /** One position of the circle after an insertion, from the four stores' effect alone. */
  lemma InsertLinkedAt(s: seq<PageFrame>, s': seq<PageFrame>, order: seq<nat>, k: nat, t: nat, i: nat)
    requires InBounds(s, order) && Increasing(order) && Linked(s, order)
    requires k < |order| && t < |s| && t !in order && i <= |order|
    requires Inserted(s, s', order, k, t)
    ensures InBounds(s', Insert(order, k, t)) && LinkedAt(s', Insert(order, k, t), i)
  {
    if i == k + 1 {
      InsertedNew(s, s', order, k, t);
    } else if i == k {
      InsertedEntry(s, s', order, k, t);
    } else {
      InsertedOther(s, s', order, k, t, i);
    }
  }

  lemma InsertedNew(s: seq<PageFrame>, s': seq<PageFrame>, order: seq<nat>, k: nat, t: nat)
    requires InBounds(s, order) && k < |order| && t < |s|
    requires Inserted(s, s', order, k, t)
    ensures InBounds(s', Insert(order, k, t)) && LinkedAt(s', Insert(order, k, t), k + 1)
  {
    var n := |order|;
    var o' := Insert(order, k, t);
    assert o'[Succ(k + 1, n + 1)] == order[Succ(k, n)];
  }

  lemma InsertedEntry(s: seq<PageFrame>, s': seq<PageFrame>, order: seq<nat>, k: nat, t: nat)
    requires InBounds(s, order) && Increasing(order) && Linked(s, order)
    requires k < |order| && t < |s| && t !in order
    requires Inserted(s, s', order, k, t)
    ensures InBounds(s', Insert(order, k, t)) && LinkedAt(s', Insert(order, k, t), k)
  {
    var n := |order|;
    var o' := Insert(order, k, t);
    if n == 1 {
      assert o'[Pred(k, n + 1)] == t;
    } else {
      assert order[k] != order[Succ(k, n)];
      assert LinkedAt(s, order, k);
      assert o'[Pred(k, n + 1)] == order[Pred(k, n)];
    }
  }

  lemma InsertedOther(s: seq<PageFrame>, s': seq<PageFrame>, order: seq<nat>, k: nat, t: nat, i: nat)
    requires InBounds(s, order) && Increasing(order) && Linked(s, order)
    requires k < |order| && t < |s| && t !in order && i <= |order| && i != k && i != k + 1
    requires Inserted(s, s', order, k, t)
    ensures InBounds(s', Insert(order, k, t)) && LinkedAt(s', Insert(order, k, t), i)
  {
    var oi := if i < k + 1 then i else i - 1;
    if oi == Succ(k, |order|) {
      InsertedBehindNew(s, s', order, k, t, i);
    } else {
      InsertedAway(s, s', order, k, t, i);
    }
  }

  /** The node that followed position k now follows the inserted node. */
  lemma InsertedBehindNew(s: seq<PageFrame>, s': seq<PageFrame>, order: seq<nat>, k: nat, t: nat, i: nat)
    requires InBounds(s, order) && Increasing(order) && Linked(s, order)
    requires k < |order| && t < |s| && t !in order && i <= |order| && i != k && i != k + 1
    requires (if i < k + 1 then i else i - 1) == Succ(k, |order|)
    requires Inserted(s, s', order, k, t)
    ensures InBounds(s', Insert(order, k, t)) && LinkedAt(s', Insert(order, k, t), i)
  {
    var n := |order|;
    var o' := Insert(order, k, t);
    var oi := if i < k + 1 then i else i - 1;
    assert o'[i] == order[oi];
    assert order[oi] != order[k];
    assert LinkedAt(s, order, oi);
    assert o'[Succ(i, n + 1)] == order[Succ(oi, n)];
    assert o'[Pred(i, n + 1)] == t;
  }

  /** A node away from the insertion keeps both of its neighbours. */
  lemma InsertedAway(s: seq<PageFrame>, s': seq<PageFrame>, order: seq<nat>, k: nat, t: nat, i: nat)
    requires InBounds(s, order) && Increasing(order) && Linked(s, order)
    requires k < |order| && t < |s| && t !in order && i <= |order| && i != k && i != k + 1
    requires (if i < k + 1 then i else i - 1) != Succ(k, |order|)
    requires Inserted(s, s', order, k, t)
    ensures InBounds(s', Insert(order, k, t)) && LinkedAt(s', Insert(order, k, t), i)
  {
    var n := |order|;
    var o' := Insert(order, k, t);
    var oi := if i < k + 1 then i else i - 1;
    assert o'[i] == order[oi];
    assert order[oi] != order[k];
    assert LinkedAt(s, order, oi);
    assert o'[Succ(i, n + 1)] == order[Succ(oi, n)];
    assert order[oi] != order[Succ(k, n)] && order[oi] != t;
    assert s'[order[oi]] == s[order[oi]];
    assert o'[Pred(i, n + 1)] == order[Pred(oi, n)];
  }

  /** list_del on the node at position j > 0 keeps the circle closed over the other nodes. */
  lemma UnlinkLinked(s: seq<PageFrame>, order: seq<nat>, j: nat)
    requires InBounds(s, order) && Increasing(order) && Linked(s, order)
    requires 0 < j < |order|
    ensures s[order[j]].next < |s| && s[order[j]].prev < |s|
    ensures s[order[j]].next != order[j] && s[order[j]].prev != order[j]
    ensures var s' := Unlink(s, order[j]);
            InBounds(s', Remove(order, j)) && Linked(s', Remove(order, j))
  {
    var s' := UnlinkRemoved(s, order, j);
    var o' := Remove(order, j);
    forall i | 0 <= i < |o'|
      ensures LinkedAt(s', o', i)
    {
      UnlinkLinkedAt(s, s', order, j, i);
    }
  }

  lemma UnlinkRemoved(s: seq<PageFrame>, order: seq<nat>, j: nat) returns (s': seq<PageFrame>)
    requires InBounds(s, order) && Increasing(order) && Linked(s, order)
    requires 0 < j < |order|
    ensures s[order[j]].prev == order[j - 1] && s[order[j]].next == order[Succ(j, |order|)]
    ensures s[order[j]].next != order[j] && s[order[j]].prev != order[j]
    ensures s' == Unlink(s, order[j])
    ensures Removed(s, s', order, j) && InBounds(s', Remove(order, j))
  {
    var n := |order|;
    var x := order[j];
    assert LinkedAt(s, order, j);
    assert order[j - 1] != x;
    assert order[Succ(j, n)] != x by { assert Succ(j, n) != j; }
    s' := Unlink(s, x);
    UnlinkFacts(s, x);
  }

  /** The two stores of an unlinking of position `j`, as facts about `s'`. */
  ghost predicate Removed(s: seq<PageFrame>, s': seq<PageFrame>, order: seq<nat>, j: nat)
    requires 0 < j < |order| && InBounds(s, order)
  {
    var pv, nx := order[j - 1], order[Succ(j, |order|)];
    && |s'| == |s|
    && s'[pv].next == nx && s'[nx].prev == pv
    && (pv != nx ==> s'[pv].prev == s[pv].prev && s'[nx].next == s[nx].next)
    && forall x :: 0 <= x < |s| && x != pv && x != nx ==> s'[x] == s[x]
  }

  lemma UnlinkLinkedAt(s: seq<PageFrame>, s': seq<PageFrame>, order: seq<nat>, j: nat, i: nat)
    requires InBounds(s, order) && Increasing(order) && Linked(s, order)
    requires 0 < j < |order| && i < |order| - 1
    requires Removed(s, s', order, j)
    ensures InBounds(s', Remove(order, j)) && LinkedAt(s', Remove(order, j), i)
  {
    var n := |order|;
    var oi := if i < j then i else i + 1;
    if oi == j - 1 {
      RemovedPrev(s, s', order, j);
    } else if oi == Succ(j, n) {
      RemovedNext(s, s', order, j);
    } else {
      RemovedOther(s, s', order, j, i);
    }
  }

  lemma RemovedPrev(s: seq<PageFrame>, s': seq<PageFrame>, order: seq<nat>, j: nat)
    requires InBounds(s, order) && Increasing(order) && Linked(s, order)
    requires 0 < j < |order|
    requires Removed(s, s', order, j)
    ensures InBounds(s', Remove(order, j)) && LinkedAt(s', Remove(order, j), j - 1)
  {
    var n := |order|;
    var o' := Remove(order, j);
    var i := j - 1;
    assert o'[i] == order[j - 1];
    if j + 1 == n {
      assert o'[Succ(i, n - 1)] == order[0];
    } else {
      assert o'[Succ(i, n - 1)] == order[j + 1];
    }
    if order[j - 1] != order[Succ(j, n)] {
      assert LinkedAt(s, order, j - 1);
      if j - 1 == 0 {
        assert o'[Pred(i, n - 1)] == order[n - 1];
      } else {
        assert o'[Pred(i, n - 1)] == order[j - 2];
      }
    } else {
      assert n == 2;
    }
  }

  lemma RemovedNext(s: seq<PageFrame>, s': seq<PageFrame>, order: seq<nat>, j: nat)
    requires InBounds(s, order) && Increasing(order) && Linked(s, order)
    requires 0 < j < |order| && Succ(j, |order|) != j - 1
    requires Removed(s, s', order, j)
    ensures InBounds(s', Remove(order, j)) && LinkedAt(s', Remove(order, j), if j + 1 == |order| then 0 else j)
  {
    var n := |order|;
    var o' := Remove(order, j);
    var oi := Succ(j, n);
    var i := if j + 1 == n then 0 else j;
    assert o'[i] == order[oi];
    assert order[oi] != order[j - 1];
    assert LinkedAt(s, order, oi);
    assert o'[Pred(i, n - 1)] == order[j - 1];
    assert o'[Succ(i, n - 1)] == order[Succ(oi, n)];
  }

  lemma RemovedOther(s: seq<PageFrame>, s': seq<PageFrame>, order: seq<nat>, j: nat, i: nat)
    requires InBounds(s, order) && Increasing(order) && Linked(s, order)
    requires 0 < j < |order| && i < |order| - 1
    requires var oi := if i < j then i else i + 1; oi != j - 1 && oi != Succ(j, |order|)
    requires Removed(s, s', order, j)
    ensures InBounds(s', Remove(order, j)) && LinkedAt(s', Remove(order, j), i)
  {
    var n := |order|;
    var o' := Remove(order, j);
    var oi := if i < j then i else i + 1;
    assert o'[i] == order[oi];
    assert order[oi] != order[j - 1] && order[oi] != order[Succ(j, n)];
    assert s'[order[oi]] == s[order[oi]];
    assert LinkedAt(s, order, oi);
    assert o'[Succ(i, n - 1)] == order[Succ(oi, n)];
    assert o'[Pred(i, n - 1)] == order[Pred(oi, n)];
  }

  // ---------------------------------------------------------------------------------------------
  // The list helpers of first_fit.c, on the descriptor array

  /** list_init_head: a one-node circle. */
  method ListInitHead(a: array<PageFrame>, x: nat)
    requires x < a.Length
    modifies a
    ensures a[x].next == x && a[x].prev == x
    ensures a[..] == old(a[..])[x := old(a[x]).(next := x, prev := x)]
  {
    a[x] := a[x].(next := x);
    a[x] := a[x].(prev := x);
  }

  /** list_add_middle: put `nw` between `pv` and `nx`. */
  method ListAddMiddle(a: array<PageFrame>, pv: nat, nx: nat, nw: nat)
    requires pv < a.Length && nx < a.Length && nw < a.Length
    modifies a
    ensures a[..] == Link(old(a[..]), pv, nx, nw)
  {
    a[nx] := a[nx].(prev := nw);
    a[nw] := a[nw].(next := nx);
    a[nw] := a[nw].(prev := pv);
    a[pv] := a[pv].(next := nw);
  }

  /** list_add_after: put `nw` right after `pv`. */
  method ListAddAfter(a: array<PageFrame>, pv: nat, nw: nat)
    requires pv < a.Length && nw < a.Length && a[pv].next < a.Length
    requires nw != pv && nw != a[pv].next
    modifies a
    ensures a[..] == Link(old(a[..]), pv, old(a[pv].next), nw)
    ensures a[pv].next == nw && a[nw].prev == pv
    ensures a[nw].next == old(a[pv].next) && a[old(a[pv].next)].prev == nw
  {
    ListAddMiddle(a, pv, a[pv].next, nw);
    LinkFacts(old(a[..]), pv, old(a[pv].next), nw);
  }

  /** list_add_before: put `nw` right before `nx`. */
  method ListAddBefore(a: array<PageFrame>, nx: nat, nw: nat)
    requires nx < a.Length && nw < a.Length && a[nx].prev < a.Length
    requires nw != nx && nw != a[nx].prev
    modifies a
    ensures a[..] == Link(old(a[..]), old(a[nx].prev), nx, nw)
    ensures a[nx].prev == nw && a[nw].next == nx
    ensures a[nw].prev == old(a[nx].prev) && a[old(a[nx].prev)].next == nw
  {
    ListAddMiddle(a, a[nx].prev, nx, nw);
    LinkFacts(old(a[..]), old(a[nx].prev), nx, nw);
  }

  /** list_del: bypass `x`; `x` keeps its own links. */
  method ListDel(a: array<PageFrame>, x: nat)
    requires x < a.Length && a[x].next < a.Length && a[x].prev < a.Length
    requires a[x].next != x && a[x].prev != x
    modifies a
    ensures a[..] == Unlink(old(a[..]), x)
    ensures a[old(a[x].prev)].next == old(a[x].next) && a[old(a[x].next)].prev == old(a[x].prev)
  {
    a[a[x].next] := a[a[x].next].(prev := a[x].prev);
    a[a[x].prev] := a[a[x].prev].(next := a[x].next);
    UnlinkFacts(old(a[..]), x);
  }

  /** list_next */
  function ListNext(a: array<PageFrame>, x: nat): nat
    requires x < a.Length
    reads a
  {
    a[x].next
  }

  /** list_prev */
  function ListPrev(a: array<PageFrame>, x: nat): nat
    requires x < a.Length
    reads a
  {
    a[x].prev
  }
}
