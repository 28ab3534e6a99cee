/**
 The size-ordered skip list of large free blocks (src/terark/mempool_lock_none.hpp). It
 lives inside the freed memory: the first word of a free block is its size, the words after
 it are its links, one per level.

 `order` lists the blocks from smallest to largest, `hts` and `szs` give their heights and
 sizes. Level `k` must link exactly the blocks of height above `k`, in that order.
 */
module SkipList {

  const Levels: nat := 8
  const NodeWords: nat := 9
  const Tail: int := -1
  /** The list head, where a reference to a block is expected. */
  const Head: int := -1

  // ----------------------------------------------------------------- levels

  /** The first index from `i` on whose height is above `k`. */
  ghost function NextAt(hts: seq<nat>, k: nat, i: nat): (r: nat)
    requires i <= |hts|
    ensures i <= r <= |hts|
    decreases |hts| - i
  {
    if i == |hts| || hts[i] > k then i else NextAt(hts, k, i + 1)
  }

  lemma {:induction false} NextIs(hts: seq<nat>, k: nat, i: nat)
    requires i <= |hts|
    ensures var r := NextAt(hts, k, i); (r < |hts| ==> hts[r] > k) && forall j :: i <= j < r ==> hts[j] <= k
    decreases |hts| - i
  {
    if i < |hts| && hts[i] <= k { NextIs(hts, k, i + 1); }
  }

  /** Two descriptions that determine the next index. */
  lemma {:induction false} NextOnly(hts: seq<nat>, k: nat, i: nat, r: nat)
    requires i <= r <= |hts| && (r < |hts| ==> hts[r] > k) && forall j :: i <= j < r ==> hts[j] <= k
    ensures NextAt(hts, k, i) == r
    decreases |hts| - i
  {
    if i < r { NextOnly(hts, k, i + 1, r); }
  }

  ghost function NodeAt(order: seq<nat>, i: nat): int
  {
    if i < |order| then order[i] else Tail
  }

  /** Where the link to index `i` is stored: in the block before it, or in the head. */
  ghost function RefAt(order: seq<nat>, i: nat): int
    requires i <= |order|
  {
    if i == 0 then Head else order[i - 1]
  }

  function Link(mem: seq<int>, hnext: seq<int>, x: int, k: nat): int
    requires k < |hnext| && (x != Head ==> 0 <= x && x + 1 + k < |mem|)
  {
    if x == Head then hnext[k] else mem[x + 1 + k]
  }

  /** Blocks are inside the memory and do not share words. */
  ghost predicate Apart(order: seq<nat>, size: nat)
  {
    && (forall i :: 0 <= i < |order| ==> order[i] + NodeWords <= size)
    && (forall i, j :: 0 <= i < j < |order| ==> Disjoint(order[i], order[j]))
  }

  ghost predicate Disjoint(p: nat, q: nat)
  {
    p + NodeWords <= q || q + NodeWords <= p
  }

  /** Level `k` links exactly the blocks higher than `k`. */
  ghost predicate LevelOk(mem: seq<int>, hnext: seq<int>, order: seq<nat>, hts: seq<nat>, k: nat)
  {
    && k < Levels == |hnext| && |order| == |hts| && (forall i :: 0 <= i < |order| ==> order[i] + NodeWords <= |mem|)
    && hnext[k] == NodeAt(order, NextAt(hts, k, 0))
    && forall i :: 0 <= i < |order| && hts[i] > k ==> NodeLink(mem, order, hts, k, i)
  }

  ghost predicate NodeLink(mem: seq<int>, order: seq<nat>, hts: seq<nat>, k: nat, i: nat)
    requires k < Levels && i < |order| == |hts| && order[i] + NodeWords <= |mem|
  {
    mem[order[i] + 1 + k] == NodeAt(order, NextAt(hts, k, i + 1))
  }

  ghost predicate Sorted(szs: seq<nat>)
  {
    forall i, j :: 0 <= i < j < |szs| ==> szs[i] <= szs[j]
  }

  ghost predicate Heights(hts: seq<nat>, hsize: nat)
  {
    forall i :: 0 <= i < |hts| ==> 1 <= hts[i] <= hsize
  }

  ghost predicate SizeWords(mem: seq<int>, order: seq<nat>, szs: seq<nat>)
  {
    |order| == |szs| && forall i :: 0 <= i < |order| ==> order[i] < |mem| && mem[order[i]] == szs[i]
  }

  /** The whole structure: every level correct, sizes ascending, `hsize` the exact height. */
  ghost predicate Skip(mem: seq<int>, hnext: seq<int>, hsize: nat, order: seq<nat>, hts: seq<nat>, szs: seq<nat>)
  {
    && |hnext| == Levels >= hsize && |order| == |hts| == |szs| && Apart(order, |mem|)
    && Heights(hts, hsize) && Sorted(szs) && SizeWords(mem, order, szs)
    && (forall k :: 0 <= k < Levels ==> LevelOk(mem, hnext, order, hts, k))
    && (hsize > 0 ==> hnext[hsize - 1] != Tail)
  }

  /** Heads above the height are empty. */
  lemma HeadsAbove(mem: seq<int>, hnext: seq<int>, hsize: nat, order: seq<nat>, hts: seq<nat>, szs: seq<nat>, k: nat)
    requires Skip(mem, hnext, hsize, order, hts, szs) && hsize <= k < Levels
    ensures hnext[k] == Tail
  {
    assert LevelOk(mem, hnext, order, hts, k);
    NextOnly(hts, k, 0, |hts|);
  }

  /** The head of the top level shows whether there is any block. */
  lemma EmptyIff(mem: seq<int>, hnext: seq<int>, hsize: nat, order: seq<nat>, hts: seq<nat>, szs: seq<nat>)
    requires Skip(mem, hnext, hsize, order, hts, szs)
    ensures hsize == 0 <==> order == []
  {
    assert |hts| > 0 ==> 1 <= hts[0] <= hsize;
    if hsize > 0 {
      var k := hsize - 1;
      assert LevelOk(mem, hnext, order, hts, k);
    }
  }

  // ----------------------------------------------------------------- searching

  /** `i` is the place on level `k` whose link crosses from before `cut` to `cut` or beyond. */
  ghost predicate Cross(hts: seq<nat>, k: nat, cut: nat, i: nat)
  {
    i <= cut <= |hts| && (i == 0 || hts[i - 1] > k) && NextAt(hts, k, i) >= cut
  }

  /** The first `cut` sizes are below `req`, the others are not. */
  ghost predicate CutAt(szs: seq<nat>, req: nat, cut: nat)
  {
    cut <= |szs| && (forall i :: 0 <= i < cut ==> szs[i] < req) && (forall i :: cut <= i < |szs| ==> szs[i] >= req)
  }

  ghost function CutOf(szs: seq<nat>, req: nat): (cut: nat)
    requires Sorted(szs)
    ensures CutAt(szs, req, cut)
  {
    if |szs| == 0 then 0
    else if szs[|szs| - 1] < req then |szs|
    else CutOf(szs[..|szs| - 1], req)
  }

  lemma LinkAt(mem: seq<int>, hnext: seq<int>, order: seq<nat>, hts: seq<nat>, k: nat, i: nat)
    requires LevelOk(mem, hnext, order, hts, k) && i <= |order| && (i == 0 || hts[i - 1] > k)
    ensures RefAt(order, i) != Head ==> 0 <= RefAt(order, i) && RefAt(order, i) + NodeWords <= |mem|
    ensures Link(mem, hnext, RefAt(order, i), k) == NodeAt(order, NextAt(hts, k, i))
  {
    if i > 0 {
      var j := i - 1;
      assert NodeLink(mem, order, hts, k, j);
    }
  }

  /** The last block looked at, if any: passed already, or on level `k` ahead. */
  ghost predicate Seen(order: seq<nat>, hts: seq<nat>, k: nat, i: nat, n2: int, m: int)
  {
    |order| == |hts| && if m < 0 then n2 == Tail else m < |order| && n2 == order[m] && (m >= i ==> hts[m] > k)
  }

  lemma WalkStep(mem: seq<int>, hnext: seq<int>, order: seq<nat>, hts: seq<nat>, szs: seq<nat>, k: nat, i: nat, req: nat, cut: nat)
    requires LevelOk(mem, hnext, order, hts, k) && SizeWords(mem, order, szs) && CutAt(szs, req, cut) && i <= |order| && (i == 0 || hts[i - 1] > k)
    ensures k < |hnext| && |order| == |hts| && (RefAt(order, i) != Head ==> 0 <= RefAt(order, i) && RefAt(order, i) + 1 + k < |mem|)
    ensures var j, x := NextAt(hts, k, i), Link(mem, hnext, RefAt(order, i), k);
            if j < |order| then x == order[j] < |mem| && (mem[x] < req <==> j < cut) && hts[j] > k else j == |order| && x == Tail
    ensures cut <= |order| && (NextAt(hts, k, i) == |order| ==> forall m :: i <= m < |order| ==> hts[m] <= k)
  {
    LinkAt(mem, hnext, order, hts, k, i);
    NextIs(hts, k, i);
    hide LevelOk, NextAt, Link, RefAt;
  }

  /** Walk along level `k` while blocks are too small. */
  method WalkLevel(mem: seq<int>, hnext: seq<int>, k: nat, req: nat, start: int, seen: int,
                   ghost order: seq<nat>, ghost hts: seq<nat>, ghost szs: seq<nat>, ghost cut: nat, ghost i0: nat, ghost m0: int)
    returns (n1: int, n2: int, ghost i: nat, ghost m: int)
    requires LevelOk(mem, hnext, order, hts, k) && SizeWords(mem, order, szs) && CutAt(szs, req, cut)
    requires i0 <= cut <= |order| == |hts| && start == RefAt(order, i0) && (i0 == 0 || hts[i0 - 1] > k) && Seen(order, hts, k, i0, seen, m0)
    ensures Cross(hts, k, cut, i) && n1 == RefAt(order, i) && Seen(order, hts, k, i, n2, m)
    ensures NextAt(hts, k, i) < |order| ==> m == NextAt(hts, k, i)
    ensures NextAt(hts, k, i) == |order| ==> m < i
  {
    hide LevelOk, SizeWords, CutAt, NextAt;
    WalkStep(mem, hnext, order, hts, szs, k, i0, req, cut);
    n1, n2, i, m := start, seen, i0, m0;
    while true
      invariant i <= cut && n1 == RefAt(order, i) && (i == 0 || hts[i - 1] > k) && Seen(order, hts, k, i, n2, m)
      decreases cut - i
    {
      WalkStep(mem, hnext, order, hts, szs, k, i, req, cut);
      if Link(mem, hnext, n1, k) == Tail { break; }
      n2 := Link(mem, hnext, n1, k);
      m := NextAt(hts, k, i);
      if mem[n2] >= req { break; }
      n1 := n2;
      i := m + 1;
    }
  }

  /** From level `k` up, `update` names the places where the levels cross the cut. */
  ghost predicate Places(update: seq<int>, at: seq<nat>, order: seq<nat>, hts: seq<nat>, cut: nat, k: nat)
  {
    && |update| == |at| && |order| == |hts|
    && forall l :: k <= l < |at| ==> Cross(hts, l, cut, at[l]) && update[l] == RefAt(order, at[l])
  }

  /** On each level the place before the cut, and the last block looked at. */
  method Search(mem: seq<int>, hnext: seq<int>, hsize: nat, req: nat, ghost order: seq<nat>, ghost hts: seq<nat>, ghost szs: seq<nat>)
    returns (update: seq<int>, n2: int, ghost at: seq<nat>)
    requires Skip(mem, hnext, hsize, order, hts, szs)
    ensures Sorted(szs) && |update| == |at| == hsize && Places(update, at, order, hts, CutOf(szs, req), 0)
    ensures var cut := CutOf(szs, req);
            if cut < |order| then n2 == order[cut] else n2 == Tail || exists m :: 0 <= m < |order| && n2 == order[m] && szs[m] < req
  {
    hide Cross, CutOf, LevelOk, CutAt, NextAt, Apart, Heights, Sorted, SizeWords, Skip, Places;
    SkipSorted(mem, hnext, hsize, order, hts, szs);
    ghost var cut := CutOf(szs, req);
    ghost var i: nat, m: int := 0, -1;
    var n1, k := Head, hsize;
    update, n2 := seq(hsize, _ => Head), Tail;
    at := seq(hsize, _ => 0);
    SearchStart(mem, hnext, hsize, order, hts, szs, req, update, at);
    while k > 0
      invariant 0 <= k <= hsize && |update| == |at| == hsize && i <= cut && n1 == RefAt(order, i)
      invariant Seen(order, hts, k, i, n2, m) && (i == 0 || hts[i - 1] > k) && Places(update, at, order, hts, cut, k)
      invariant k < hsize ==> Cross(hts, k, cut, i) && (if NextAt(hts, k, i) < |order| then m == NextAt(hts, k, i) else m < i)
    {
      k := k - 1;
      SkipLevel(mem, hnext, hsize, order, hts, szs, k);
      n1, n2, i, m := WalkLevel(mem, hnext, k, req, n1, n2, order, hts, szs, cut, i, m);
      CrossLevel(hts, k, cut, i);
      PlacesStep(update, at, order, hts, cut, k, n1, i);
      update := update[k := n1];
      at := at[k := i];
    }
    SearchEnd(mem, hnext, hsize, order, hts, szs, req, i, n2, m);
  }

  lemma SkipSorted(mem: seq<int>, hnext: seq<int>, hsize: nat, order: seq<nat>, hts: seq<nat>, szs: seq<nat>)
    requires Skip(mem, hnext, hsize, order, hts, szs)
    ensures |order| == |hts| == |szs| && Sorted(szs)
  {
  }

  lemma SearchStart(mem: seq<int>, hnext: seq<int>, hsize: nat, order: seq<nat>, hts: seq<nat>, szs: seq<nat>, req: nat, update: seq<int>, at: seq<nat>)
    requires Skip(mem, hnext, hsize, order, hts, szs) && |update| == |at| == hsize
    ensures |order| == |hts| == |szs| && Sorted(szs) && CutAt(szs, req, CutOf(szs, req)) && CutOf(szs, req) <= |order|
    ensures Places(update, at, order, hts, CutOf(szs, req), hsize)
  {
  }

  lemma SkipLevel(mem: seq<int>, hnext: seq<int>, hsize: nat, order: seq<nat>, hts: seq<nat>, szs: seq<nat>, k: nat)
    requires Skip(mem, hnext, hsize, order, hts, szs) && k < hsize
    ensures LevelOk(mem, hnext, order, hts, k) && SizeWords(mem, order, szs)
  {
  }

  lemma PlacesStep(update: seq<int>, at: seq<nat>, order: seq<nat>, hts: seq<nat>, cut: nat, k: nat, n1: int, i: nat)
    requires Places(update, at, order, hts, cut, k + 1) && k < |at| && Cross(hts, k, cut, i) && n1 == RefAt(order, i)
    ensures Places(update[k := n1], at[k := i], order, hts, cut, k)
  {
  }

  lemma SearchEnd(mem: seq<int>, hnext: seq<int>, hsize: nat, order: seq<nat>, hts: seq<nat>, szs: seq<nat>, req: nat, i: nat, n2: int, m: int)
    requires Skip(mem, hnext, hsize, order, hts, szs) && i <= CutOf(szs, req) && Seen(order, hts, 0, i, n2, m)
    requires 0 < hsize ==> Cross(hts, 0, CutOf(szs, req), i) && (if NextAt(hts, 0, i) < |order| then m == NextAt(hts, 0, i) else m < i)
    ensures var cut := CutOf(szs, req);
            if cut < |order| then n2 == order[cut] else n2 == Tail || exists m :: 0 <= m < |order| && n2 == order[m] && szs[m] < req
  {
    EmptyIff(mem, hnext, hsize, order, hts, szs);
    if hsize > 0 {
      AtBottom(hts, hsize, CutOf(szs, req), i);
      assert 0 <= m < i ==> szs[m] < req;
    }
  }

  lemma CrossLevel(hts: seq<nat>, k: nat, cut: nat, i: nat)
    requires Cross(hts, k, cut, i)
    ensures i <= cut && (i == 0 || hts[i - 1] > k)
  {
  }

  lemma AtBottom(hts: seq<nat>, hsize: nat, cut: nat, i: nat)
    requires Heights(hts, hsize) && Cross(hts, 0, cut, i)
    ensures i == cut == NextAt(hts, 0, i)
  {
  }

  // ----------------------------------------------------------------- one level

  function InsertAt<T>(s: seq<T>, i: nat, x: T): (r: seq<T>)
    requires i <= |s|
    ensures |r| == |s| + 1
  {
    s[..i] + [x] + s[i..]
  }

  lemma InsertIndex<T>(s: seq<T>, i: nat, x: T, j: nat)
    requires i <= |s| && j <= |s|
    ensures InsertAt(s, i, x)[j] == if j < i then s[j] else if j == i then x else s[j - 1]
  {
  }

  lemma NextBefore(hts: seq<nat>, k: nat, cut: nat, h: nat, i: nat)
    requires i <= cut <= |hts|
    ensures var r := NextAt(hts, k, i);
            NextAt(InsertAt(hts, cut, h), k, i) == if r < cut then r else if h > k then cut else r + 1
  {
    var hts', r := InsertAt(hts, cut, h), NextAt(hts, k, i);
    NextIs(hts, k, i);
    var r' := if r < cut then r else if h > k then cut else r + 1;
    forall j | i <= j < r' ensures hts'[j] <= k { InsertIndex(hts, cut, h, j); }
    if r' < |hts'| { InsertIndex(hts, cut, h, r'); }
    NextOnly(hts', k, i, r');
  }

  lemma NextAfter(hts: seq<nat>, k: nat, cut: nat, h: nat, i: nat)
    requires cut <= i <= |hts|
    ensures NextAt(InsertAt(hts, cut, h), k, i + 1) == NextAt(hts, k, i) + 1
  {
    var hts', r := InsertAt(hts, cut, h), NextAt(hts, k, i);
    NextIs(hts, k, i);
    forall j | i + 1 <= j < r + 1 ensures hts'[j] <= k { InsertIndex(hts, cut, h, j); }
    if r < |hts| { InsertIndex(hts, cut, h, r + 1); }
    NextOnly(hts', k, i + 1, r + 1);
  }

  lemma NodeShift(order: seq<nat>, cut: nat, pos: nat, r: nat)
    requires cut <= |order|
    ensures r < cut ==> NodeAt(InsertAt(order, cut, pos), r) == NodeAt(order, r)
    ensures r >= cut ==> NodeAt(InsertAt(order, cut, pos), r + 1) == NodeAt(order, r)
    ensures NodeAt(InsertAt(order, cut, pos), cut) == pos
  {
  }

  /** Only one place on a level has a link across the cut. */
  lemma CrossUnique(hts: seq<nat>, k: nat, cut: nat, i: nat, j: nat)
    requires Cross(hts, k, cut, i) && j <= cut && j != i && (j == 0 || hts[j - 1] > k)
    ensures NextAt(hts, k, j) < cut
  {
    NextIs(hts, k, i);
    NextIs(hts, k, j);
  }

  lemma CrossNext(hts: seq<nat>, k: nat, cut: nat, i: nat)
    requires Cross(hts, k, cut, i)
    ensures NextAt(hts, k, cut) == NextAt(hts, k, i)
  {
    NextIs(hts, k, i);
    NextOnly(hts, k, cut, NextAt(hts, k, i));
  }

  /** Where the link to index `j` on level `k` leads after inserting at `cut`, for links that
      do not cross the cut. */
  lemma LinkSame(order: seq<nat>, hts: seq<nat>, k: nat, cut: nat, pos: nat, h: nat, i: nat, j: nat)
    requires |order| == |hts| && Cross(hts, k, cut, i) && j <= |order| && j != i && (j == 0 || hts[j - 1] > k)
    ensures j <= cut ==> NodeAt(InsertAt(order, cut, pos), NextAt(InsertAt(hts, cut, h), k, j)) == NodeAt(order, NextAt(hts, k, j))
    ensures j > cut ==> NodeAt(InsertAt(order, cut, pos), NextAt(InsertAt(hts, cut, h), k, j + 1)) == NodeAt(order, NextAt(hts, k, j))
  {
    var r := NextAt(hts, k, j);
    if j <= cut {
      CrossUnique(hts, k, cut, i, j);
      NextBefore(hts, k, cut, h, j);
      NodeShift(order, cut, pos, r);
    } else {
      NextAfter(hts, k, cut, h, j);
      NodeShift(order, cut, pos, r);
    }
  }

  /** The two links that change: to the new block, and from it. */
  lemma LinkNew(order: seq<nat>, hts: seq<nat>, k: nat, cut: nat, pos: nat, h: nat, i: nat)
    requires |order| == |hts| && Cross(hts, k, cut, i) && h > k
    ensures NodeAt(InsertAt(order, cut, pos), NextAt(InsertAt(hts, cut, h), k, i)) == pos
    ensures NodeAt(InsertAt(order, cut, pos), NextAt(InsertAt(hts, cut, h), k, cut + 1)) == NodeAt(order, NextAt(hts, k, i))
  {
    NextBefore(hts, k, cut, h, i);
    NodeShift(order, cut, pos, cut);
    CrossNext(hts, k, cut, i);
    NextAfter(hts, k, cut, h, cut);
    NodeShift(order, cut, pos, NextAt(hts, k, i));
  }

  /** A block too low for level `k` does not show on it. */
  lemma LinkLow(order: seq<nat>, hts: seq<nat>, k: nat, cut: nat, pos: nat, h: nat, j: nat)
    requires |order| == |hts| && cut <= |order| && h <= k && j <= |order|
    ensures j <= cut ==> NodeAt(InsertAt(order, cut, pos), NextAt(InsertAt(hts, cut, h), k, j)) == NodeAt(order, NextAt(hts, k, j))
    ensures j >= cut ==> NodeAt(InsertAt(order, cut, pos), NextAt(InsertAt(hts, cut, h), k, j + 1)) == NodeAt(order, NextAt(hts, k, j))
  {
    var r := NextAt(hts, k, j);
    if j <= cut {
      NextBefore(hts, k, cut, h, j);
      NodeShift(order, cut, pos, r);
    }
    if j >= cut {
      NextAfter(hts, k, cut, h, j);
      NodeShift(order, cut, pos, r);
    }
  }

  ghost predicate Inside(order: seq<nat>, size: nat)
  {
    forall i :: 0 <= i < |order| ==> order[i] + NodeWords <= size
  }

  /** On level `k`, place `i` now links to `v`; the other links of the blocks are unchanged. */
  ghost predicate Relinked(mem: seq<int>, mem': seq<int>, order: seq<nat>, k: nat, i: nat, v: int)
  {
    && |mem'| == |mem| && Inside(order, |mem|) && k < Levels
    && forall j :: 0 <= j < |order| ==> LinkIs(mem, mem', order, k, i, v, j)
  }

  ghost predicate LinkIs(mem: seq<int>, mem': seq<int>, order: seq<nat>, k: nat, i: nat, v: int, j: nat)
    requires j < |order| && order[j] + 1 + k < |mem| == |mem'|
  {
    mem'[order[j] + 1 + k] == if j + 1 == i then v else mem[order[j] + 1 + k]
  }

  /** Block `l` of the old order is block `j` of the new one; where its link must lead. */
  lemma NextNode(order: seq<nat>, hts: seq<nat>, order': seq<nat>, hts': seq<nat>, k: nat, cut: nat, i: nat, pos: nat, h: nat, l: nat, j: nat)
    requires |order| == |hts| && Cross(hts, k, cut, i) && h > k && l < |order| && hts[l] > k && j == if l < cut then l else l + 1
    requires order' == InsertAt(order, cut, pos) && hts' == InsertAt(hts, cut, h)
    ensures |order'| == |hts'| == |order| + 1 && order'[j] == order[l] && hts'[j] == hts[l]
    ensures NodeAt(order', NextAt(hts', k, j + 1)) == if l + 1 == i then pos else NodeAt(order, NextAt(hts, k, l + 1))
  {
    hide *;
    CrossAt(hts, k, cut, i);
    InsertIndex(order, cut, pos, j);
    InsertIndex(hts, cut, h, j);
    if l + 1 == i { LinkNew(order, hts, k, cut, pos, h, i); } else { LinkSame(order, hts, k, cut, pos, h, i, l + 1); }
  }

  lemma CrossAt(hts: seq<nat>, k: nat, cut: nat, i: nat)
    requires Cross(hts, k, cut, i)
    ensures i <= cut <= |hts|
  {
  }

  /** The same for a block too low for the level. */
  lemma NextNodeLow(order: seq<nat>, hts: seq<nat>, order': seq<nat>, hts': seq<nat>, k: nat, cut: nat, pos: nat, h: nat, l: nat, j: nat)
    requires cut <= |order| == |hts| && h <= k && l < |order| && j == if l < cut then l else l + 1
    requires order' == InsertAt(order, cut, pos) && hts' == InsertAt(hts, cut, h)
    ensures |order'| == |hts'| == |order| + 1 && order'[j] == order[l] && hts'[j] == hts[l]
    ensures NodeAt(order', NextAt(hts', k, j + 1)) == NodeAt(order, NextAt(hts, k, l + 1))
  {
    hide *;
    InsertIndex(order, cut, pos, j);
    InsertIndex(hts, cut, h, j);
    LinkLow(order, hts, k, cut, pos, h, l + 1);
  }

  lemma RelinkedAt(mem: seq<int>, mem': seq<int>, order: seq<nat>, k: nat, i: nat, v: int, j: nat)
    requires Relinked(mem, mem', order, k, i, v) && j < |order|
    ensures order[j] + NodeWords <= |mem| == |mem'| && k < Levels && mem'[order[j] + 1 + k] == if j + 1 == i then v else mem[order[j] + 1 + k]
  {
    assert LinkIs(mem, mem', order, k, i, v, j);
  }

  lemma NodeLinkIs(mem: seq<int>, hnext: seq<int>, order: seq<nat>, hts: seq<nat>, k: nat, j: nat)
    requires LevelOk(mem, hnext, order, hts, k) && j < |order| && hts[j] > k
    ensures order[j] + NodeWords <= |mem| && k < Levels && mem[order[j] + 1 + k] == NodeAt(order, NextAt(hts, k, j + 1))
  {
    assert NodeLink(mem, order, hts, k, j);
  }

  lemma LevelSizes(mem: seq<int>, hnext: seq<int>, order: seq<nat>, hts: seq<nat>, k: nat)
    requires LevelOk(mem, hnext, order, hts, k)
    ensures k < Levels == |hnext| && |order| == |hts| && Inside(order, |mem|) && hnext[k] == NodeAt(order, NextAt(hts, k, 0))
  {
  }

  lemma InsertedLink(mem: seq<int>, mem': seq<int>, hnext: seq<int>, order: seq<nat>, hts: seq<nat>, order': seq<nat>, hts': seq<nat>, k: nat, cut: nat, i: nat, pos: nat, h: nat, j: nat)
    requires LevelOk(mem, hnext, order, hts, k) && Cross(hts, k, cut, i) && h > k && Relinked(mem, mem', order, k, i, pos)
    requires order' == InsertAt(order, cut, pos) && hts' == InsertAt(hts, cut, h) && j < |order'| && |hts'| == |order'| && hts'[j] > k && j != cut
    ensures k < Levels && order'[j] + NodeWords <= |mem'| && mem'[order'[j] + 1 + k] == NodeAt(order', NextAt(hts', k, j + 1))
  {
    hide LevelOk, Relinked, NextAt, NodeAt, InsertAt, NodeLink, Inside, Cross;
    LevelSizes(mem, hnext, order, hts, k);
    CrossAt(hts, k, cut, i);
    var l := if j < cut then j else j - 1;
    InsertIndex(hts, cut, h, j);
    NextNode(order, hts, order', hts', k, cut, i, pos, h, l, j);
    RelinkedAt(mem, mem', order, k, i, pos, l);
    NodeLinkIs(mem, hnext, order, hts, k, l);
  }

  lemma InsideInsert(order: seq<nat>, cut: nat, pos: nat, size: nat)
    requires Inside(order, size) && cut <= |order| && pos + NodeWords <= size
    ensures Inside(InsertAt(order, cut, pos), size)
  {
    var order' := InsertAt(order, cut, pos);
    forall i | 0 <= i < |order'| ensures order'[i] + NodeWords <= size { InsertIndex(order, cut, pos, i); }
  }

  lemma ToLevel(mem: seq<int>, hnext: seq<int>, order: seq<nat>, hts: seq<nat>, k: nat)
    requires k < Levels == |hnext| && |order| == |hts| && Inside(order, |mem|) && hnext[k] == NodeAt(order, NextAt(hts, k, 0))
    requires forall j :: 0 <= j < |order| && hts[j] > k ==> NodeLink(mem, order, hts, k, j)
    ensures LevelOk(mem, hnext, order, hts, k)
  {
  }

  lemma LevelInserted(mem: seq<int>, hnext: seq<int>, order: seq<nat>, hts: seq<nat>, k: nat, cut: nat, i: nat, pos: nat, h: nat, mem': seq<int>, hnext': seq<int>)
    requires LevelOk(mem, hnext, order, hts, k) && Cross(hts, k, cut, i) && h > k && |hnext'| == Levels && pos + NodeWords <= |mem|
    requires Relinked(mem, mem', order, k, i, pos) && hnext'[k] == (if i == 0 then pos else hnext[k]) && mem'[pos + 1 + k] == NodeAt(order, NextAt(hts, k, i))
    ensures LevelOk(mem', hnext', InsertAt(order, cut, pos), InsertAt(hts, cut, h), k)
  {
    hide InsertAt, NextAt, NodeAt, LevelOk, Cross, Inside;
    assert |mem'| == |mem|;
    hide Relinked;
    LevelSizes(mem, hnext, order, hts, k);
    CrossAt(hts, k, cut, i);
    var order', hts' := InsertAt(order, cut, pos), InsertAt(hts, cut, h);
    InsideInsert(order, cut, pos, |mem|);
    LinkNew(order, hts, k, cut, pos, h, i);
    if i != 0 { LinkSame(order, hts, k, cut, pos, h, i, 0); }
    InsertIndex(order, cut, pos, cut);
    forall j | 0 <= j < |order'| && hts'[j] > k ensures order'[j] + NodeWords <= |mem'| && NodeLink(mem', order', hts', k, j) {
      if j != cut { InsertedLink(mem, mem', hnext, order, hts, order', hts', k, cut, i, pos, h, j); }
    }
    ToLevel(mem', hnext', order', hts', k);
  }

  lemma LevelNotInserted(mem: seq<int>, hnext: seq<int>, order: seq<nat>, hts: seq<nat>, k: nat, cut: nat, pos: nat, h: nat)
    requires LevelOk(mem, hnext, order, hts, k) && cut <= |order| && h <= k && pos + NodeWords <= |mem|
    ensures LevelOk(mem, hnext, InsertAt(order, cut, pos), InsertAt(hts, cut, h), k)
  {
    hide InsertAt, NextAt, NodeAt, LevelOk, Inside;
    LevelSizes(mem, hnext, order, hts, k);
    var order', hts' := InsertAt(order, cut, pos), InsertAt(hts, cut, h);
    InsideInsert(order, cut, pos, |mem|);
    LinkLow(order, hts, k, cut, pos, h, 0);
    forall j | 0 <= j < |order'| && hts'[j] > k ensures order'[j] + NodeWords <= |mem| && NodeLink(mem, order', hts', k, j) {
      NotInsertedLink(mem, hnext, order, hts, order', hts', k, cut, pos, h, j);
    }
    ToLevel(mem, hnext, order', hts', k);
  }

  lemma NotInsertedLink(mem: seq<int>, hnext: seq<int>, order: seq<nat>, hts: seq<nat>, order': seq<nat>, hts': seq<nat>, k: nat, cut: nat, pos: nat, h: nat, j: nat)
    requires LevelOk(mem, hnext, order, hts, k) && cut <= |order| && h <= k && |hts| == |order|
    requires order' == InsertAt(order, cut, pos) && hts' == InsertAt(hts, cut, h) && j < |order'| && |hts'| == |order'| && hts'[j] > k
    ensures k < Levels && order'[j] + NodeWords <= |mem| && mem[order'[j] + 1 + k] == NodeAt(order', NextAt(hts', k, j + 1))
  {
    hide *;
    InsertIndex(hts, cut, h, j);
    var l := if j < cut then j else j - 1;
    NextNodeLow(order, hts, order', hts', k, cut, pos, h, l, j);
    NodeLinkIs(mem, hnext, order, hts, k, l);
  }

  lemma RemovedLink(mem: seq<int>, mem': seq<int>, hnext: seq<int>, order: seq<nat>, hts: seq<nat>, order': seq<nat>, hts': seq<nat>, k: nat, cut: nat, i: nat, pos: nat, h: nat, j: nat, v: int)
    requires cut <= |order| == |hts| && order' == InsertAt(order, cut, pos) && hts' == InsertAt(hts, cut, h) && LevelOk(mem, hnext, order', hts', k)
    requires Cross(hts, k, cut, i) && h > k && Relinked(mem, mem', order, k, i, v) && v == NodeAt(order', NextAt(hts', k, cut + 1)) && j < |order| && hts[j] > k
    ensures k < Levels && order[j] + NodeWords <= |mem'| && mem'[order[j] + 1 + k] == NodeAt(order, NextAt(hts, k, j + 1))
  {
    hide *;
    var l := if j < cut then j else j + 1;
    NextNode(order, hts, order', hts', k, cut, i, pos, h, j, l);
    NodeLinkIs(mem, hnext, order', hts', k, l);
    LinkNew(order, hts, k, cut, pos, h, i);
    RelinkedAt(mem, mem', order, k, i, v, j);
  }

  /** Taking out the block at `cut`; `order` and `hts` are without it. */
  lemma LevelRemoved(mem: seq<int>, hnext: seq<int>, order: seq<nat>, hts: seq<nat>, k: nat, cut: nat, i: nat, pos: nat, h: nat, mem': seq<int>, hnext': seq<int>)
    requires cut <= |order| == |hts| && LevelOk(mem, hnext, InsertAt(order, cut, pos), InsertAt(hts, cut, h), k) && k < Levels
    requires Cross(hts, k, cut, i) && h > k && |hnext'| == Levels && pos + NodeWords <= |mem| && Inside(order, |mem|)
    requires Relinked(mem, mem', order, k, i, mem[pos + 1 + k]) && hnext'[k] == if i == 0 then mem[pos + 1 + k] else hnext[k]
    ensures LevelOk(mem', hnext', order, hts, k)
  {
    hide InsertAt, NextAt, NodeAt, LevelOk, Cross, Inside;
    var order', hts' := InsertAt(order, cut, pos), InsertAt(hts, cut, h);
    assert |mem'| == |mem|;
    hide Relinked;
    LevelSizes(mem, hnext, order', hts', k);
    LinkNew(order, hts, k, cut, pos, h, i);
    InsertIndex(order, cut, pos, cut);
    InsertIndex(hts, cut, h, cut);
    NodeLinkIs(mem, hnext, order', hts', k, cut);
    CrossAt(hts, k, cut, i);
    if i != 0 { LinkSame(order, hts, k, cut, pos, h, i, 0); }
    var v := mem[pos + 1 + k];
    forall j | 0 <= j < |order| && hts[j] > k ensures order[j] + NodeWords <= |mem'| && NodeLink(mem', order, hts, k, j) {
      RemovedLink(mem, mem', hnext, order, hts, order', hts', k, cut, i, pos, h, j, v);
    }
    ToLevel(mem', hnext', order, hts, k);
  }

  lemma NotRemovedLink(mem: seq<int>, hnext: seq<int>, order: seq<nat>, hts: seq<nat>, order': seq<nat>, hts': seq<nat>, k: nat, cut: nat, pos: nat, h: nat, j: nat)
    requires cut <= |order| == |hts| && order' == InsertAt(order, cut, pos) && hts' == InsertAt(hts, cut, h) && LevelOk(mem, hnext, order', hts', k) && h <= k
    requires j < |order| && hts[j] > k
    ensures k < Levels && order[j] + NodeWords <= |mem| && mem[order[j] + 1 + k] == NodeAt(order, NextAt(hts, k, j + 1))
  {
    hide *;
    var l := if j < cut then j else j + 1;
    NextNodeLow(order, hts, order', hts', k, cut, pos, h, j, l);
    NodeLinkIs(mem, hnext, order', hts', k, l);
  }

  lemma LevelNotRemoved(mem: seq<int>, hnext: seq<int>, order: seq<nat>, hts: seq<nat>, k: nat, cut: nat, pos: nat, h: nat)
    requires cut <= |order| == |hts| && LevelOk(mem, hnext, InsertAt(order, cut, pos), InsertAt(hts, cut, h), k) && h <= k && Inside(order, |mem|)
    ensures LevelOk(mem, hnext, order, hts, k)
  {
    hide InsertAt, NextAt, NodeAt, LevelOk, Inside;
    var order', hts' := InsertAt(order, cut, pos), InsertAt(hts, cut, h);
    LevelSizes(mem, hnext, order', hts', k);
    LinkLow(order, hts, k, cut, pos, h, 0);
    forall j | 0 <= j < |order| && hts[j] > k ensures order[j] + NodeWords <= |mem| && NodeLink(mem, order, hts, k, j) {
      NotRemovedLink(mem, hnext, order, hts, order', hts', k, cut, pos, h, j);
    }
    ToLevel(mem, hnext, order, hts, k);
  }

  /** Other levels keep their words. */
  lemma LevelFrame(mem: seq<int>, hnext: seq<int>, order: seq<nat>, hts: seq<nat>, k: nat, mem': seq<int>, hnext': seq<int>)
    requires LevelOk(mem, hnext, order, hts, k) && |mem'| == |mem| && |hnext'| == Levels && hnext'[k] == hnext[k]
    requires forall j :: 0 <= j < |order| ==> mem'[order[j] + 1 + k] == mem[order[j] + 1 + k]
    ensures LevelOk(mem', hnext', order, hts, k)
  {
    forall j | 0 <= j < |order| && hts[j] > k ensures NodeLink(mem', order, hts, k, j) { assert NodeLink(mem, order, hts, k, j); }
  }

  // ------------------------------------------------------------ writing links to memory

  function SetMem(mem: seq<int>, x: int, k: nat, v: int): (r: seq<int>)
    requires x != Head ==> 0 <= x && x + 1 + k < |mem|
    ensures |r| == |mem|
  {
    if x == Head then mem else mem[x + 1 + k := v]
  }

  function SetHead(hnext: seq<int>, x: int, k: nat, v: int): (r: seq<int>)
    requires k < |hnext|
    ensures |r| == |hnext|
  {
    if x == Head then hnext[k := v] else hnext
  }

  /** A word outside all blocks of the list. */
  ghost predicate Outside(order: seq<nat>, w: nat)
  {
    forall i :: 0 <= i < |order| ==> w < order[i] || w >= order[i] + NodeWords
  }

  /** Only words of blocks of the list may differ. */
  ghost predicate SameOutside(mem: seq<int>, mem': seq<int>, order: seq<nat>)
  {
    |mem| == |mem'| && forall w: nat :: w < |mem| && Outside(order, w) ==> mem'[w] == mem[w]
  }

  ghost predicate IsRef(order: seq<nat>, x: int)
  {
    x == Head || (x >= 0 && x as nat in order)
  }

  /** Writing word `a` of block `p` leaves all other words of blocks alone. */
  lemma OtherWord(order: seq<nat>, size: nat, p: nat, a: nat, i: nat, b: nat)
    requires Apart(order, size) && p in order && i < |order| && a < NodeWords && b < NodeWords && (p != order[i] || a != b)
    ensures p + a != order[i] + b
  {
    var j :| 0 <= j < |order| && order[j] == p;
    assert j < i ==> Disjoint(order[j], order[i]);
    assert i < j ==> Disjoint(order[i], order[j]);
  }

  ghost predicate Within(o: seq<nat>, all: seq<nat>)
  {
    forall i :: 0 <= i < |o| ==> o[i] in all
  }

  /** Any two words of blocks of `all` are different. */
  lemma OtherWordIn(all: seq<nat>, size: nat, p: nat, a: nat, q: nat, b: nat)
    requires Apart(all, size) && p in all && q in all && a < NodeWords && b < NodeWords && (p != q || a != b)
    ensures p + a != q + b && q + b < size && p + a < size
  {
    var i :| 0 <= i < |all| && all[i] == q;
    var j :| 0 <= j < |all| && all[j] == p;
    OtherWord(all, size, p, a, i, b);
  }

  lemma WriteKeepsLevel(mem: seq<int>, hnext: seq<int>, o: seq<nat>, hts: seq<nat>, all: seq<nat>, p: nat, a: nat, v: int, l: nat)
    requires Apart(all, |mem|) && p in all && a < NodeWords && p + a < |mem| && Within(o, all)
    requires LevelOk(mem, hnext, o, hts, l) && (a != l + 1 || p !in o)
    ensures LevelOk(mem[p + a := v], hnext, o, hts, l)
  {
    forall j | 0 <= j < |o| ensures mem[p + a := v][o[j] + 1 + l] == mem[o[j] + 1 + l] {
      assert o[j] in all && o[j] in o;
      OtherWordIn(all, |mem|, p, a, o[j], l + 1);
    }
    LevelFrame(mem, hnext, o, hts, l, mem[p + a := v], hnext);
  }

  lemma WriteKeepsSizes(mem: seq<int>, o: seq<nat>, szs: seq<nat>, all: seq<nat>, p: nat, a: nat, v: int)
    requires Apart(all, |mem|) && p in all && a < NodeWords && p + a < |mem| && Within(o, all)
    requires SizeWords(mem, o, szs) && (a != 0 || p !in o)
    ensures SizeWords(mem[p + a := v], o, szs)
  {
    forall j | 0 <= j < |o| ensures mem[p + a := v][o[j]] == mem[o[j]] {
      assert o[j] in all && o[j] in o;
      OtherWordIn(all, |mem|, p, a, o[j], 0);
    }
  }

  lemma WriteOutside(mem: seq<int>, all: seq<nat>, p: nat, a: nat, v: int)
    requires p in all && a < NodeWords && p + a < |mem|
    ensures SameOutside(mem, mem[p + a := v], all)
  {
    var j :| 0 <= j < |all| && all[j] == p;
  }

  lemma WriteRelinks(mem: seq<int>, order: seq<nat>, all: seq<nat>, k: nat, i: nat, v: int)
    requires Apart(all, |mem|) && Within(order, all) && Apart(order, |mem|) && k < Levels && i <= |order|
    ensures var x := RefAt(order, i); x != Head ==> 0 <= x && x + 1 + k < |mem|
    ensures Relinked(mem, SetMem(mem, RefAt(order, i), k, v), order, k, i, v)
  {
    var x := RefAt(order, i);
    var mem' := SetMem(mem, x, k, v);
    forall j | 0 <= j < |order| ensures LinkIs(mem, mem', order, k, i, v, j) {
      if i > 0 && j + 1 != i {
        var y := i - 1;
        if j < y { assert Disjoint(order[j], order[y]); } else { assert Disjoint(order[y], order[j]); }
      }
    }
  }

  // ------------------------------------------------------------------- inserting

  /** Levels from `k` to below `h` include the new block, the others do not. */
  ghost predicate Inserting(mem: seq<int>, hnext: seq<int>, order: seq<nat>, hts: seq<nat>, order': seq<nat>, hts': seq<nat>, k: nat, h: nat)
  {
    && k <= h <= Levels == |hnext|
    && (forall l :: k <= l < h ==> LevelOk(mem, hnext, order', hts', l))
    && (forall l :: (0 <= l < k || h <= l < Levels) ==> LevelOk(mem, hnext, order, hts, l))
  }

  /** One block added at `cut`, before the words of its links are written. */
  ghost predicate Adding(order: seq<nat>, hts: seq<nat>, order': seq<nat>, hts': seq<nat>, cut: nat, pos: nat, h: nat, size: nat)
  {
    && cut <= |order| == |hts| && order' == InsertAt(order, cut, pos) && hts' == InsertAt(hts, cut, h) && pos !in order
    && Apart(order, size) && Apart(order', size) && Within(order, order') && pos in order' && pos + NodeWords <= size
  }

  lemma InsertLevel(mem: seq<int>, hnext: seq<int>, order: seq<nat>, hts: seq<nat>, order': seq<nat>, hts': seq<nat>, k: nat, h: nat, cut: nat, pos: nat, i: nat)
    requires Inserting(mem, hnext, order, hts, order', hts', k + 1, h) && k < h && Adding(order, hts, order', hts', cut, pos, h, |mem|) && Cross(hts, k, cut, i)
    ensures var x := RefAt(order, i); k < |hnext| && pos + 1 + k < |mem| && (x != Head ==> 0 <= x && x + 1 + k < |mem|)
    ensures var x := RefAt(order, i);
            var mem1 := mem[pos + 1 + k := Link(mem, hnext, x, k)];
            LevelOk(SetMem(mem1, x, k, pos), SetHead(hnext, x, k, pos), order', hts', k)
  {
    hide LevelOk, Relinked, NextAt, InsertAt, Apart;
    var x := RefAt(order, i);
    assert LevelOk(mem, hnext, order, hts, k);
    CrossAt(hts, k, cut, i);
    LinkAt(mem, hnext, order, hts, k, i);
    var v := Link(mem, hnext, x, k);
    var mem1 := mem[pos + (k + 1) := v];
    WriteKeepsLevel(mem, hnext, order, hts, order', pos, k + 1, v, k);
    WriteRelinks(mem1, order, order', k, i, pos);
    assert x != Head ==> x != pos by { if i > 0 { assert order[i - 1] in order; } }
    assert SetMem(mem1, x, k, pos)[pos + 1 + k] == v by {
      if x != Head { assert order[i - 1] in order'; OtherWordIn(order', |mem|, x, k + 1, pos, k + 1); }
    }
    LevelInserted(mem1, hnext, order, hts, k, cut, i, pos, h, SetMem(mem1, x, k, pos), SetHead(hnext, x, k, pos));
  }

  /** The other levels, the sizes and the rest of the memory do not notice. */
  lemma InsertOthers(mem: seq<int>, hnext: seq<int>, o: seq<nat>, hts: seq<nat>, all: seq<nat>, pos: nat, x: int, k: nat, v: int, l: nat)
    requires Apart(all, |mem|) && Within(o, all) && pos in all && IsRef(all, x) && k < Levels == |hnext| && pos + NodeWords <= |mem|
    requires LevelOk(mem, hnext, o, hts, l) && l != k
    ensures x != Head ==> 0 <= x && x + 1 + k < |mem|
    ensures LevelOk(SetMem(mem[pos + 1 + k := v], x, k, pos), SetHead(hnext, x, k, pos), o, hts, l)
  {
    var mem1 := mem[pos + (k + 1) := v];
    WriteKeepsLevel(mem, hnext, o, hts, all, pos, k + 1, v, l);
    if x != Head {
      var p: nat := x;
      OtherWordIn(all, |mem|, p, k + 1, p, 0);
      WriteKeepsLevel(mem1, hnext, o, hts, all, p, k + 1, pos, l);
    } else {
      LevelFrame(mem1, hnext, o, hts, l, mem1, hnext[k := pos]);
    }
  }

  lemma InsertRest(mem: seq<int>, hnext: seq<int>, order: seq<nat>, szs: seq<nat>, all: seq<nat>, pos: nat, x: int, k: nat, v: int)
    requires Apart(all, |mem|) && Within(order, all) && pos in all && IsRef(all, x) && k < Levels && pos + NodeWords <= |mem| && SizeWords(mem, order, szs)
    ensures x != Head ==> 0 <= x && x + 1 + k < |mem|
    ensures SizeWords(SetMem(mem[pos + 1 + k := v], x, k, pos), order, szs) && SameOutside(mem, SetMem(mem[pos + 1 + k := v], x, k, pos), all)
  {
    var mem1 := mem[pos + (k + 1) := v];
    WriteKeepsSizes(mem, order, szs, all, pos, k + 1, v);
    WriteOutside(mem, all, pos, k + 1, v);
    if x != Head {
      var p: nat := x;
      OtherWordIn(all, |mem|, p, k + 1, p, 0);
      WriteKeepsSizes(mem1, order, szs, all, p, k + 1, pos);
      WriteOutside(mem1, all, p, k + 1, pos);
    }
  }

  lemma InsertStep(mem: seq<int>, hnext: seq<int>, order: seq<nat>, hts: seq<nat>, szs: seq<nat>, order': seq<nat>, hts': seq<nat>, k: nat, h: nat, cut: nat, pos: nat, i: nat)
    requires Inserting(mem, hnext, order, hts, order', hts', k + 1, h) && k < h && Adding(order, hts, order', hts', cut, pos, h, |mem|) && Cross(hts, k, cut, i)
    requires SizeWords(mem, order, szs)
    ensures i <= |order| && var x := RefAt(order, i); k < |hnext| && pos + 1 + k < |mem| && (x != Head ==> 0 <= x && x + 1 + k < |mem|)
    ensures var x := RefAt(order, i);
            var mem' := SetMem(mem[pos + 1 + k := Link(mem, hnext, x, k)], x, k, pos);
            Inserting(mem', SetHead(hnext, x, k, pos), order, hts, order', hts', k, h) && SizeWords(mem', order, szs) && SameOutside(mem, mem', order')
  {
    hide LevelOk, SizeWords, SameOutside, Apart, InsertAt, NextAt;
    CrossAt(hts, k, cut, i);
    hide Cross;
    InsertLevel(mem, hnext, order, hts, order', hts', k, h, cut, pos, i);
    var x := RefAt(order, i);
    assert IsRef(order', x) by { if i > 0 { assert order[i - 1] in order'; } }
    assert Within(order', order');
    var v := Link(mem, hnext, x, k);
    InsertRest(mem, hnext, order, szs, order', pos, x, k, v);
    var mem', hnext' := SetMem(mem[pos + 1 + k := v], x, k, pos), SetHead(hnext, x, k, pos);
    hide Within, SetMem, SetHead;
    forall l | k < l < h ensures LevelOk(mem', hnext', order', hts', l) { InsertOthers(mem, hnext, order', hts', order', pos, x, k, v, l); }
    forall l | (0 <= l < k || h <= l < Levels) ensures LevelOk(mem', hnext', order, hts, l) { InsertOthers(mem, hnext, order, hts, order', pos, x, k, v, l); }
  }

  lemma ApartInsert(order: seq<nat>, cut: nat, pos: nat, size: nat)
    requires Apart(order, size) && cut <= |order| && pos + NodeWords <= size && forall i :: 0 <= i < |order| ==> Disjoint(pos, order[i])
    ensures var order' := InsertAt(order, cut, pos); Apart(order', size) && Within(order, order') && pos in order' && pos !in order
  {
    var order' := InsertAt(order, cut, pos);
    forall i | 0 <= i < |order'| ensures order'[i] + NodeWords <= size { InsertIndex(order, cut, pos, i); }
    forall i, j | 0 <= i < j < |order'| ensures Disjoint(order'[i], order'[j]) {
      InsertIndex(order, cut, pos, i);
      InsertIndex(order, cut, pos, j);
    }
    forall i | 0 <= i < |order| ensures order[i] in order' {
      var j := if i < cut then i else i + 1;
      InsertIndex(order, cut, pos, j);
      assert order'[j] == order[i];
    }
    InsertIndex(order, cut, pos, cut);
    assert order'[cut] == pos;
    forall i | 0 <= i < |order| ensures order[i] != pos { assert Disjoint(pos, order[i]); }
  }

  lemma SortedInsert(szs: seq<nat>, cut: nat, len: nat)
    requires Sorted(szs) && CutAt(szs, len, cut)
    ensures Sorted(InsertAt(szs, cut, len))
  {
    var szs' := InsertAt(szs, cut, len);
    forall i, j | 0 <= i < j < |szs'| ensures szs'[i] <= szs'[j] {
      InsertIndex(szs, cut, len, i);
      InsertIndex(szs, cut, len, j);
    }
  }

  lemma HeightsInsert(hts: seq<nat>, hsize: nat, cut: nat, h: nat, hsize': nat)
    requires Heights(hts, hsize) && cut <= |hts| && 1 <= h <= hsize' && hsize <= hsize'
    ensures Heights(InsertAt(hts, cut, h), hsize')
  {
    var hts' := InsertAt(hts, cut, h);
    forall i | 0 <= i < |hts'| ensures 1 <= hts'[i] <= hsize' { InsertIndex(hts, cut, h, i); }
  }

  /** The size word is written last. */
  lemma SizeWritten(mem: seq<int>, order: seq<nat>, szs: seq<nat>, order': seq<nat>, cut: nat, pos: nat, len: nat)
    requires SizeWords(mem, order, szs) && cut <= |order| && order' == InsertAt(order, cut, pos) && pos !in order && pos < |mem|
    ensures SizeWords(mem[pos := len], order', InsertAt(szs, cut, len))
  {
    forall i | 0 <= i < |order'| ensures order'[i] < |mem| && mem[pos := len][order'[i]] == InsertAt(szs, cut, len)[i] {
      InsertIndex(order, cut, pos, i);
      InsertIndex(szs, cut, len, i);
      assert i < cut ==> order[i] in order;
      assert i > cut ==> order[i - 1] in order;
    }
  }

  /** A head stays occupied when a block is inserted, and the top level of the new block is. */
  lemma TopLevel(mem: seq<int>, hnext: seq<int>, order': seq<nat>, hts': seq<nat>, k: nat, cut: nat)
    requires LevelOk(mem, hnext, order', hts', k) && cut < |order'| && hts'[cut] > k
    ensures hnext[k] != Tail
  {
    NextIs(hts', k, 0);
  }

  ghost predicate CanAdd(order: seq<nat>, pos: nat, size: nat)
  {
    pos + NodeWords <= size && forall i :: 0 <= i < |order| ==> Disjoint(pos, order[i])
  }

  lemma InsertEnd(mem0: seq<int>, hnext0: seq<int>, hsize0: nat, mem: seq<int>, hnext: seq<int>, hsize: nat, order: seq<nat>, hts: seq<nat>, szs: seq<nat>,
                  order': seq<nat>, hts': seq<nat>, h: nat, cut: nat, pos: nat, len: nat)
    requires Skip(mem0, hnext0, hsize0, order, hts, szs) && |mem| == |mem0| && CutAt(szs, len, cut)
    requires Inserting(mem, hnext, order, hts, order', hts', 0, h) && Adding(order, hts, order', hts', cut, pos, h, |mem|) && SizeWords(mem, order, szs)
    requires 1 <= h <= hsize <= Levels && hsize == (if h > hsize0 then h else hsize0) && h <= hsize0 + 1
    ensures Skip(mem[pos := len], hnext, hsize, order', hts', InsertAt(szs, cut, len))
  {
    hide LevelOk, Sorted, SizeWords, Heights, InsertAt, CutAt, Apart, Within, Inserting;
    SizeWritten(mem, order, szs, order', cut, pos, len);
    SortedInsert(szs, cut, len);
    HeightsInsert(hts, hsize0, cut, h, hsize);
    TopOld(mem0, hnext0, hsize0, order, hts, szs);
    InsertEndLevels(mem, hnext, order, hts, order', hts', h, cut, pos, len, mem[pos := len]);
    var k := hsize - 1;
    var i := TopIndex(hts, hsize, cut, h, hts');
    TopLevel(mem[pos := len], hnext, order', hts', k, i);
  }

  lemma InsertEndLevels(mem: seq<int>, hnext: seq<int>, order: seq<nat>, hts: seq<nat>, order': seq<nat>, hts': seq<nat>, h: nat, cut: nat, pos: nat, len: nat, mem': seq<int>)
    requires Inserting(mem, hnext, order, hts, order', hts', 0, h) && Adding(order, hts, order', hts', cut, pos, h, |mem|) && mem' == mem[pos := len]
    ensures |hnext| == Levels && forall l :: 0 <= l < Levels ==> LevelOk(mem', hnext, order', hts', l)
  {
    assert Within(order', order');
    hide LevelOk, InsertAt, Apart, Within;
    forall l | 0 <= l < Levels ensures LevelOk(mem', hnext, order', hts', l) {
      if l >= h { LevelNotInserted(mem, hnext, order, hts, l, cut, pos, h); }
      WriteKeepsLevel(mem, hnext, order', hts', order', pos, 0, len, l);
      assert mem[pos + 0 := len] == mem';
    }
  }

  /** Some block reaches the top level. */
  lemma TopOld(mem: seq<int>, hnext: seq<int>, hsize: nat, order: seq<nat>, hts: seq<nat>, szs: seq<nat>)
    requires Skip(mem, hnext, hsize, order, hts, szs)
    ensures hsize > 0 ==> exists i :: 0 <= i < |hts| && hts[i] == hsize
  {
    if hsize > 0 {
      var k := hsize - 1;
      assert LevelOk(mem, hnext, order, hts, k);
      NextIs(hts, k, 0);
      var i := NextAt(hts, k, 0);
      assert hts[i] == hsize;
    }
  }

  lemma TopIndex(hts: seq<nat>, hsize: nat, cut: nat, h: nat, hts': seq<nat>) returns (j: nat)
    requires cut <= |hts| && hts' == InsertAt(hts, cut, h) && (h == hsize || exists i :: 0 <= i < |hts| && hts[i] == hsize)
    ensures j < |hts'| && hts'[j] == hsize
  {
    if h == hsize {
      InsertIndex(hts, cut, h, cut);
      return cut;
    }
    var i :| 0 <= i < |hts| && hts[i] == hsize;
    j := if i < cut then i else i + 1;
    InsertIndex(hts, cut, h, j);
  }

  /** Link a free block of size `len` in at the places found for that size. */
  method Insert(mem0: seq<int>, hnext0: seq<int>, hsize0: nat, update0: seq<int>, pos: nat, len: nat, level: nat,
                ghost order: seq<nat>, ghost hts: seq<nat>, ghost szs: seq<nat>, ghost at0: seq<nat>)
    returns (mem: seq<int>, hnext: seq<int>, hsize: nat, ghost h: nat)
    requires Skip(mem0, hnext0, hsize0, order, hts, szs) && Sorted(szs) && |update0| == hsize0 && level < Levels && CanAdd(order, pos, |mem0|)
    requires Places(update0, at0, order, hts, CutOf(szs, len), 0)
    ensures var cut := CutOf(szs, len);
            && cut <= |order| == |hts|
            && Skip(mem, hnext, hsize, InsertAt(order, cut, pos), InsertAt(hts, cut, h), InsertAt(szs, cut, len))
            && SameOutside(mem0, mem, InsertAt(order, cut, pos))
    ensures h == (if level < hsize0 then level else hsize0) + 1
  {
    ghost var cut := CutOf(szs, len);
    mem, hnext, hsize := mem0, hnext0, hsize0;
    var update, k := update0, level;
    ghost var at := at0;
    if k >= hsize {
      k := hsize;
      hsize := hsize + 1;
      update := update + [Head];
      at := at + [0];
    }
    k := k + 1;
    h := k;
    InsertStart(mem0, hnext0, hsize0, order, hts, szs, len, update0, at0, update, at, pos, h);
    ghost var order', hts' := InsertAt(order, cut, pos), InsertAt(hts, cut, h);
    hide Inserting, Adding, Places, Skip, SizeWords, SameOutside, CutOf, CutAt, InsertAt, CanAdd, Sorted;
    while k > 0
      invariant 0 <= k <= h <= |update| == |at| && |mem| == |mem0| && |hnext| == Levels
      invariant Inserting(mem, hnext, order, hts, order', hts', k, h) && SizeWords(mem, order, szs) && SameOutside(mem0, mem, order')
    {
      k := k - 1;
      PlaceAt(update, at, order, hts, cut, k);
      InsertStep(mem, hnext, order, hts, szs, order', hts', k, h, cut, pos, at[k]);
      var n1 := update[k];
      var mem1 := mem[pos + 1 + k := Link(mem, hnext, n1, k)];
      ghost var before := mem;
      mem, hnext := SetMem(mem1, n1, k, pos), SetHead(hnext, n1, k, pos);
      OutsideTwice(mem0, before, mem, order');
    }
    InsertEnd(mem0, hnext0, hsize0, mem, hnext, hsize, order, hts, szs, order', hts', h, cut, pos, len);
    OutsideSize(mem0, mem, order', pos, len, order, hts, hts', cut, h);
    mem := mem[pos := len];
  }

  lemma OutsideTwice(a: seq<int>, b: seq<int>, c: seq<int>, order: seq<nat>)
    requires SameOutside(a, b, order) && SameOutside(b, c, order)
    ensures SameOutside(a, c, order)
  {
  }

  lemma OutsideSize(a: seq<int>, b: seq<int>, order': seq<nat>, pos: nat, len: nat, order: seq<nat>, hts: seq<nat>, hts': seq<nat>, cut: nat, h: nat)
    requires SameOutside(a, b, order') && Adding(order, hts, order', hts', cut, pos, h, |b|)
    ensures pos < |b| && SameOutside(a, b[pos := len], order')
  {
    WriteOutside(b, order', pos, 0, len);
    assert b[pos + 0 := len] == b[pos := len];
    OutsideTwice(a, b, b[pos := len], order');
  }

  lemma PlaceAt(update: seq<int>, at: seq<nat>, order: seq<nat>, hts: seq<nat>, cut: nat, k: nat)
    requires Places(update, at, order, hts, cut, 0) && k < |at|
    ensures |update| == |at| && Cross(hts, k, cut, at[k]) && at[k] <= |order| && update[k] == RefAt(order, at[k])
  {
  }

  lemma InsertStart(mem: seq<int>, hnext: seq<int>, hsize: nat, order: seq<nat>, hts: seq<nat>, szs: seq<nat>, len: nat, update0: seq<int>, at0: seq<nat>,
                    update: seq<int>, at: seq<nat>, pos: nat, h: nat)
    requires Skip(mem, hnext, hsize, order, hts, szs) && CanAdd(order, pos, |mem|) && |update0| == hsize && 1 <= h <= Levels && h <= hsize + 1
    requires Places(update0, at0, order, hts, CutOf(szs, len), 0)
    requires if h > hsize then update == update0 + [Head] && at == at0 + [0] else update == update0 && at == at0
    ensures var cut := CutOf(szs, len);
            && cut <= |order| == |hts| && CutAt(szs, len, cut) && Places(update, at, order, hts, cut, 0) && |update| == |at| >= h
            && var order', hts' := InsertAt(order, cut, pos), InsertAt(hts, cut, h);
               Adding(order, hts, order', hts', cut, pos, h, |mem|) && Inserting(mem, hnext, order, hts, order', hts', h, h) && SizeWords(mem, order, szs)
               && SameOutside(mem, mem, order') && |hnext| == Levels
  {
    hide LevelOk, Apart, Sorted, SizeWords, InsertAt, NextAt;
    var cut := CutOf(szs, len);
    ApartInsert(order, cut, pos, |mem|);
    if h > hsize {
      NextOnly(hts, hsize, 0, |hts|);
      assert Cross(hts, hsize, cut, 0);
    }
  }

  // -------------------------------------------------------------------- removing

  function RemoveAt<T>(s: seq<T>, i: nat): (r: seq<T>)
    requires i < |s|
    ensures |r| == |s| - 1
  {
    s[..i] + s[i + 1..]
  }

  lemma RemoveInsert<T>(s: seq<T>, i: nat)
    requires i < |s|
    ensures InsertAt(RemoveAt(s, i), i, s[i]) == s
  {
  }

  lemma RemoveIndex<T>(s: seq<T>, i: nat, j: nat)
    requires i < |s| && j < |s| - 1
    ensures RemoveAt(s, i)[j] == if j < i then s[j] else s[j + 1]
  {
  }

  /** `order` and `hts` without the block at `cut`. */
  ghost predicate Dropping(order1: seq<nat>, hts1: seq<nat>, order: seq<nat>, hts: seq<nat>, cut: nat, pos: nat, h: nat, size: nat)
  {
    && cut <= |order1| == |hts1| && order == InsertAt(order1, cut, pos) && hts == InsertAt(hts1, cut, h) && pos !in order1
    && Apart(order1, size) && Apart(order, size) && Within(order1, order) && pos in order && pos + NodeWords <= size
  }

  lemma DroppingOk(order: seq<nat>, hts: seq<nat>, cut: nat, size: nat)
    requires Apart(order, size) && cut < |order| == |hts|
    ensures Dropping(RemoveAt(order, cut), RemoveAt(hts, cut), order, hts, cut, order[cut], hts[cut], size)
  {
    var order1 := RemoveAt(order, cut);
    RemoveInsert(order, cut);
    RemoveInsert(hts, cut);
    forall i | 0 <= i < |order1| ensures order1[i] in order && order1[i] + NodeWords <= size && Disjoint(order[cut], order1[i]) {
      RemoveIndex(order, cut, i);
      var j := if i < cut then i else i + 1;
      assert order1[i] == order[j];
      if j < cut { assert Disjoint(order[j], order[cut]); } else { assert Disjoint(order[cut], order[j]); }
    }
    forall i, j | 0 <= i < j < |order1| ensures Disjoint(order1[i], order1[j]) {
      RemoveIndex(order, cut, i);
      RemoveIndex(order, cut, j);
    }
    forall i | 0 <= i < |order1| ensures order1[i] != order[cut] { assert Disjoint(order[cut], order1[i]); }
  }

  /** Levels below `k` are without the block. */
  ghost predicate Removing(mem: seq<int>, hnext: seq<int>, order1: seq<nat>, hts1: seq<nat>, order: seq<nat>, hts: seq<nat>, k: nat)
  {
    && k <= Levels == |hnext|
    && (forall l :: 0 <= l < k ==> LevelOk(mem, hnext, order1, hts1, l))
    && (forall l :: k <= l < Levels ==> LevelOk(mem, hnext, order, hts, l))
  }

  lemma CrossRemoved(hts1: seq<nat>, hts: seq<nat>, k: nat, cut: nat, h: nat, i: nat)
    requires cut <= |hts1| && hts == InsertAt(hts1, cut, h) && Cross(hts, k, cut, i)
    ensures Cross(hts1, k, cut, i)
  {
    NextBefore(hts1, k, cut, h, i);
    if i > 0 { InsertIndex(hts1, cut, h, i - 1); }
  }

  /** The place links to the block exactly if the block is on this level. */
  lemma LinksTo(mem: seq<int>, hnext: seq<int>, order: seq<nat>, hts: seq<nat>, k: nat, cut: nat, i: nat)
    requires LevelOk(mem, hnext, order, hts, k) && Cross(hts, k, cut, i) && cut < |order| && Apart(order, |mem|)
    ensures i <= |order| && (RefAt(order, i) != Head ==> 0 <= RefAt(order, i) && RefAt(order, i) + NodeWords <= |mem|)
    ensures Link(mem, hnext, RefAt(order, i), k) == order[cut] <==> hts[cut] > k
  {
    hide LevelOk, Apart, NextAt, Link;
    LevelSizes(mem, hnext, order, hts, k);
    LinkAt(mem, hnext, order, hts, k, i);
    NextIs(hts, k, i);
    var r := NextAt(hts, k, i);
    if r < |order| && r > cut { ApartAt(order, |mem|, cut, r); }
  }

  lemma ApartAt(order: seq<nat>, size: nat, i: nat, j: nat)
    requires Apart(order, size) && i < j < |order|
    ensures order[i] != order[j]
  {
    assert Disjoint(order[i], order[j]);
  }

  lemma RefRemoved(order1: seq<nat>, order: seq<nat>, cut: nat, pos: nat, i: nat)
    requires i <= cut <= |order1| && order == InsertAt(order1, cut, pos)
    ensures RefAt(order, i) == RefAt(order1, i)
  {
    if i > 0 { InsertIndex(order1, cut, pos, i - 1); }
  }

  lemma RemoveLevel(mem: seq<int>, hnext: seq<int>, order1: seq<nat>, hts1: seq<nat>, order: seq<nat>, hts: seq<nat>, k: nat, cut: nat, pos: nat, h: nat, i: nat)
    requires LevelOk(mem, hnext, order, hts, k) && Dropping(order1, hts1, order, hts, cut, pos, h, |mem|) && Cross(hts, k, cut, i) && h > k
    ensures i <= |order1| && k < Levels && pos + 1 + k < |mem| && var x := RefAt(order1, i); x != Head ==> 0 <= x && x + 1 + k < |mem|
    ensures var x, v := RefAt(order1, i), mem[pos + 1 + k];
            LevelOk(SetMem(mem, x, k, v), SetHead(hnext, x, k, v), order1, hts1, k)
  {
    CrossRemoved(hts1, hts, k, cut, h, i);
    CrossAt(hts1, k, cut, i);
    var x, v := RefAt(order1, i), mem[pos + 1 + k];
    WriteRelinks(mem, order1, order, k, i, v);
    assert Inside(order1, |mem|);
    hide LevelOk, Cross, Relinked, NextAt, InsertAt;
    LevelRemoved(mem, hnext, order1, hts1, k, cut, i, pos, h, SetMem(mem, x, k, v), SetHead(hnext, x, k, v));
  }

  lemma RemoveOthers(mem: seq<int>, hnext: seq<int>, o: seq<nat>, hts: seq<nat>, all: seq<nat>, x: int, k: nat, v: int, l: nat)
    requires Apart(all, |mem|) && Within(o, all) && IsRef(all, x) && k < Levels == |hnext| && LevelOk(mem, hnext, o, hts, l) && l != k
    ensures x != Head ==> 0 <= x && x + 1 + k < |mem|
    ensures LevelOk(SetMem(mem, x, k, v), SetHead(hnext, x, k, v), o, hts, l)
  {
    if x != Head {
      var p: nat := x;
      OtherWordIn(all, |mem|, p, k + 1, p, 0);
      WriteKeepsLevel(mem, hnext, o, hts, all, p, k + 1, v, l);
    } else {
      LevelFrame(mem, hnext, o, hts, l, mem, hnext[k := v]);
    }
  }

  lemma RemoveRest(mem: seq<int>, order: seq<nat>, szs: seq<nat>, x: int, k: nat, v: int)
    requires Apart(order, |mem|) && IsRef(order, x) && k < Levels && SizeWords(mem, order, szs)
    ensures x != Head ==> 0 <= x && x + 1 + k < |mem|
    ensures SizeWords(SetMem(mem, x, k, v), order, szs) && SameOutside(mem, SetMem(mem, x, k, v), order)
  {
    assert Within(order, order);
    if x != Head {
      var p: nat := x;
      OtherWordIn(order, |mem|, p, k + 1, p, 0);
      WriteKeepsSizes(mem, order, szs, order, p, k + 1, v);
      WriteOutside(mem, order, p, k + 1, v);
    }
  }

  /** One level of the removal, whether or not the block is on it. */
  lemma RemoveStep(mem: seq<int>, hnext: seq<int>, order1: seq<nat>, hts1: seq<nat>, order: seq<nat>, hts: seq<nat>, szs: seq<nat>, k: nat, cut: nat, pos: nat, h: nat, i: nat)
    requires Removing(mem, hnext, order1, hts1, order, hts, k) && k < Levels && Dropping(order1, hts1, order, hts, cut, pos, h, |mem|) && Cross(hts, k, cut, i)
    requires SizeWords(mem, order, szs)
    ensures i <= |order| && pos + 1 + k < |mem| && var x := RefAt(order, i); x != Head ==> 0 <= x && x + 1 + k < |mem|
    ensures Link(mem, hnext, RefAt(order, i), k) == pos <==> h > k
    ensures h <= k ==> Removing(mem, hnext, order1, hts1, order, hts, k + 1)
    ensures h > k ==> var x, v := RefAt(order, i), mem[pos + 1 + k];
                      var mem' := SetMem(mem, x, k, v);
                      Removing(mem', SetHead(hnext, x, k, v), order1, hts1, order, hts, k + 1) && SizeWords(mem', order, szs) && SameOutside(mem, mem', order)
  {
    assert LevelOk(mem, hnext, order, hts, k);
    InsertIndex(order1, cut, pos, cut);
    InsertIndex(hts1, cut, h, cut);
    LinksTo(mem, hnext, order, hts, k, cut, i);
    CrossAt(hts, k, cut, i);
    RefRemoved(order1, order, cut, pos, i);
    assert Inside(order1, |mem|);
    if h > k {
      RemoveLevel(mem, hnext, order1, hts1, order, hts, k, cut, pos, h, i);
      var x, v := RefAt(order, i), mem[pos + 1 + k];
      assert IsRef(order, x) by { if i > 0 { assert order[i - 1] in order; } }
      RemoveRest(mem, order, szs, x, k, v);
      RemoveSpreads(mem, hnext, order1, hts1, order, hts, k, x, v);
    } else {
      LevelNotRemoved(mem, hnext, order1, hts1, k, cut, pos, h);
    }
  }

  lemma RemoveSpreads(mem: seq<int>, hnext: seq<int>, order1: seq<nat>, hts1: seq<nat>, order: seq<nat>, hts: seq<nat>, k: nat, x: int, v: int)
    requires Removing(mem, hnext, order1, hts1, order, hts, k) && k < Levels && Apart(order, |mem|) && Within(order1, order) && IsRef(order, x)
    requires x != Head ==> 0 <= x && x + 1 + k < |mem|
    requires LevelOk(SetMem(mem, x, k, v), SetHead(hnext, x, k, v), order1, hts1, k)
    ensures Removing(SetMem(mem, x, k, v), SetHead(hnext, x, k, v), order1, hts1, order, hts, k + 1)
  {
    assert Within(order, order);
    var mem', hnext' := SetMem(mem, x, k, v), SetHead(hnext, x, k, v);
    hide LevelOk, Apart, Within, SetMem, SetHead;
    forall l | 0 <= l < k ensures LevelOk(mem', hnext', order1, hts1, l) { RemoveOthers(mem, hnext, order1, hts1, order, x, k, v, l); }
    forall l | k < l < Levels ensures LevelOk(mem', hnext', order, hts, l) { RemoveOthers(mem, hnext, order, hts, order, x, k, v, l); }
  }

  lemma SortedRemove(szs: seq<nat>, cut: nat)
    requires Sorted(szs) && cut < |szs|
    ensures Sorted(RemoveAt(szs, cut))
  {
    var szs' := RemoveAt(szs, cut);
    forall i, j | 0 <= i < j < |szs'| ensures szs'[i] <= szs'[j] {
      RemoveIndex(szs, cut, i);
      RemoveIndex(szs, cut, j);
    }
  }

  lemma SizesRemove(mem: seq<int>, order: seq<nat>, szs: seq<nat>, cut: nat)
    requires SizeWords(mem, order, szs) && cut < |order|
    ensures SizeWords(mem, RemoveAt(order, cut), RemoveAt(szs, cut))
  {
    forall i | 0 <= i < |order| - 1 ensures RemoveAt(order, cut)[i] < |mem| && mem[RemoveAt(order, cut)[i]] == RemoveAt(szs, cut)[i] {
      RemoveIndex(order, cut, i);
      RemoveIndex(szs, cut, i);
    }
  }

  lemma HeightsRemove(hts: seq<nat>, hsize: nat, cut: nat)
    requires Heights(hts, hsize) && cut < |hts|
    ensures Heights(RemoveAt(hts, cut), hsize)
  {
    forall i | 0 <= i < |hts| - 1 ensures 1 <= RemoveAt(hts, cut)[i] <= hsize { RemoveIndex(hts, cut, i); }
  }

  /** An empty top level: no block is that high. */
  lemma LowerTop(mem: seq<int>, hnext: seq<int>, hsize: nat, order: seq<nat>, hts: seq<nat>)
    requires 0 < hsize <= Levels && LevelOk(mem, hnext, order, hts, hsize - 1) && Heights(hts, hsize) && hnext[hsize - 1] == Tail
    ensures Heights(hts, hsize - 1)
  {
    var k := hsize - 1;
    LevelSizes(mem, hnext, order, hts, k);
    hide LevelOk, Inside;
    NextIs(hts, k, 0);
    assert NextAt(hts, k, 0) == |hts|;
  }

  /** Unlink the block at `cut` from all its levels and lower the height while the top is empty. */
  method Remove(mem0: seq<int>, hnext0: seq<int>, hsize0: nat, update: seq<int>, pos: nat,
                ghost order: seq<nat>, ghost hts: seq<nat>, ghost szs: seq<nat>, ghost cut: nat, ghost at: seq<nat>)
    returns (mem: seq<int>, hnext: seq<int>, hsize: nat)
    requires Skip(mem0, hnext0, hsize0, order, hts, szs) && cut < |order| == |hts| == |szs| && pos == order[cut]
    requires |update| == hsize0 && Places(update, at, order, hts, cut, 0)
    ensures Skip(mem, hnext, hsize, RemoveAt(order, cut), RemoveAt(hts, cut), RemoveAt(szs, cut)) && SameOutside(mem0, mem, order)
  {
    mem, hnext, hsize := mem0, hnext0, hsize0;
    ghost var order1, hts1, h := RemoveAt(order, cut), RemoveAt(hts, cut), hts[cut];
    RemoveStart(mem, hnext, hsize, order, hts, szs, cut);
    hide Removing, Dropping, Places, Skip, SizeWords, SameOutside, RemoveAt, Heights, LevelOk, AllLevels;
    var k := 0;
    while k < hsize0
      invariant 0 <= k <= hsize0 <= Levels == |hnext| && |mem| == |mem0| && hsize == hsize0
      invariant Removing(mem, hnext, order1, hts1, order, hts, k) && SizeWords(mem, order, szs) && SameOutside(mem0, mem, order)
    {
      PlaceAt(update, at, order, hts, cut, k);
      RemoveStep(mem, hnext, order1, hts1, order, hts, szs, k, cut, pos, h, at[k]);
      var n1 := update[k];
      if Link(mem, hnext, n1, k) == pos {
        ghost var before := mem;
        var v := mem[pos + 1 + k];
        mem, hnext := SetMem(mem, n1, k, v), SetHead(hnext, n1, k, v);
        OutsideTwice(mem0, before, mem, order);
      }
      k := k + 1;
    }
    RemoveAll(mem, hnext, order1, hts1, order, hts, hsize0, cut, pos, h);
    HeightsRemove(hts, hsize, cut);
    while hsize > 0 && hnext[hsize - 1] == Tail
      invariant hsize <= Levels && Heights(hts1, hsize)
    {
      AllLevelsAt(mem, hnext, order1, hts1, hsize - 1);
      LowerTop(mem, hnext, hsize, order1, hts1);
      hsize := hsize - 1;
    }
    RemoveEnd(mem0, hnext0, hsize0, mem, hnext, hsize, order, hts, szs, cut);
  }

  ghost predicate AllLevels(mem: seq<int>, hnext: seq<int>, order: seq<nat>, hts: seq<nat>)
  {
    forall l :: 0 <= l < Levels ==> LevelOk(mem, hnext, order, hts, l)
  }

  lemma AllLevelsAt(mem: seq<int>, hnext: seq<int>, order: seq<nat>, hts: seq<nat>, l: nat)
    requires AllLevels(mem, hnext, order, hts) && l < Levels
    ensures LevelOk(mem, hnext, order, hts, l)
  {
  }

  lemma RemoveStart(mem: seq<int>, hnext: seq<int>, hsize: nat, order: seq<nat>, hts: seq<nat>, szs: seq<nat>, cut: nat)
    requires Skip(mem, hnext, hsize, order, hts, szs) && cut < |order|
    ensures Dropping(RemoveAt(order, cut), RemoveAt(hts, cut), order, hts, cut, order[cut], hts[cut], |mem|)
    ensures Removing(mem, hnext, RemoveAt(order, cut), RemoveAt(hts, cut), order, hts, 0) && SizeWords(mem, order, szs) && SameOutside(mem, mem, order)
    ensures hsize <= Levels == |hnext| && Heights(hts, hsize) && hts[cut] <= hsize
  {
    DroppingOk(order, hts, cut, |mem|);
  }

  /** Levels above the height never had the block. */
  lemma RemoveAll(mem: seq<int>, hnext: seq<int>, order1: seq<nat>, hts1: seq<nat>, order: seq<nat>, hts: seq<nat>, k: nat, cut: nat, pos: nat, h: nat)
    requires Removing(mem, hnext, order1, hts1, order, hts, k) && Dropping(order1, hts1, order, hts, cut, pos, h, |mem|) && h <= k
    ensures AllLevels(mem, hnext, order1, hts1)
  {
    assert Inside(order1, |mem|);
    hide LevelOk, InsertAt, Apart;
    forall l | 0 <= l < Levels ensures LevelOk(mem, hnext, order1, hts1, l) {
      if l >= k { LevelNotRemoved(mem, hnext, order1, hts1, l, cut, pos, h); }
    }
  }

  lemma RemoveEnd(mem0: seq<int>, hnext0: seq<int>, hsize0: nat, mem: seq<int>, hnext: seq<int>, hsize: nat, order: seq<nat>, hts: seq<nat>, szs: seq<nat>, cut: nat)
    requires Skip(mem0, hnext0, hsize0, order, hts, szs) && cut < |order| && |mem| == |mem0| && |hnext| == Levels >= hsize
    requires AllLevels(mem, hnext, RemoveAt(order, cut), RemoveAt(hts, cut)) && Heights(RemoveAt(hts, cut), hsize) && SizeWords(mem, order, szs)
    requires hsize > 0 ==> hnext[hsize - 1] != Tail
    ensures Skip(mem, hnext, hsize, RemoveAt(order, cut), RemoveAt(hts, cut), RemoveAt(szs, cut))
  {
    DroppingOk(order, hts, cut, |mem|);
    SortedRemove(szs, cut);
    SizesRemove(mem, order, szs, cut);
  }

  /** The block found is a smallest one that fits; not found means that none fits. */
  lemma SmallestFit(szs: seq<nat>, req: nat)
    requires Sorted(szs)
    ensures var cut := CutOf(szs, req);
            if cut < |szs| then szs[cut] >= req && forall i :: 0 <= i < |szs| && szs[i] >= req ==> szs[cut] <= szs[i]
            else forall i :: 0 <= i < |szs| ==> szs[i] < req
  {
  }

  /** The structure depends on the words of its own blocks only. */
  lemma SkipFrame(mem: seq<int>, mem': seq<int>, hnext: seq<int>, hsize: nat, order: seq<nat>, hts: seq<nat>, szs: seq<nat>)
    requires Skip(mem, hnext, hsize, order, hts, szs) && |mem| <= |mem'|
    requires forall w: nat :: w < |mem| && !Outside(order, w) ==> mem'[w] == mem[w]
    ensures Skip(mem', hnext, hsize, order, hts, szs)
  {
    forall i | 0 <= i < |order| ensures mem'[order[i]] == mem[order[i]] { InNode(order, i, 0); }
    forall k | 0 <= k < Levels ensures LevelOk(mem', hnext, order, hts, k) {
      assert LevelOk(mem, hnext, order, hts, k);
      forall i | 0 <= i < |order| && hts[i] > k ensures NodeLink(mem', order, hts, k, i) {
        assert NodeLink(mem, order, hts, k, i);
        InNode(order, i, k + 1);
      }
    }
  }

  lemma InNode(order: seq<nat>, i: nat, b: nat)
    requires i < |order| && b < NodeWords
    ensures !Outside(order, order[i] + b)
  {
    var w := order[i] + b;
    assert !(w < order[i] || w >= order[i] + NodeWords);
  }
}
