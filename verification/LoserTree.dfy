/**
 Multi-way merge by a tournament of losers (src/terark/set_op.hpp).

 The n ways are the leaves n .. 2n-1 of an implicit binary tree; the inner nodes
 1 .. n-1 each store the loser of the match between the winners of their two
 subtrees, and the overall winner is kept apart in `head`.
 */
module LoserTrees {

  /** Keys are represented by their rank, so the comparator is `<`. Stable mode
      breaks ties by way number, except between two exhausted ways. */
  predicate Beats(stable: bool, maxKey: int, cache: seq<int>, x: nat, y: nat)
    requires x < |cache| && y < |cache|
  {
    if cache[x] < cache[y] then true
    else if cache[y] < cache[x] then false
    else stable && cache[x] < maxKey && x < y
  }

  /** Node `a` lies on the path from node `b` to the root. */
  predicate Above(a: nat, b: nat)
    ensures Above(a, b) ==> a <= b
  {
    a == b || (a < b && Above(a, b / 2))
  }

  lemma {:induction false} AboveHalf(a: nat, b: nat)
    requires Above(a, b) && a >= 1
    ensures Above(a / 2, b)
  {
    if a == b {
      assert Above(a / 2, b / 2);
    } else {
      AboveHalf(a, b / 2);
    }
  }

  lemma {:induction false} RootAbove(b: nat)
    requires b >= 1
    ensures Above(1, b)
  {
    if b > 1 { RootAbove(b / 2); }
  }

  lemma {:induction false} SiblingsApart(p: nat, b: nat)
    requires p >= 1
    ensures !(Above(2 * p, b) && Above(2 * p + 1, b))
  {
    if b > 2 * p + 1 { SiblingsApart(p, b / 2); }
  }

  /** The match played at inner node `x`: of its two children's winners one is
      stored as the loser and the other goes up, and the loser does not beat it. */
  ghost predicate Match(stable: bool, maxKey: int, cache: seq<int>, tree: seq<nat>, win: seq<nat>, x: nat)
    requires 1 <= x < |tree| == |cache| && |win| == 2 * |cache|
  {
    && win[x] < |cache| && tree[x] < |cache|
    && ((win[x] == win[2*x] && tree[x] == win[2*x+1]) || (win[x] == win[2*x+1] && tree[x] == win[2*x]))
    && !Beats(stable, maxKey, cache, tree[x], win[x])
  }

  ghost predicate LeavesOk(win: seq<nat>, n: nat)
  {
    |win| == 2 * n && forall w :: n <= w < 2 * n ==> win[w] == w - n
  }

  /** Every inner node stores the loser of its two subtree winners. */
  ghost predicate Tournament(stable: bool, maxKey: int, cache: seq<int>, tree: seq<nat>, win: seq<nat>)
  {
    && |tree| == |cache| > 0
    && LeavesOk(win, |cache|)
    && forall x :: 1 <= x < |cache| ==> Match(stable, maxKey, cache, tree, win, x)
  }

  /** The winner of a subtree is one of its leaves. */
  lemma {:induction false} WinnerBelow(stable: bool, maxKey: int, cache: seq<int>, tree: seq<nat>, win: seq<nat>, x: nat)
    requires Tournament(stable, maxKey, cache, tree, win) && 1 <= x < 2 * |cache|
    ensures win[x] < |cache| && Above(x, |cache| + win[x])
    decreases 2 * |cache| - x
  {
    var n := |cache|;
    if x < n {
      assert Match(stable, maxKey, cache, tree, win, x);
      var c := if win[x] == win[2*x] then 2*x else 2*x+1;
      WinnerBelow(stable, maxKey, cache, tree, win, c);
      AboveHalf(c, n + win[x]);
    }
  }

  /** Nobody beats the winner of the whole tournament. */
  lemma WinnerIsBest(stable: bool, maxKey: int, cache: seq<int>, tree: seq<nat>, win: seq<nat>, w: nat)
    requires Tournament(stable, maxKey, cache, tree, win) && w < |cache|
    requires forall v :: 0 <= v < |cache| ==> cache[v] <= maxKey
    ensures win[1] < |cache| && !Beats(stable, maxKey, cache, w, win[1])
  {
    var n := |cache|;
    var y := n + w;
    while y > 1
      invariant 1 <= y < 2 * n
      invariant win[y] < n && !Beats(stable, maxKey, cache, w, win[y])
    {
      assert Match(stable, maxKey, cache, tree, win, y / 2);
      assert 2 * (y / 2) == y || 2 * (y / 2) + 1 == y;
      y := y / 2;
    }
  }

  /** The overall winner has won every match on its way up. */
  lemma {:induction false} PathToHead(stable: bool, maxKey: int, cache: seq<int>, tree: seq<nat>, win: seq<nat>, x: nat)
    requires Tournament(stable, maxKey, cache, tree, win) && 1 <= x < 2 * |cache|
    requires win[1] < |cache| && Above(x, |cache| + win[1])
    ensures win[x] == win[1]
  {
    var n, h := |cache|, win[1];
    if x > 1 {
      var p := x / 2;
      AboveHalf(x, n + h);
      PathToHead(stable, maxKey, cache, tree, win, p);
      assert Match(stable, maxKey, cache, tree, win, p);
      WinnerBelow(stable, maxKey, cache, tree, win, 2*p);
      WinnerBelow(stable, maxKey, cache, tree, win, 2*p+1);
      SiblingsApart(p, n + h);
    }
  }

  // ------------------------------------------------------------------ the ways

  /** A way is sorted and ends with the guard key, which no key exceeds. */
  ghost predicate WayOk<V>(key: V -> int, maxKey: int, way: seq<V>)
  {
    && |way| > 0 && key(way[|way|-1]) == maxKey
    && forall i, j :: 0 <= i <= j < |way| ==> key(way[i]) <= key(way[j])
  }

  ghost predicate WaysOk<V>(key: V -> int, maxKey: int, ways: seq<seq<V>>)
  {
    |ways| > 0 && forall w :: 0 <= w < |ways| ==> WayOk(key, maxKey, ways[w])
  }

  predicate CursorsOk<V>(ways: seq<seq<V>>, pos: seq<nat>)
  {
    |pos| == |ways| && forall w :: 0 <= w < |ways| ==> pos[w] < |ways[w]|
  }

  /** The key every way currently stands at. */
  function Heads<V>(key: V -> int, ways: seq<seq<V>>, pos: seq<nat>): seq<int>
    requires CursorsOk(ways, pos)
  {
    seq(|ways|, w requires 0 <= w < |ways| => key(ways[w][pos[w]]))
  }

  /** Position of one item: its way and its index there. */
  datatype Ref = Ref(way: nat, idx: nat)

  /** Item `r` has not been consumed by cursors `pos` and is not a guard. */
  ghost predicate Pending<V>(key: V -> int, maxKey: int, ways: seq<seq<V>>, pos: seq<nat>, r: Ref)
    requires |pos| == |ways|
  {
    r.way < |ways| && pos[r.way] <= r.idx < |ways[r.way]| && key(ways[r.way][r.idx]) < maxKey
  }

  ghost predicate RefsOk<V>(ways: seq<seq<V>>, from: seq<Ref>)
  {
    forall i :: 0 <= i < |from| ==> from[i].way < |ways| && from[i].idx < |ways[from[i].way]|
  }

  ghost function KeyOf<V>(key: V -> int, ways: seq<seq<V>>, r: Ref): int
    requires r.way < |ways| && r.idx < |ways[r.way]|
  {
    key(ways[r.way][r.idx])
  }

  /** Order of emission: by key, then (stable mode) by way, and within a way by index. */
  ghost predicate Before<V>(key: V -> int, ways: seq<seq<V>>, stable: bool, a: Ref, b: Ref)
    requires a.way < |ways| && a.idx < |ways[a.way]|
    requires b.way < |ways| && b.idx < |ways[b.way]|
  {
    && KeyOf(key, ways, a) <= KeyOf(key, ways, b)
    && (a.way == b.way ==> a.idx < b.idx)
    && (stable && KeyOf(key, ways, a) == KeyOf(key, ways, b) ==> a.way <= b.way)
  }

  /** `from` lists every pending item of `pos` exactly once, in order of emission. */
  ghost predicate IsMerge<V>(key: V -> int, maxKey: int, stable: bool, ways: seq<seq<V>>, pos: seq<nat>, from: seq<Ref>)
    requires |pos| == |ways|
  {
    && RefsOk(ways, from)
    && (forall r :: r in from <==> Pending(key, maxKey, ways, pos, r))
    && (forall i, j :: 0 <= i < j < |from| ==> Before(key, ways, stable, from[i], from[j]))
  }

  /** The stable merge is unique: two merges of the same ways are the same sequence. */
  lemma {:induction false} StableMergeUnique<V>(key: V -> int, maxKey: int, ways: seq<seq<V>>, pos: seq<nat>, a: seq<Ref>, b: seq<Ref>, k: nat)
    requires |pos| == |ways|
    requires IsMerge(key, maxKey, true, ways, pos, a) && IsMerge(key, maxKey, true, ways, pos, b)
    requires k <= |a| && k <= |b| && a[..k] == b[..k]
    ensures a == b
    decreases |a| - k
  {
    if k == |a| && k == |b| {
      assert a == a[..k] && b == b[..k];
    } else if k == |a| {
      assert b[k] in b;
      assert b[k] in a;
      assert a == a[..k];
      NotInPrefix(key, ways, b, k);
      assert false;
    } else if k == |b| {
      assert a[k] in a;
      assert a[k] in b;
      assert b == b[..k];
      NotInPrefix(key, ways, a, k);
      assert false;
    } else {
      assert a[k] == b[k] by { SameNext(key, maxKey, ways, pos, a, b, k); }
      assert a[..k+1] == a[..k] + [a[k]] && b[..k+1] == b[..k] + [b[k]];
      StableMergeUnique(key, maxKey, ways, pos, a, b, k + 1);
    }
  }

  lemma SameNext<V>(key: V -> int, maxKey: int, ways: seq<seq<V>>, pos: seq<nat>, a: seq<Ref>, b: seq<Ref>, k: nat)
    requires |pos| == |ways|
    requires IsMerge(key, maxKey, true, ways, pos, a) && IsMerge(key, maxKey, true, ways, pos, b)
    requires k < |a| && k < |b| && a[..k] == b[..k]
    ensures a[k] == b[k]
  {
    assert a[k] in a && b[k] in b;
    var i :| 0 <= i < |b| && b[i] == a[k];
    var j :| 0 <= j < |a| && a[j] == b[k];
    NotInPrefix(key, ways, a, k);
    NotInPrefix(key, ways, b, k);
    assert forall m :: 0 <= m < k ==> a[..k][m] == a[m] == b[m];
  }

  lemma NotInPrefix<V>(key: V -> int, ways: seq<seq<V>>, s: seq<Ref>, k: nat)
    requires k < |s| && RefsOk(ways, s)
    requires forall i, j :: 0 <= i < j < |s| ==> Before(key, ways, true, s[i], s[j])
    ensures s[k] !in s[..k]
  {
    forall i | 0 <= i < k ensures s[i] != s[k] {
      assert Before(key, ways, true, s[i], s[k]);
    }
  }

  // ------------------------------------------------------------------ the tree

  method LoserWinner(stable: bool, maxKey: int, cache: seq<int>, left: nat, right: nat) returns (loser: nat, winner: nat)
    requires left < |cache| && right < |cache|
    ensures (loser == left && winner == right) || (loser == right && winner == left)
    ensures !Beats(stable, maxKey, cache, loser, winner)
  {
    if Beats(stable, maxKey, cache, left, right) {
      loser, winner := right, left;
    } else {
      loser, winner := left, right;
    }
  }

  /** First half of the construction: the nodes that have a leaf among their children. */
  method PlayLeafMatches(stable: bool, maxKey: int, cache: seq<int>)
    returns (tree: seq<nat>, winner: seq<nat>, ghost win: seq<nat>)
    requires |cache| > 1
    ensures Built(stable, maxKey, cache, tree, win, winner, |cache| / 2)
  {
    var len := |cache|;
    tree, winner := seq(len, _ => 0), seq(len, _ => 0);
    win := seq(2 * len, x => if x < len then 0 else x - len);
    var mid := len / 2;
    var i := len - 1;
    while i > mid
      invariant mid <= i < len
      invariant Built(stable, maxKey, cache, tree, win, winner, i + 1)
    {
      // both children are leaves
      var left := 2 * i - len;
      var l, w := LoserWinner(stable, maxKey, cache, left, left + 1);
      BuildStep(stable, maxKey, cache, tree, win, winner, i, l, w);
      tree, winner, win := tree[i := l], winner[i := w], win[i := w];
      i := i - 1;
    }
    // the one node that may have an inner left child and the first leaf on its right
    var left, right := 0, 1;
    if len % 2 == 1 { left, right := winner[len - 1], 0; }
    var l, w := LoserWinner(stable, maxKey, cache, left, right);
    BuildStep(stable, maxKey, cache, tree, win, winner, mid, l, w);
    tree, winner, win := tree[mid := l], winner[mid := w], win[mid := w];
  }

  /** Second half: the nodes with two inner children, a level at a time. The last
      round also plays the unused node 0. */
  method PlayInnerMatches(stable: bool, maxKey: int, cache: seq<int>, tree0: seq<nat>, winner0: seq<nat>, ghost win0: seq<nat>)
    returns (tree: seq<nat>, winner: seq<nat>, ghost win: seq<nat>)
    requires |cache| > 1 && Built(stable, maxKey, cache, tree0, win0, winner0, |cache| / 2)
    ensures Built(stable, maxKey, cache, tree, win, winner, 1)
  {
    tree, winner, win := tree0, winner0, win0;
    var i := |cache| / 2;
    while i > 0
      invariant 0 <= i <= |cache| / 2
      invariant Built(stable, maxKey, cache, tree, win, winner, i)
    {
      var j := i;
      while j > i / 2
        invariant i / 2 <= j <= i
        invariant Built(stable, maxKey, cache, tree, win, winner, j)
      {
        j := j - 1;
        var l, w := LoserWinner(stable, maxKey, cache, winner[2 * j], winner[2 * j + 1]);
        BuildStep(stable, maxKey, cache, tree, win, winner, j, l, w);
        tree, winner, win := tree[j := l], winner[j := w], win[j := w];
      }
      i := i / 2;
    }
  }

  class LoserTree<V> {
    const key: V -> int
    const maxKey: int
    const stable: bool
    const ways: seq<seq<V>>
    /** The iterators: way w stands at ways[w][pos[w]]. */
    var pos: seq<nat>
    var cache: seq<int>
    var tree: seq<nat>
    var head: nat
    ghost var win: seq<nat>

    /** What holds before `Start`: the guard-terminated ways the caller supplied. */
    ghost predicate Loaded()
      reads this
    {
      WaysOk(key, maxKey, ways) && CursorsOk(ways, pos)
    }

    ghost predicate Valid()
      reads this
    {
      && Loaded()
      && cache == Heads(key, ways, pos)
      && Tournament(stable, maxKey, cache, tree, win)
      && head == win[1]
    }

    lemma HeadIsMinimum(w: nat)
      requires Valid() && w < |ways|
      ensures head < |ways| && !Beats(stable, maxKey, cache, w, head)
    {
      CacheBounded();
      WinnerIsBest(stable, maxKey, cache, tree, win, w);
    }

    lemma CacheBounded()
      requires Valid()
      ensures forall w :: 0 <= w < |ways| ==> cache[w] <= maxKey
      ensures head < |ways|
    {
      forall w | 0 <= w < |ways| ensures cache[w] <= maxKey {
        assert WayOk(key, maxKey, ways[w]);
      }
      WinnerBelow(stable, maxKey, cache, tree, win, 1);
    }

    constructor (key: V -> int, maxKey: int, stable: bool, ways: seq<seq<V>>)
      requires WaysOk(key, maxKey, ways)
      ensures this.key == key && this.maxKey == maxKey && this.stable == stable && this.ways == ways
      ensures Loaded() && pos == seq(|ways|, _ => 0)
    {
      this.key, this.maxKey, this.stable, this.ways := key, maxKey, stable, ways;
      pos := seq(|ways|, _ => 0);
      cache, tree, head, win := [], [], 0, [];
      new;
      forall w | 0 <= w < |ways| ensures pos[w] < |ways[w]| { assert WayOk(key, maxKey, ways[w]); }
    }

    /** Bottom-up construction in n - 1 matches. */
    method Start()
      requires Loaded()
      modifies this
      ensures Valid() && pos == old(pos)
      ensures head < |ways| && forall w :: 0 <= w < |ways| ==> !Beats(stable, maxKey, cache, w, head)
    {
      var len := |ways|;
      cache := Heads(key, ways, pos);
      var t: seq<nat> := seq(len, _ => 0);
      ghost var g: seq<nat> := seq(2 * len, x => if x < len then 0 else x - len);
      var h := 0;
      if len > 1 {
        var winner: seq<nat>;
        t, winner, g := PlayLeafMatches(stable, maxKey, cache);
        t, winner, g := PlayInnerMatches(stable, maxKey, cache, t, winner, g);
        h := winner[1];
      }
      tree, win, head := t, g, h;
      forall w | 0 <= w < |ways| ensures head < |ways| && !Beats(stable, maxKey, cache, w, head) { HeadIsMinimum(w); }
    }

    predicate Empty()
      requires head < |cache|
      reads this
    {
      !(cache[head] < maxKey)
    }

    /** Advance the winning way and replay its matches up to the root. */
    method Increment()
      requires Valid() && head < |cache| && !Empty()
      modifies this
      ensures Valid() && pos == old(pos[head := pos[head] + 1])
    {
      var top := head;
      CacheBounded();
      assert WayOk(key, maxKey, ways[top]);
      ghost var cache0 := cache;
      pos := pos[top := pos[top] + 1];
      cache := cache[top := key(ways[top][pos[top]])];
      ReplayStart(stable, maxKey, cache0, cache, tree, win, top);
      Adjust(top);
    }

    /** Replay from leaf `top`. On entry every match off its path is in order, and
        on its path `top` was the winner everywhere. */
    method Adjust(top: nat)
      requires Loaded() && top < |ways| && cache == Heads(key, ways, pos)
      requires Replaying(stable, maxKey, cache, tree, win, |ways| + top)
      modifies this`tree, this`head, this`win
      ensures Valid()
    {
      var s, c := top, |ways| + top;
      while c / 2 > 0
        invariant 1 <= c && s < |cache| && Replaying(stable, maxKey, cache, tree, win, c) && win[c] == s
      {
        var p := c / 2;
        ReplayStep(stable, maxKey, cache, tree, win, c);
        var t := tree[p];
        if Beats(stable, maxKey, cache, t, s) {
          tree := tree[p := s];
          s := t;
        }
        win := win[p := s];
        c := p;
      }
      head := s;
    }
  }

  /** Way `top` wins only on its own path, so elsewhere its key does not matter. */
  lemma UntouchedMatch(stable: bool, maxKey: int, cache0: seq<int>, tree: seq<nat>, win: seq<nat>, top: nat, x: nat)
    requires Tournament(stable, maxKey, cache0, tree, win)
    requires 1 <= x < |cache0| && top < |cache0| && !Above(x, |cache0| + top)
    ensures win[x] != top && tree[x] != top
  {
    var n := |cache0|;
    assert Match(stable, maxKey, cache0, tree, win, x);
    WinnerBelow(stable, maxKey, cache0, tree, win, x);
    WinnerBelow(stable, maxKey, cache0, tree, win, 2*x);
    WinnerBelow(stable, maxKey, cache0, tree, win, 2*x+1);
    if tree[x] == top {
      var c := if tree[x] == win[2*x] then 2*x else 2*x+1;
      AboveHalf(c, n + top);
      assert false;
    }
  }

  /** The loser at `x` is the winner of the child of `x` that does not lead to `c`. */
  ghost predicate OtherChild(tree: seq<nat>, win: seq<nat>, x: nat, c: nat)
    requires 1 <= x < |tree| && |win| == 2 * |tree|
  {
    && tree[x] < |tree|
    && (Above(2*x, c) ==> tree[x] == win[2*x+1])
    && (Above(2*x+1, c) ==> tree[x] == win[2*x])
  }

  /** State of a replay that has reached node `c`: the matches still to be replayed
      are those strictly above `c`, and there the losers are still the old ones. */
  ghost predicate Replaying(stable: bool, maxKey: int, cache: seq<int>, tree: seq<nat>, win: seq<nat>, c: nat)
  {
    && |tree| == |cache| > 0 && LeavesOk(win, |cache|) && 1 <= c < 2 * |cache|
    && (forall x {:trigger OtherChild(tree, win, x, c)} :: 1 <= x < c && x < |tree| && Above(x, c) ==> OtherChild(tree, win, x, c))
    && (forall x {:trigger Match(stable, maxKey, cache, tree, win, x)} :: 1 <= x < |tree| && (x == c || !Above(x, c)) ==> Match(stable, maxKey, cache, tree, win, x))
  }

  lemma ReplayStart(stable: bool, maxKey: int, cache0: seq<int>, cache: seq<int>, tree: seq<nat>, win: seq<nat>, top: nat)
    requires Tournament(stable, maxKey, cache0, tree, win) && top == win[1] < |cache0| == |cache|
    requires forall w :: 0 <= w < |cache| && w != top ==> cache[w] == cache0[w]
    ensures Replaying(stable, maxKey, cache, tree, win, |cache| + top)
  {
    var n := |cache|;
    forall x | 1 <= x < n && !Above(x, n + top) ensures Match(stable, maxKey, cache, tree, win, x) {
      assert Match(stable, maxKey, cache0, tree, win, x);
      UntouchedMatch(stable, maxKey, cache0, tree, win, top, x);
    }
    var leaf := n + top;
    forall x | 1 <= x < n && Above(x, leaf) ensures OtherChild(tree, win, x, leaf) {
      assert Match(stable, maxKey, cache0, tree, win, x);
      PathToHead(stable, maxKey, cache0, tree, win, x);
      if Above(2*x, n + top) { PathToHead(stable, maxKey, cache0, tree, win, 2*x); }
      if Above(2*x+1, n + top) { PathToHead(stable, maxKey, cache0, tree, win, 2*x+1); }
    }
  }

  /** One match of the replay, at the parent of `c`. */
  lemma ReplayStep(stable: bool, maxKey: int, cache: seq<int>, tree: seq<nat>, win: seq<nat>, c: nat)
    requires Replaying(stable, maxKey, cache, tree, win, c) && c >= 2 && win[c] < |cache|
    ensures tree[c/2] < |cache|
    ensures var p, t, s := c / 2, tree[c/2], win[c];
            if Beats(stable, maxKey, cache, t, s)
            then Replaying(stable, maxKey, cache, tree[p := s], win[p := t], p)
            else Replaying(stable, maxKey, cache, tree, win[p := s], p)
  {
    var p, t, s := c / 2, tree[c/2], win[c];
    assert Above(p, p) && Above(p, c);
    assert OtherChild(tree, win, p, c);
    var swap := Beats(stable, maxKey, cache, t, s);
    var tree' := if swap then tree[p := s] else tree;
    var win' := win[p := if swap then t else s];
    assert tree[p := tree[p]] == tree;
    forall x | 1 <= x < p && x < |tree| && Above(x, p) ensures OtherChild(tree', win', x, p) {
      assert OtherChild(tree, win, x, c);
    }
    forall x | 1 <= x < |tree| && (x == p || !Above(x, p)) ensures Match(stable, maxKey, cache, tree', win', x) {
      if x != p {
        assert Match(stable, maxKey, cache, tree, win, x);
        assert Above(p / 2, p);
      }
    }
  }

  /** State of the construction once the matches at `lo` and beyond are played. */
  ghost predicate Built(stable: bool, maxKey: int, cache: seq<int>, tree: seq<nat>, win: seq<nat>, winner: seq<nat>, lo: nat)
  {
    && |tree| == |cache| == |winner| && LeavesOk(win, |cache|)
    && (forall x :: 0 <= x < |winner| ==> winner[x] < |cache|)
    && (forall x {:trigger winner[x]} :: 1 <= x < |cache| && lo <= x ==> winner[x] == win[x])
    && (forall x :: 1 <= x < |cache| && lo <= x ==> Match(stable, maxKey, cache, tree, win, x))
  }

  lemma BuildStep(stable: bool, maxKey: int, cache: seq<int>, tree: seq<nat>, win: seq<nat>, winner: seq<nat>, j: nat, l: nat, w: nat)
    requires Built(stable, maxKey, cache, tree, win, winner, j + 1) && j < |cache|
    requires l < |cache| && w < |cache| && !Beats(stable, maxKey, cache, l, w)
    requires j > 0 ==> (l == win[2*j] && w == win[2*j+1]) || (l == win[2*j+1] && w == win[2*j])
    ensures Built(stable, maxKey, cache, tree[j := l], win[j := w], winner[j := w], j)
  {
    var tree', win' := tree[j := l], win[j := w];
    forall x | 1 <= x < |cache| && j < x ensures Match(stable, maxKey, cache, tree', win', x) {
      assert Match(stable, maxKey, cache, tree, win, x);
    }
  }
}
