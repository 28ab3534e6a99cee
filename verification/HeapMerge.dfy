/**
 The hole-based heap primitives (src/terark/heap_ext.hpp) and the heap-driven
 multi-way merge built on them (src/terark/set_op.hpp).
 */
module HeapExt {
  import opened LoserTrees

  ghost predicate StrictWeak<T(!new)>(comp: (T, T) -> bool)
  {
    && (forall x :: !comp(x, x))
    && (forall x, y :: comp(x, y) ==> !comp(y, x))
    && (forall x, y, z {:trigger comp(x, y), comp(y, z)} :: !comp(x, y) && !comp(y, z) ==> !comp(x, z))
  }

  function Parent(i: nat): nat
    requires i > 0
  {
    (i - 1) / 2
  }

  /** Position `i` belongs to the subtree rooted at `top`. */
  predicate Under(top: nat, i: nat)
  {
    Above(top + 1, i + 1)
  }

  /** No child in the subtree of `top` ranks above its parent, except where `hole` is involved;
      there the grandparent stands in. */
  ghost predicate HeapButHole<T>(comp: (T, T) -> bool, s: seq<T>, top: nat, hole: nat)
  {
    && top < |s| && hole < |s| && Under(top, hole)
    && (forall c {:trigger Under(top, c)} :: top < c < |s| && Under(top, c) && c != hole && Parent(c) != hole ==> !comp(s[Parent(c)], s[c]))
    && (forall c {:trigger Under(top, c)} :: top < c < |s| && Under(top, c) && hole != top && Parent(c) == hole ==> !comp(s[Parent(hole)], s[c]))
  }

  ghost predicate IsHeap<T>(comp: (T, T) -> bool, s: seq<T>, top: nat)
  {
    forall c {:trigger Under(top, c)} :: top < c < |s| && Under(top, c) ==> !comp(s[Parent(c)], s[c])
  }

  lemma UnderParent(top: nat, c: nat)
    requires top < c
    ensures Under(top, c) <==> Under(top, Parent(c))
    ensures Under(top, c) ==> top <= Parent(c)
  {
    assert (c + 1) / 2 == Parent(c) + 1;
  }

  lemma Refill<T>(s: seq<T>, h: nat, c: nat, v: T)
    requires h < |s| && c < |s| && h != c
    ensures multiset(s[h := s[c]][c := v]) == multiset(s[h := v])
  {
    assert s[h := s[c]][c := v] == s[c := v][h := s[c]];
  }

  /** One step of sinking the hole: the better child `c` moves up into it. */
  lemma HoleSinks<T(!new)>(comp: (T, T) -> bool, s: seq<T>, top: nat, hole: nat, c: nat, s': seq<T>)
    requires StrictWeak(comp) && HeapButHole(comp, s, top, hole)
    requires hole < c < |s| && Parent(c) == hole && s' == s[hole := s[c]]
    requires forall d :: hole < d < |s| && Parent(d) == hole ==> !comp(s[c], s[d])
    ensures HeapButHole(comp, s', top, c)
  {
    UnderParent(top, c);
    forall d | top < d < |s| && Under(top, d) && d != c && Parent(d) != c ensures !comp(s'[Parent(d)], s'[d]) {
      UnderParent(top, d);
    }
    forall d | top < d < |s| && Under(top, d) && Parent(d) == c ensures !comp(s'[hole], s'[d]) {
      assert !comp(s[Parent(d)], s[d]);
    }
  }

  method FillFromChild<T(!new)>(a: array<T>, ghost top: nat, ghost len: nat, hole: nat, c: nat, ghost comp: (T, T) -> bool, ghost v: T)
    requires StrictWeak(comp) && top < len <= a.Length && HeapButHole(comp, a[..len], top, hole)
    requires hole < c < len && Parent(c) == hole
    requires forall d :: hole < d < len && Parent(d) == hole ==> !comp(a[c], a[d])
    modifies a
    ensures HeapButHole(comp, a[..len], top, c)
    ensures multiset(a[..len][c := v]) == old(multiset(a[..len][hole := v]))
    ensures a[len..] == old(a[len..])
  {
    ghost var s := a[..len];
    a[hole] := a[c];
    assert a[..len] == s[hole := s[c]];
    Refill(s, hole, c, v);
    HoleSinks(comp, s, top, hole, c, a[..len]);
  }

  /** Sink the hole to a leaf. */
  method HoleDown<T(!new)>(a: array<T>, top: nat, len: nat, comp: (T, T) -> bool, ghost v: T) returns (hole: nat)
    requires StrictWeak(comp) && top < len <= a.Length
    requires HeapButHole(comp, a[..len], top, top)
    modifies a
    ensures HeapButHole(comp, a[..len], top, hole) && 2 * hole + 1 >= len
    ensures multiset(a[..len][hole := v]) == old(multiset(a[..len][top := v]))
    ensures a[len..] == old(a[len..])
  {
    hole := top;
    var child2 := 2 * hole + 2;
    while child2 < len
      invariant child2 == 2 * hole + 2
      invariant HeapButHole(comp, a[..len], top, hole)
      invariant multiset(a[..len][hole := v]) == old(multiset(a[..len][top := v]))
      invariant a[len..] == old(a[len..])
      decreases len - hole
    {
      if comp(a[child2], a[child2-1]) {
        child2 := child2 - 1;
      }
      FillFromChild(a, top, len, hole, child2, comp, v);
      hole := child2;
      child2 := 2 * hole + 2;
    }
    if child2 == len {
      child2 := child2 - 1;
      FillFromChild(a, top, len, hole, child2, comp, v);
      hole := child2;
    }
  }

  /** Everything below the hole is outranked by `val`. */
  ghost predicate Fits<T>(comp: (T, T) -> bool, s: seq<T>, hole: nat, val: T)
  {
    forall c :: hole < c < |s| && Parent(c) == hole ==> !comp(val, s[c])
  }

  lemma HoleRises<T(!new)>(comp: (T, T) -> bool, s: seq<T>, top: nat, hole: nat, val: T, s': seq<T>)
    requires StrictWeak(comp) && HeapButHole(comp, s, top, hole) && Fits(comp, s, hole, val)
    requires hole > top && comp(s[Parent(hole)], val) && s' == s[hole := s[Parent(hole)]]
    ensures HeapButHole(comp, s', top, Parent(hole)) && Fits(comp, s', Parent(hole), val)
  {
    var p := Parent(hole);
    UnderParent(top, hole);
    forall d | top < d < |s| && Under(top, d) && d != p && Parent(d) != p ensures !comp(s'[Parent(d)], s'[d]) {
      UnderParent(top, d);
      if Parent(d) == hole { assert !comp(s[p], s[d]); }
    }
    if p != top { UnderParent(top, p); }
    forall d | top < d < |s| && Under(top, d) && p != top && Parent(d) == p ensures !comp(s'[Parent(p)], s'[d]) {
      assert !comp(s[Parent(p)], s[p]);
    }
    forall d | p < d < |s| && Parent(d) == p ensures !comp(val, s'[d]) {
      UnderParent(top, d);
      assert d != hole ==> !comp(s[p], s[d]);
    }
  }

  lemma HoleFilled<T(!new)>(comp: (T, T) -> bool, s: seq<T>, top: nat, hole: nat, val: T)
    requires HeapButHole(comp, s, top, hole) && Fits(comp, s, hole, val)
    requires hole > top ==> !comp(s[Parent(hole)], val)
    ensures IsHeap(comp, s[hole := val], top)
  {
    var s' := s[hole := val];
    forall c | top < c < |s| && Under(top, c) ensures !comp(s'[Parent(c)], s'[c]) { }
  }

  /** Raise the hole while its parent ranks below `val`, then store `val` there. */
  method HoleUp<T(!new)>(a: array<T>, hole0: nat, top: nat, val: T, len: nat, comp: (T, T) -> bool)
    requires StrictWeak(comp) && len <= a.Length
    requires HeapButHole(comp, a[..len], top, hole0) && Fits(comp, a[..len], hole0, val)
    modifies a
    ensures IsHeap(comp, a[..len], top)
    ensures multiset(a[..len]) == old(multiset(a[..len][hole0 := val]))
    ensures a[len..] == old(a[len..])
  {
    var hole: nat := hole0;
    while hole > top && comp(a[Parent(hole)], val)
      invariant HeapButHole(comp, a[..len], top, hole) && Fits(comp, a[..len], hole, val)
      invariant multiset(a[..len][hole := val]) == old(multiset(a[..len][hole0 := val]))
      invariant a[len..] == old(a[len..])
    {
      UnderParent(top, hole);
      ghost var s := a[..len];
      a[hole] := a[Parent(hole)];
      Refill(s, hole, Parent(hole), val);
      HoleRises(comp, s, top, hole, val, a[..len]);
      hole := Parent(hole);
    }
    HoleFilled(comp, a[..len], top, hole, val);
    ghost var s := a[..len];
    a[hole] := val;
    assert a[..len] == s[hole := val];
  }

  /** Replace the element at `hole` by `val` in a heap that is in order below it. */
  method AdjustHeap<T(!new)>(a: array<T>, hole: nat, len: nat, val: T, comp: (T, T) -> bool)
    requires StrictWeak(comp) && hole < len <= a.Length
    requires HeapButHole(comp, a[..len], hole, hole)
    modifies a
    ensures IsHeap(comp, a[..len], hole)
    ensures multiset(a[..len]) == old(multiset(a[..len][hole := val]))
    ensures a[len..] == old(a[len..])
  {
    var leafHole := HoleDown(a, hole, len, comp, val);
    HoleUp(a, leafHole, hole, val, len, comp);
  }

  lemma OpenRoot<T>(comp: (T, T) -> bool, s: seq<T>, n: nat)
    requires HeapButHole(comp, s, 0, 0) && 0 < n <= |s|
    ensures HeapButHole(comp, s[..n], 0, 0)
  {
  }

  lemma LastToRoot<T>(s: seq<T>)
    requires |s| > 1
    ensures multiset(s[..|s|-1][0 := s[|s|-1]]) == multiset(s) - multiset{s[0]}
  {
    assert s == s[..|s|-1] + [s[|s|-1]];
  }

  lemma OnlyRoot<T>(comp: (T, T) -> bool, s: seq<T>, none: seq<T>)
    requires |s| == 1 && none == []
    ensures IsHeap(comp, none, 0) && multiset(none) == multiset(s) - multiset{s[0]}
  {
    assert s == [s[0]];
  }

  /** Drop the root: the last element takes its place. The slot of the last element is left as garbage. */
  method PopHeapIgnoreTop<T(!new)>(a: array<T>, len: nat, comp: (T, T) -> bool)
    requires StrictWeak(comp) && 0 < len <= a.Length && HeapButHole(comp, a[..len], 0, 0)
    modifies a
    ensures IsHeap(comp, a[..len-1], 0)
    ensures multiset(a[..len-1]) == old(multiset(a[..len]) - multiset{a[0]})
  {
    hide *;
    ghost var s := a[..len];
    if len > 1 {
      OpenRoot(comp, s, len - 1);
      assert a[..len-1] == s[..len-1];
      LastToRoot(s);
      AdjustHeap(a, 0, len - 1, a[len-1], comp);
    } else {
      OnlyRoot(comp, s, a[..0]);
    }
  }

  /** The root has been given a new value; everything else is still in order. */
  method AdjustHeapTop<T(!new)>(a: array<T>, len: nat, comp: (T, T) -> bool)
    requires StrictWeak(comp) && 0 < len <= a.Length && HeapButHole(comp, a[..len], 0, 0)
    modifies a
    ensures IsHeap(comp, a[..len], 0)
    ensures multiset(a[..len]) == old(multiset(a[..len]))
  {
    if len > 1 {
      assert a[..len][0 := a[0]] == a[..len];
      AdjustHeap(a, 0, len, a[0], comp);
    }
  }

  /** The root of a heap is outranked by nobody. */
  lemma {:induction false} RootRules<T(!new)>(comp: (T, T) -> bool, s: seq<T>, i: nat)
    requires StrictWeak(comp) && IsHeap(comp, s, 0) && i < |s|
    ensures !comp(s[0], s[i])
  {
    if i > 0 {
      RootAbove(i + 1);
      assert Under(0, i);
      RootRules(comp, s, Parent(i));
    }
  }
}

module HeapMerge {
  import opened LoserTrees
  import opened MultiWayAlgorithms
  import opened HeapExt

  /** One input of the merge: items [first, second) of way `index`. */
  datatype Way = Way(index: nat, first: nat, second: nat)

  function FrontKey<V>(key: V -> int, ways: seq<seq<V>>, w: Way): int
  {
    if w.index < |ways| && w.first < |ways[w.index]| then key(ways[w.index][w.first]) else 0
  }

  /** The heap comparator: `x` ranks below `y` when `y` is to be emitted first. */
  function Comparator<V>(key: V -> int, ways: seq<seq<V>>, stable: bool): (Way, Way) -> bool
  {
    (x: Way, y: Way) =>
      if FrontKey(key, ways, y) < FrontKey(key, ways, x) then true
      else if FrontKey(key, ways, x) < FrontKey(key, ways, y) then false
      else stable && y.index < x.index
  }

  lemma ComparatorOk<V>(key: V -> int, ways: seq<seq<V>>, stable: bool)
    ensures StrictWeak(Comparator(key, ways, stable))
  {
  }

  /** Way w ends before its first guard key, at index ends[w]. */
  ghost predicate EndsOk<V>(key: V -> int, maxKey: int, ways: seq<seq<V>>, ends: seq<nat>)
  {
    && |ends| == |ways|
    && (forall w :: 0 <= w < |ways| ==> ends[w] < |ways[w]| && maxKey <= key(ways[w][ends[w]]))
    && (forall w, i :: 0 <= w < |ways| && 0 <= i < ends[w] ==> key(ways[w][i]) < maxKey)
  }

  /** The heap holds exactly the ways that are not exhausted, each once, at its cursor. */
  ghost predicate Represents(pos: seq<nat>, ends: seq<nat>, heap: multiset<Way>)
  {
    && |pos| == |ends|
    && (forall w :: 0 <= w < |pos| ==> pos[w] <= ends[w])
    && forall x :: heap[x] == if x.index < |pos| && x.first == pos[x.index] < ends[x.index] == x.second then 1 else 0
  }

  ghost function FrontAdvanced(s: seq<Way>): multiset<Way>
    requires |s| > 0
  {
    var next := s[0].(first := s[0].first + 1);
    if next.first == next.second then multiset(s) - multiset{s[0]} else multiset(s) - multiset{s[0]} + multiset{next}
  }

  /** The root has been advanced: drop it if it is exhausted, otherwise let it sink. */
  method AdjustForUpdateTop(arr: array<Way>, size: nat, comp: (Way, Way) -> bool) returns (size': nat)
    requires StrictWeak(comp) && 0 < size <= arr.Length && HeapButHole(comp, arr[..size], 0, 0)
    modifies arr
    ensures size' <= arr.Length && IsHeap(comp, arr[..size'], 0)
    ensures multiset(arr[..size']) == old(if arr[0].first == arr[0].second then multiset(arr[..size]) - multiset{arr[0]} else multiset(arr[..size]))
  {
    if arr[0].first == arr[0].second {
      PopHeapIgnoreTop(arr, size, comp);
      size' := size - 1;
    } else {
      AdjustHeapTop(arr, size, comp);
      size' := size;
    }
  }

  method AdvanceFront(arr: array<Way>, size: nat, comp: (Way, Way) -> bool) returns (size': nat)
    requires StrictWeak(comp) && 0 < size <= arr.Length && IsHeap(comp, arr[..size], 0)
    modifies arr
    ensures size' <= arr.Length && IsHeap(comp, arr[..size'], 0)
    ensures multiset(arr[..size']) == FrontAdvanced(old(arr[..size]))
  {
    hide IsHeap, HeapButHole, StrictWeak, FrontAdvanced;
    ghost var s := arr[..size];
    var next := arr[0].(first := arr[0].first + 1);
    Reopened(comp, s, next);
    arr[0] := next;
    assert arr[..size] == s[0 := next];
    size' := AdjustForUpdateTop(arr, size, comp);
  }

  class HeapMultiWay<V> {
    const key: V -> int
    const maxKey: int
    const stable: bool
    const ways: seq<seq<V>>
    const arr: array<Way>
    var size: nat
    ghost const ends: seq<nat>
    ghost var pos: seq<nat>

    ghost predicate Valid()
      reads this, arr
    {
      && WaysOk(key, maxKey, ways) && EndsOk(key, maxKey, ways, ends) && size <= arr.Length
      && Represents(pos, ends, multiset(arr[..size]))
      && IsHeap(Comparator(key, ways, stable), arr[..size], 0)
    }

    /** The heap is taken as the standard library's make_heap leaves it. */
    constructor (key: V -> int, maxKey: int, stable: bool, ways: seq<seq<V>>, heap: array<Way>, ghost ends: seq<nat>, ghost pos: seq<nat>)
      requires WaysOk(key, maxKey, ways) && EndsOk(key, maxKey, ways, ends) && Represents(pos, ends, multiset(heap[..]))
      requires IsHeap(Comparator(key, ways, stable), heap[..], 0)
      ensures Valid() && this.key == key && this.maxKey == maxKey && this.stable == stable && this.ways == ways
      ensures this.pos == pos && arr == heap && size == heap.Length
    {
      this.key, this.maxKey, this.stable, this.ways, this.arr, this.pos, this.ends := key, maxKey, stable, ways, heap, pos, ends;
      size := heap.Length;
      new;
      assert arr[..size] == arr[..];
    }

    lemma FrontOk()
      requires Valid() && size > 0
      ensures arr[0].index < |pos| && arr[0].first == pos[arr[0].index] < ends[arr[0].index] == arr[0].second
    {
      assert arr[..size][0] in multiset(arr[..size]);
    }

    /** Advance the front way; drop it when it is exhausted. */
    method Increment()
      requires Valid() && size > 0
      modifies this`size, this`pos, arr
      ensures Valid()
      ensures old(arr[0].index) < |old(pos)| && pos == old(pos[arr[0].index := pos[arr[0].index] + 1])
    {
      hide Represents, IsHeap, StrictWeak, EndsOk, WaysOk, Comparator, FrontAdvanced;
      FrontOk();
      ComparatorOk(key, ways, stable);
      Retire(pos, ends, arr[..size]);
      pos := pos[arr[0].index := arr[0].first + 1];
      size := AdvanceFront(arr, size, Comparator(key, ways, stable));
    }

    /** The front way is the one that no other way beats. */
    lemma FrontIsMinimum(w: nat)
      requires Valid() && size > 0 && w < |ways| && CursorsOk(ways, pos)
      ensures arr[0].index < |ways| && !Beats(stable, maxKey, Heads(key, ways, pos), w, arr[0].index)
    {
      FrontOk();
      var me := Way(w, pos[w], ends[w]);
      if pos[w] < ends[w] {
        assert me in multiset(arr[..size]);
        assert me in arr[..size];
        var i :| 0 <= i < size && arr[..size][i] == me;
        ComparatorOk(key, ways, stable);
        RootRules(Comparator(key, ways, stable), arr[..size], i);
      }
    }

    lemma InRange()
      requires Valid()
      ensures CursorsOk(ways, pos)
    {
    }

    /** What the merge loop needs to know about the front of the heap. */
    lemma FrontReady()
      requires Valid() && size > 0
      ensures CursorsOk(ways, pos) && arr[0].index < |ways| && arr[0].first == pos[arr[0].index]
      ensures Heads(key, ways, pos)[arr[0].index] < maxKey
      ensures forall w :: 0 <= w < |ways| ==> !Beats(stable, maxKey, Heads(key, ways, pos), w, arr[0].index)
    {
      FrontOk();
      forall w | 0 <= w < |ways| ensures !Beats(stable, maxKey, Heads(key, ways, pos), w, arr[0].index) { FrontIsMinimum(w); }
    }

    lemma AllExhausted()
      requires Valid() && size == 0
      ensures CursorsOk(ways, pos) && forall w :: 0 <= w < |ways| ==> Heads(key, ways, pos)[w] >= maxKey
    {
      forall w | 0 <= w < |ways| ensures Heads(key, ways, pos)[w] >= maxKey {
        assert multiset(arr[..0])[Way(w, pos[w], ends[w])] == 0;
      }
    }
  }

  lemma Reopened(comp: (Way, Way) -> bool, s: seq<Way>, next: Way)
    requires IsHeap(comp, s, 0) && |s| > 0
    ensures HeapButHole(comp, s[0 := next], 0, 0)
    ensures next == s[0].(first := s[0].first + 1) ==>
              FrontAdvanced(s) == if next.first == next.second then multiset(s[0 := next]) - multiset{next} else multiset(s[0 := next])
  {
    SwapRoot(s, next);
  }

  lemma SwapRoot(s: seq<Way>, next: Way)
    requires |s| > 0
    ensures multiset(s[0 := next]) == multiset(s) - multiset{s[0]} + multiset{next}
    ensures multiset(s[0 := next]) - multiset{next} == multiset(s) - multiset{s[0]}
  {
  }

  /** The front of the heap is replaced by its successor, or goes away. */
  lemma Retire(pos: seq<nat>, ends: seq<nat>, s: seq<Way>)
    requires |s| > 0 && Represents(pos, ends, multiset(s))
    requires s[0].index < |pos| && s[0].first == pos[s[0].index] < ends[s[0].index] == s[0].second
    ensures Represents(pos[s[0].index := s[0].first + 1], ends, FrontAdvanced(s))
  {
    assert multiset(s)[s[0]] == 1;
  }

  /** The same generic merge loop, driven by the heap. */
  method Merge<V>(h: HeapMultiWay<V>) returns (out: seq<V>, ghost from: seq<Ref>)
    requires h.Valid()
    modifies h, h.arr
    ensures h.Valid() && h.size == 0 && CursorsOk(h.ways, old(h.pos))
    ensures IsMerge(h.key, h.maxKey, h.stable, h.ways, old(h.pos), from)
    ensures Copied(h.ways, from, out)
  {
    hide MergePrefix, Copied, IsMerge, Represents, IsHeap, EndsOk, WaysOk, Heads, Beats, Comparator, Left;
    out, from := [], [];
    ghost var pos0 := h.pos;
    h.InRange();
    MergeStart(h.key, h.maxKey, h.stable, h.ways, pos0);
    while h.size > 0
      invariant h.Valid() && CursorsOk(h.ways, h.pos)
      invariant MergePrefix(h.key, h.maxKey, h.stable, h.ways, pos0, h.pos, from)
      invariant Copied(h.ways, from, out)
      decreases Left(h.ways, h.pos)
    {
      h.FrontReady();
      ghost var f, p := h.arr[0].index, h.pos;
      CopyStep(h.ways, from, out, f, p[f]);
      RoomLeft(h.key, h.maxKey, h.ways, p, f);
      out := out + [h.ways[h.arr[0].index][h.arr[0].first]];
      h.Increment();
      ghost var from' := from + [Ref(f, p[f])];
      MergeStep(h.key, h.maxKey, h.stable, h.ways, pos0, p, from, f, h.pos, from');
      from := from';
      LeftDrops(h.ways, p, f);
    }
    h.AllExhausted();
    MergeDone(h.key, h.maxKey, h.stable, h.ways, pos0, h.pos, from);
  }

  /** Over the same ways in stable mode, heap and loser tree emit the same sequence. */
  method MergeBothWays<V>(t: LoserTree<V>, h: HeapMultiWay<V>) returns (a: seq<V>, b: seq<V>)
    requires t.Valid() && h.Valid() && t.stable && h.stable
    requires t.key == h.key && t.maxKey == h.maxKey && t.ways == h.ways && t.pos == h.pos
    modifies t, h, h.arr
    ensures a == b
  {
    ghost var pos := t.pos;
    ghost var from, from';
    a, from := MultiWayAlgorithms.Merge(t);
    b, from' := Merge(h);
    StableMergeUnique(t.key, t.maxKey, t.ways, pos, from, from', 0);
  }
}
