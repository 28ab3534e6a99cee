/**
 The algorithms that run on top of a started loser tree
 (src/terark/multi_way_basic.hpp, src/terark/multi_way_algo_loser_tree.hpp).
 */
module MultiWayAlgorithms {
  import opened LoserTrees
  import opened Words

  // --------------------------------------------------------------------- merge

  /** `from` lists, in order of emission, exactly the items that the cursors have
      passed on their way from `pos0` to `pos`. */
  ghost predicate MergePrefix<V>(key: V -> int, maxKey: int, stable: bool, ways: seq<seq<V>>, pos0: seq<nat>, pos: seq<nat>, from: seq<Ref>)
    requires CursorsOk(ways, pos0) && CursorsOk(ways, pos)
  {
    && RefsOk(ways, from)
    && (forall w :: 0 <= w < |ways| ==> pos0[w] <= pos[w])
    && (forall r :: r in from <==> Passed(key, maxKey, ways, pos0, pos, r))
    && (forall i, j :: 0 <= i < j < |from| ==> Before(key, ways, stable, from[i], from[j]))
    && (forall i, w :: 0 <= i < |from| && 0 <= w < |ways| ==> Before(key, ways, stable, from[i], Ref(w, pos[w])))
    && (forall i :: 0 <= i < |from| ==> KeyOf(key, ways, from[i]) < maxKey)
  }

  ghost predicate Passed<V>(key: V -> int, maxKey: int, ways: seq<seq<V>>, pos0: seq<nat>, pos: seq<nat>, r: Ref)
    requires CursorsOk(ways, pos0) && CursorsOk(ways, pos)
  {
    r.way < |ways| && pos0[r.way] <= r.idx < pos[r.way]
  }

  /** The head's item comes before what every way has left after it. */
  lemma HeadBefore<V>(key: V -> int, maxKey: int, stable: bool, ways: seq<seq<V>>, pos: seq<nat>, h: nat, pos': seq<nat>)
    requires WaysOk(key, maxKey, ways) && CursorsOk(ways, pos) && h < |ways| && Heads(key, ways, pos)[h] < maxKey
    requires forall w :: 0 <= w < |ways| ==> !Beats(stable, maxKey, Heads(key, ways, pos), w, h)
    requires pos' == pos[h := pos[h] + 1]
    ensures CursorsOk(ways, pos') && KeyOf(key, ways, Ref(h, pos[h])) < maxKey
    ensures forall w :: 0 <= w < |ways| ==> Before(key, ways, stable, Ref(h, pos[h]), Ref(w, pos'[w]))
  {
    assert WayOk(key, maxKey, ways[h]);
    forall w | 0 <= w < |ways| ensures Before(key, ways, stable, Ref(h, pos[h]), Ref(w, pos'[w])) {
      assert WayOk(key, maxKey, ways[w]);
      assert !Beats(stable, maxKey, Heads(key, ways, pos), w, h);
    }
  }

  lemma MergeStep<V>(key: V -> int, maxKey: int, stable: bool, ways: seq<seq<V>>, pos0: seq<nat>, pos: seq<nat>, from: seq<Ref>, h: nat, pos': seq<nat>, from': seq<Ref>)
    requires WaysOk(key, maxKey, ways) && CursorsOk(ways, pos0) && CursorsOk(ways, pos)
    requires MergePrefix(key, maxKey, stable, ways, pos0, pos, from)
    requires h < |ways| && Heads(key, ways, pos)[h] < maxKey
    requires forall w :: 0 <= w < |ways| ==> !Beats(stable, maxKey, Heads(key, ways, pos), w, h)
    requires pos' == pos[h := pos[h] + 1] && from' == from + [Ref(h, pos[h])]
    ensures CursorsOk(ways, pos') && MergePrefix(key, maxKey, stable, ways, pos0, pos', from')
  {
    var me := Ref(h, pos[h]);
    HeadBefore(key, maxKey, stable, ways, pos, h, pos');
    hide WaysOk, WayOk, Heads, Beats;
    forall i, w | 0 <= i < |from'| && 0 <= w < |ways| ensures Before(key, ways, stable, from'[i], Ref(w, pos'[w])) {
      if i < |from| {
        assert Before(key, ways, stable, from[i], Ref(w, pos[w]));
        assert Before(key, ways, stable, from[i], Ref(h, pos[h]));
      }
    }
    forall r ensures r in from' <==> Passed(key, maxKey, ways, pos0, pos', r) {
      assert r in from' <==> r in from || r == me;
      assert r in from <==> Passed(key, maxKey, ways, pos0, pos, r);
    }
  }

  lemma MergeDone<V>(key: V -> int, maxKey: int, stable: bool, ways: seq<seq<V>>, pos0: seq<nat>, pos: seq<nat>, from: seq<Ref>)
    requires WaysOk(key, maxKey, ways) && CursorsOk(ways, pos0) && CursorsOk(ways, pos)
    requires MergePrefix(key, maxKey, stable, ways, pos0, pos, from)
    requires forall w :: 0 <= w < |ways| ==> Heads(key, ways, pos)[w] >= maxKey
    ensures IsMerge(key, maxKey, stable, ways, pos0, from)
  {
    forall r ensures r in from <==> Pending(key, maxKey, ways, pos0, r) {
      assert r in from <==> Passed(key, maxKey, ways, pos0, pos, r);
      if r in from {
        var i :| 0 <= i < |from| && from[i] == r;
        assert KeyOf(key, ways, from[i]) < maxKey;
      }
      if Pending(key, maxKey, ways, pos0, r) {
        assert WayOk(key, maxKey, ways[r.way]);
        assert Heads(key, ways, pos)[r.way] >= maxKey;
      }
    }
  }

  /** `out` are the values at the places `from`. */
  ghost predicate Copied<V>(ways: seq<seq<V>>, from: seq<Ref>, out: seq<V>)
  {
    |out| == |from| && RefsOk(ways, from) && forall i :: 0 <= i < |out| ==> out[i] == ways[from[i].way][from[i].idx]
  }

  lemma MergeStart<V>(key: V -> int, maxKey: int, stable: bool, ways: seq<seq<V>>, pos: seq<nat>)
    requires CursorsOk(ways, pos)
    ensures MergePrefix(key, maxKey, stable, ways, pos, pos, []) && Copied(ways, [], [])
  {
  }

  lemma CopyStep<V>(ways: seq<seq<V>>, from: seq<Ref>, out: seq<V>, h: nat, i: nat)
    requires Copied(ways, from, out) && h < |ways| && i < |ways[h]|
    ensures Copied(ways, from + [Ref(h, i)], out + [ways[h][i]])
  {
  }

  /** Emit every item below the guard key; `from` says where each came from. */
  method Merge<V>(t: LoserTree<V>) returns (out: seq<V>, ghost from: seq<Ref>)
    requires t.Valid()
    modifies t
    ensures t.Valid()
    ensures IsMerge(t.key, t.maxKey, t.stable, t.ways, old(t.pos), from)
    ensures Copied(t.ways, from, out)
  {
    hide MergePrefix, Copied, IsMerge, Tournament, WaysOk, Beats, Left;
    out, from := [], [];
    t.CacheBounded();
    ghost var pos0 := t.pos;
    MergeStart(t.key, t.maxKey, t.stable, t.ways, pos0);
    while !t.Empty()
      invariant t.Valid() && t.head < |t.cache|
      invariant MergePrefix(t.key, t.maxKey, t.stable, t.ways, pos0, t.pos, from)
      invariant Copied(t.ways, from, out)
      decreases Left(t.ways, t.pos)
    {
      forall w | 0 <= w < |t.ways| ensures !Beats(t.stable, t.maxKey, t.cache, w, t.head) { t.HeadIsMinimum(w); }
      ghost var h, p := t.head, t.pos;
      CopyStep(t.ways, from, out, h, p[h]);
      out := out + [t.ways[t.head][t.pos[t.head]]];
      t.Increment();
      RoomLeft(t.key, t.maxKey, t.ways, p, h);
      MergeStep(t.key, t.maxKey, t.stable, t.ways, pos0, p, from, h, t.pos, from + [Ref(h, p[h])]);
      from := from + [Ref(h, p[h])];
      LeftDrops(t.ways, p, h);
      t.CacheBounded();
    }
    forall w | 0 <= w < |t.ways| ensures t.cache[w] >= t.maxKey {
      t.HeadIsMinimum(w);
      NotBeaten(t.stable, t.maxKey, t.cache, w, t.head);
    }
    MergeDone(t.key, t.maxKey, t.stable, t.ways, pos0, t.pos, from);
  }

  lemma NotBeaten(stable: bool, maxKey: int, cache: seq<int>, w: nat, h: nat)
    requires w < |cache| && h < |cache| && !Beats(stable, maxKey, cache, w, h)
    ensures cache[h] <= cache[w]
  {
  }

  /** A way that stands below the guard has a next item. */
  lemma RoomLeft<V>(key: V -> int, maxKey: int, ways: seq<seq<V>>, pos: seq<nat>, h: nat)
    requires WaysOk(key, maxKey, ways) && CursorsOk(ways, pos) && h < |ways| && Heads(key, ways, pos)[h] < maxKey
    ensures pos[h] + 1 < |ways[h]|
  {
    assert WayOk(key, maxKey, ways[h]);
  }

  /** Number of items not yet passed. */
  ghost function Left<V>(ways: seq<seq<V>>, pos: seq<nat>): nat
    requires CursorsOk(ways, pos)
  {
    if |ways| == 0 then 0
    else |ways[0]| - pos[0] + Left(ways[1..], pos[1..])
  }

  lemma {:induction false} LeftDrops<V>(ways: seq<seq<V>>, pos: seq<nat>, h: nat)
    requires CursorsOk(ways, pos) && h < |ways| && pos[h] + 1 < |ways[h]|
    ensures Left(ways, pos[h := pos[h] + 1]) == Left(ways, pos) - 1
  {
    var pos' := pos[h := pos[h] + 1];
    if h == 0 {
      assert pos'[1..] == pos[1..];
    } else {
      assert pos'[1..] == pos[1..][h-1 := pos[1..][h-1] + 1];
      LeftDrops(ways[1..], pos[1..], h - 1);
    }
  }

  // ------------------------------------------------------------ groups of equal keys

  /** Way `way`, read from index `start` on, contains key `k`. */
  ghost predicate HasKey<V>(key: V -> int, way: seq<V>, start: nat, k: int)
  {
    exists i :: start <= i < |way| && key(way[i]) == k
  }

  /** The ways in which key `k` occurs at or after the cursors `pos`. */
  ghost function Holders<V>(key: V -> int, ways: seq<seq<V>>, pos: seq<nat>, k: int): set<nat>
    requires CursorsOk(ways, pos)
  {
    set w | 0 <= w < |ways| && HasKey(key, ways[w], pos[w], k)
  }

  /** How often `k` occurs in `way` at or after `start`. */
  ghost function CountIn<V>(key: V -> int, way: seq<V>, start: nat, k: int): nat
    decreases |way| - start
  {
    if start >= |way| then 0
    else (if key(way[start]) == k then 1 else 0) + CountIn(key, way, start + 1, k)
  }

  /** How often `k` occurs in all ways together. */
  ghost function CountAll<V>(key: V -> int, ways: seq<seq<V>>, pos: seq<nat>, k: int): nat
    requires CursorsOk(ways, pos)
  {
    if |ways| == 0 then 0
    else CountIn(key, ways[0], pos[0], k) + CountAll(key, ways[1..], pos[1..], k)
  }

  ghost function Moved(pos0: seq<nat>, pos: seq<nat>): int
    requires |pos0| == |pos|
  {
    if |pos| == 0 then 0 else pos[0] - pos0[0] + Moved(pos0[1..], pos[1..])
  }

  lemma {:induction false} MovedStep(pos0: seq<nat>, pos: seq<nat>, h: nat)
    requires |pos0| == |pos| && h < |pos|
    ensures Moved(pos0, pos[h := pos[h] + 1]) == Moved(pos0, pos) + 1
  {
    var pos' := pos[h := pos[h] + 1];
    if h == 0 {
      assert pos'[1..] == pos[1..];
    } else {
      assert pos'[1..] == pos[1..][h-1 := pos[1..][h-1] + 1];
      MovedStep(pos0[1..], pos[1..], h - 1);
    }
  }

  lemma {:induction false} MovedNowhere(pos: seq<nat>)
    ensures Moved(pos, pos) == 0
  {
    if |pos| > 0 { MovedNowhere(pos[1..]); }
  }

  /** Between `start` and `pos0` all keys were below `x`; between `pos0` and `pos`
      all keys were `x`; from `pos` on all keys are at least `lo`. */
  ghost predicate Group<V>(key: V -> int, ways: seq<seq<V>>, start: seq<nat>, pos0: seq<nat>, pos: seq<nat>, x: int, lo: int)
  {
    && CursorsOk(ways, start) && CursorsOk(ways, pos0) && CursorsOk(ways, pos)
    && (forall w :: 0 <= w < |ways| ==> WayGroup(key, ways[w], start[w], pos0[w], pos[w], x, lo))
  }

  ghost predicate WayGroup<V>(key: V -> int, way: seq<V>, start: nat, from: nat, to: nat, x: int, lo: int)
  {
    && start <= from <= to < |way|
    && (forall i :: start <= i < from ==> key(way[i]) < x)
    && (forall i :: from <= i < to ==> key(way[i]) == x)
    && (forall i :: to <= i < |way| ==> lo <= key(way[i]))
  }

  lemma GroupStart<V>(key: V -> int, maxKey: int, ways: seq<seq<V>>, pos: seq<nat>, x: int)
    requires WaysOk(key, maxKey, ways) && CursorsOk(ways, pos)
    requires forall w :: 0 <= w < |ways| ==> x <= Heads(key, ways, pos)[w]
    ensures Group(key, ways, pos, pos, pos, x, x)
  {
    forall w | 0 <= w < |ways| ensures WayGroup(key, ways[w], pos[w], pos[w], pos[w], x, x) {
      assert WayOk(key, maxKey, ways[w]);
      assert x <= Heads(key, ways, pos)[w];
    }
  }

  /** Popping one more item with key `x`. */
  lemma GroupStep<V>(key: V -> int, maxKey: int, ways: seq<seq<V>>, start: seq<nat>, pos0: seq<nat>, pos: seq<nat>, x: int, h: nat, pos': seq<nat>)
    requires WaysOk(key, maxKey, ways) && Group(key, ways, start, pos0, pos, x, x)
    requires h < |ways| && Heads(key, ways, pos)[h] == x < maxKey && pos' == pos[h := pos[h] + 1]
    ensures Group(key, ways, start, pos0, pos', x, x)
  {
    assert WayOk(key, maxKey, ways[h]);
    assert WayGroup(key, ways[h], start[h], pos0[h], pos[h], x, x);
    forall w | 0 <= w < |ways| ensures WayGroup(key, ways[w], start[w], pos0[w], pos'[w], x, x) {
      assert WayGroup(key, ways[w], start[w], pos0[w], pos[w], x, x);
    }
  }

  /** Once the smallest remaining key `y` exceeds `x`, the group of `x` is complete:
      the ways popped are its holders, their number of pops its multiplicity, and no
      key lies between `x` and `y`. */
  lemma GroupEnd<V>(key: V -> int, maxKey: int, ways: seq<seq<V>>, start: seq<nat>, pos0: seq<nat>, pos: seq<nat>, x: int, y: int)
    requires WaysOk(key, maxKey, ways) && Group(key, ways, start, pos0, pos, x, x) && x < y
    requires forall w :: 0 <= w < |ways| ==> y <= Heads(key, ways, pos)[w]
    ensures Group(key, ways, start, pos, pos, y, y)
    ensures Holders(key, ways, start, x) == set w | 0 <= w < |ways| && pos0[w] < pos[w]
    ensures forall k :: x < k < y ==> Holders(key, ways, start, k) == {}
  {
    forall w | 0 <= w < |ways|
      ensures WayGroup(key, ways[w], start[w], pos[w], pos[w], y, y)
      ensures HasKey(key, ways[w], start[w], x) <==> pos0[w] < pos[w]
      ensures forall k :: x < k < y ==> !HasKey(key, ways[w], start[w], k)
    {
      assert WayOk(key, maxKey, ways[w]);
      assert y <= Heads(key, ways, pos)[w];
      assert WayGroup(key, ways[w], start[w], pos0[w], pos[w], x, x);
      if pos0[w] < pos[w] { assert key(ways[w][pos0[w]]) == x; }
    }
  }

  lemma {:induction false} CountGroup<V>(key: V -> int, ways: seq<seq<V>>, start: seq<nat>, pos0: seq<nat>, pos: seq<nat>, x: int, y: int)
    requires Group(key, ways, start, pos0, pos, x, y) && x < y
    ensures CountAll(key, ways, start, x) == Moved(pos0, pos)
  {
    if |ways| > 0 {
      assert WayGroup(key, ways[0], start[0], pos0[0], pos[0], x, y);
      CountWay(key, ways[0], start[0], pos0[0], pos[0], x, y);
      forall w | 0 <= w < |ways| - 1 ensures WayGroup(key, ways[1..][w], start[1..][w], pos0[1..][w], pos[1..][w], x, y) {
        assert WayGroup(key, ways[w+1], start[w+1], pos0[w+1], pos[w+1], x, y);
      }
      CountGroup(key, ways[1..], start[1..], pos0[1..], pos[1..], x, y);
    }
  }

  lemma {:induction false} CountWay<V>(key: V -> int, way: seq<V>, start: nat, from: nat, to: nat, x: int, y: int)
    requires WayGroup(key, way, start, from, to, x, y) && x < y
    ensures CountIn(key, way, start, x) == to - from
    decreases |way| - start
  {
    if start < from {
      CountWay(key, way, start + 1, from, to, x, y);
    } else if start < to {
      CountWay(key, way, start + 1, from + 1, to, x, y);
    } else {
      CountNone(key, way, start, x);
    }
  }

  lemma {:induction false} CountNone<V>(key: V -> int, way: seq<V>, start: nat, x: int)
    requires forall i :: start <= i < |way| ==> x < key(way[i])
    ensures CountIn(key, way, start, x) == 0
    decreases |way| - start
  {
    if start < |way| { CountNone(key, way, start + 1, x); }
  }

  ghost predicate Ascending(s: seq<int>)
  {
    forall i, j :: 0 <= i < j < |s| ==> s[i] < s[j]
  }

  /** Keys below `x` are in `out` exactly when `P` says so, and no others are. */
  ghost predicate Complete(out: seq<int>, x: int, P: int -> bool)
  {
    && Ascending(out)
    && (forall k :: k in out ==> k < x)
    && (forall k :: k < x ==> (k in out <==> P(k)))
  }

  lemma CompleteStep(out: seq<int>, x: int, y: int, P: int -> bool, out': seq<int>)
    requires Complete(out, x, P) && x < y
    requires forall k :: x < k < y ==> !P(k)
    requires out' == if P(x) then out + [x] else out
    ensures Complete(out', y, P)
  {
    assert forall k :: k in out' <==> k in out || (P(x) && k == x);
    forall i, j | 0 <= i < j < |out'| ensures out'[i] < out'[j] {
      if j == |out| { assert out[i] in out; }
    }
  }

  lemma CompleteStart(x: int, P: int -> bool)
    requires forall k :: k < x ==> !P(k)
    ensures Complete([], x, P)
  {
  }

  lemma CompleteEnd(out: seq<int>, x: int, P: int -> bool)
    requires Complete(out, x, P)
    ensures Ascending(out) && forall k :: k in out <==> k < x && P(k)
  {
  }

  /** Before anything is popped, nothing lies below the current key `x`. */
  lemma Opening<V>(key: V -> int, maxKey: int, ways: seq<seq<V>>, start: seq<nat>, x: int)
    requires WaysOk(key, maxKey, ways) && CursorsOk(ways, start)
    requires forall w :: 0 <= w < |ways| ==> x <= Heads(key, ways, start)[w]
    ensures Group(key, ways, start, start, start, x, x)
    ensures forall k :: k < x ==> Holders(key, ways, start, k) == {}
  {
    GroupStart(key, maxKey, ways, start, x);
    forall w | 0 <= w < |ways| ensures forall k :: k < x ==> !HasKey(key, ways[w], start[w], k) {
      assert WayGroup(key, ways[w], start[w], start[w], start[w], x, x);
    }
  }

  /** The state the set algorithms keep: the tree stands at its smallest key. */
  ghost predicate At<V>(t: LoserTree<V>, y: int)
    reads t
  {
    && t.Valid() && t.head < |t.ways| == |t.cache| && y == t.cache[t.head] <= t.maxKey
    && forall w :: 0 <= w < |t.ways| ==> y <= t.cache[w]
  }

  lemma Arrived<V>(t: LoserTree<V>)
    requires t.Valid()
    ensures t.head < |t.cache| && At(t, t.cache[t.head])
  {
    t.CacheBounded();
    forall w | 0 <= w < |t.ways| ensures t.cache[t.head] <= t.cache[w] { t.HeadIsMinimum(w); }
  }

  /** Step past one item with key `x` and look at the next smallest key. */
  method Advance<V>(t: LoserTree<V>, ghost start: seq<nat>, ghost pos0: seq<nat>, x: int) returns (way: nat, y: int)
    requires At(t, x) && x < t.maxKey && Group(t.key, t.ways, start, pos0, t.pos, x, x)
    modifies t
    ensures At(t, y) && x <= y && Group(t.key, t.ways, start, pos0, t.pos, x, x)
    ensures way == old(t.head) < |t.ways| && t.pos == old(t.pos[way := t.pos[way] + 1])
    ensures Left(t.ways, t.pos) < Left(t.ways, old(t.pos))
  {
    way := t.head;
    ghost var p := t.pos;
    t.Increment();
    Arrived(t);
    y := t.cache[t.head];
    GroupStep(t.key, t.maxKey, t.ways, start, pos0, p, x, way, t.pos);
    LeftDrops(t.ways, p, way);
    assert WayGroup(t.key, t.ways[t.head], start[t.head], pos0[t.head], t.pos[t.head], x, x);
  }

  lemma GroupAbove<V>(key: V -> int, maxKey: int, ways: seq<seq<V>>, start: seq<nat>, pos0: seq<nat>, pos: seq<nat>, x: int, y: int)
    requires Group(key, ways, start, pos0, pos, x, x) && Group(key, ways, start, pos, pos, y, y)
    ensures Group(key, ways, start, pos0, pos, x, y)
  {
    forall w | 0 <= w < |ways| ensures WayGroup(key, ways[w], start[w], pos0[w], pos[w], x, y) {
      assert WayGroup(key, ways[w], start[w], pos0[w], pos[w], x, x);
      assert WayGroup(key, ways[w], start[w], pos[w], pos[w], y, y);
    }
  }

  /** What one round of a set algorithm leaves behind: all items with key `x` are
      popped, `pos0` being the cursors before the round, and `y` is the next key. */
  ghost predicate Popped<V>(t: LoserTree<V>, start: seq<nat>, pos0: seq<nat>, x: int, y: int)
    reads t
  {
    && At(t, y) && x < y
    && Group(t.key, t.ways, start, pos0, t.pos, x, y) && Group(t.key, t.ways, start, t.pos, t.pos, y, y)
    && Left(t.ways, t.pos) < Left(t.ways, pos0)
    && Holders(t.key, t.ways, start, x) == (set w | 0 <= w < |t.ways| && pos0[w] < t.pos[w])
    && Holders(t.key, t.ways, start, x) != {}
    && forall k :: x < k < y ==> Holders(t.key, t.ways, start, k) == {}
  }

  lemma GroupClosed<V>(t: LoserTree<V>, start: seq<nat>, pos0: seq<nat>, x: int, y: int, w: nat)
    requires At(t, y) && x < y && Group(t.key, t.ways, start, pos0, t.pos, x, x) && Left(t.ways, t.pos) < Left(t.ways, pos0)
    requires w < |t.ways| && pos0[w] < t.pos[w]
    ensures Popped(t, start, pos0, x, y)
  {
    GroupEnd(t.key, t.maxKey, t.ways, start, pos0, t.pos, x, y);
    GroupAbove(t.key, t.maxKey, t.ways, start, pos0, t.pos, x, y);
    assert w in Holders(t.key, t.ways, start, x);
  }

  lemma GroupOrder<V>(key: V -> int, ways: seq<seq<V>>, start: seq<nat>, pos0: seq<nat>, pos: seq<nat>, x: int, w: nat)
    requires Group(key, ways, start, pos0, pos, x, x) && w < |ways|
    ensures pos0[w] <= pos[w]
  {
    assert WayGroup(key, ways[w], start[w], pos0[w], pos[w], x, x);
  }

  /** The inner loop of the set algorithms: pop every item whose key is `x`, counting them. */
  method PopGroup<V>(t: LoserTree<V>, ghost start: seq<nat>, x: int) returns (n: nat, y: int)
    requires At(t, x) && x < t.maxKey && Group(t.key, t.ways, start, t.pos, t.pos, x, x)
    modifies t
    ensures Popped(t, start, old(t.pos), x, y)
    ensures n == Moved(old(t.pos), t.pos) == CountAll(t.key, t.ways, start, x) > 0
  {
    hide WayGroup, Holders, CountAll, Moved, Tournament, WaysOk, Heads, Left;
    ghost var pos0 := t.pos;
    MovedNowhere(pos0);
    MovedStep(pos0, pos0, t.head);
    var first;
    first, y := Advance(t, start, pos0, x);
    n := 1;
    while !(x < y)
      invariant At(t, y) && x <= y && Group(t.key, t.ways, start, pos0, t.pos, x, x)
      invariant first < |t.ways| && pos0[first] < t.pos[first]
      invariant Left(t.ways, t.pos) < Left(t.ways, pos0)
      invariant n > 0 && n == Moved(pos0, t.pos)
      decreases Left(t.ways, t.pos)
    {
      MovedStep(pos0, t.pos, t.head);
      var way;
      way, y := Advance(t, start, pos0, x);
      n := n + 1;
    }
    GroupClosed(t, start, pos0, x, y, first);
    CountGroup(t.key, t.ways, start, pos0, t.pos, x, y);
  }

  /** Union: every key below the guard that occurs anywhere, once, in ascending order. */
  method UnionSet<V>(t: LoserTree<V>) returns (out: seq<int>)
    requires t.Valid()
    modifies t
    ensures t.Valid()
    ensures Ascending(out)
    ensures forall k :: k in out <==> k < t.maxKey && Holders(t.key, t.ways, old(t.pos), k) != {}
  {
    hide Complete, Ascending, Tournament, WaysOk, Heads, WayGroup, Holders, CountAll, Left;
    out := [];
    Arrived(t);
    ghost var start := t.pos;
    ghost var P := (k: int) => Holders(t.key, t.ways, start, k) != {};
    var x := t.cache[t.head];
    Opening(t.key, t.maxKey, t.ways, start, x);
    CompleteStart(x, P);
    while x < t.maxKey
      invariant At(t, x) && Group(t.key, t.ways, start, t.pos, t.pos, x, x) && Complete(out, x, P)
      decreases Left(t.ways, t.pos)
    {
      var _, y := PopGroup(t, start, x);
      CompleteStep(out, x, y, P, out + [x]);
      out := out + [x];
      x := y;
    }
    CompleteEnd(out, x, P);
  }

  ghost predicate Counted<V>(key: V -> int, ways: seq<seq<V>>, pos: seq<nat>, out: seq<(int, nat)>)
    requires CursorsOk(ways, pos)
  {
    forall i :: 0 <= i < |out| ==> out[i].1 == CountAll(key, ways, pos, out[i].0) > 0
  }

  /** Each distinct key below the guard once, in ascending order, with its exact multiplicity. */
  method KeyToEqualCount<V>(t: LoserTree<V>) returns (out: seq<(int, nat)>)
    requires t.Valid()
    modifies t
    ensures t.Valid()
    ensures Ascending(Firsts(out)) && Counted(t.key, t.ways, old(t.pos), out)
    ensures forall k :: k in Firsts(out) <==> k < t.maxKey && Holders(t.key, t.ways, old(t.pos), k) != {}
  {
    hide Complete, Ascending, Tournament, WaysOk, Heads, WayGroup, Holders, CountAll, Counted, Firsts, Left;
    out := [];
    Arrived(t);
    ghost var start := t.pos;
    ghost var P := (k: int) => Holders(t.key, t.ways, start, k) != {};
    var x := t.cache[t.head];
    Opening(t.key, t.maxKey, t.ways, start, x);
    ghost var keys: seq<int> := [];
    NothingCounted(t.key, t.ways, start);
    CompleteStart(x, P);
    while x < t.maxKey
      invariant At(t, x) && Group(t.key, t.ways, start, t.pos, t.pos, x, x) && Complete(keys, x, P)
      invariant keys == Firsts(out) && Counted(t.key, t.ways, start, out)
      decreases Left(t.ways, t.pos)
    {
      var n, y := PopGroup(t, start, x);
      CompleteStep(keys, x, y, P, keys + [x]);
      CountedStep(t.key, t.ways, start, out, x, n);
      out, keys := out + [(x, n)], keys + [x];
      x := y;
    }
    CompleteEnd(keys, x, P);
  }

  lemma NothingCounted<V>(key: V -> int, ways: seq<seq<V>>, pos: seq<nat>)
    requires CursorsOk(ways, pos)
    ensures Counted(key, ways, pos, []) && Firsts([]) == []
  {
  }

  lemma CountedStep<V>(key: V -> int, ways: seq<seq<V>>, pos: seq<nat>, out: seq<(int, nat)>, x: int, n: nat)
    requires CursorsOk(ways, pos) && Counted(key, ways, pos, out) && n == CountAll(key, ways, pos, x) > 0
    ensures Counted(key, ways, pos, out + [(x, n)]) && Firsts(out + [(x, n)]) == Firsts(out) + [x]
  {
  }

  ghost function Firsts(s: seq<(int, nat)>): seq<int>
  {
    seq(|s|, i requires 0 <= i < |s| => s[i].0)
  }

  // -------------------------------------------------------------- intersection

  ghost predicate InAll<V>(key: V -> int, ways: seq<seq<V>>, pos: seq<nat>, k: int)
    requires CursorsOk(ways, pos)
  {
    forall w :: 0 <= w < |ways| ==> HasKey(key, ways[w], pos[w], k)
  }

  /** The bits of the ways that moved. */
  ghost predicate MaskOf(mask: Bits, pos0: seq<nat>, pos: seq<nat>)
    requires |pos0| == |pos|
  {
    |mask| == 32 && forall w :: 0 <= w < 32 ==> (mask[w] <==> w < |pos| && pos0[w] < pos[w])
  }

  /** The inner loop of the mask-based intersection. */
  method PopGroupMask<V>(t: LoserTree<V>, ghost start: seq<nat>, x: int) returns (curMask: Bits, y: int)
    requires At(t, x) && x < t.maxKey && Group(t.key, t.ways, start, t.pos, t.pos, x, x) && |t.ways| <= 32
    modifies t
    ensures Popped(t, start, old(t.pos), x, y)
    ensures MaskOf(curMask, old(t.pos), t.pos)
  {
    hide WayGroup, Holders, MaskOf, Tournament, WaysOk, Heads, Left;
    ghost var pos0 := t.pos;
    var first;
    NoMask(pos0);
    MaskStep(Zeros(32), pos0, pos0, t.head);
    first, y := Advance(t, start, pos0, x);
    curMask := Or(Zeros(32), Shl(One(32), first));
    while !(x < y)
      invariant At(t, y) && x <= y && Group(t.key, t.ways, start, pos0, t.pos, x, x)
      invariant first < |t.ways| <= 32 && pos0[first] < t.pos[first]
      invariant Left(t.ways, t.pos) < Left(t.ways, pos0)
      invariant |curMask| == 32 && MaskOf(curMask, pos0, t.pos)
      decreases Left(t.ways, t.pos)
    {
      GroupOrder(t.key, t.ways, start, pos0, t.pos, x, t.head);
      MaskStep(curMask, pos0, t.pos, t.head);
      var way;
      way, y := Advance(t, start, pos0, x);
      curMask := Or(curMask, Shl(One(32), way));
    }
    GroupClosed(t, start, pos0, x, y, first);
  }

  lemma NoMask(pos: seq<nat>)
    ensures MaskOf(Zeros(32), pos, pos)
  {
  }

  lemma MaskStep(mask: Bits, pos0: seq<nat>, pos: seq<nat>, way: nat)
    requires |pos0| == |pos| <= 32 && way < |pos| && MaskOf(mask, pos0, pos) && pos0[way] <= pos[way]
    ensures MaskOf(Or(mask, Shl(One(32), way)), pos0, pos[way := pos[way] + 1])
  {
    var m := Or(mask, Shl(One(32), way));
    assert m[way];
    assert forall w :: 0 <= w < 32 && w != way ==> m[w] == mask[w];
  }

  lemma FullMask<V>(key: V -> int, ways: seq<seq<V>>, start: seq<nat>, k: int, pos0: seq<nat>, pos: seq<nat>, mask: Bits)
    requires CursorsOk(ways, start) && |pos0| == |pos| == |ways| <= 32 && |ways| > 0 && MaskOf(mask, pos0, pos)
    requires Holders(key, ways, start, k) == set w | 0 <= w < |ways| && pos0[w] < pos[w]
    ensures mask == Shr(Ones(32), 32 - |ways|) <==> InAll(key, ways, start, k)
  {
    var full := Shr(Ones(32), 32 - |ways|);
    assert forall w :: 0 <= w < 32 ==> (full[w] <==> w < |ways|);
    if mask == full {
      forall w | 0 <= w < |ways| ensures HasKey(key, ways[w], start[w], k) {
        assert mask[w] == full[w];
        assert w in Holders(key, ways, start, k);
      }
    }
    if InAll(key, ways, start, k) {
      forall w | 0 <= w < 32 ensures mask[w] == full[w] {
        assert w < |ways| ==> w in Holders(key, ways, start, k);
      }
    }
  }

  /** No key occurs everywhere when no way holds it at all. */
  lemma NowhereNotAll<V>(key: V -> int, ways: seq<seq<V>>, start: seq<nat>, k: int)
    requires CursorsOk(ways, start) && |ways| > 0 && Holders(key, ways, start, k) == {}
    ensures !InAll(key, ways, start, k)
  {
    assert 0 !in Holders(key, ways, start, k);
  }

  lemma NowhereNotAllOf<V>(key: V -> int, ways: seq<seq<V>>, start: seq<nat>)
    requires CursorsOk(ways, start) && |ways| > 0
    ensures forall k :: Holders(key, ways, start, k) == {} ==> !InAll(key, ways, start, k)
  {
    forall k | Holders(key, ways, start, k) == {} ensures !InAll(key, ways, start, k) { NowhereNotAll(key, ways, start, k); }
  }

  /** Intersection of at most 32 ways, duplicates allowed: a key is emitted exactly
      when a bit for every way was collected. */
  method Intersection32<V>(t: LoserTree<V>) returns (out: seq<int>)
    requires t.Valid() && |t.ways| <= 32
    modifies t
    ensures t.Valid()
    ensures Ascending(out)
    ensures forall k :: k in out <==> k < t.maxKey && InAll(t.key, t.ways, old(t.pos), k)
  {
    hide Complete, Ascending, Tournament, WaysOk, Heads, WayGroup, Holders, InAll, MaskOf, Left;
    out := [];
    Arrived(t);
    ghost var start := t.pos;
    ghost var P := (k: int) => InAll(t.key, t.ways, start, k);
    var mask := Shr(Ones(32), 32 - |t.ways|);
    var x := t.cache[t.head];
    Opening(t.key, t.maxKey, t.ways, start, x);
    NowhereNotAllOf(t.key, t.ways, start);
    CompleteStart(x, P);
    while x < t.maxKey
      invariant At(t, x) && Group(t.key, t.ways, start, t.pos, t.pos, x, x) && Complete(out, x, P)
      decreases Left(t.ways, t.pos)
    {
      ghost var pos0 := t.pos;
      var curMask, y := PopGroupMask(t, start, x);
      FullMask(t.key, t.ways, start, x, pos0, t.pos, curMask);
      CompleteStep(out, x, y, P, if mask == curMask then out + [x] else out);
      if mask == curMask {
        out := out + [x];
      }
      x := y;
    }
    CompleteEnd(out, x, P);
  }

  /** A key occurs in a way exactly if its count there is not zero. */
  lemma {:induction false} CountHas<V>(key: V -> int, way: seq<V>, start: nat, k: int)
    ensures CountIn(key, way, start, k) > 0 <==> HasKey(key, way, start, k)
    decreases |way| - start
  {
    if start < |way| {
      CountHas(key, way, start + 1, k);
      if key(way[start]) == k { assert HasKey(key, way, start, k); }
    }
  }

  lemma {:induction false} NoHolderNoCount<V>(key: V -> int, ways: seq<seq<V>>, pos: seq<nat>, k: int)
    requires CursorsOk(ways, pos) && Holders(key, ways, pos, k) == {}
    ensures CountAll(key, ways, pos, k) == 0
  {
    if |ways| > 0 {
      assert 0 !in Holders(key, ways, pos, k);
      CountHas(key, ways[0], pos[0], k);
      forall w | 0 <= w < |ways| - 1 ensures !HasKey(key, ways[1..][w], pos[1..][w], k) { assert w + 1 !in Holders(key, ways, pos, k); }
      NoHolderNoCount(key, ways[1..], pos[1..], k);
    }
  }

  lemma NoHolderNotFull<V>(key: V -> int, ways: seq<seq<V>>, pos: seq<nat>)
    requires CursorsOk(ways, pos) && |ways| > 0
    ensures forall k :: Holders(key, ways, pos, k) == {} ==> CountAll(key, ways, pos, k) != |ways|
  {
    forall k | Holders(key, ways, pos, k) == {} ensures CountAll(key, ways, pos, k) != |ways| { NoHolderNoCount(key, ways, pos, k); }
  }

  /** Intersection of any number of ways by counting pops: the keys that occur, over all
      ways together, exactly as often as there are ways. */
  method IntersectionN<V>(t: LoserTree<V>) returns (out: seq<int>)
    requires t.Valid()
    modifies t
    ensures t.Valid()
    ensures Ascending(out)
    ensures forall k :: k in out <==> k < t.maxKey && CountAll(t.key, t.ways, old(t.pos), k) == |t.ways|
  {
    hide Complete, Ascending, Tournament, WaysOk, Heads, WayGroup, Holders, CountAll, Left;
    out := [];
    Arrived(t);
    ghost var start := t.pos;
    ghost var P := (k: int) => CountAll(t.key, t.ways, start, k) == |t.ways|;
    var x := t.cache[t.head];
    Opening(t.key, t.maxKey, t.ways, start, x);
    NoHolderNotFull(t.key, t.ways, start);
    CompleteStart(x, P);
    while x < t.maxKey
      invariant At(t, x) && Group(t.key, t.ways, start, t.pos, t.pos, x, x) && Complete(out, x, P)
      decreases Left(t.ways, t.pos)
    {
      var n, y := PopGroup(t, start, x);
      CompleteStep(out, x, y, P, if n == |t.ways| then out + [x] else out);
      if n == |t.ways| {
        out := out + [x];
      }
      x := y;
    }
    CompleteEnd(out, x, P);
  }

  /** No way has key `k` twice. */
  ghost predicate Single<V>(key: V -> int, ways: seq<seq<V>>, pos: seq<nat>, k: int)
    requires CursorsOk(ways, pos)
  {
    forall w :: 0 <= w < |ways| ==> CountIn(key, ways[w], pos[w], k) <= 1
  }

  /** The count of a key against the number of ways. */
  lemma {:induction false} CountBounds<V>(key: V -> int, ways: seq<seq<V>>, pos: seq<nat>, k: int)
    requires CursorsOk(ways, pos)
    ensures InAll(key, ways, pos, k) ==> CountAll(key, ways, pos, k) >= |ways|
    ensures InAll(key, ways, pos, k) && !Single(key, ways, pos, k) ==> CountAll(key, ways, pos, k) > |ways|
    ensures Single(key, ways, pos, k) ==> CountAll(key, ways, pos, k) <= |ways|
    ensures Single(key, ways, pos, k) && CountAll(key, ways, pos, k) == |ways| ==> InAll(key, ways, pos, k)
  {
    if |ways| > 0 {
      CountHas(key, ways[0], pos[0], k);
      CountBounds(key, ways[1..], pos[1..], k);
      TailWays(key, ways, pos, k);
    }
  }

  lemma TailWays<V>(key: V -> int, ways: seq<seq<V>>, pos: seq<nat>, k: int)
    requires CursorsOk(ways, pos) && |ways| > 0
    ensures CursorsOk(ways[1..], pos[1..])
    ensures InAll(key, ways, pos, k) <==> HasKey(key, ways[0], pos[0], k) && InAll(key, ways[1..], pos[1..], k)
    ensures Single(key, ways, pos, k) <==> CountIn(key, ways[0], pos[0], k) <= 1 && Single(key, ways[1..], pos[1..], k)
  {
    var rest, pos' := ways[1..], pos[1..];
    assert forall w :: 1 <= w < |ways| ==> ways[w] == rest[w - 1] && pos[w] == pos'[w - 1];
    assert forall w :: 0 <= w < |rest| ==> rest[w] == ways[w + 1] && pos'[w] == pos[w + 1];
  }

  /** Counting decides presence in every way exactly if no way repeats the key, or if it is
      missing somewhere and its repetitions do not make up for that. */
  ghost predicate CountedRight<V>(key: V -> int, ways: seq<seq<V>>, pos: seq<nat>, k: int)
    requires CursorsOk(ways, pos)
  {
    Single(key, ways, pos, k) || (!InAll(key, ways, pos, k) && CountAll(key, ways, pos, k) != |ways|)
  }

  lemma CountDecides<V>(key: V -> int, ways: seq<seq<V>>, pos: seq<nat>, k: int)
    requires CursorsOk(ways, pos)
    ensures (CountAll(key, ways, pos, k) == |ways| <==> InAll(key, ways, pos, k)) <==> CountedRight(key, ways, pos, k)
  {
    CountBounds(key, ways, pos, k);
  }

  /** An output of `IntersectionN` is the intersection exactly if every key below the guard
      is counted right. */
  lemma IntersectionExact<V>(key: V -> int, maxKey: int, ways: seq<seq<V>>, pos: seq<nat>, out: seq<int>)
    requires CursorsOk(ways, pos)
    requires forall k :: k in out <==> k < maxKey && CountAll(key, ways, pos, k) == |ways|
    ensures (forall k :: k in out <==> k < maxKey && InAll(key, ways, pos, k)) <==> (forall k :: k < maxKey ==> CountedRight(key, ways, pos, k))
  {
    forall k ensures (k in out <==> k < maxKey && InAll(key, ways, pos, k)) <==> (k < maxKey ==> CountedRight(key, ways, pos, k)) {
      CountDecides(key, ways, pos, k);
    }
  }

  /** No way repeats a key below the guard at or after its cursor. */
  ghost predicate NoRepeats<V>(key: V -> int, maxKey: int, ways: seq<seq<V>>, pos: seq<nat>)
    requires CursorsOk(ways, pos)
  {
    forall w :: 0 <= w < |ways| ==> Distinct(key, maxKey, ways[w], pos[w])
  }

  ghost predicate Distinct<V>(key: V -> int, maxKey: int, way: seq<V>, start: nat)
  {
    forall i, j :: start <= i < j < |way| && key(way[i]) < maxKey ==> key(way[i]) < key(way[j])
  }

  lemma {:induction false} DistinctOnce<V>(key: V -> int, maxKey: int, way: seq<V>, start: nat, k: int)
    requires Distinct(key, maxKey, way, start) && k < maxKey
    ensures CountIn(key, way, start, k) <= 1
    decreases |way| - start
  {
    if start < |way| {
      DistinctOnce(key, maxKey, way, start + 1, k);
      if key(way[start]) == k { CountNone(key, way, start + 1, k); }
    }
  }

  /** Ways without repeated keys, as the comment on the source asks for: the output is the
      intersection. */
  lemma DistinctExact<V>(key: V -> int, maxKey: int, ways: seq<seq<V>>, pos: seq<nat>, out: seq<int>)
    requires CursorsOk(ways, pos) && NoRepeats(key, maxKey, ways, pos)
    requires forall k :: k in out <==> k < maxKey && CountAll(key, ways, pos, k) == |ways|
    ensures forall k :: k in out <==> k < maxKey && InAll(key, ways, pos, k)
  {
    forall k | k < maxKey ensures CountedRight(key, ways, pos, k) {
      forall w | 0 <= w < |ways| ensures CountIn(key, ways[w], pos[w], k) <= 1 { DistinctOnce(key, maxKey, ways[w], pos[w], k); }
    }
    IntersectionExact(key, maxKey, ways, pos, out);
  }

  /** The public entry: a mask for up to 32 ways, counting for more. */
  method Intersection<V>(t: LoserTree<V>) returns (out: seq<int>)
    requires t.Valid()
    modifies t
    ensures t.Valid() && Ascending(out)
    ensures |t.ways| <= 32 ==> forall k :: k in out <==> k < t.maxKey && InAll(t.key, t.ways, old(t.pos), k)
    ensures |t.ways| > 32 ==> forall k :: k in out <==> k < t.maxKey && CountAll(t.key, t.ways, old(t.pos), k) == |t.ways|
  {
    if |t.ways| <= 32 { out := Intersection32(t); } else { out := IntersectionN(t); }
  }

  // -------------------------------------------------- where counting goes wrong

  function Self(x: int): int
  {
    x
  }

  /** `n` ways of which only the first has key 1, `times` times; the guard is 9. */
  ghost function OnlyFirst(n: nat, times: nat): seq<seq<int>>
    requires n > 0
  {
    [seq(times, _ => 1) + [9]] + seq(n - 1, _ => [9])
  }

  ghost function Starts(n: nat): (r: seq<nat>)
    ensures |r| == n && forall w :: 0 <= w < n ==> r[w] == 0
  {
    seq(n, _ => 0)
  }

  /** For any number of ways above one there is a valid input whose output has a key that
      only one way holds. */
  lemma RepeatsAddKey(n: nat)
    requires n > 1
    ensures var ways := OnlyFirst(n, n);
            && WaysOk(Self, 9, ways) && CursorsOk(ways, Starts(n)) && |ways| == n
            && CountAll(Self, ways, Starts(n), 1) == n && !InAll(Self, ways, Starts(n), 1)
  {
    var key, ways, pos := Self, OnlyFirst(n, n), Starts(n);
    CountOnes(n, 0);
    forall w | 1 <= w < n ensures ways[w] == [9] { }
    assert !HasKey(key, ways[1], pos[1], 1);
    OthersNone(ways[1..], pos[1..]);
    forall w | 0 <= w < n ensures WayOk(key, 9, ways[w]) { }
  }

  lemma {:induction false} CountOnes(n: nat, start: nat)
    requires start <= n
    ensures CountIn(Self, seq(n, _ => 1) + [9], start, 1) == n - start
    decreases n - start
  {
    if start < n {
      CountOnes(n, start + 1);
    } else {
      CountNone(Self, seq(n, _ => 1) + [9], start, 1);
    }
  }

  lemma OthersNone(ways: seq<seq<int>>, pos: seq<nat>)
    requires CursorsOk(ways, pos) && forall w :: 0 <= w < |ways| ==> ways[w] == [9]
    ensures CountAll(Self, ways, pos, 1) == 0
  {
    var key := Self;
    forall w | 0 <= w < |ways| ensures !HasKey(key, ways[w], pos[w], 1) { }
    NoHolderNoCount(key, ways, pos, 1);
  }

  /** `n` ways with key 1, which the first has twice. */
  ghost function FirstTwice(n: nat): seq<seq<int>>
    requires n > 0
  {
    [[1, 1, 9]] + seq(n - 1, _ => [1, 9])
  }

  /** Likewise there is one whose output lacks a key that every way holds. */
  lemma RepeatsDropKey(n: nat)
    requires n > 0
    ensures var ways := FirstTwice(n);
            && WaysOk(Self, 9, ways) && CursorsOk(ways, Starts(n)) && |ways| == n
            && InAll(Self, ways, Starts(n), 1) && CountAll(Self, ways, Starts(n), 1) != n
  {
    var ways, pos := FirstTwice(n), Starts(n);
    forall w | 0 <= w < n ensures WayOk(Self, 9, ways[w]) && HasKey(Self, ways[w], pos[w], 1) {
      assert ways[w] == if w == 0 then [1, 1, 9] else [1, 9];
      assert Self(ways[w][0]) == 1;
    }
    assert CountIn(Self, ways[0], 0, 1) == 1 + CountIn(Self, ways[0], 1, 1) && CountIn(Self, ways[0], 1, 1) == 1 + CountIn(Self, ways[0], 2, 1);
    CountBounds(Self, ways, pos, 1);
  }
}
