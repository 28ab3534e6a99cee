/**
 The single-threaded offset allocator (src/terark/mempool_lock_none.hpp). Blocks are ranges
 of one word array; free blocks up to a limit are kept in one list per length, linked through
 their first words, larger ones in the skip list.

 A word is AlignSize bytes wide, as for alignments of 4 and 8, where an offset fits in it.
 */
module LockNone {
  import S = SkipList

  // ------------------------------------------------------------------------ tiling

  /** The blocks, by position and length, fill `[0, n)` without overlap or gap. */
  ghost predicate Tiled(blocks: map<nat, nat>, n: nat)
  {
    && (forall p :: p in blocks ==> 0 < blocks[p] && p + blocks[p] <= n)
    && (forall p, q :: p in blocks && q in blocks && p < q ==> p + blocks[p] <= q)
    && (n > 0 ==> 0 in blocks)
    && (forall p {:trigger Closed(blocks, n, p)} :: Closed(blocks, n, p))
  }

  /** A block ends where the next one begins, or at the end. */
  ghost predicate Closed(blocks: map<nat, nat>, n: nat, p: nat)
  {
    p in blocks ==> p + blocks[p] == n || p + blocks[p] in blocks
  }

  ghost predicate Covers(blocks: map<nat, nat>, p: nat, w: nat)
  {
    p in blocks && p <= w < p + blocks[p]
  }

  /** Every word below `n` belongs to exactly one block. */
  lemma EveryWord(blocks: map<nat, nat>, n: nat, w: nat)
    requires Tiled(blocks, n) && w < n
    ensures exists p :: Covers(blocks, p, w) && forall q :: Covers(blocks, q, w) ==> q == p
  {
    var p := WordOwner(blocks, n, w, 0);
    assert Covers(blocks, p, w);
  }

  lemma {:induction false} WordOwner(blocks: map<nat, nat>, n: nat, w: nat, from: nat) returns (p: nat)
    requires Tiled(blocks, n) && from in blocks && from <= w < n
    ensures Covers(blocks, p, w)
    decreases n - from
  {
    var e := from + blocks[from];
    assert Closed(blocks, n, from);
    if w < e { p := from; } else { p := WordOwner(blocks, n, w, e); }
  }

  lemma TileExtend(blocks: map<nat, nat>, n: nat, len: nat)
    requires Tiled(blocks, n) && len > 0
    ensures n !in blocks && Tiled(blocks[n := len], n + len)
  {
    var b, n' := blocks[n := len], n + len;
    forall p ensures Closed(b, n', p) { assert Closed(blocks, n, p); }
  }

  lemma TileCut(blocks: map<nat, nat>, n: nat, pos: nat)
    requires Tiled(blocks, n) && pos in blocks && pos + blocks[pos] == n
    ensures Tiled(blocks - {pos}, pos)
  {
    var b := blocks - {pos};
    forall p ensures Closed(b, pos, p) { assert Closed(blocks, n, p); }
  }

  lemma TileSplit(blocks: map<nat, nat>, n: nat, pos: nat, len: nat)
    requires Tiled(blocks, n) && pos in blocks && 0 < len < blocks[pos]
    ensures pos + len !in blocks && Tiled(blocks[pos := len][pos + len := blocks[pos] - len], n)
  {
    var e, rest := pos + len, blocks[pos] - len;
    NotInside(blocks, n, pos, e);
    var b := blocks[pos := len][e := rest];
    hide Tiled;
    forall p ensures Closed(b, n, p) { SplitClosed(blocks, n, pos, e, b, p); }
    forall p, q | p in b && q in b && p < q ensures p + b[p] <= q { SplitApart(blocks, n, pos, e, p, q); }
    SplitBounds(blocks, n, pos, e, b);
    ToTiled(b, n);
  }

  lemma ToTiled(b: map<nat, nat>, n: nat)
    requires (forall p :: p in b ==> 0 < b[p] && p + b[p] <= n) && (forall p, q :: p in b && q in b && p < q ==> p + b[p] <= q)
    requires (n > 0 ==> 0 in b) && forall p {:trigger Closed(b, n, p)} :: Closed(b, n, p)
    ensures Tiled(b, n)
  {
  }

  lemma SplitClosed(blocks: map<nat, nat>, n: nat, pos: nat, e: nat, b: map<nat, nat>, p: nat)
    requires Tiled(blocks, n) && pos in blocks && pos < e < pos + blocks[pos] && b == blocks[pos := e - pos][e := pos + blocks[pos] - e]
    ensures Closed(b, n, p)
  {
    assert Closed(blocks, n, pos) && Closed(blocks, n, p);
    hide Tiled;
  }

  lemma SplitBounds(blocks: map<nat, nat>, n: nat, pos: nat, e: nat, b: map<nat, nat>)
    requires Tiled(blocks, n) && pos in blocks && pos < e < pos + blocks[pos] && b == blocks[pos := e - pos][e := pos + blocks[pos] - e]
    ensures (forall p :: p in b ==> 0 < b[p] && p + b[p] <= n) && (n > 0 ==> 0 in b)
  {
  }

  lemma NotInside(blocks: map<nat, nat>, n: nat, pos: nat, e: nat)
    requires Tiled(blocks, n) && pos in blocks && pos < e < pos + blocks[pos]
    ensures e !in blocks
  {
  }

  lemma SplitApart(blocks: map<nat, nat>, n: nat, pos: nat, e: nat, p: nat, q: nat)
    requires Tiled(blocks, n) && pos in blocks && pos < e < pos + blocks[pos] && p < q
    requires (p in blocks || p == e) && (q in blocks || q == e)
    ensures p + (if p == e then pos + blocks[pos] - e else if p == pos then e - pos else blocks[p]) <= q
  {
    NotInside(blocks, n, pos, e);
    if p == e { assert q in blocks && pos < q; }
  }

  lemma TileResize(blocks: map<nat, nat>, n: nat, pos: nat, len: nat)
    requires Tiled(blocks, n) && pos in blocks && pos + blocks[pos] == n && len > 0
    ensures Tiled(blocks[pos := len], pos + len)
  {
    var b, n' := blocks[pos := len], pos + len;
    forall p ensures Closed(b, n', p) { assert Closed(blocks, n, p); }
    forall p | p in blocks && p != pos ensures p + blocks[p] <= pos { }
    hide Tiled, Closed;
    ToTiled(b, n');
  }

  // ---------------------------------------------------------------- lists by length

  ghost predicate NoDup(c: seq<nat>)
  {
    forall i, j :: 0 <= i < j < |c| ==> c[i] != c[j]
  }

  ghost function Next(c: seq<nat>, i: nat): int
  {
    if i + 1 < |c| then c[i + 1] else S.Tail
  }

  /** The free blocks of one length, linked through their first words. */
  ghost predicate BinOk(mem: seq<int>, head: int, c: seq<nat>)
  {
    && head == (if |c| == 0 then S.Tail else c[0]) && NoDup(c)
    && (forall i :: 0 <= i < |c| ==> c[i] < |mem|)
    && (forall i :: 0 <= i < |c| ==> mem[c[i]] == Next(c, i))
  }

  lemma BinKeeps(mem: seq<int>, mem': seq<int>, head: int, c: seq<nat>)
    requires BinOk(mem, head, c) && |mem| <= |mem'| && forall i :: 0 <= i < |c| ==> mem'[c[i]] == mem[c[i]]
    ensures BinOk(mem', head, c)
  {
  }

  lemma BinPush(mem: seq<int>, head: int, c: seq<nat>, p: nat)
    requires BinOk(mem, head, c) && p !in c && p < |mem|
    ensures BinOk(mem[p := head], p, [p] + c)
  {
    var d, mem' := [p] + c, mem[p := head];
    forall i | 0 <= i < |d| ensures mem'[d[i]] == Next(d, i) {
      if i > 0 { PushNext(c, p, i); }
    }
    NoDupCons(p, c);
    hide NoDup;
    assert forall i :: 0 <= i < |d| ==> d[i] < |mem'|;
  }

  lemma NoDupCons(p: nat, c: seq<nat>)
    requires NoDup(c) && p !in c
    ensures NoDup([p] + c)
  {
    var d := [p] + c;
    forall i, j | 0 <= i < j < |d| ensures d[i] != d[j] { assert d[j] == c[j - 1] && c[j - 1] in c; }
  }

  lemma PushNext(c: seq<nat>, p: nat, i: nat)
    requires 0 < i <= |c| && p !in c
    ensures var d := [p] + c; d[i] == c[i - 1] && d[i] != p && Next(d, i) == Next(c, i - 1)
  {
    assert c[i - 1] in c;
  }

  lemma BinPop(mem: seq<int>, head: int, c: seq<nat>)
    requires BinOk(mem, head, c) && head != S.Tail
    ensures |c| > 0 && head == c[0] && 0 <= head < |mem| && BinOk(mem, mem[head], c[1..])
    ensures forall x :: x in c[1..] <==> x in c && x != head
  {
    var d := c[1..];
    assert mem[c[0]] == Next(c, 0);
    forall i | 0 <= i < |d| ensures mem[d[i]] == Next(d, i) { var k := i + 1; assert d[i] == c[k] && Next(d, i) == Next(c, k); }
    forall x ensures x in d <==> x in c && x != head {
      if x in d { var i :| 0 <= i < |d| && d[i] == x; assert c[i + 1] == x; }
      if x in c && x != head { var i :| 0 <= i < |c| && c[i] == x; assert d[i - 1] == x; }
    }
  }

  // -------------------------------------------------------------------------- the pool

  /** All fields of a pool at one moment, and the blocks it has given out or keeps. */
  datatype Pool = Pool(mem: seq<int>, n: nat, bins: seq<int>, hnext: seq<int>, hsize: nat,
                       blocks: map<nat, nat>, live: set<nat>, lists: seq<seq<nat>>, order: seq<nat>, hts: seq<nat>, szs: seq<nat>)

  /** Free blocks are on the list of their length, or in the skip list. */
  ghost predicate Filed(t: Pool)
  {
    && (forall p :: p in t.live ==> p in t.blocks)
    && (forall i, p :: 0 <= i < |t.lists| ==> (p in t.lists[i] <==> IsFree(t, p) && t.blocks[p] == i + 1))
    && (forall p :: p in t.order <==> IsFree(t, p) && t.blocks[p] > |t.lists|)
  }

  ghost predicate IsFree(t: Pool, p: nat)
  {
    p in t.blocks && p !in t.live
  }

  ghost predicate BinsOk(mem: seq<int>, bins: seq<int>, lists: seq<seq<nat>>)
  {
    |bins| == |lists| && forall i :: 0 <= i < |lists| ==> BinOk(mem, bins[i], lists[i])
  }

  ghost predicate Sizes(t: Pool)
  {
    |t.order| == |t.szs| && forall i :: 0 <= i < |t.order| ==> t.order[i] in t.blocks && t.blocks[t.order[i]] == t.szs[i]
  }

  /** What every operation keeps: live and free blocks tile the used part, and the lists
      hold exactly the free ones. */
  ghost predicate PoolOk(t: Pool)
  {
    && t.n <= |t.mem| && Tiled(t.blocks, t.n) && |t.bins| >= S.NodeWords
    && Filed(t) && BinsOk(t.mem, t.bins, t.lists) && Sizes(t)
    && S.Skip(t.mem, t.hnext, t.hsize, t.order, t.hts, t.szs)
  }

  lemma Facts(t: Pool)
    requires PoolOk(t)
    ensures t.n <= |t.mem| && Tiled(t.blocks, t.n) && |t.bins| == |t.lists| >= S.NodeWords && |t.order| == |t.hts| == |t.szs| && S.Sorted(t.szs)
  {
  }

  /** Words of one block are not words of another. */
  lemma BlocksApart(blocks: map<nat, nat>, n: nat, p: nat, q: nat)
    requires Tiled(blocks, n) && p in blocks && q in blocks && p != q
    ensures p + blocks[p] <= q || q + blocks[q] <= p
    ensures p + blocks[p] <= n
  {
    assert p < q ==> p + blocks[p] <= q;
    assert q < p ==> q + blocks[q] <= p;
  }

  /** Blocks in the skip list are long enough for their links. */
  lemma NodeBlock(t: Pool, i: nat)
    requires PoolOk(t) && i < |t.order|
    ensures t.order[i] in t.blocks && t.blocks[t.order[i]] > S.NodeWords && t.order[i] !in t.live
  {
    assert t.order[i] in t.order;
    assert IsFree(t, t.order[i]);
  }

  /** A block that is not in the skip list shares no word with it. */
  lemma BlockOutside(t: Pool, p: nat, w: nat)
    requires PoolOk(t) && Covers(t.blocks, p, w) && p !in t.order
    ensures S.Outside(t.order, w)
  {
    forall i | 0 <= i < |t.order| ensures w < t.order[i] || w >= t.order[i] + S.NodeWords {
      NodeBlock(t, i);
      assert t.order[i] in t.order;
      BlocksApart(t.blocks, t.n, p, t.order[i]);
    }
  }

  /** The blocks of `keep` are live in both, with the same length and the same words. */
  ghost predicate Untouched(t: Pool, t': Pool, keep: set<nat>)
  {
    && (forall p :: p in keep ==> p in t.live && p in t'.live && p in t.blocks && p in t'.blocks && t'.blocks[p] == t.blocks[p])
    && (forall p, w: nat :: p in keep && Covers(t.blocks, p, w) ==> w < |t.mem| && w < |t'.mem| && t'.mem[w] == t.mem[w])
  }

  // ---------------------------------------------------------------- freeing a block

  lemma FreeLast(t: Pool, pos: nat)
    requires PoolOk(t) && pos in t.live && t.blocks[pos] + pos == t.n
    ensures var t' := t.(n := pos, blocks := t.blocks - {pos}, live := t.live - {pos}); PoolOk(t') && Untouched(t, t', t.live - {pos})
  {
    TileCut(t.blocks, t.n, pos);
    hide Tiled, S.Skip, BinsOk;
    LastFiled(t, pos);
    hide Filed;
    forall i | 0 <= i < |t.order| ensures t.order[i] != pos { NodeBlock(t, i); }
  }

  lemma LastFiled(t: Pool, pos: nat)
    requires PoolOk(t) && pos in t.live
    ensures Filed(t.(n := pos, blocks := t.blocks - {pos}, live := t.live - {pos}))
    ensures forall p, w: nat :: p in t.live - {pos} && Covers(t.blocks, p, w) ==> w < |t.mem|
    ensures forall p :: p in t.live - {pos} ==> p in t.blocks
  {
    hide S.Skip, BinsOk, Sizes;
    var t' := t.(n := pos, blocks := t.blocks - {pos}, live := t.live - {pos});
    forall p ensures IsFree(t', p) <==> IsFree(t, p) { }
  }

  ghost function SmallFreed(t: Pool, pos: nat, i: nat): Pool
    requires i < |t.bins| == |t.lists| && pos < |t.mem|
  {
    t.(mem := t.mem[pos := t.bins[i]], bins := t.bins[i := pos], lists := t.lists[i := [pos] + t.lists[i]], live := t.live - {pos})
  }

  lemma FreeSmall(t: Pool, pos: nat, i: nat)
    requires PoolOk(t) && pos in t.live && t.blocks[pos] == i + 1 && i < |t.bins|
    ensures pos < |t.mem| && |t.bins| == |t.lists| && PoolOk(SmallFreed(t, pos, i)) && Untouched(t, SmallFreed(t, pos, i), t.live - {pos})
  {
    Facts(t);
    assert pos in t.blocks && pos < t.n;
    var t' := SmallFreed(t, pos, i);
    hide Tiled, S.Skip, PoolOk;
    SmallBins(t, pos, i);
    SmallFiled(t, pos, i);
    SmallSkip(t, pos, i);
    SmallWords(t, pos, i);
    SmallDone(t, pos, i);
  }

  lemma SmallDone(t: Pool, pos: nat, i: nat)
    requires PoolOk(t) && i < |t.bins| == |t.lists| && pos < |t.mem|
    requires var t' := SmallFreed(t, pos, i);
             BinsOk(t'.mem, t'.bins, t'.lists) && Filed(t') && S.Skip(t'.mem, t'.hnext, t'.hsize, t'.order, t'.hts, t'.szs)
    ensures PoolOk(SmallFreed(t, pos, i))
  {
    hide Tiled, S.Skip, Filed, BinsOk;
  }

  lemma SmallBins(t: Pool, pos: nat, i: nat)
    requires PoolOk(t) && pos in t.live && pos < |t.mem| && i < |t.bins| == |t.lists|
    ensures var t' := SmallFreed(t, pos, i); BinsOk(t'.mem, t'.bins, t'.lists)
  {
    hide Tiled, S.Skip, Sizes;
    var t' := SmallFreed(t, pos, i);
    forall j | 0 <= j < |t.lists| ensures BinOk(t'.mem, t'.bins[j], t'.lists[j]) {
      assert pos !in t.lists[j];
      assert BinOk(t.mem, t.bins[j], t.lists[j]);
      if j == i { BinPush(t.mem, t.bins[i], t.lists[i], pos); } else {
        forall l | 0 <= l < |t.lists[j]| ensures t'.mem[t.lists[j][l]] == t.mem[t.lists[j][l]] { assert t.lists[j][l] in t.lists[j]; }
        BinKeeps(t.mem, t'.mem, t.bins[j], t.lists[j]);
      }
    }
  }

  lemma SmallFiled(t: Pool, pos: nat, i: nat)
    requires PoolOk(t) && pos in t.live && pos in t.blocks && t.blocks[pos] == i + 1 && pos < |t.mem| && i < |t.bins| == |t.lists|
    ensures Filed(SmallFreed(t, pos, i))
  {
    hide Tiled, S.Skip, Sizes, BinsOk;
    var t' := SmallFreed(t, pos, i);
    forall p ensures IsFree(t', p) <==> IsFree(t, p) || p == pos { }
    forall j, p | 0 <= j < |t'.lists| ensures p in t'.lists[j] <==> IsFree(t', p) && t'.blocks[p] == j + 1 {
      assert p in t.lists[j] <==> IsFree(t, p) && t.blocks[p] == j + 1;
    }
  }

  lemma SmallSkip(t: Pool, pos: nat, i: nat)
    requires PoolOk(t) && pos in t.live && pos in t.blocks && pos < |t.mem| && i < |t.bins| == |t.lists|
    ensures var t' := SmallFreed(t, pos, i); S.Skip(t'.mem, t'.hnext, t'.hsize, t'.order, t'.hts, t'.szs)
  {
    assert pos !in t.order by { assert !IsFree(t, pos); }
    assert Covers(t.blocks, pos, pos);
    hide Tiled, S.Skip, Filed, BinsOk, Sizes;
    BlockOutside(t, pos, pos);
    hide S.Outside;
    S.SkipFrame(t.mem, SmallFreed(t, pos, i).mem, t.hnext, t.hsize, t.order, t.hts, t.szs);
  }

  lemma SmallWords(t: Pool, pos: nat, i: nat)
    requires PoolOk(t) && pos in t.live && pos in t.blocks && pos < |t.mem| && i < |t.bins| == |t.lists|
    ensures Untouched(t, SmallFreed(t, pos, i), t.live - {pos})
  {
    hide S.Skip, BinsOk, Sizes;
    var t' := SmallFreed(t, pos, i);
    forall p, w: nat | p in t.live - {pos} && Covers(t.blocks, p, w) ensures w < |t.mem| && t'.mem[w] == t.mem[w] {
      BlocksApart(t.blocks, t.n, p, pos);
    }
  }

  /** Insert a freed block into the skip list; the arguments are the new list. */
  ghost function HugeFreed(t: Pool, pos: nat, mem: seq<int>, hnext: seq<int>, hsize: nat, cut: nat, h: nat): Pool
    requires cut <= |t.order| == |t.hts| == |t.szs| && pos in t.blocks
  {
    t.(mem := mem, hnext := hnext, hsize := hsize, order := S.InsertAt(t.order, cut, pos), hts := S.InsertAt(t.hts, cut, h),
       szs := S.InsertAt(t.szs, cut, t.blocks[pos]), live := t.live - {pos})
  }

  lemma HugeCanAdd(t: Pool, pos: nat)
    requires PoolOk(t) && pos in t.live && t.blocks[pos] > |t.lists|
    ensures pos in t.blocks && S.CanAdd(t.order, pos, |t.mem|)
  {
    assert pos !in t.order by { assert !IsFree(t, pos); }
    forall i | 0 <= i < |t.order| ensures S.Disjoint(pos, t.order[i]) {
      NodeBlock(t, i);
      assert t.order[i] in t.order;
      BlocksApart(t.blocks, t.n, pos, t.order[i]);
    }
  }

  lemma InsertedIn(order: seq<nat>, cut: nat, pos: nat, x: nat)
    requires cut <= |order|
    ensures x in S.InsertAt(order, cut, pos) <==> x in order || x == pos
  {
    assert S.InsertAt(order, cut, pos) == order[..cut] + [pos] + order[cut..];
    assert order == order[..cut] + order[cut..];
  }

  /** Memory outside the skip list's blocks is the same. */
  lemma FreeHuge(t: Pool, pos: nat, mem: seq<int>, hnext: seq<int>, hsize: nat, cut: nat, h: nat)
    requires PoolOk(t) && pos in t.live && pos in t.blocks && t.blocks[pos] > |t.lists| && cut <= |t.order| == |t.hts| == |t.szs|
    requires var t' := HugeFreed(t, pos, mem, hnext, hsize, cut, h); S.Skip(mem, hnext, hsize, t'.order, t'.hts, t'.szs) && S.SameOutside(t.mem, mem, t'.order)
    ensures PoolOk(HugeFreed(t, pos, mem, hnext, hsize, cut, h)) && Untouched(t, HugeFreed(t, pos, mem, hnext, hsize, cut, h), t.live - {pos})
  {
    hide Tiled, S.Skip, Filed, BinsOk, Sizes, S.SameOutside, Untouched;
    HugeFiled(t, pos, mem, hnext, hsize, cut, h);
    HugeSizes(t, pos, mem, hnext, hsize, cut, h);
    HugeWords(t, pos, mem, hnext, hsize, cut, h);
    HugeBins(t, pos, mem, hnext, hsize, cut, h);
    assert |mem| == |t.mem| by { OutsideSize(t.mem, mem, HugeFreed(t, pos, mem, hnext, hsize, cut, h).order); }
  }

  lemma OutsideSize(a: seq<int>, b: seq<int>, order: seq<nat>)
    requires S.SameOutside(a, b, order)
    ensures |a| == |b|
  {
  }

  lemma HugeFiled(t: Pool, pos: nat, mem: seq<int>, hnext: seq<int>, hsize: nat, cut: nat, h: nat)
    requires PoolOk(t) && pos in t.live && pos in t.blocks && t.blocks[pos] > |t.lists| && cut <= |t.order| == |t.hts| == |t.szs|
    ensures Filed(HugeFreed(t, pos, mem, hnext, hsize, cut, h))
  {
    hide Tiled, S.Skip, BinsOk, Sizes;
    var t' := HugeFreed(t, pos, mem, hnext, hsize, cut, h);
    forall p ensures IsFree(t', p) <==> IsFree(t, p) || p == pos { }
    forall p ensures p in t'.order <==> IsFree(t', p) && t'.blocks[p] > |t'.lists| {
      InsertedIn(t.order, cut, pos, p);
      assert p in t.order <==> IsFree(t, p) && t.blocks[p] > |t.lists|;
    }
    forall j, p | 0 <= j < |t'.lists| ensures p in t'.lists[j] <==> IsFree(t', p) && t'.blocks[p] == j + 1 {
      assert p in t.lists[j] <==> IsFree(t, p) && t.blocks[p] == j + 1;
    }
  }

  lemma HugeSizes(t: Pool, pos: nat, mem: seq<int>, hnext: seq<int>, hsize: nat, cut: nat, h: nat)
    requires PoolOk(t) && pos in t.blocks && cut <= |t.order| == |t.hts| == |t.szs|
    ensures Sizes(HugeFreed(t, pos, mem, hnext, hsize, cut, h))
  {
    hide Tiled, S.Skip, BinsOk, Filed;
    var t' := HugeFreed(t, pos, mem, hnext, hsize, cut, h);
    forall i | 0 <= i < |t'.order| ensures t'.order[i] in t'.blocks && t'.blocks[t'.order[i]] == t'.szs[i] {
      S.InsertIndex(t.order, cut, pos, i);
      S.InsertIndex(t.szs, cut, t.blocks[pos], i);
    }
  }

  /** The words of the other blocks are outside the list. */
  lemma StaysOutside(t: Pool, pos: nat, cut: nat, p: nat, w: nat)
    requires PoolOk(t) && pos in t.blocks && t.blocks[pos] > |t.lists| && cut <= |t.order| && Covers(t.blocks, p, w) && p != pos && p !in t.order
    ensures S.Outside(S.InsertAt(t.order, cut, pos), w) && w < |t.mem|
  {
    BlockOutside(t, p, w);
    BlocksApart(t.blocks, t.n, p, pos);
    var order' := S.InsertAt(t.order, cut, pos);
    forall i | 0 <= i < |order'| ensures w < order'[i] || w >= order'[i] + S.NodeWords { S.InsertIndex(t.order, cut, pos, i); }
  }

  lemma HugeWords(t: Pool, pos: nat, mem: seq<int>, hnext: seq<int>, hsize: nat, cut: nat, h: nat)
    requires PoolOk(t) && pos in t.live && pos in t.blocks && t.blocks[pos] > |t.lists| && cut <= |t.order| == |t.hts| == |t.szs|
    requires S.SameOutside(t.mem, mem, S.InsertAt(t.order, cut, pos))
    ensures Untouched(t, HugeFreed(t, pos, mem, hnext, hsize, cut, h), t.live - {pos})
  {
    hide Tiled, S.Skip, BinsOk, Sizes, S.Outside;
    forall p, w: nat | p in t.live - {pos} && Covers(t.blocks, p, w) ensures w < |t.mem| && w < |mem| && mem[w] == t.mem[w] {
      assert p !in t.order by { assert !IsFree(t, p); }
      StaysOutside(t, pos, cut, p, w);
    }
  }

  lemma HugeBins(t: Pool, pos: nat, mem: seq<int>, hnext: seq<int>, hsize: nat, cut: nat, h: nat)
    requires PoolOk(t) && pos in t.live && pos in t.blocks && t.blocks[pos] > |t.lists| && cut <= |t.order| == |t.hts| == |t.szs|
    requires S.SameOutside(t.mem, mem, S.InsertAt(t.order, cut, pos))
    ensures BinsOk(mem, t.bins, t.lists)
  {
    hide S.Skip, Sizes, S.Outside;
    forall j | 0 <= j < |t.lists| ensures BinOk(mem, t.bins[j], t.lists[j]) {
      forall l | 0 <= l < |t.lists[j]| ensures mem[t.lists[j][l]] == t.mem[t.lists[j][l]] {
        var p := t.lists[j][l];
        assert p in t.lists[j] && IsFree(t, p) && t.blocks[p] == j + 1;
        StaysOutside(t, pos, cut, p, p);
      }
      BinKeeps(t.mem, mem, t.bins[j], t.lists[j]);
    }
  }

  // ------------------------------------------------------------------ taking a block

  ghost function BinTaken(t: Pool, i: nat): Pool
    requires i < |t.bins| == |t.lists| && 0 <= t.bins[i] < |t.mem| && |t.lists[i]| > 0
  {
    t.(bins := t.bins[i := t.mem[t.bins[i]]], lists := t.lists[i := t.lists[i][1..]], live := t.live + {t.bins[i] as nat})
  }

  lemma TakeBin(t: Pool, i: nat)
    requires PoolOk(t) && i < |t.bins| && t.bins[i] != S.Tail
    ensures |t.bins| == |t.lists| && 0 <= t.bins[i] < |t.mem| && |t.lists[i]| > 0
    ensures IsFree(t, t.bins[i]) && t.blocks[t.bins[i] as nat] == i + 1
    ensures PoolOk(BinTaken(t, i)) && Untouched(t, BinTaken(t, i), t.live)
  {
    hide S.Skip, Tiled;
    assert BinOk(t.mem, t.bins[i], t.lists[i]);
    BinPop(t.mem, t.bins[i], t.lists[i]);
    var pos: nat := t.bins[i];
    assert pos in t.lists[i];
    BinTakenFiled(t, i, pos);
    var t' := BinTaken(t, i);
    forall j | 0 <= j < |t'.lists| ensures BinOk(t'.mem, t'.bins[j], t'.lists[j]) { assert BinOk(t.mem, t.bins[j], t.lists[j]); }
    hide Filed, BinOk;
    SameWords(t, t');
  }

  /** Same memory, same blocks, at least the same live ones. */
  lemma SameWords(t: Pool, t': Pool)
    requires PoolOk(t) && t'.mem == t.mem && t.live <= t'.live && forall p :: p in t.live ==> p in t'.blocks && t'.blocks[p] == t.blocks[p]
    ensures Untouched(t, t', t.live)
  {
    hide S.Skip, BinsOk, Sizes;
  }

  lemma BinTakenFiled(t: Pool, i: nat, pos: nat)
    requires PoolOk(t) && i < |t.bins| == |t.lists| && pos == t.bins[i] < |t.mem| && |t.lists[i]| > 0 && pos in t.lists[i]
    requires forall x :: x in t.lists[i][1..] <==> x in t.lists[i] && x != pos
    ensures Filed(BinTaken(t, i))
  {
    hide S.Skip, Tiled, BinsOk, Sizes;
    var t' := BinTaken(t, i);
    assert IsFree(t, pos);
    forall p ensures IsFree(t', p) <==> IsFree(t, p) && p != pos { }
    forall j, p | 0 <= j < |t'.lists| ensures p in t'.lists[j] <==> IsFree(t', p) && t'.blocks[p] == j + 1 {
      assert p in t.lists[j] <==> IsFree(t, p) && t.blocks[p] == j + 1;
    }
    forall p ensures p in t'.order <==> IsFree(t', p) && t'.blocks[p] > |t'.lists| {
      assert p in t.order <==> IsFree(t, p) && t.blocks[p] > |t.lists|;
    }
  }

  /** More memory, with the used part kept. */
  ghost predicate Grown(mem: seq<int>, mem': seq<int>, n: nat)
  {
    |mem| <= |mem'| && n <= |mem| && forall w: nat :: w < n ==> mem'[w] == mem[w]
  }

  /** Lists and skip list live in blocks, so they survive a reallocation. */
  lemma GrownLists(t: Pool, mem: seq<int>)
    requires PoolOk(t) && Grown(t.mem, mem, t.n)
    ensures BinsOk(mem, t.bins, t.lists) && S.Skip(mem, t.hnext, t.hsize, t.order, t.hts, t.szs)
  {
    hide S.Skip, BinsOk, PoolOk, Grown;
    GrownBins(t, mem);
    GrownSkip(t, mem);
  }

  lemma BinBlock(t: Pool, j: nat, l: nat)
    requires PoolOk(t) && j < |t.lists| && l < |t.lists[j]|
    ensures var p := t.lists[j][l]; IsFree(t, p) && t.blocks[p] == j + 1 && p < t.n
  {
    hide S.Skip, BinsOk, Sizes;
    var p := t.lists[j][l];
    assert p in t.lists[j] && IsFree(t, p);
  }

  lemma GrownBins(t: Pool, mem: seq<int>)
    requires PoolOk(t) && Grown(t.mem, mem, t.n)
    ensures BinsOk(mem, t.bins, t.lists)
  {
    hide Sizes, S.Skip, Tiled, Filed;
    forall j | 0 <= j < |t.lists| ensures BinOk(mem, t.bins[j], t.lists[j]) {
      assert BinOk(t.mem, t.bins[j], t.lists[j]);
      forall l | 0 <= l < |t.lists[j]| ensures mem[t.lists[j][l]] == t.mem[t.lists[j][l]] {
        BinBlock(t, j, l);
      }
      hide BinOk;
      BinKeeps(t.mem, mem, t.bins[j], t.lists[j]);
    }
  }

  lemma GrownSkip(t: Pool, mem: seq<int>)
    requires PoolOk(t) && Grown(t.mem, mem, t.n)
    ensures S.Skip(mem, t.hnext, t.hsize, t.order, t.hts, t.szs)
  {
    hide Sizes, BinsOk, Filed, S.Skip;
    forall w: nat | w < |t.mem| && !S.Outside(t.order, w) ensures mem[w] == t.mem[w] {
      var i :| 0 <= i < |t.order| && !(w < t.order[i] || w >= t.order[i] + S.NodeWords);
      NodeBlock(t, i);
      assert t.order[i] + t.blocks[t.order[i]] <= t.n;
    }
    hide Tiled, S.Outside;
    S.SkipFrame(t.mem, mem, t.hnext, t.hsize, t.order, t.hts, t.szs);
  }

  ghost function Extended(t: Pool, len: nat, mem: seq<int>): Pool
  {
    t.(mem := mem, n := t.n + len, blocks := t.blocks[t.n := len], live := t.live + {t.n})
  }

  lemma Extend(t: Pool, len: nat, mem: seq<int>)
    requires PoolOk(t) && len > 0 && Grown(t.mem, mem, t.n) && t.n + len <= |mem|
    ensures t.n !in t.blocks && PoolOk(Extended(t, len, mem)) && Untouched(t, Extended(t, len, mem), t.live)
  {
    TileExtend(t.blocks, t.n, len);
    GrownLists(t, mem);
    ExtendFiled(t, len, mem);
    hide Tiled, S.Skip, BinsOk, Filed, Untouched, Grown;
    ExtendWords(t, len, mem);
  }

  lemma ExtendFiled(t: Pool, len: nat, mem: seq<int>)
    requires PoolOk(t) && t.n !in t.blocks
    ensures Filed(Extended(t, len, mem)) && Sizes(Extended(t, len, mem))
  {
    hide Tiled, S.Skip, BinsOk;
    var t' := Extended(t, len, mem);
    forall p ensures IsFree(t', p) <==> IsFree(t, p) { }
    forall p ensures p in t'.order <==> IsFree(t', p) && t'.blocks[p] > |t'.lists| {
      assert p in t.order <==> IsFree(t, p) && t.blocks[p] > |t.lists|;
    }
  }

  lemma ExtendWords(t: Pool, len: nat, mem: seq<int>)
    requires PoolOk(t) && Grown(t.mem, mem, t.n) && t.n !in t.blocks
    ensures Untouched(t, Extended(t, len, mem), t.live)
  {
    hide S.Skip, BinsOk, Sizes;
    forall p, w: nat | p in t.live && Covers(t.blocks, p, w) ensures w < |t.mem| && w < |mem| && mem[w] == t.mem[w] {
      assert p + t.blocks[p] <= t.n;
    }
  }

  ghost function HugeTaken(t: Pool, cut: nat, mem: seq<int>, hnext: seq<int>, hsize: nat): Pool
    requires cut < |t.order| == |t.hts| == |t.szs|
  {
    t.(mem := mem, hnext := hnext, hsize := hsize, order := S.RemoveAt(t.order, cut), hts := S.RemoveAt(t.hts, cut), szs := S.RemoveAt(t.szs, cut),
       live := t.live + {t.order[cut]})
  }

  lemma TakeHuge(t: Pool, cut: nat, mem: seq<int>, hnext: seq<int>, hsize: nat)
    requires PoolOk(t) && cut < |t.order| == |t.hts| == |t.szs| && S.SameOutside(t.mem, mem, t.order)
    requires var t' := HugeTaken(t, cut, mem, hnext, hsize); S.Skip(mem, hnext, hsize, t'.order, t'.hts, t'.szs)
    ensures IsFree(t, t.order[cut]) && t.blocks[t.order[cut]] == t.szs[cut]
    ensures PoolOk(HugeTaken(t, cut, mem, hnext, hsize)) && Untouched(t, HugeTaken(t, cut, mem, hnext, hsize), t.live)
  {
    NodeBlock(t, cut);
    hide Tiled, S.Skip, BinsOk, Filed, Untouched, S.SameOutside;
    HugeTakenFiled(t, cut, mem, hnext, hsize);
    HugeTakenWords(t, cut, mem, hnext, hsize);
    assert |mem| == |t.mem| by { OutsideSize(t.mem, mem, t.order); }
    var t' := HugeTaken(t, cut, mem, hnext, hsize);
    forall i | 0 <= i < |t'.order| ensures t'.order[i] in t'.blocks && t'.blocks[t'.order[i]] == t'.szs[i] {
      S.RemoveIndex(t.order, cut, i);
      S.RemoveIndex(t.szs, cut, i);
    }
  }

  lemma RemovedIn(t: Pool, cut: nat, x: nat)
    requires PoolOk(t) && cut < |t.order|
    ensures x in S.RemoveAt(t.order, cut) <==> x in t.order && x != t.order[cut]
  {
    hide Tiled, BinsOk, Filed, Sizes;
    var c, d := t.order, S.RemoveAt(t.order, cut);
    if x in d { var i :| 0 <= i < |d| && d[i] == x; S.RemoveIndex(c, cut, i); var j := if i < cut then i else i + 1; OrderDiffers(t, j, cut); }
    if x in c && x != c[cut] { var j :| 0 <= j < |c| && c[j] == x; var i := if j < cut then j else j - 1; S.RemoveIndex(c, cut, i); assert d[i] == x; }
  }

  lemma OrderDiffers(t: Pool, i: nat, j: nat)
    requires PoolOk(t) && i < |t.order| && j < |t.order| && i != j
    ensures t.order[i] != t.order[j]
  {
    if i < j { assert S.Disjoint(t.order[i], t.order[j]); } else { assert S.Disjoint(t.order[j], t.order[i]); }
  }

  lemma HugeTakenFiled(t: Pool, cut: nat, mem: seq<int>, hnext: seq<int>, hsize: nat)
    requires PoolOk(t) && cut < |t.order| == |t.hts| == |t.szs|
    ensures Filed(HugeTaken(t, cut, mem, hnext, hsize))
  {
    hide Tiled, S.Skip, BinsOk, Sizes;
    var t', pos := HugeTaken(t, cut, mem, hnext, hsize), t.order[cut];
    assert pos in t.order && IsFree(t, pos) && t.blocks[pos] > |t.lists|;
    forall p ensures IsFree(t', p) <==> IsFree(t, p) && p != pos { }
    forall p ensures p in t'.order <==> IsFree(t', p) && t'.blocks[p] > |t'.lists| {
      RemovedIn(t, cut, p);
      assert p in t.order <==> IsFree(t, p) && t.blocks[p] > |t.lists|;
    }
    forall j, p | 0 <= j < |t'.lists| ensures p in t'.lists[j] <==> IsFree(t', p) && t'.blocks[p] == j + 1 {
      assert p in t.lists[j] <==> IsFree(t, p) && t.blocks[p] == j + 1;
    }
  }

  lemma HugeTakenWords(t: Pool, cut: nat, mem: seq<int>, hnext: seq<int>, hsize: nat)
    requires PoolOk(t) && cut < |t.order| == |t.hts| == |t.szs| && S.SameOutside(t.mem, mem, t.order)
    ensures Untouched(t, HugeTaken(t, cut, mem, hnext, hsize), t.live) && BinsOk(mem, t.bins, t.lists)
  {
    hide S.Skip, Sizes, S.Outside;
    forall p: nat, w: nat | Covers(t.blocks, p, w) && p !in t.order ensures w < |t.mem| == |mem| && mem[w] == t.mem[w] {
      BlockOutside(t, p, w);
      assert p + t.blocks[p] <= t.n;
    }
    forall j | 0 <= j < |t.lists| ensures BinOk(mem, t.bins[j], t.lists[j]) {
      forall l | 0 <= l < |t.lists[j]| ensures mem[t.lists[j][l]] == t.mem[t.lists[j][l]] {
        var p := t.lists[j][l];
        assert p in t.lists[j] && IsFree(t, p) && t.blocks[p] == j + 1 && p !in t.order;
        assert Covers(t.blocks, p, p);
      }
      BinKeeps(t.mem, mem, t.bins[j], t.lists[j]);
    }
    forall p | p in t.live ensures p !in t.order { assert !IsFree(t, p); }
  }

  ghost function Split(t: Pool, pos: nat, len: nat): Pool
    requires pos in t.blocks && len < t.blocks[pos]
  {
    t.(blocks := t.blocks[pos := len][pos + len := t.blocks[pos] - len], live := t.live + {pos + len})
  }

  /** A live block becomes two live blocks. */
  lemma SplitLive(t: Pool, pos: nat, len: nat)
    requires PoolOk(t) && pos in t.live && pos in t.blocks && 0 < len < t.blocks[pos]
    ensures pos + len !in t.blocks && PoolOk(Split(t, pos, len)) && Untouched(t, Split(t, pos, len), t.live - {pos})
  {
    hide Tiled, S.Skip, BinsOk, Filed, Sizes, Untouched;
    TileSplit(t.blocks, t.n, pos, len);
    SplitFiled(t, pos, len);
    SplitWords(t, pos, len);
  }

  lemma SplitFiled(t: Pool, pos: nat, len: nat)
    requires PoolOk(t) && pos in t.live && pos in t.blocks && 0 < len < t.blocks[pos] && pos + len !in t.blocks
    ensures Filed(Split(t, pos, len)) && Sizes(Split(t, pos, len))
  {
    hide Tiled, S.Skip, BinsOk;
    var t', e := Split(t, pos, len), pos + len;
    assert !IsFree(t, pos) && !IsFree(t, e);
    forall p ensures IsFree(t', p) <==> IsFree(t, p) { }
    forall j, p | 0 <= j < |t'.lists| ensures p in t'.lists[j] <==> IsFree(t', p) && t'.blocks[p] == j + 1 {
      assert p in t.lists[j] <==> IsFree(t, p) && t.blocks[p] == j + 1;
    }
    forall p ensures p in t'.order <==> IsFree(t', p) && t'.blocks[p] > |t'.lists| {
      assert p in t.order <==> IsFree(t, p) && t.blocks[p] > |t.lists|;
    }
    forall i | 0 <= i < |t.order| ensures t.order[i] in t'.blocks && t'.blocks[t.order[i]] == t.szs[i] {
      assert t.order[i] in t.order && IsFree(t, t.order[i]);
    }
  }

  lemma SplitWords(t: Pool, pos: nat, len: nat)
    requires PoolOk(t) && pos in t.live && pos in t.blocks && 0 < len < t.blocks[pos] && pos + len !in t.blocks
    ensures Untouched(t, Split(t, pos, len), t.live - {pos})
  {
    hide S.Skip, BinsOk, Sizes;
    forall p, w: nat | p in t.live - {pos} && Covers(t.blocks, p, w) ensures w < |t.mem| { assert p + t.blocks[p] <= t.n; }
  }

  ghost function Resized(t: Pool, pos: nat, len: nat, mem: seq<int>): Pool
  {
    t.(mem := mem, n := pos + len, blocks := t.blocks[pos := len])
  }

  /** The last block is extended or shortened in place. */
  lemma ResizeLast(t: Pool, pos: nat, len: nat, mem: seq<int>)
    requires PoolOk(t) && pos in t.live && pos in t.blocks && pos + t.blocks[pos] == t.n && len > 0 && Grown(t.mem, mem, t.n) && pos + len <= |mem|
    ensures PoolOk(Resized(t, pos, len, mem)) && Untouched(t, Resized(t, pos, len, mem), t.live - {pos})
  {
    TileResize(t.blocks, t.n, pos, len);
    GrownLists(t, mem);
    hide Tiled, S.Skip, BinsOk;
    ResizedFiled(t, pos, len, mem);
    hide Filed, Sizes, Untouched, Grown;
    ResizedWords(t, pos, len, mem);
  }

  lemma ResizedFiled(t: Pool, pos: nat, len: nat, mem: seq<int>)
    requires PoolOk(t) && pos in t.live && pos in t.blocks
    ensures Filed(Resized(t, pos, len, mem)) && Sizes(Resized(t, pos, len, mem))
  {
    hide Tiled, S.Skip, BinsOk;
    var t' := Resized(t, pos, len, mem);
    assert !IsFree(t, pos);
    forall p ensures IsFree(t', p) <==> IsFree(t, p) { }
    forall j, p | 0 <= j < |t'.lists| ensures p in t'.lists[j] <==> IsFree(t', p) && t'.blocks[p] == j + 1 {
      assert p in t.lists[j] <==> IsFree(t, p) && t.blocks[p] == j + 1;
    }
    forall p ensures p in t'.order <==> IsFree(t', p) && t'.blocks[p] > |t'.lists| {
      assert p in t.order <==> IsFree(t, p) && t.blocks[p] > |t.lists|;
    }
    forall i | 0 <= i < |t.order| ensures t.order[i] in t'.blocks && t'.blocks[t.order[i]] == t.szs[i] {
      assert t.order[i] in t.order && IsFree(t, t.order[i]);
    }
  }

  lemma ResizedWords(t: Pool, pos: nat, len: nat, mem: seq<int>)
    requires PoolOk(t) && pos in t.live && pos in t.blocks && Grown(t.mem, mem, t.n)
    ensures Untouched(t, Resized(t, pos, len, mem), t.live - {pos})
  {
    hide S.Skip, BinsOk, Sizes;
    forall p, w: nat | p in t.live - {pos} && Covers(t.blocks, p, w) ensures w < |t.mem| && w < |mem| && mem[w] == t.mem[w] {
      assert p + t.blocks[p] <= t.n;
    }
  }

  /** Words of a live block may be written by its owner. */
  lemma WriteLive(t: Pool, pos: nat, mem: seq<int>)
    requires PoolOk(t) && pos in t.live && |mem| == |t.mem| && forall w: nat :: w < |mem| && !Covers(t.blocks, pos, w) ==> mem[w] == t.mem[w]
    ensures PoolOk(t.(mem := mem)) && Untouched(t, t.(mem := mem), t.live - {pos})
  {
    hide S.Skip, BinsOk, Tiled;
    WriteBins(t, pos, mem);
    WriteSkip(t, pos, mem);
    WriteWords(t, pos, mem);
    FiledSame(t, mem);
    hide Filed, Sizes, Untouched;
  }

  lemma FiledSame(t: Pool, mem: seq<int>)
    requires PoolOk(t)
    ensures Filed(t.(mem := mem)) && Sizes(t.(mem := mem))
  {
    hide Tiled, S.Skip, BinsOk;
    var t' := t.(mem := mem);
    forall p ensures IsFree(t', p) <==> IsFree(t, p) { }
    forall j, p | 0 <= j < |t'.lists| ensures p in t'.lists[j] <==> IsFree(t', p) && t'.blocks[p] == j + 1 {
      assert p in t.lists[j] <==> IsFree(t, p) && t.blocks[p] == j + 1;
    }
  }

  lemma WriteBins(t: Pool, pos: nat, mem: seq<int>)
    requires PoolOk(t) && pos in t.live && |mem| == |t.mem| && forall w: nat :: w < |mem| && !Covers(t.blocks, pos, w) ==> mem[w] == t.mem[w]
    ensures BinsOk(mem, t.bins, t.lists)
  {
    assert pos in t.blocks && Tiled(t.blocks, t.n);
    hide Sizes, S.Skip, Tiled, Filed;
    forall j | 0 <= j < |t.lists| ensures BinOk(mem, t.bins[j], t.lists[j]) {
      assert BinOk(t.mem, t.bins[j], t.lists[j]);
      forall l | 0 <= l < |t.lists[j]| ensures mem[t.lists[j][l]] == t.mem[t.lists[j][l]] {
        BinBlock(t, j, l);
        BlocksApart(t.blocks, t.n, t.lists[j][l], pos);
      }
      hide BinOk;
      BinKeeps(t.mem, mem, t.bins[j], t.lists[j]);
    }
  }

  lemma WriteSkip(t: Pool, pos: nat, mem: seq<int>)
    requires PoolOk(t) && pos in t.live && |mem| == |t.mem| && forall w: nat :: w < |mem| && !Covers(t.blocks, pos, w) ==> mem[w] == t.mem[w]
    ensures S.Skip(mem, t.hnext, t.hsize, t.order, t.hts, t.szs)
  {
    assert pos in t.blocks && Tiled(t.blocks, t.n);
    hide Sizes, BinsOk, Filed, S.Skip, Tiled;
    forall w: nat | w < |t.mem| && !S.Outside(t.order, w) ensures mem[w] == t.mem[w] {
      var i :| 0 <= i < |t.order| && !(w < t.order[i] || w >= t.order[i] + S.NodeWords);
      NodeBlock(t, i);
      BlocksApart(t.blocks, t.n, t.order[i], pos);
    }
    hide S.Outside;
    S.SkipFrame(t.mem, mem, t.hnext, t.hsize, t.order, t.hts, t.szs);
  }

  lemma WriteWords(t: Pool, pos: nat, mem: seq<int>)
    requires PoolOk(t) && pos in t.live && |mem| == |t.mem| && forall w: nat :: w < |mem| && !Covers(t.blocks, pos, w) ==> mem[w] == t.mem[w]
    ensures Untouched(t, t.(mem := mem), t.live - {pos})
  {
    assert pos in t.blocks && Tiled(t.blocks, t.n) && t.n <= |t.mem|;
    assert forall p :: p in t.live ==> p in t.blocks;
    hide S.Skip, BinsOk, Sizes, Filed, Tiled;
    forall p, w: nat | p in t.live - {pos} && Covers(t.blocks, p, w) ensures w < |t.mem| && mem[w] == t.mem[w] {
      BlocksApart(t.blocks, t.n, p, pos);
    }
  }

  lemma UntouchedFewer(t: Pool, t': Pool, keep: set<nat>, fewer: set<nat>)
    requires Untouched(t, t', keep) && fewer <= keep
    ensures Untouched(t, t', fewer)
  {
  }

  /** What lives through two steps lives through both. */
  lemma UntouchedTwice(a: Pool, b: Pool, c: Pool, keep: set<nat>, keep': set<nat>)
    requires Untouched(a, b, keep) && Untouched(b, c, keep') && keep <= keep'
    ensures Untouched(a, c, keep)
  {
    forall p, w: nat | p in keep && Covers(a.blocks, p, w) ensures w < |a.mem| && w < |c.mem| && c.mem[w] == a.mem[w] {
      assert Covers(b.blocks, p, w);
    }
  }

  // ------------------------------------------------------------------------- the object

  function EnsureCapacity(mem: seq<int>, end: nat): (r: seq<int>)
    ensures |mem| <= |r| && end <= |r| && r[..|mem|] == mem
  {
    if end <= |mem| then mem else mem + seq(end - |mem|, _ => 0)
  }

  lemma CapacityGrows(mem: seq<int>, end: nat, n: nat)
    requires n <= |mem|
    ensures Grown(mem, EnsureCapacity(mem, end), n)
  {
    var r := EnsureCapacity(mem, end);
    forall w: nat | w < n ensures r[w] == mem[w] { assert r[..|mem|][w] == r[w]; }
  }

  class MemPool {
    var mem: seq<int>
    var n: nat
    var bins: seq<int>
    var hnext: seq<int>
    var hsize: nat
    ghost var blocks: map<nat, nat>
    ghost var live: set<nat>
    ghost var lists: seq<seq<nat>>
    ghost var order: seq<nat>
    ghost var hts: seq<nat>
    ghost var szs: seq<nat>

    ghost function Now(): Pool
      reads this
    {
      Pool(mem, n, bins, hnext, hsize, blocks, live, lists, order, hts, szs)
    }

    ghost predicate Valid()
      reads this
    {
      PoolOk(Now())
    }

    constructor (freeListLen: nat)
      requires freeListLen >= S.NodeWords
      ensures Valid() && live == {} && n == 0 && |bins| == freeListLen
    {
      mem, n, bins, hnext, hsize := [], 0, seq(freeListLen, _ => S.Tail), seq(S.Levels, _ => S.Tail), 0;
      blocks, live, lists, order, hts, szs := map[], {}, seq(freeListLen, _ => []), [], [], [];
      new;
      forall k | 0 <= k < S.Levels ensures S.LevelOk(mem, hnext, order, hts, k) { }
    }

    /** Give a live block back: shorten the pool, or keep the block on its list. */
    method Sfree(pos: nat, len: nat, level: nat)
      requires Valid() && pos in live && pos in blocks && blocks[pos] == len && level < S.Levels
      modifies this
      ensures Valid() && live == old(live) - {pos} && Untouched(old(Now()), Now(), live)
      ensures |bins| == old(|bins|) && n == if pos + len == old(n) then pos else old(n)
      ensures blocks == if pos + len == old(n) then old(blocks) - {pos} else old(blocks)
      ensures |old(lists)| == |bins| && lists == if pos + len != old(n) && 0 < len <= |bins| then old(lists)[len - 1 := [pos] + old(lists)[len - 1]] else old(lists)
    {
      hide PoolOk, Untouched;
      Facts(Now());
      PosLen(Now(), pos);
      if pos + len == n {
        FreeLast(Now(), pos);
        n, blocks, live := pos, blocks - {pos}, live - {pos};
      } else if len <= |bins| {
        var i := len - 1;
        FreeSmall(Now(), pos, i);
        mem, bins, lists, live := mem[pos := bins[i]], bins[i := pos], lists[i := [pos] + lists[i]], live - {pos};
      } else {
        SfreeHuge(pos, len, level);
      }
    }

    method SfreeHuge(pos: nat, len: nat, level: nat)
      requires Valid() && pos in live && pos in blocks && blocks[pos] == len > |bins| && level < S.Levels
      modifies this
      ensures Valid() && live == old(live) - {pos} && Untouched(old(Now()), Now(), live)
      ensures bins == old(bins) && n == old(n) && blocks == old(blocks) && lists == old(lists)
    {
      hide PoolOk, Untouched, S.Skip, S.Sorted, S.Places, S.CutOf, S.CutAt, S.InsertAt, S.RemoveAt, S.SameOutside, S.CanAdd;
      ghost var t := Now();
      Facts(t);
      HasSkip(t);
      HugeCanAdd(t, pos);
      var update, n2;
      ghost var at;
      update, n2, at := S.Search(mem, hnext, hsize, len, order, hts, szs);
      var mem', hnext', hsize';
      ghost var h;
      mem', hnext', hsize', h := S.Insert(mem, hnext, hsize, update, pos, len, level, order, hts, szs, at);
      ghost var cut := S.CutOf(szs, len);
      FreeHuge(t, pos, mem', hnext', hsize', cut, h);
      mem, hnext, hsize, live := mem', hnext', hsize', live - {pos};
      order, hts, szs := S.InsertAt(order, cut, pos), S.InsertAt(hts, cut, h), S.InsertAt(szs, cut, len);
    }

    /** A new block at the end of the used part. */
    method AllocAtEnd(request: nat) returns (pos: nat)
      requires Valid() && request > 0
      modifies this
      ensures Valid() && pos == old(n) && n == pos + request && pos !in old(live) && live == old(live) + {pos} && pos in blocks && blocks[pos] == request
      ensures Untouched(old(Now()), Now(), old(live)) && bins == old(bins) && blocks == old(blocks)[pos := request]
    {
      hide PoolOk, Untouched, Grown;
      ghost var t := Now();
      Facts(t);
      pos := n;
      var mem' := EnsureCapacity(mem, n + request);
      CapacityGrows(mem, n + request, n);
      Extend(t, request, mem');
      LiveBlocks(t);
      mem, n, blocks, live := mem', n + request, blocks[n := request], live + {n};
    }

    /** A block of the requested length: from its list, from the skip list, or new. */
    method Alloc(request: nat, level: nat) returns (pos: nat)
      requires Valid() && request > 0 && level < S.Levels
      modifies this
      ensures |old(lists)| == |bins|
      ensures request <= |bins| && old(lists)[request - 1] != [] ==> pos == old(lists)[request - 1][0] && lists == old(lists)[request - 1 := old(lists)[request - 1][1..]]
      ensures Valid() && pos !in old(live) && live == old(live) + {pos} && pos in blocks && blocks[pos] == request
      ensures Untouched(old(Now()), Now(), old(live)) && |bins| == old(|bins|)
      ensures Placed(old(Now()), pos, request) && blocks == BlocksWith(old(Now()), pos, request) && n == EndWith(old(Now()), pos, request)
    {
      hide PoolOk, Untouched;
      ghost var t := Now();
      Facts(t);
      if request <= |bins| {
        var i := request - 1;
        HeadIs(t, i);
        if bins[i] != S.Tail {
          TakeBin(t, i);
          pos := bins[i];
          BinFits(t, i, pos);
          bins, lists, live := bins[i := mem[pos]], lists[i := lists[i][1..]], live + {pos};
        } else {
          NoBinFits(t, request);
          pos := AllocAtEnd(request);
        }
      } else {
        pos := AllocHuge(request, level);
      }
    }

    method AllocHuge(request: nat, level: nat) returns (pos: nat)
      requires Valid() && request > |bins| && level < S.Levels
      modifies this
      ensures Valid() && pos !in old(live) && live == old(live) + {pos} && pos in blocks && blocks[pos] == request
      ensures Untouched(old(Now()), Now(), old(live)) && |bins| == old(|bins|)
      ensures Placed(old(Now()), pos, request) && blocks == BlocksWith(old(Now()), pos, request) && n == EndWith(old(Now()), pos, request)
    {
      hide PoolOk, Untouched, S.Skip, S.Sorted, S.Places, S.CutOf, S.CutAt, Fits, Smallest;
      ghost var t := Now();
      Facts(t);
      HasSkip(t);
      var update, n2;
      ghost var at;
      update, n2, at := S.Search(mem, hnext, hsize, request, order, hts, szs);
      ghost var cut := S.CutOf(szs, request);
      HugeFits(t, request, cut, n2);
      if n2 != S.Tail && mem[n2] >= request {
        pos := n2;
        TakeAndSplit(request, level, update, pos, cut, at);
      } else {
        pos := AllocAtEnd(request);
      }
    }

    /** Unlink the block found, and give back what is left over. */
    method TakeAndSplit(request: nat, level: nat, update: seq<int>, pos: nat, ghost cut: nat, ghost at: seq<nat>)
      requires Valid() && request > |bins| && level < S.Levels && |update| == hsize
      requires cut < |order| == |hts| == |szs| && pos == order[cut] && szs[cut] >= request && S.Places(update, at, order, hts, cut, 0)
      modifies this
      ensures Valid() && pos !in old(live) && live == old(live) + {pos} && pos in blocks && blocks[pos] == request
      ensures Untouched(old(Now()), Now(), old(live)) && |bins| == old(|bins|)
      ensures blocks == BlocksWith(old(Now()), pos, request) && n == EndWith(old(Now()), pos, request)
    {
      hide PoolOk, Untouched, S.Skip, S.Sorted, S.Places, S.CutOf, S.CutAt;
      ghost var t := Now();
      HasSkip(t);
      SizeAt(t, cut);
      PosLen(t, pos);
      var remain := mem[pos] - request;
      var mem', hnext', hsize';
      mem', hnext', hsize' := S.Remove(mem, hnext, hsize, update, pos, order, hts, szs, cut, at);
      TakeHuge(t, cut, mem', hnext', hsize');
      hide S.RemoveAt, S.SameOutside;
      mem, hnext, hsize, live := mem', hnext', hsize', live + {pos};
      order, hts, szs := S.RemoveAt(order, cut), S.RemoveAt(hts, cut), S.RemoveAt(szs, cut);
      if remain > 0 {
        GiveBack(pos, request, remain, level);
        UntouchedTwice(t, HugeTaken(t, cut, mem', hnext', hsize'), Now(), t.live, t.live);
      }
    }

    /** Cut a live block in two and free the second part. */
    method GiveBack(pos: nat, len: nat, rest: nat, level: nat)
      requires Valid() && pos in live && pos in blocks && 0 < len && blocks[pos] == len + rest && rest > 0 && level < S.Levels
      modifies this
      ensures Valid() && live == old(live) && pos in blocks && blocks[pos] == len && |bins| == old(|bins|)
      ensures blocks == BlocksWith(old(Now()), pos, len) && n == EndWith(old(Now()), pos, len)
      ensures Untouched(old(Now()), Now(), live - {pos})
      ensures SameRange(old(mem), pos, mem, pos, len)
    {
      hide PoolOk, Untouched;
      ghost var t := Now();
      PosLen(t, pos);
      SplitLive(t, pos, len);
      ghost var e := pos + len;
      LiveBlocks(t);
      blocks, live := blocks[pos := len][e := rest], live + {e};
      ghost var u := Now();
      Sfree(pos + len, rest, level);
      UntouchedTwice(t, u, Now(), t.live - {pos}, t.live);
      KeptWords(u, Now(), t.live, pos);
    }

    /** Change the length of a live block, moving it if need be; the words that fit are kept. */
    method Alloc3(pos: nat, oldlen: nat, newlen: nat, level: nat) returns (newpos: nat)
      requires Valid() && pos in live && pos in blocks && blocks[pos] == oldlen && newlen > 0 && level < S.Levels
      modifies this
      ensures Valid() && live == old(live) - {pos} + {newpos} && newpos in blocks && blocks[newpos] == newlen
      ensures newpos == pos || newpos !in old(live)
      ensures Untouched(old(Now()), Now(), old(live) - {pos})
      ensures SameRange(old(mem), pos, mem, newpos, if oldlen < newlen then oldlen else newlen)
      ensures pos + oldlen == old(n) ==> newpos == pos && n == pos + newlen && blocks == old(blocks)[pos := newlen]
      ensures pos + oldlen < old(n) && newlen <= oldlen ==> newpos == pos && n == old(n) && blocks == BlocksWith(old(Now()), pos, newlen)
      ensures pos + oldlen < old(n) && newlen > oldlen ==>
                && newpos != pos && Placed(old(Now()), newpos, newlen)
                && blocks == BlocksWith(old(Now()), newpos, newlen) && n == EndWith(old(Now()), newpos, newlen)
                && IsFree(Now(), pos) && blocks[pos] == oldlen
    {
      hide PoolOk, Untouched, Placed;
      PosLen(Now(), pos);
      if pos + oldlen == n {
        ResizeInPlace(pos, oldlen, newlen);
        newpos := pos;
      } else if newlen < oldlen {
        GiveBack(pos, newlen, oldlen - newlen, level);
        newpos := pos;
      } else if newlen == oldlen {
        Unchanged(Now());
        newpos := pos;
      } else {
        newpos := Move(pos, oldlen, newlen, level);
      }
    }

    method ResizeInPlace(pos: nat, oldlen: nat, newlen: nat)
      requires Valid() && pos in live && pos in blocks && blocks[pos] == oldlen && newlen > 0 && pos + oldlen == n
      modifies this
      ensures Valid() && live == old(live) && pos in blocks && blocks[pos] == newlen && Untouched(old(Now()), Now(), live - {pos})
      ensures SameRange(old(mem), pos, mem, pos, if oldlen < newlen then oldlen else newlen)
      ensures n == pos + newlen && blocks == old(blocks)[pos := newlen]
    {
      hide PoolOk, Untouched, Grown;
      ghost var t := Now();
      Facts(t);
      var mem' := EnsureCapacity(mem, pos + newlen);
      CapacityGrows(mem, pos + newlen, n);
      ResizeLast(t, pos, newlen, mem');
      assert mem'[..|mem|] == mem;
      PrefixRange(mem, mem', pos, if oldlen < newlen then oldlen else newlen);
      mem, n, blocks := mem', pos + newlen, blocks[pos := newlen];
    }

    /** Allocate, copy, free. */
    method Move(pos: nat, oldlen: nat, newlen: nat, level: nat) returns (newpos: nat)
      requires Valid() && pos in live && pos in blocks && blocks[pos] == oldlen && 0 < oldlen < newlen && pos + oldlen < n && level < S.Levels
      modifies this
      ensures Valid() && live == old(live) - {pos} + {newpos} && newpos in blocks && blocks[newpos] == newlen && newpos !in old(live)
      ensures Untouched(old(Now()), Now(), old(live) - {pos}) && SameRange(old(mem), pos, mem, newpos, oldlen)
      ensures Placed(old(Now()), newpos, newlen) && blocks == BlocksWith(old(Now()), newpos, newlen) && n == EndWith(old(Now()), newpos, newlen)
      ensures newpos != pos && IsFree(Now(), pos) && blocks[pos] == oldlen
    {
      hide PoolOk, Untouched, Placed, BlocksWith, EndWith;
      ghost var t := Now();
      newpos := Alloc(newlen, level);
      ghost var u := Now();
      KeptWords(t, u, t.live, pos);
      PosLen(u, newpos);
      PosLen(u, pos);
      NotLast(t, u, pos, newpos);
      var mem' := Copied(mem, newpos, pos, oldlen);
      CopyInside(u, newpos, pos, oldlen);
      WriteLive(u, newpos, mem');
      mem := mem';
      ghost var v := Now();
      KeptWords(u, v, u.live - {newpos}, pos);
      Sfree(pos, oldlen, level);
      KeptWords(v, Now(), v.live - {pos}, newpos);
      UntouchedFewer(t, u, t.live, t.live - {pos});
      UntouchedTwice(t, u, v, t.live - {pos}, u.live - {newpos});
      UntouchedTwice(t, v, Now(), t.live - {pos}, v.live - {pos});
      RangeTwice(t.mem, u.mem, v.mem, mem, pos, newpos, oldlen, newlen);
    }
  }

  lemma PosLen(t: Pool, pos: nat)
    requires PoolOk(t) && pos in t.blocks
    ensures t.blocks[pos] > 0 && pos < |t.mem| && pos + t.blocks[pos] <= t.n <= |t.mem|
  {
  }

  lemma HasSkip(t: Pool)
    requires PoolOk(t)
    ensures S.Skip(t.mem, t.hnext, t.hsize, t.order, t.hts, t.szs)
  {
  }

  /** A free block that would be taken for the request: of exactly that length if there is a
      list for it, of at least that length otherwise. */
  ghost predicate Fits(t: Pool, p: nat, request: nat)
  {
    IsFree(t, p) && if request <= |t.bins| then t.blocks[p] == request else t.blocks[p] >= request
  }

  ghost predicate Smallest(t: Pool, p: nat, request: nat)
  {
    p in t.blocks && forall q :: Fits(t, q, request) ==> t.blocks[p] <= t.blocks[q]
  }

  /** Where a block of the requested length is put: at a smallest free block that serves it, if there
      is one, and at the end of the used part otherwise. */
  ghost predicate Placed(t: Pool, pos: nat, request: nat)
  {
    if exists p :: Fits(t, p, request) then Fits(t, pos, request) && Smallest(t, pos, request) else pos == t.n
  }

  /** The used part once `request` words at `pos` are a block of their own: longer by a new block,
      or shorter by what is cut off its last block. */
  ghost function EndWith(t: Pool, pos: nat, request: nat): nat
  {
    if pos in t.blocks && pos + t.blocks[pos] < t.n then t.n else pos + request
  }

  /** And its blocks: what is cut off is a block too, unless it leaves the used part. */
  ghost function BlocksWith(t: Pool, pos: nat, request: nat): map<nat, nat>
  {
    if pos in t.blocks && request < t.blocks[pos] && pos + t.blocks[pos] < t.n then t.blocks[pos := request][pos + request := t.blocks[pos] - request]
    else t.blocks[pos := request]
  }

  /** A new block makes the used part longer by its length and changes no other block. */
  lemma GrowsByNew(t: Pool, request: nat)
    requires PoolOk(t)
    ensures t.n !in t.blocks && EndWith(t, t.n, request) == t.n + request && BlocksWith(t, t.n, request) == t.blocks[t.n := request]
  {
  }

  /** After an allocation a block that was not the last one is not the last one. */
  lemma NotLast(t: Pool, u: Pool, pos: nat, newpos: nat)
    requires PoolOk(t) && PoolOk(u) && pos in t.blocks && pos in u.blocks && newpos in u.blocks && pos != newpos && u.blocks[pos] == t.blocks[pos]
    requires pos + t.blocks[pos] < t.n && u.n == EndWith(t, newpos, u.blocks[newpos])
    ensures pos + u.blocks[pos] < u.n
  {
    hide S.Skip, BinsOk, Sizes, Filed;
  }

  lemma LiveBlocks(t: Pool)
    requires PoolOk(t)
    ensures forall p :: p in t.live ==> p in t.blocks
  {
  }

  lemma HeadIs(t: Pool, i: nat)
    requires PoolOk(t) && i < |t.bins| == |t.lists|
    ensures t.bins[i] == if t.lists[i] == [] then S.Tail else t.lists[i][0]
  {
    assert BinOk(t.mem, t.bins[i], t.lists[i]);
  }

  lemma BinFits(t: Pool, i: nat, pos: nat)
    requires PoolOk(t) && i < |t.bins| && IsFree(t, pos) && t.blocks[pos] == i + 1
    ensures Fits(t, pos, i + 1) && Smallest(t, pos, i + 1)
  {
    hide PoolOk;
  }

  lemma NoBinFits(t: Pool, request: nat)
    requires PoolOk(t) && 0 < request <= |t.bins| && t.bins[request - 1] == S.Tail
    ensures forall p :: !Fits(t, p, request)
  {
    var i := request - 1;
    assert BinOk(t.mem, t.bins[i], t.lists[i]);
    assert t.lists[i] == [];
    forall p ensures !Fits(t, p, request) { assert p in t.lists[i] <==> IsFree(t, p) && t.blocks[p] == i + 1; }
  }

  lemma SizeAt(t: Pool, i: nat)
    requires PoolOk(t) && i < |t.order|
    ensures t.order[i] < |t.mem| && t.mem[t.order[i]] == t.szs[i] == t.blocks[t.order[i]] && t.order[i] in t.blocks && IsFree(t, t.order[i])
  {
    NodeBlock(t, i);
  }

  /** The search result is a smallest block that fits, or none fits. */
  lemma HugeFits(t: Pool, request: nat, cut: nat, n2: int)
    requires PoolOk(t) && request > |t.bins| && S.Sorted(t.szs) && cut == S.CutOf(t.szs, request) && |t.order| == |t.szs|
    requires if cut < |t.order| then n2 == t.order[cut] else n2 == S.Tail || exists m :: 0 <= m < |t.order| && n2 == t.order[m] && t.szs[m] < request
    ensures n2 != S.Tail ==> 0 <= n2 < |t.mem|
    ensures n2 != S.Tail && t.mem[n2] >= request <==> cut < |t.order|
    ensures cut < |t.order| ==> t.szs[cut] >= request && Fits(t, t.order[cut], request) && Smallest(t, t.order[cut], request)
    ensures cut >= |t.order| ==> forall p :: !Fits(t, p, request)
  {
    S.SmallestFit(t.szs, request);
    if cut < |t.order| {
      SizeAt(t, cut);
    } else if n2 != S.Tail {
      var m :| 0 <= m < |t.order| && n2 == t.order[m] && t.szs[m] < request;
      SizeAt(t, m);
    }
    forall q | Fits(t, q, request) ensures exists i :: 0 <= i < |t.order| && t.order[i] == q && t.szs[i] == t.blocks[q] {
      FitsInOrder(t, q, request);
    }
    hide PoolOk;
  }

  lemma FitsInOrder(t: Pool, q: nat, request: nat)
    requires PoolOk(t) && request > |t.bins| && Fits(t, q, request)
    ensures exists i :: 0 <= i < |t.order| && t.order[i] == q && t.szs[i] == t.blocks[q]
  {
    assert q in t.order <==> IsFree(t, q) && t.blocks[q] > |t.lists|;
    var i :| 0 <= i < |t.order| && t.order[i] == q;
    assert t.szs[i] == t.blocks[q];
  }

  lemma KeptWords(t: Pool, t': Pool, keep: set<nat>, pos: nat)
    requires Untouched(t, t', keep) && pos in keep && pos in t.blocks
    ensures pos in t'.blocks && t'.blocks[pos] == t.blocks[pos] && pos in t'.live
    ensures SameRange(t.mem, pos, t'.mem, pos, t.blocks[pos])
  {
    var len := t.blocks[pos];
    if len > 0 { assert Covers(t.blocks, pos, pos + len - 1) && Covers(t.blocks, pos, pos); }
    assert len > 0 ==> pos + len - 1 < |t.mem| && pos + len - 1 < |t'.mem|;
    if len > 0 {
      var a, b := t.mem[pos..pos + len], t'.mem[pos..pos + len];
      forall i | 0 <= i < len ensures a[i] == b[i] { assert Covers(t.blocks, pos, pos + i); }
    }
  }

  /** `len` words from `p` on in `a` are those from `q` on in `b`. */
  ghost predicate SameRange(a: seq<int>, p: nat, b: seq<int>, q: nat, len: nat)
  {
    len > 0 ==> p + len <= |a| && q + len <= |b| && a[p..p + len] == b[q..q + len]
  }

  lemma Unchanged(t: Pool)
    requires PoolOk(t)
    ensures forall keep :: keep <= t.live ==> Untouched(t, t, keep)
  {
    hide S.Skip, BinsOk, Sizes;
  }

  lemma PrefixRange(a: seq<int>, b: seq<int>, pos: nat, len: nat)
    requires |a| <= |b| && b[..|a|] == a && pos + len <= |a|
    ensures SameRange(a, pos, b, pos, len)
  {
    assert b[..|a|][pos..pos + len] == b[pos..pos + len];
  }

  function Copied(mem: seq<int>, dst: nat, src: nat, len: nat): (r: seq<int>)
    requires dst + len <= |mem| && src + len <= |mem|
    ensures |r| == |mem|
  {
    mem[..dst] + mem[src..src + len] + mem[dst + len..]
  }

  lemma CopyInside(t: Pool, dst: nat, src: nat, len: nat)
    requires PoolOk(t) && dst in t.blocks && len <= t.blocks[dst] && dst + len <= |t.mem| && src + len <= |t.mem|
    ensures var mem := Copied(t.mem, dst, src, len);
            && SameRange(t.mem, src, mem, dst, len)
            && forall w: nat :: w < |mem| && !Covers(t.blocks, dst, w) ==> mem[w] == t.mem[w]
  {
    hide PoolOk;
    var mem := Copied(t.mem, dst, src, len);
    assert mem[dst..dst + len] == t.mem[src..src + len];
  }

  lemma RangeTwice(a: seq<int>, b: seq<int>, c: seq<int>, d: seq<int>, pos: nat, newpos: nat, oldlen: nat, newlen: nat)
    requires SameRange(a, pos, b, pos, oldlen) && SameRange(b, pos, c, newpos, oldlen) && SameRange(c, newpos, d, newpos, newlen) && 0 < oldlen < newlen
    ensures SameRange(a, pos, d, newpos, oldlen)
  {
    Shorter(c, newpos, newlen, oldlen);
    Shorter(d, newpos, newlen, oldlen);
  }

  lemma Shorter(a: seq<int>, p: nat, len: nat, k: nat)
    requires k <= len && p + len <= |a|
    ensures a[p..p + k] == a[p..p + len][..k]
  {
  }
}
