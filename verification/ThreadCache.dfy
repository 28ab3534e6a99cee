/**
 The thread-cached offset allocator (src/terark/mempool_thread_cache.hpp).

 First the part of it that one thread runs on its own state: fastbin free lists, the
 size-ordered list of huge free blocks and the hot area.
 */
module ThreadCache {

  /** Offsets and lengths are counted in units of AlignSize: every length is rounded up to
      one on entry, and every offset handed out is a multiple of it. `bins` is the number of
      fastbins, `cap` the fixed capacity, `base` the address of the buffer. */
  datatype Config = Config(align: nat, bins: nat, cap: nat, base: nat) {
    ghost predicate Ok() {
      align > 0 && bins > 0 && ArenaSize % align == 0 && FlushLimit % align == 0 && ArenaSize >= align
    }
    function Units(bytes: nat): nat
      requires align > 0
    {
      (bytes + align - 1) / align
    }
    function Arena(): nat
      requires align > 0
    {
      ArenaSize / align
    }
    /** 256 KiB. */
    function Limit(): int
      requires align > 0
    {
      FlushLimit / align
    }
  }

  const ArenaSize: nat := 2 * 1024 * 1024
  const FlushLimit: nat := 256 * 1024

  datatype Block = Block(pos: nat, len: nat)

  /** What is added up over blocks: how many of them own a given byte, or their bytes. */
  datatype Measure = Owns(byte: nat) | Bytes

  function M(m: Measure, b: Block): nat
  {
    match m
    case Owns(x) => if b.pos <= x < b.pos + b.len then 1 else 0
    case Bytes => b.len
  }

  lemma Split(m: Measure, pos: nat, a: nat, b: nat)
    ensures M(m, Block(pos, a + b)) == M(m, Block(pos, a)) + M(m, Block(pos + a, b))
  {
  }

  function Sum(m: Measure, bs: seq<Block>): nat
  {
    if |bs| == 0 then 0 else M(m, bs[0]) + Sum(m, bs[1..])
  }

  lemma {:induction false} SumConcat(m: Measure, a: seq<Block>, b: seq<Block>)
    ensures Sum(m, a + b) == Sum(m, a) + Sum(m, b)
  {
    if |a| == 0 {
      assert a + b == b;
    } else {
      assert (a + b)[1..] == a[1..] + b;
      SumConcat(m, a[1..], b);
    }
  }

  /** Taking one block out of a list. */
  lemma SumRemove(m: Measure, bs: seq<Block>, i: nat)
    requires i < |bs|
    ensures Sum(m, bs) == Sum(m, bs[..i] + bs[i+1..]) + M(m, bs[i])
  {
    assert bs == bs[..i] + ([bs[i]] + bs[i+1..]);
    SumConcat(m, bs[..i], [bs[i]] + bs[i+1..]);
    SumConcat(m, [bs[i]], bs[i+1..]);
    SumConcat(m, bs[..i], bs[i+1..]);
  }

  /** Putting one block into a list. */
  lemma SumInsert(m: Measure, bs: seq<Block>, i: nat, b: Block)
    requires i <= |bs|
    ensures Sum(m, bs[..i] + [b] + bs[i..]) == Sum(m, bs) + M(m, b)
  {
    var r := bs[..i] + [b] + bs[i..];
    SumRemove(m, r, i);
    assert r[..i] + r[i+1..] == bs;
  }

  function SumBins(m: Measure, bins: seq<seq<Block>>): nat
  {
    if |bins| == 0 then 0 else Sum(m, bins[0]) + SumBins(m, bins[1..])
  }

  lemma {:induction false} SumBinsUpdate(m: Measure, bins: seq<seq<Block>>, i: nat, list: seq<Block>)
    requires i < |bins|
    ensures SumBins(m, bins[i := list]) + Sum(m, bins[i]) == SumBins(m, bins) + Sum(m, list)
  {
    if i == 0 {
      assert bins[i := list][1..] == bins[1..];
    } else {
      assert bins[i := list][1..] == bins[1..][i-1 := list];
      SumBinsUpdate(m, bins[1..], i - 1, list);
    }
  }

  /** State of one thread's cache. `lost` is specification only: the bytes by which the
      source's counters run ahead, namely the remainders of past huge-block splits. */
  datatype Cache = Cache(
    bins: seq<seq<Block>>, huge: seq<Block>, hotPos: nat, hotEnd: nat,
    fragSize: int, fragInc: int, hugeSum: int, hugeCnt: int, lost: nat)

  /** The free lists, that is, everything but the hot area. */
  function Listed(m: Measure, t: Cache): nat
  {
    SumBins(m, t.bins) + Sum(m, t.huge)
  }

  /** Everything the thread owns: free lists and hot area. */
  function Held(m: Measure, t: Cache): nat
  {
    Listed(m, t) + (if t.hotPos <= t.hotEnd then M(m, Block(t.hotPos, t.hotEnd - t.hotPos)) else 0)
  }

  ghost predicate BinOk(list: seq<Block>, len: nat)
  {
    forall j :: 0 <= j < |list| ==> list[j].len == len
  }

  ghost predicate HugeOk(bins: nat, huge: seq<Block>)
  {
    && (forall j :: 0 <= j < |huge| ==> huge[j].len > bins)
    && (forall i, j :: 0 <= i <= j < |huge| ==> huge[i].len <= huge[j].len)
  }

  ghost predicate ShapeOk(c: Config, t: Cache)
  {
    && c.Ok() && |t.bins| == c.bins
    && (forall i :: 0 <= i < |t.bins| ==> BinOk(t.bins[i], i + 1))
    && HugeOk(c.bins, t.huge)
    && t.hotPos <= t.hotEnd
  }

  /** The counters: exact up to the remainders of past splits, never negative, and the
      unflushed part small. */
  ghost predicate CountersOk(c: Config, t: Cache)
    requires c.align > 0
  {
    && t.fragSize == Listed(Bytes, t) + t.lost
    && t.hugeSum == Sum(Bytes, t.huge) + t.lost
    && t.hugeCnt == |t.huge|
    && IncOk(c, t)
  }

  /** The unflushed part of the fragment counter is small, and what has been flushed,
      fragSize - fragInc, is not negative. */
  ghost predicate IncOk(c: Config, t: Cache)
    requires c.align > 0
  {
    -c.Limit() <= t.fragInc <= c.Limit() && t.fragInc <= t.fragSize
  }

  /** Result of an operation: new cache, what it added to the pool's shared fragment
      counter, and the offset allocated, if any. */
  datatype Outcome = Outcome(cache: Cache, flushed: int, pos: int)

  const NoPos: int := -1

  /** `len` leaves the free lists. */
  function CountOut(c: Config, t: Cache, len: nat, flushed: int, pos: int): Outcome
    requires c.align > 0
  {
    var inc := t.fragInc - len;
    if inc < -c.Limit() then Outcome(t.(fragSize := t.fragSize - len, fragInc := 0), flushed + inc, pos)
    else Outcome(t.(fragSize := t.fragSize - len, fragInc := inc), flushed, pos)
  }

  /** `len` enters the free lists. */
  function CountIn(c: Config, t: Cache, len: nat): Outcome
    requires c.align > 0
  {
    var inc := t.fragInc + len;
    if inc > c.Limit() then Outcome(t.(fragSize := t.fragSize + len, fragInc := 0), inc, NoPos)
    else Outcome(t.(fragSize := t.fragSize + len, fragInc := inc), 0, NoPos)
  }

  /** Index of the first block of at least `len` bytes. */
  function FirstFit(huge: seq<Block>, len: nat): (i: nat)
    ensures i <= |huge|
    ensures forall j :: 0 <= j < i ==> huge[j].len < len
    ensures i < |huge| ==> huge[i].len >= len
  {
    if |huge| == 0 || huge[0].len >= len then 0 else 1 + FirstFit(huge[1..], len)
  }

  /** Return a block to this thread. */
  function Sfree(c: Config, t: Cache, b: Block): Outcome
    requires ShapeOk(c, t) && b.len > 0
  {
    if b.pos + b.len == t.hotPos then Outcome(t.(hotPos := b.pos), 0, NoPos)
    else if b.len <= c.bins then
      var i := b.len - 1;
      CountIn(c, t.(bins := t.bins[i := [b] + t.bins[i]]), b.len)
    else
      var i := FirstFit(t.huge, b.len);
      CountIn(c, t.(huge := t.huge[..i] + [b] + t.huge[i..], hugeSum := t.hugeSum + b.len, hugeCnt := t.hugeCnt + 1), b.len)
  }

  /** Cut from the hot area. */
  function FromHot(t: Cache, request: nat): Outcome
  {
    if t.hotPos + request <= t.hotEnd then Outcome(t.(hotPos := t.hotPos + request), 0, t.hotPos)
    else Outcome(t, 0, NoPos)
  }

  /** Requests of fastbin size: own bin, then the bin of twice the size, then the hot
      area, then the largest huge block becomes the new hot area. */
  function AllocSmall(c: Config, t: Cache, request: nat): Outcome
    requires ShapeOk(c, t) && 0 < request <= c.bins
  {
    var i := request - 1;
    var i2 := 2 * i + 1;
    if |t.bins[i]| > 0 then
      CountOut(c, t.(bins := t.bins[i := t.bins[i][1..]]), request, 0, t.bins[i][0].pos)
    else if i2 < c.bins && |t.bins[i2]| > 0 then
      var pos := t.bins[i2][0].pos;
      CountOut(c, t.(bins := t.bins[i2 := t.bins[i2][1..]][i := [Block(pos + request, request)]]), request, 0, pos)
    else if t.hotPos + request <= t.hotEnd then FromHot(t, request)
    else if |t.huge| > 0 && t.huge[|t.huge|-1].len >= request then TakeLargest(c, t, request)
    else Outcome(t, 0, NoPos)
  }

  /** The last huge block is handed out up to `request`, and its rest replaces the hot
      area, which is freed. */
  function TakeLargest(c: Config, t: Cache, request: nat): Outcome
    requires ShapeOk(c, t) && |t.huge| > 0 && t.huge[|t.huge|-1].len >= request
  {
    var b := t.huge[|t.huge|-1];
    var t1 := t.(huge := t.huge[..|t.huge|-1]);
    var o := FreeHot(c, t1);
    var t2 := o.cache.(hotPos := b.pos + request, hotEnd := b.pos + b.len,
                       hugeSum := o.cache.hugeSum - b.len, hugeCnt := o.cache.hugeCnt - 1);
    CountOut(c, t2, b.len, o.flushed, b.pos)
  }

  /** Give up what is left of the hot area. Callers install a new one at once. */
  function FreeHot(c: Config, t: Cache): Outcome
    requires ShapeOk(c, t)
  {
    if t.hotPos < t.hotEnd then Sfree(c, t, Block(t.hotPos, t.hotEnd - t.hotPos)) else Outcome(t, 0, NoPos)
  }

  /** Larger requests: the smallest huge block that fits, split; otherwise the hot area. */
  function AllocHuge(c: Config, t: Cache, request: nat): Outcome
    requires ShapeOk(c, t) && request > c.bins
  {
    var i := FirstFit(t.huge, request);
    if i < |t.huge| then SplitHuge(c, t, request, i) else FromHot(t, request)
  }

  function SplitHuge(c: Config, t: Cache, request: nat, i: nat): Outcome
    requires ShapeOk(c, t) && i < |t.huge| && t.huge[i].len >= request
  {
    var b := t.huge[i];
    var remain := b.len - request;
    var t1 := t.(huge := t.huge[..i] + t.huge[i+1..]);
    var o := if remain > 0 then Sfree(c, t1, Block(b.pos + request, remain)) else Outcome(t1, 0, NoPos);
    var t2 := o.cache.(hugeSum := o.cache.hugeSum - request, hugeCnt := o.cache.hugeCnt - 1, lost := o.cache.lost + remain);
    CountOut(c, t2, request, o.flushed, b.pos)
  }

  function Alloc(c: Config, t: Cache, request: nat): Outcome
    requires ShapeOk(c, t) && request > 0
  {
    if request <= c.bins then AllocSmall(c, t, request) else AllocHuge(c, t, request)
  }

  /** Make a freshly reserved chunk the hot area, or append it to the current one. */
  function SetHotArea(c: Config, t: Cache, b: Block): Outcome
    requires ShapeOk(c, t)
  {
    if t.hotEnd == b.pos then Outcome(t.(hotEnd := b.pos + b.len), 0, NoPos)
    else
      var o := FreeHot(c, t);
      Outcome(o.cache.(hotPos := b.pos, hotEnd := b.pos + b.len), o.flushed, NoPos)
  }

  /** Resize a block: in place at the hot area, by giving back its end, or by moving it. */
  function Alloc3(c: Config, t: Cache, b: Block, newlen: nat): Outcome
    requires ShapeOk(c, t) && b.len > 0 && newlen > 0
  {
    if b.pos + b.len == t.hotPos && b.pos + newlen <= t.hotEnd then
      Outcome(t.(hotPos := b.pos + newlen), 0, b.pos)
    else if newlen < b.len then
      Sfree(c, t, Block(b.pos + newlen, b.len - newlen)).(pos := b.pos)
    else if newlen == b.len then Outcome(t, 0, b.pos)
    else
      var o := Alloc(c, t, newlen);
      if o.pos == NoPos then o
      else
        AllocKeeps(c, t, newlen);
        var f := Sfree(c, o.cache, b);
        Outcome(f.cache, o.flushed + f.flushed, o.pos)
  }

  // ----------------------------------------------------- what each operation keeps

  lemma SfreeKeeps(c: Config, t: Cache, b: Block)
    requires ShapeOk(c, t) && b.len > 0
    ensures ShapeOk(c, Sfree(c, t, b).cache)
  {
    hide Config.Ok, Config.Limit;
    if b.pos + b.len != t.hotPos && b.len > c.bins {
      var i := FirstFit(t.huge, b.len);
      assert HugeOk(c.bins, t.huge[..i] + [b] + t.huge[i..]);
    }
  }

  /** Freeing hands exactly the freed bytes to the thread. */
  lemma SfreeConserves(m: Measure, c: Config, t: Cache, b: Block)
    requires ShapeOk(c, t) && b.len > 0
    ensures Held(m, Sfree(c, t, b).cache) == Held(m, t) + M(m, b)
  {
    hide Config.Ok, Config.Limit, M, BinOk, HugeOk;
    if b.pos + b.len == t.hotPos {
      Split(m, b.pos, b.len, t.hotEnd - t.hotPos);
    } else if b.len <= c.bins {
      var i := b.len - 1;
      SumBinsUpdate(m, t.bins, i, [b] + t.bins[i]);
      SumConcat(m, [b], t.bins[i]);
    } else {
      SumInsert(m, t.huge, FirstFit(t.huge, b.len), b);
    }
  }

  lemma LimitOk(c: Config)
    requires c.Ok()
    ensures c.Limit() >= 0
  {
  }

  /** The counters follow the free lists exactly when a block is freed. */
  lemma SfreeCounts(c: Config, t: Cache, b: Block)
    requires ShapeOk(c, t) && b.len > 0 && IncOk(c, t) && t.fragSize >= 0
    ensures var t' := Sfree(c, t, b).cache;
            t'.fragSize - t.fragSize == Listed(Bytes, t') - Listed(Bytes, t) >= 0 && t'.lost == t.lost
    ensures var t' := Sfree(c, t, b).cache;
            t'.hugeSum - t.hugeSum == Sum(Bytes, t'.huge) - Sum(Bytes, t.huge) && t'.hugeCnt - t.hugeCnt == |t'.huge| - |t.huge|
    ensures Flushed(c, t, Sfree(c, t, b))
  {
    hide Config.Ok, Config.Limit, BinOk, HugeOk;
    LimitOk(c);
    if b.pos + b.len != t.hotPos {
      if b.len <= c.bins {
        BinGrows(c, t, b);
      } else {
        SumInsert(Bytes, t.huge, FirstFit(t.huge, b.len), b);
      }
    }
  }

  lemma BinGrows(c: Config, t: Cache, b: Block)
    requires ShapeOk(c, t) && 0 < b.len <= c.bins
    ensures |t.bins| == c.bins && SumBins(Bytes, t.bins[b.len - 1 := [b] + t.bins[b.len - 1]]) == SumBins(Bytes, t.bins) + M(Bytes, b)
  {
    var i := b.len - 1;
    SumBinsUpdate(Bytes, t.bins, i, [b] + t.bins[i]);
    SumConcat(Bytes, [b], t.bins[i]);
    assert Sum(Bytes, [b]) == M(Bytes, b) + Sum(Bytes, []);
  }

  /** What an operation adds to the shared counter is what leaves the thread's own. */
  ghost predicate Flushed(c: Config, t: Cache, o: Outcome)
    requires c.align > 0
  {
    o.cache.fragSize - o.cache.fragInc == t.fragSize - t.fragInc + o.flushed && IncOk(c, o.cache)
  }

  lemma TakeLargestKeeps(c: Config, t: Cache, request: nat)
    requires ShapeOk(c, t) && |t.huge| > 0 && t.huge[|t.huge|-1].len >= request
    ensures ShapeOk(c, TakeLargest(c, t, request).cache)
  {
    hide Config.Ok, Config.Limit, FreeHot, ShapeOk;
    var t1 := t.(huge := t.huge[..|t.huge|-1]);
    WithoutBlock(c, t, |t.huge| - 1);
    assert t.huge[..|t.huge|-1] + t.huge[|t.huge|..] == t1.huge;
    FreeHotKeeps(c, t1);
    SameShape(c, FreeHot(c, t1).cache, TakeLargest(c, t, request).cache);
  }

  lemma WithoutBlock(c: Config, t: Cache, i: nat)
    requires ShapeOk(c, t) && i < |t.huge|
    ensures ShapeOk(c, t.(huge := t.huge[..i] + t.huge[i+1..]))
  {
    hide Config.Ok, BinOk;
  }

  lemma SameShape(c: Config, t: Cache, t': Cache)
    requires ShapeOk(c, t) && t'.bins == t.bins && t'.huge == t.huge && t'.hotPos <= t'.hotEnd
    ensures ShapeOk(c, t')
  {
    hide Config.Ok, BinOk, HugeOk;
  }

  lemma FreeHotKeeps(c: Config, t: Cache)
    requires ShapeOk(c, t)
    ensures ShapeOk(c, FreeHot(c, t).cache)
  {
    hide Config.Ok, BinOk, HugeOk, Sfree;
    if t.hotPos < t.hotEnd { SfreeKeeps(c, t, Block(t.hotPos, t.hotEnd - t.hotPos)); }
  }

  lemma TakeLargestConserves(m: Measure, c: Config, t: Cache, request: nat)
    requires ShapeOk(c, t) && |t.huge| > 0 && t.huge[|t.huge|-1].len >= request
    ensures var o := TakeLargest(c, t, request); o.pos >= 0 && Held(m, o.cache) + M(m, Block(o.pos, request)) == Held(m, t)
  {
    hide Config.Ok, Config.Limit, FreeHot, M, BinOk, HugeOk;
    var n := |t.huge|;
    var b := t.huge[n-1];
    var t1 := t.(huge := t.huge[..n-1]);
    SumRemove(m, t.huge, n - 1);
    assert t.huge[..n-1] + t.huge[n..] == t1.huge;
    WithoutBlock(c, t, n - 1);
    FreeHotLists(m, c, t1);
    Split(m, b.pos, request, b.len - request);
  }

  /** Freeing the hot area moves it to the lists; it never merges with itself. */
  lemma FreeHotLists(m: Measure, c: Config, t: Cache)
    requires ShapeOk(c, t)
    ensures Listed(m, FreeHot(c, t).cache) == Held(m, t)
    ensures ShapeOk(c, FreeHot(c, t).cache)
  {
    hide Config.Ok, Config.Limit, BinOk, HugeOk;
    FreeHotKeeps(c, t);
    if t.hotPos < t.hotEnd {
      SfreeConserves(m, c, t, Block(t.hotPos, t.hotEnd - t.hotPos));
    }
  }

  lemma TakeLargestCounts(c: Config, t: Cache, request: nat)
    requires ShapeOk(c, t) && |t.huge| > 0 && t.huge[|t.huge|-1].len >= request && CountersOk(c, t)
    ensures CountersOk(c, TakeLargest(c, t, request).cache) && Flushed(c, t, TakeLargest(c, t, request))
  {
    hide Config.Ok, Config.Limit, Sfree, BinOk, HugeOk, SumBins;
    LimitOk(c);
    WithoutBlock(c, t, |t.huge| - 1);
    var n := |t.huge|;
    var t1 := t.(huge := t.huge[..n-1]);
    SumRemove(Bytes, t.huge, n - 1);
    assert t.huge[..n-1] + t.huge[n..] == t1.huge;
    if t1.hotPos < t1.hotEnd { SfreeCounts(c, t1, Block(t1.hotPos, t1.hotEnd - t1.hotPos)); }
  }

  lemma SplitHugeKeeps(c: Config, t: Cache, request: nat, i: nat)
    requires ShapeOk(c, t) && i < |t.huge| && t.huge[i].len >= request
    ensures ShapeOk(c, SplitHuge(c, t, request, i).cache)
  {
    hide Config.Ok, Config.Limit, Sfree, BinOk, HugeOk;
    var b := t.huge[i];
    var t1 := t.(huge := t.huge[..i] + t.huge[i+1..]);
    WithoutBlock(c, t, i);
    if b.len > request { SfreeKeeps(c, t1, Block(b.pos + request, b.len - request)); }
  }

  lemma NoBytes(m: Measure, pos: nat)
    ensures M(m, Block(pos, 0)) == 0
  {
  }

  lemma SplitHugeConserves(m: Measure, c: Config, t: Cache, request: nat, i: nat)
    requires ShapeOk(c, t) && i < |t.huge| && t.huge[i].len >= request
    ensures var o := SplitHuge(c, t, request, i); o.pos >= 0 && Held(m, o.cache) + M(m, Block(o.pos, request)) == Held(m, t)
  {
    hide Config.Ok, Config.Limit, Sfree, M, BinOk, HugeOk, SumBins;
    WithoutBlock(c, t, i);
    var b := t.huge[i];
    var t1 := t.(huge := t.huge[..i] + t.huge[i+1..]);
    SumRemove(m, t.huge, i);
    Split(m, b.pos, request, b.len - request);
    if b.len == request { NoBytes(m, b.pos + request); }
    if b.len > request { SfreeConserves(m, c, t1, Block(b.pos + request, b.len - request)); }
  }

  /** The split is where the counters run ahead: by the remainder, exactly. */
  lemma SplitHugeCounts(c: Config, t: Cache, request: nat, i: nat)
    requires ShapeOk(c, t) && i < |t.huge| && t.huge[i].len >= request && CountersOk(c, t)
    ensures var o := SplitHuge(c, t, request, i);
            CountersOk(c, o.cache) && Flushed(c, t, o) && o.cache.lost == t.lost + t.huge[i].len - request
  {
    hide Config.Ok, Config.Limit, Sfree, BinOk, HugeOk, SumBins;
    LimitOk(c);
    WithoutBlock(c, t, i);
    var b := t.huge[i];
    var t1 := t.(huge := t.huge[..i] + t.huge[i+1..]);
    SumRemove(Bytes, t.huge, i);
    if b.len > request { SfreeCounts(c, t1, Block(b.pos + request, b.len - request)); }
  }

  lemma AllocSmallKeeps(c: Config, t: Cache, request: nat)
    requires ShapeOk(c, t) && 0 < request <= c.bins
    ensures ShapeOk(c, AllocSmall(c, t, request).cache)
  {
    hide Config.Ok, Config.Limit, HugeOk, TakeLargest;
    if |t.huge| > 0 && t.huge[|t.huge|-1].len >= request { TakeLargestKeeps(c, t, request); }
  }

  lemma AllocSmallBins(m: Measure, c: Config, t: Cache, request: nat)
    requires ShapeOk(c, t) && 0 < request <= c.bins
    requires |t.bins[request - 1]| > 0 || (2 * request - 1 < c.bins && |t.bins[2 * request - 1]| > 0)
    ensures var o := AllocSmall(c, t, request);
            o.pos >= 0 && SumBins(m, o.cache.bins) + M(m, Block(o.pos, request)) == SumBins(m, t.bins)
  {
    hide Config.Ok, Config.Limit, M, HugeOk;
    var i, i2 := request - 1, 2 * request - 1;
    if |t.bins[i]| > 0 {
      SumBinsUpdate(m, t.bins, i, t.bins[i][1..]);
    } else {
      var list2 := t.bins[i2];
      var mid := t.bins[i2 := list2[1..]];
      var half := Block(list2[0].pos + request, request);
      SumBinsUpdate(m, t.bins, i2, list2[1..]);
      SumBinsUpdate(m, mid, i, [half]);
      Split(m, list2[0].pos, request, request);
      assert Sum(m, [half]) == M(m, half) + Sum(m, []);
    }
  }

  lemma AllocSmallConserves(m: Measure, c: Config, t: Cache, request: nat)
    requires ShapeOk(c, t) && 0 < request <= c.bins
    ensures var o := AllocSmall(c, t, request);
            if o.pos == NoPos then o == Outcome(t, 0, NoPos)
            else o.pos >= 0 && Held(m, o.cache) + M(m, Block(o.pos, request)) == Held(m, t)
  {
    hide Config.Ok, Config.Limit, TakeLargest, M, SumBins, Sum, HugeOk, BinOk;
    if |t.bins[request - 1]| > 0 || (2 * request - 1 < c.bins && |t.bins[2 * request - 1]| > 0) {
      AllocSmallBins(m, c, t, request);
    } else if t.hotPos + request <= t.hotEnd {
      Split(m, t.hotPos, request, t.hotEnd - t.hotPos - request);
    } else if |t.huge| > 0 && t.huge[|t.huge|-1].len >= request {
      TakeLargestConserves(m, c, t, request);
    }
  }

  lemma AllocSmallCounts(c: Config, t: Cache, request: nat)
    requires ShapeOk(c, t) && 0 < request <= c.bins && CountersOk(c, t)
    ensures CountersOk(c, AllocSmall(c, t, request).cache) && Flushed(c, t, AllocSmall(c, t, request))
  {
    hide Config.Ok, Config.Limit, TakeLargest, SumBins, Sum, HugeOk, BinOk;
    LimitOk(c);
    if |t.bins[request - 1]| > 0 || (2 * request - 1 < c.bins && |t.bins[2 * request - 1]| > 0) {
      AllocSmallBins(Bytes, c, t, request);
    } else if t.hotPos + request > t.hotEnd && |t.huge| > 0 && t.huge[|t.huge|-1].len >= request {
      TakeLargestCounts(c, t, request);
    }
  }

  lemma AllocKeeps(c: Config, t: Cache, request: nat)
    requires ShapeOk(c, t) && request > 0
    ensures ShapeOk(c, Alloc(c, t, request).cache)
  {
    if request <= c.bins {
      AllocSmallKeeps(c, t, request);
    } else if FirstFit(t.huge, request) < |t.huge| {
      SplitHugeKeeps(c, t, request, FirstFit(t.huge, request));
    }
  }

  /** What is handed out is exactly what the thread no longer owns; a failed request
      changes nothing. */
  lemma AllocConserves(m: Measure, c: Config, t: Cache, request: nat)
    requires ShapeOk(c, t) && request > 0
    ensures var o := Alloc(c, t, request);
            if o.pos == NoPos then o == Outcome(t, 0, NoPos)
            else o.pos >= 0 && Held(m, o.cache) + M(m, Block(o.pos, request)) == Held(m, t)
  {
    if request <= c.bins {
      AllocSmallConserves(m, c, t, request);
    } else if FirstFit(t.huge, request) < |t.huge| {
      SplitHugeConserves(m, c, t, request, FirstFit(t.huge, request));
    } else if t.hotPos + request <= t.hotEnd {
      Split(m, t.hotPos, request, t.hotEnd - t.hotPos - request);
    }
  }

  lemma AllocCounts(c: Config, t: Cache, request: nat)
    requires ShapeOk(c, t) && request > 0 && CountersOk(c, t)
    ensures CountersOk(c, Alloc(c, t, request).cache) && Flushed(c, t, Alloc(c, t, request))
  {
    if request <= c.bins {
      AllocSmallCounts(c, t, request);
    } else if FirstFit(t.huge, request) < |t.huge| {
      SplitHugeCounts(c, t, request, FirstFit(t.huge, request));
    }
  }

  /** A request fails only when nothing the thread owns can serve it; in particular it
      succeeds whenever the hot area is large enough. */
  lemma AllocSucceeds(c: Config, t: Cache, request: nat)
    requires ShapeOk(c, t) && request > 0
    ensures Alloc(c, t, request).pos == NoPos ==>
              && t.hotEnd - t.hotPos < request
              && (forall j :: 0 <= j < |t.huge| ==> t.huge[j].len < request)
              && (request <= c.bins ==> t.bins[request - 1] == [])
  {
  }

  lemma SetHotAreaOk(m: Measure, c: Config, t: Cache, b: Block)
    requires ShapeOk(c, t) && CountersOk(c, t)
    ensures var o := SetHotArea(c, t, b);
            && ShapeOk(c, o.cache) && CountersOk(c, o.cache) && Flushed(c, t, o)
            && Held(m, o.cache) == Held(m, t) + M(m, b)
            && o.cache.hotEnd - o.cache.hotPos >= b.len
  {
    hide Config.Ok, Config.Limit, M, SumBins, Sum, HugeOk, BinOk, FreeHot;
    if t.hotEnd == b.pos {
      Split(m, t.hotPos, t.hotEnd - t.hotPos, b.len);
    } else {
      FreeHotLists(m, c, t);
      FreeHotCounts(c, t);
    }
  }

  lemma FreeHotCounts(c: Config, t: Cache)
    requires ShapeOk(c, t) && CountersOk(c, t)
    ensures CountersOk(c, FreeHot(c, t).cache) && Flushed(c, t, FreeHot(c, t))
  {
    hide Config.Ok, Config.Limit, Sfree, SumBins, Sum, HugeOk, BinOk;
    if t.hotPos < t.hotEnd { SfreeCounts(c, t, Block(t.hotPos, t.hotEnd - t.hotPos)); }
  }

  /** Resizing: the old block and the thread's holdings become the new block and the
      thread's new holdings. */
  lemma Alloc3Ok(m: Measure, c: Config, t: Cache, b: Block, newlen: nat)
    requires ShapeOk(c, t) && CountersOk(c, t) && b.len > 0 && newlen > 0
    ensures var o := Alloc3(c, t, b, newlen);
            if o.pos == NoPos then o == Outcome(t, 0, NoPos) && b.len < newlen
            else && o.pos >= 0 && ShapeOk(c, o.cache) && CountersOk(c, o.cache) && Flushed(c, t, o)
                 && Held(m, o.cache) + M(m, Block(o.pos, newlen)) == Held(m, t) + M(m, b)
  {
    hide Config.Ok, Config.Limit, M, SumBins, Sum, HugeOk, BinOk, Sfree, Alloc;
    if b.pos + b.len == t.hotPos && b.pos + newlen <= t.hotEnd {
      Split(m, b.pos, b.len, t.hotEnd - t.hotPos);
      Split(m, b.pos, newlen, t.hotEnd - b.pos - newlen);
    } else if newlen < b.len {
      var rest := Block(b.pos + newlen, b.len - newlen);
      Split(m, b.pos, newlen, b.len - newlen);
      SfreeKeeps(c, t, rest);
      SfreeConserves(m, c, t, rest);
      SfreeCounts(c, t, rest);
    } else if newlen > b.len {
      AllocKeeps(c, t, newlen);
      AllocConserves(m, c, t, newlen);
      AllocCounts(c, t, newlen);
      var o := Alloc(c, t, newlen);
      if o.pos != NoPos { FreeAfter(m, c, o.cache, b); }
    }
  }

  lemma FreeAfter(m: Measure, c: Config, t: Cache, b: Block)
    requires ShapeOk(c, t) && CountersOk(c, t) && b.len > 0
    ensures var o := Sfree(c, t, b);
            && ShapeOk(c, o.cache) && CountersOk(c, o.cache) && Flushed(c, t, o)
            && Held(m, o.cache) == Held(m, t) + M(m, b)
  {
    SfreeKeeps(c, t, b);
    SfreeConserves(m, c, t, b);
    SfreeCounts(c, t, b);
  }

  // ------------------------------------------------- which holding serves a request

  /** Block `j` is a smallest one of at least `len` bytes. */
  ghost predicate SmallestFitting(huge: seq<Block>, len: nat, j: nat)
  {
    j < |huge| && huge[j].len >= len && forall i :: 0 <= i < |huge| && huge[i].len >= len ==> huge[j].len <= huge[i].len
  }

  /** Fastbin requests: an exact free block, the lower half of one twice the size, the hot area,
      the largest huge block; each only if none of those before it serves. */
  lemma SmallChoice(c: Config, t: Cache, request: nat)
    requires ShapeOk(c, t) && 0 < request <= c.bins
    ensures var o := Alloc(c, t, request); var exact := t.bins[request - 1];
            var double := if 2 * request <= c.bins then t.bins[2 * request - 1] else [];
            if exact != [] then
              o.pos == exact[0].pos && o.cache.bins == t.bins[request - 1 := exact[1..]] && o.cache.huge == t.huge && SameHot(t, o.cache)
            else if double != [] then
              && o.pos == double[0].pos && o.cache.huge == t.huge && SameHot(t, o.cache)
              && o.cache.bins == t.bins[2 * request - 1 := double[1..]][request - 1 := [Block(o.pos + request, request)]]
            else if t.hotEnd - t.hotPos >= request then
              o.pos == t.hotPos && o.cache == t.(hotPos := t.hotPos + request)
            else if |t.huge| > 0 && t.huge[|t.huge|-1].len >= request then
              var b := t.huge[|t.huge|-1];
              && o.pos == b.pos && o.cache.hotPos == b.pos + request && o.cache.hotEnd == b.pos + b.len
              && HotGivenUp(c, t.(huge := t.huge[..|t.huge|-1]), o.cache)
            else o == Outcome(t, 0, NoPos)
  {
    hide Config.Ok, Config.Limit, FreeHot, BinOk, HugeOk, HotGivenUp;
    if |t.huge| > 0 && t.huge[|t.huge|-1].len >= request {
      var t1 := t.(huge := t.huge[..|t.huge|-1]);
      WithoutBlock(c, t, |t.huge| - 1);
      assert t.huge[..|t.huge|-1] + t.huge[|t.huge|..] == t1.huge;
      FreeHotChoice(c, t1, TakeLargest(c, t, request).cache);
    }
  }

  /** The lists of `t'` are those of `t` after what is left of its hot area has been freed. */
  ghost predicate HotGivenUp(c: Config, t: Cache, t': Cache)
  {
    if t.hotPos < t.hotEnd then exists u :: Freed(c, t, Block(t.hotPos, t.hotEnd - t.hotPos), u) && SameLists(u, t') else SameLists(t, t')
  }

  lemma FreeHotChoice(c: Config, t: Cache, t': Cache)
    requires ShapeOk(c, t) && SameLists(FreeHot(c, t).cache, t')
    ensures HotGivenUp(c, t, t')
  {
    hide Config.Ok, Config.Limit, BinOk, HugeOk, Sfree;
    var u := FreeHot(c, t).cache;
    if t.hotPos < t.hotEnd {
      SfreeChoice(c, t, Block(t.hotPos, t.hotEnd - t.hotPos));
      assert Freed(c, t, Block(t.hotPos, t.hotEnd - t.hotPos), u) && SameLists(u, t');
    }
  }

  ghost predicate SameHot(t: Cache, t': Cache)
  {
    t'.hotPos == t.hotPos && t'.hotEnd == t.hotEnd
  }

  /** Larger requests: a smallest fitting huge block if there is one, and only then the hot area. */
  lemma HugeChoice(c: Config, t: Cache, request: nat)
    requires ShapeOk(c, t) && request > c.bins
    ensures var o := Alloc(c, t, request);
            if exists j: nat :: SmallestFitting(t.huge, request, j) then exists j: nat :: SmallestFitting(t.huge, request, j) && o.pos == t.huge[j].pos && SplitFrom(c, t, o, request, j)
            else if t.hotEnd - t.hotPos >= request then o.pos == t.hotPos && o.cache == t.(hotPos := t.hotPos + request)
            else o == Outcome(t, 0, NoPos)
  {
    hide Config.Ok, Config.Limit, BinOk;
    var i := FirstFit(t.huge, request);
    if i < |t.huge| {
      assert SmallestFitting(t.huge, request, i);
      SplitLeaves(c, t, request, i);
    }
  }

  /** Block `j` leaves the huge list and what it has beyond the request is freed. */
  ghost predicate SplitFrom(c: Config, t: Cache, o: Outcome, request: nat, j: nat)
    requires j < |t.huge| && t.huge[j].len >= request
  {
    var rest := Block(t.huge[j].pos + request, t.huge[j].len - request);
    var without := t.(huge := t.huge[..j] + t.huge[j+1..]);
    if rest.len == 0 then SameLists(o.cache, without) && SameHot(without, o.cache) else Freed(c, without, rest, o.cache)
  }

  ghost predicate SameLists(t: Cache, t': Cache)
  {
    t'.bins == t.bins && t'.huge == t.huge
  }

  /** Where a freed block goes: back to the hot area if it ends where that begins, otherwise to
      the head of the list of its length, or among the huge blocks in the order of their sizes. */
  ghost predicate Freed(c: Config, t: Cache, b: Block, t': Cache)
  {
    if b.pos + b.len == t.hotPos then SameLists(t, t') && t'.hotPos == b.pos && t'.hotEnd == t.hotEnd
    else if 0 < b.len <= c.bins then
      |t.bins| == c.bins && t'.bins == t.bins[b.len - 1 := [b] + t.bins[b.len - 1]] && t'.huge == t.huge && SameHot(t, t')
    else
      t'.bins == t.bins && SameHot(t, t') && exists i :: InsertedAt(t.huge, b, t'.huge, i)
  }

  ghost predicate InsertedAt(huge: seq<Block>, b: Block, huge': seq<Block>, i: nat)
  {
    i <= |huge| && huge' == huge[..i] + [b] + huge[i..] && (i > 0 ==> huge[i-1].len < b.len) && (i < |huge| ==> b.len <= huge[i].len)
  }

  lemma SfreeChoice(c: Config, t: Cache, b: Block)
    requires ShapeOk(c, t) && b.len > 0
    ensures Freed(c, t, b, Sfree(c, t, b).cache)
  {
    hide Config.Ok, Config.Limit, BinOk, HugeOk;
    if b.pos + b.len != t.hotPos && b.len > c.bins {
      assert InsertedAt(t.huge, b, Sfree(c, t, b).cache.huge, FirstFit(t.huge, b.len));
    }
  }

  lemma SplitLeaves(c: Config, t: Cache, request: nat, i: nat)
    requires ShapeOk(c, t) && i < |t.huge| && t.huge[i].len >= request
    ensures SplitFrom(c, t, SplitHuge(c, t, request, i), request, i)
  {
    hide Config.Ok, Config.Limit, BinOk, HugeOk, Sfree, Freed, ShapeOk;
    WithoutBlock(c, t, i);
    var b, t1 := t.huge[i], t.(huge := t.huge[..i] + t.huge[i+1..]);
    if b.len > request {
      var rest := Block(b.pos + request, b.len - request);
      SfreeChoice(c, t1, rest);
      FreedCounters(c, t1, rest, Sfree(c, t1, rest).cache, SplitHuge(c, t, request, i).cache);
    }
  }

  lemma FreedCounters(c: Config, t: Cache, b: Block, u: Cache, u': Cache)
    requires Freed(c, t, b, u) && SameLists(u, u') && SameHot(u, u')
    ensures Freed(c, t, b, u')
  {
  }

  /** A chunk that continues the hot area is appended; otherwise it replaces the hot area, whose
      rest is freed. */
  lemma SetHotAreaChoice(c: Config, t: Cache, b: Block)
    requires ShapeOk(c, t)
    ensures var t' := SetHotArea(c, t, b).cache;
            && t'.hotEnd == b.pos + b.len
            && (t.hotEnd == b.pos ==> SameLists(t, t') && t'.hotPos == t.hotPos)
            && (t.hotEnd != b.pos ==> t'.hotPos == b.pos && HotGivenUp(c, t, t'))
  {
    hide Config.Ok, Config.Limit, BinOk, HugeOk, FreeHot, HotGivenUp;
    if t.hotEnd != b.pos { FreeHotChoice(c, t, SetHotArea(c, t, b).cache); }
  }

  /** A block before the hot area is resized in place as far as the hot area reaches; a shorter
      length keeps the place and frees the end; only a longer one may move. */
  lemma Alloc3Choice(c: Config, t: Cache, b: Block, newlen: nat)
    requires ShapeOk(c, t) && b.len > 0 && newlen > 0
    ensures var o := Alloc3(c, t, b, newlen);
            if b.pos + b.len == t.hotPos && b.pos + newlen <= t.hotEnd then o.pos == b.pos && o.cache == t.(hotPos := b.pos + newlen)
            else if newlen == b.len then o == Outcome(t, 0, b.pos)
            else if newlen < b.len then o.pos == b.pos && Freed(c, t, Block(b.pos + newlen, b.len - newlen), o.cache)
            else o.pos == Alloc(c, t, newlen).pos && (o.pos != NoPos ==> Freed(c, Alloc(c, t, newlen).cache, b, o.cache))
  {
    hide Config.Ok, Config.Limit, BinOk, HugeOk, Alloc, Sfree;
    if !(b.pos + b.len == t.hotPos && b.pos + newlen <= t.hotEnd) {
      if newlen < b.len { SfreeChoice(c, t, Block(b.pos + newlen, b.len - newlen)); }
      if newlen > b.len && Alloc(c, t, newlen).pos != NoPos {
        AllocKeeps(c, t, newlen);
        SfreeChoice(c, Alloc(c, t, newlen).cache, b);
      }
    }
  }

  /** The shared counter is touched only when the pending increment passes the limit, and then
      nothing is left pending. */
  lemma FlushLate(c: Config, t: Cache, len: nat, flushed: int, pos: int)
    requires c.Ok() && IncOk(c, t) && len > 0
    ensures var o := CountIn(c, t, len);
            if t.fragInc + len > c.Limit() then o.flushed == t.fragInc + len && o.cache.fragInc == 0 else o.flushed == 0 && o.cache.fragInc == t.fragInc + len
    ensures var o := CountOut(c, t, len, flushed, pos);
            if t.fragInc - len < -c.Limit() then o.flushed == flushed + t.fragInc - len && o.cache.fragInc == 0 else o.flushed == flushed && o.cache.fragInc == t.fragInc - len
  {
  }
}
