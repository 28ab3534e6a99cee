/**
 Any number of threads sharing one pool (src/terark/mempool_thread_cache.hpp).

 A thread touches shared state at three kinds of points only: it reads the pool's end
 `n`, it tries to move `n` by compare-and-swap, and it adds to the shared fragment
 counter. A step below is the code up to the next load or compare-and-swap. It may add
 to the counter more than once: the additions are atomic, they commute, and no thread
 decides anything by the counter, so taking them together at the end of the step loses no
 behaviour, and every interleaving is a sequence of these steps. The blocks that callers hold are kept in
 `live`; a block under reallocation is held by the reallocating thread.
 */
module ThreadPool {
  import opened ThreadCache

  /** What a thread does once it has got its chunk. */
  datatype Purpose = ForAlloc | ForRealloc(held: Block)

  datatype Pc =
    | Idle
    | NeedChunk(request: nat, why: Purpose)
    | Loaded(request: nat, why: Purpose, oldn: nat, len: nat)
    | Reserved(request: nat, why: Purpose, chunk: Block)
    | Retry(request: nat, why: Purpose)

  datatype Thread = Thread(cache: Cache, pc: Pc)

  datatype State = State(n: nat, fragment: int, threads: seq<Thread>, live: seq<Block>)

  datatype Event =
    | Allocate(i: nat, request: nat)
    | Free(i: nat, k: nat)
    | Realloc(i: nat, k: nat, newlen: nat)
    | Load(i: nat)
    | Swap(i: nat, spurious: bool)
    | Install(i: nat)
    | Again(i: nat)
    | Sync(i: nat)
    | Spawn

  // ------------------------------------------------------------------ the steps

  function FreshCache(c: Config): Cache
  {
    Cache(seq(c.bins, _ => []), [], 0, 0, 0, 0, 0, 0, 0)
  }

  const NoChunk: int := -1

  /** Length of the chunk to reserve at the end `n`: whole arenas up to an arena boundary,
      or what is left of the capacity if that still serves the request. */
  function ChunkLen(c: Config, n: nat, request: nat): int
    requires c.Ok() && n <= c.cap
  {
    var over := (c.base + n) % c.Arena();
    var len := (request + c.Arena() - 1) / c.Arena() * c.Arena() + (if over != 0 then c.Arena() - over else 0);
    if n + len <= c.cap then len
    else if n + request > c.cap then NoChunk
    else c.cap - n
  }

  ghost predicate Enabled(c: Config, s: State, e: Event)
  {
    match e
    case Allocate(i, request) => i < |s.threads| && s.threads[i].pc.Idle? && request > 0
    case Free(i, k) => i < |s.threads| && s.threads[i].pc.Idle? && k < |s.live|
    case Realloc(i, k, newlen) => i < |s.threads| && s.threads[i].pc.Idle? && k < |s.live| && newlen > 0
    case Load(i) => i < |s.threads| && s.threads[i].pc.NeedChunk?
    case Swap(i, _) => i < |s.threads| && s.threads[i].pc.Loaded?
    case Install(i) => i < |s.threads| && s.threads[i].pc.Reserved?
    case Again(i) => i < |s.threads| && s.threads[i].pc.Retry?
    case Sync(i) => i < |s.threads|
    case Spawn => true
  }

  function Without(bs: seq<Block>, k: nat): seq<Block>
    requires k < |bs|
  {
    bs[..k] + bs[k+1..]
  }

  function Put(s: State, i: nat, th: Thread, flushed: int, live: seq<Block>): State
    requires i < |s.threads|
  {
    s.(threads := s.threads[i := th], fragment := s.fragment + flushed, live := live)
  }

  /** A block given up by a failed reallocation goes back to its owner. */
  function Returned(why: Purpose): seq<Block>
  {
    match why case ForAlloc => [] case ForRealloc(held) => [held]
  }

  /** Thread i runs its own allocation; if it has nothing, it will need a chunk. */
  function DoAllocate(c: Config, s: State, i: nat, request: nat): State
    requires Inv(c, s) && i < |s.threads| && request > 0
  {
    var o := Alloc(c, s.threads[i].cache, request);
    if o.pos == NoPos then Put(s, i, s.threads[i].(pc := NeedChunk(request, ForAlloc)), 0, s.live)
    else
      AllocConserves(Bytes, c, s.threads[i].cache, request);
      Put(s, i, Thread(o.cache, Idle), o.flushed, s.live + [Block(o.pos, request)])
  }

  function DoFree(c: Config, s: State, i: nat, k: nat): State
    requires Inv(c, s) && i < |s.threads| && k < |s.live|
  {
    var o := Sfree(c, s.threads[i].cache, s.live[k]);
    Put(s, i, Thread(o.cache, Idle), o.flushed, Without(s.live, k))
  }

  function DoRealloc(c: Config, s: State, i: nat, k: nat, newlen: nat): State
    requires Inv(c, s) && i < |s.threads| && k < |s.live| && newlen > 0
  {
    var o := Alloc3(c, s.threads[i].cache, s.live[k], newlen);
    if o.pos == NoPos then Put(s, i, s.threads[i].(pc := NeedChunk(newlen, ForRealloc(s.live[k]))), 0, Without(s.live, k))
    else
      Alloc3Ok(Bytes, c, s.threads[i].cache, s.live[k], newlen);
      Put(s, i, Thread(o.cache, Idle), o.flushed, Without(s.live, k) + [Block(o.pos, newlen)])
  }

  /** Read the pool's end and compute the chunk to reserve; fail if the capacity is used up. */
  function DoLoad(c: Config, s: State, i: nat): State
    requires Inv(c, s) && i < |s.threads| && s.threads[i].pc.NeedChunk?
  {
    var th := s.threads[i];
    var len := ChunkLen(c, s.n, th.pc.request);
    if len == NoChunk then Put(s, i, th.(pc := Idle), 0, s.live + Returned(th.pc.why))
    else
      ChunkLenOk(c, s.n, th.pc.request);
      Put(s, i, th.(pc := Loaded(th.pc.request, th.pc.why, s.n, len)), 0, s.live)
  }

  /** Compare-and-swap on the pool's end; the weak form may fail for no reason. */
  function DoSwap(c: Config, s: State, i: nat, spurious: bool): State
    requires i < |s.threads| && s.threads[i].pc.Loaded?
  {
    var th := s.threads[i];
    if spurious || s.n != th.pc.oldn then Put(s, i, th.(pc := NeedChunk(th.pc.request, th.pc.why)), 0, s.live)
    else Put(s, i, th.(pc := Reserved(th.pc.request, th.pc.why, Block(s.n, th.pc.len))), 0, s.live).(n := s.n + th.pc.len)
  }

  function DoInstall(c: Config, s: State, i: nat): State
    requires Inv(c, s) && i < |s.threads| && s.threads[i].pc.Reserved?
  {
    var th := s.threads[i];
    var o := SetHotArea(c, th.cache, th.pc.chunk);
    Put(s, i, Thread(o.cache, Retry(th.pc.request, th.pc.why)), o.flushed, s.live)
  }

  /** Allocate again after the chunk is installed; a reallocation then frees its old block. */
  function DoAgain(c: Config, s: State, i: nat): State
    requires Inv(c, s) && i < |s.threads| && s.threads[i].pc.Retry?
  {
    var th := s.threads[i];
    var o := Alloc(c, th.cache, th.pc.request);
    if o.pos == NoPos then Put(s, i, th.(pc := Idle), 0, s.live + Returned(th.pc.why))
    else
      AllocConserves(Bytes, c, th.cache, th.pc.request);
      AllocKeeps(c, th.cache, th.pc.request);
      var live := s.live + [Block(o.pos, th.pc.request)];
      if th.pc.why.ForAlloc? then Put(s, i, Thread(o.cache, Idle), o.flushed, live)
      else
        var f := Sfree(c, o.cache, th.pc.why.held);
        Put(s, i, Thread(f.cache, Idle), o.flushed + f.flushed, live)
  }

  function SyncedThread(th: Thread): Thread
  {
    th.(cache := th.cache.(fragInc := 0))
  }

  /** One turn of the loop that moves every thread's pending increment to the shared counter.
      The loop reads and clears the caches of other threads and adds without an atomic
      instruction, so its caller has to keep thread i and the counter still during this step;
      `TornSyncExact` says what happens otherwise. */
  function DoSync(s: State, i: nat): State
    requires i < |s.threads|
  {
    Put(s, i, SyncedThread(s.threads[i]), s.threads[i].cache.fragInc, s.live)
  }

  function Step(c: Config, s: State, e: Event): State
    requires Inv(c, s) && Enabled(c, s, e)
  {
    match e
    case Allocate(i, request) => DoAllocate(c, s, i, request)
    case Free(i, k) => DoFree(c, s, i, k)
    case Realloc(i, k, newlen) => DoRealloc(c, s, i, k, newlen)
    case Load(i) => DoLoad(c, s, i)
    case Swap(i, spurious) => DoSwap(c, s, i, spurious)
    case Install(i) => DoInstall(c, s, i)
    case Again(i) => DoAgain(c, s, i)
    case Sync(i) => DoSync(s, i)
    case Spawn => s.(threads := s.threads + [Thread(FreshCache(c), Idle)])
  }

  function SumInc(ts: seq<Thread>): int
  {
    if |ts| == 0 then 0 else ts[0].cache.fragInc + SumInc(ts[1..])
  }

  // -------------------------------------------------------------- the invariant

  function PcOwn(m: Measure, pc: Pc): nat
  {
    if pc.Idle? then 0
    else (if pc.why.ForRealloc? then M(m, pc.why.held) else 0) + (if pc.Reserved? then M(m, pc.chunk) else 0)
  }

  /** Everything a thread owns: free lists, hot area, reserved chunk, block being moved. */
  function Own(m: Measure, th: Thread): nat
  {
    Held(m, th.cache) + PcOwn(m, th.pc)
  }

  function SumOwn(m: Measure, ts: seq<Thread>): nat
  {
    if |ts| == 0 then 0 else Own(m, ts[0]) + SumOwn(m, ts[1..])
  }

  /** What thread `th` has added to the shared counter so far. */
  function Told(th: Thread): int
  {
    th.cache.fragSize - th.cache.fragInc
  }

  function SumTold(ts: seq<Thread>): int
  {
    if |ts| == 0 then 0 else Told(ts[0]) + SumTold(ts[1..])
  }

  ghost predicate ThreadOk(c: Config, th: Thread)
  {
    && ShapeOk(c, th.cache) && CountersOk(c, th.cache)
    && (!th.pc.Idle? ==> th.pc.request > 0 && (th.pc.why.ForRealloc? ==> th.pc.why.held.len > 0))
    && (th.pc.Loaded? ==> th.pc.len >= th.pc.request && th.pc.oldn + th.pc.len <= c.cap)
    && (th.pc.Reserved? ==> th.pc.chunk.len >= th.pc.request)
    && (th.pc.Retry? ==> th.cache.hotEnd - th.cache.hotPos >= th.pc.request)
  }

  /** Adding up over everybody gives the buffer [0, n): for a byte, it has exactly one
      owner below n and none above; for lengths, they add up to n. */
  ghost predicate Accounted(s: State, m: Measure)
  {
    Sum(m, s.live) + SumOwn(m, s.threads) == M(m, Block(0, s.n))
  }

  ghost predicate Inv(c: Config, s: State)
  {
    && c.Ok() && s.n <= c.cap
    && (forall i :: 0 <= i < |s.threads| ==> ThreadOk(c, s.threads[i]))
    && (forall k :: 0 <= k < |s.live| ==> s.live[k].len > 0)
    && (forall m :: Accounted(s, m))
    && s.fragment == SumTold(s.threads)
  }

  lemma ChunkLenOk(c: Config, n: nat, request: nat)
    requires c.Ok() && n <= c.cap && request > 0
    ensures ChunkLen(c, n, request) != NoChunk ==> ChunkLen(c, n, request) >= request && n + ChunkLen(c, n, request) <= c.cap
  {
    ArenaPositive(c);
    RoundUp(request, c.Arena());
  }

  /** `d` is the distance from the end `n` to the next arena boundary, and `len` ends on a boundary:
      the first one that leaves whole arenas for the request after `d`. */
  ghost predicate ArenaRun(c: Config, n: nat, request: nat, d: nat, len: nat)
    requires c.Ok()
  {
    ArenaPositive(c);
    && d < c.Arena() && (c.base + n + d) % c.Arena() == 0 && (c.base + n + len) % c.Arena() == 0
    && d + request <= len < d + request + c.Arena()
  }

  lemma ArenaRunExists(c: Config, n: nat, request: nat)
    requires c.Ok()
    ensures exists d, len :: ArenaRun(c, n, request, d, len)
  {
    ArenaPositive(c);
    var a, at := c.Arena(), c.base + n;
    var over, q := at % a, (request + a - 1) / a;
    var d := if over != 0 then a - over else 0;
    ToBoundary(at, a, d);
    BoundaryPlus(at + d, a, q);
    Covered(request, a, q);
    assert at + (d + q * a) == at + d + q * a;
    assert ArenaRun(c, n, request, d, d + q * a);
  }

  lemma ToBoundary(at: nat, a: nat, d: nat)
    requires a > 0 && d == if at % a != 0 then a - at % a else 0
    ensures d < a && (at + d) % a == 0
  {
    var q := at / a;
    assert at == q * a + at % a;
    if at % a != 0 {
      assert at + d == (q + 1) * a;
      Multiple(q + 1, a);
    }
  }

  lemma Multiple(q: nat, a: nat)
    requires a > 0
    ensures q * a % a == 0 && q * a / a == q
  {
    Quotient(q * a, a, q, 0);
  }

  lemma Quotient(x: nat, a: nat, q: nat, r: nat)
    requires r < a && x == q * a + r
    ensures x / a == q && x % a == r
  {
    var q', r' := x / a, x % a;
    assert x == q' * a + r';
    if q' > q { Scaled(q + 1, q', a); }
    if q' < q { Scaled(q' + 1, q, a); }
  }

  lemma Scaled(x: nat, y: nat, a: nat)
    requires x <= y
    ensures x * a <= y * a
  {
    assert y * a == x * a + (y - x) * a;
  }

  lemma BoundaryPlus(at: nat, a: nat, q: nat)
    requires a > 0 && at % a == 0
    ensures (at + q * a) % a == 0
  {
    var p := at / a;
    assert at == p * a;
    assert at + q * a == (p + q) * a;
    Multiple(p + q, a);
  }

  lemma Covered(request: nat, a: nat, q: nat)
    requires a > 0 && q == (request + a - 1) / a
    ensures request <= q * a < request + a
  {
    var y := request + a - 1;
    assert y == q * a + y % a;
  }

  /** Two multiples of `a` less than `a` apart are the same. */
  lemma SameMultiple(x: nat, y: nat, a: nat)
    requires a > 0 && x % a == 0 && y % a == 0 && x <= y < x + a
    ensures x == y
  {
    var p, q := x / a, y / a;
    assert x == p * a && y == q * a;
    if p < q { Scaled(p + 1, q, a); }
    if q < p { Scaled(q + 1, p, a); }
  }

  lemma ArenaRunUnique(c: Config, n: nat, request: nat, d: nat, len: nat, d': nat, len': nat)
    requires c.Ok() && ArenaRun(c, n, request, d, len) && ArenaRun(c, n, request, d', len')
    ensures d == d' && len == len'
  {
    ArenaPositive(c);
    var a, at := c.Arena(), c.base + n;
    if d <= d' { SameMultiple(at + d, at + d', a); } else { SameMultiple(at + d', at + d, a); }
    if len <= len' { SameMultiple(at + len, at + len', a); } else { SameMultiple(at + len', at + len, a); }
  }

  /** The chunk is the run of whole arenas up to a boundary if that fits, else the rest of the
      capacity if the request fits there, else none. */
  lemma ChunkLenIs(c: Config, n: nat, request: nat, d: nat, len: nat)
    requires c.Ok() && n <= c.cap && ArenaRun(c, n, request, d, len)
    ensures ChunkLen(c, n, request) == if n + len <= c.cap then len else if n + request <= c.cap then c.cap - n else NoChunk
  {
    ArenaPositive(c);
    var a, at := c.Arena(), c.base + n;
    var over, q := at % a, (request + a - 1) / a;
    var d0 := if over != 0 then a - over else 0;
    ToBoundary(at, a, d0);
    BoundaryPlus(at + d0, a, q);
    Covered(request, a, q);
    assert at + (d0 + q * a) == at + d0 + q * a;
    assert ArenaRun(c, n, request, d0, d0 + q * a);
    ArenaRunUnique(c, n, request, d, len, d0, d0 + q * a);
  }

  /** There is no chunk exactly if the request does not fit into the rest of the capacity. */
  lemma NoChunkIff(c: Config, n: nat, request: nat)
    requires c.Ok() && n <= c.cap && request > 0
    ensures ChunkLen(c, n, request) == NoChunk <==> n + request > c.cap
  {
    ArenaRunExists(c, n, request);
    var d, len :| ArenaRun(c, n, request, d, len);
    ChunkLenIs(c, n, request, d, len);
  }

  lemma ArenaPositive(c: Config)
    requires c.Ok()
    ensures c.Arena() > 0
  {
  }

  lemma RoundUp(x: nat, a: nat)
    requires a > 0
    ensures (x + a - 1) / a * a >= x
  {
    var y := x + a - 1;
    assert y == y / a * a + y % a;
  }

  lemma {:induction false} SumOwnUpdate(m: Measure, ts: seq<Thread>, i: nat, th: Thread)
    requires i < |ts|
    ensures SumOwn(m, ts[i := th]) + Own(m, ts[i]) == SumOwn(m, ts) + Own(m, th)
  {
    if i == 0 {
      assert ts[i := th][1..] == ts[1..];
    } else {
      assert ts[i := th][1..] == ts[1..][i-1 := th];
      SumOwnUpdate(m, ts[1..], i - 1, th);
    }
  }

  lemma {:induction false} SumToldUpdate(ts: seq<Thread>, i: nat, th: Thread)
    requires i < |ts|
    ensures SumTold(ts[i := th]) + Told(ts[i]) == SumTold(ts) + Told(th)
  {
    if i == 0 {
      assert ts[i := th][1..] == ts[1..];
    } else {
      assert ts[i := th][1..] == ts[1..][i-1 := th];
      SumToldUpdate(ts[1..], i - 1, th);
    }
  }

  lemma {:induction false} SumOwnConcat(m: Measure, ts: seq<Thread>, th: Thread)
    ensures SumOwn(m, ts + [th]) == SumOwn(m, ts) + Own(m, th)
    ensures SumTold(ts + [th]) == SumTold(ts) + Told(th)
  {
    if |ts| > 0 {
      assert (ts + [th])[1..] == ts[1..] + [th];
      SumOwnConcat(m, ts[1..], th);
    } else {
      assert ts + [th] == [th];
    }
  }

  /** A step that replaces one thread keeps the invariant if, for every measure, what the
      thread and the callers own changes by what was added to the buffer. */
  lemma Replace(c: Config, s: State, i: nat, th: Thread, s': State)
    requires Inv(c, s) && i < |s.threads| && ThreadOk(c, th)
    requires s'.threads == s.threads[i := th] && s.n <= s'.n <= c.cap
    requires s'.fragment - s.fragment == Told(th) - Told(s.threads[i])
    requires forall k :: 0 <= k < |s'.live| ==> s'.live[k].len > 0
    requires forall m {:trigger Own(m, th)} :: Own(m, th) + Sum(m, s'.live) + M(m, Block(0, s.n)) == Own(m, s.threads[i]) + Sum(m, s.live) + M(m, Block(0, s'.n))
    ensures Inv(c, s')
  {
    hide M, Own, ThreadOk, Told;
    SumToldUpdate(s.threads, i, th);
    forall m ensures Accounted(s', m) {
      assert Accounted(s, m);
      SumOwnUpdate(m, s.threads, i, th);
      assert Own(m, th) + Sum(m, s'.live) + M(m, Block(0, s.n)) == Own(m, s.threads[i]) + Sum(m, s.live) + M(m, Block(0, s'.n));
    }
  }

  /** The callers' blocks after one of them is taken out, or one is added. */
  lemma LiveSums(m: Measure, live: seq<Block>, k: nat, b: Block)
    requires k < |live|
    ensures Sum(m, live) == Sum(m, Without(live, k)) + M(m, live[k])
    ensures Sum(m, Without(live, k) + [b]) == Sum(m, Without(live, k)) + M(m, b)
  {
    hide M;
    SumRemove(m, live, k);
    LiveAdd(m, Without(live, k), b);
  }

  lemma LiveAdd(m: Measure, live: seq<Block>, b: Block)
    ensures Sum(m, live + [b]) == Sum(m, live) + M(m, b)
  {
    hide M;
    SumConcat(m, live, [b]);
    assert Sum(m, [b]) == M(m, b) + Sum(m, []);
  }

  lemma AllocateKeeps(c: Config, s: State, i: nat, request: nat)
    requires Inv(c, s) && Enabled(c, s, Allocate(i, request))
    ensures Inv(c, DoAllocate(c, s, i, request))
  {
    hide Alloc, M, Held;
    var t := s.threads[i].cache;
    var o := Alloc(c, t, request);
    var s' := DoAllocate(c, s, i, request);
    AllocKeeps(c, t, request);
    AllocCounts(c, t, request);
    forall m ensures Own(m, s'.threads[i]) + Sum(m, s'.live) == Own(m, s.threads[i]) + Sum(m, s.live) {
      AllocConserves(m, c, t, request);
      if o.pos != NoPos { LiveAdd(m, s.live, Block(o.pos, request)); }
    }
    AllocConserves(Bytes, c, t, request);
    Replace(c, s, i, s'.threads[i], s');
  }

  lemma FreeKeeps(c: Config, s: State, i: nat, k: nat)
    requires Inv(c, s) && Enabled(c, s, Free(i, k))
    ensures Inv(c, DoFree(c, s, i, k))
  {
    hide Sfree, M, Held;
    var s' := DoFree(c, s, i, k);
    forall m ensures Own(m, s'.threads[i]) + Sum(m, s'.live) == Own(m, s.threads[i]) + Sum(m, s.live) {
      FreeAfter(m, c, s.threads[i].cache, s.live[k]);
      LiveSums(m, s.live, k, s.live[k]);
    }
    FreeAfter(Bytes, c, s.threads[i].cache, s.live[k]);
    Replace(c, s, i, s'.threads[i], s');
  }

  lemma ReallocKeeps(c: Config, s: State, i: nat, k: nat, newlen: nat)
    requires Inv(c, s) && Enabled(c, s, Realloc(i, k, newlen))
    ensures Inv(c, DoRealloc(c, s, i, k, newlen))
  {
    hide Alloc3, M, Held;
    var t := s.threads[i].cache;
    var o := Alloc3(c, t, s.live[k], newlen);
    var s' := DoRealloc(c, s, i, k, newlen);
    forall m ensures Own(m, s'.threads[i]) + Sum(m, s'.live) == Own(m, s.threads[i]) + Sum(m, s.live) {
      Alloc3Ok(m, c, t, s.live[k], newlen);
      LiveSums(m, s.live, k, Block(if o.pos >= 0 then o.pos else 0, newlen));
    }
    Alloc3Ok(Bytes, c, t, s.live[k], newlen);
    Replace(c, s, i, s'.threads[i], s');
  }

  lemma LoadKeeps(c: Config, s: State, i: nat)
    requires Inv(c, s) && Enabled(c, s, Load(i))
    ensures Inv(c, DoLoad(c, s, i))
  {
    hide M, Held, ChunkLen;
    var th := s.threads[i];
    var s' := DoLoad(c, s, i);
    ChunkLenOk(c, s.n, th.pc.request);
    forall m ensures Own(m, s'.threads[i]) + Sum(m, s'.live) == Own(m, th) + Sum(m, s.live) {
      GaveBack(m, s.live, th.pc.why);
    }
    Replace(c, s, i, s'.threads[i], s');
  }

  lemma GaveBack(m: Measure, live: seq<Block>, why: Purpose)
    ensures Sum(m, live + Returned(why)) == Sum(m, live) + if why.ForRealloc? then M(m, why.held) else 0
  {
    hide M;
    if why.ForRealloc? { LiveAdd(m, live, why.held); } else { assert live + [] == live; }
  }

  lemma SwapKeeps(c: Config, s: State, i: nat, spurious: bool)
    requires Inv(c, s) && Enabled(c, s, Swap(i, spurious))
    ensures Inv(c, DoSwap(c, s, i, spurious))
  {
    hide M, Held;
    var th := s.threads[i];
    var s' := DoSwap(c, s, i, spurious);
    forall m ensures Own(m, s'.threads[i]) + M(m, Block(0, s.n)) == Own(m, th) + M(m, Block(0, s'.n)) {
      Split(m, 0, s.n, th.pc.len);
    }
    Replace(c, s, i, s'.threads[i], s');
  }

  lemma InstallKeeps(c: Config, s: State, i: nat)
    requires Inv(c, s) && Enabled(c, s, Install(i))
    ensures Inv(c, DoInstall(c, s, i))
  {
    hide SetHotArea, M, Held;
    var th := s.threads[i];
    var s' := DoInstall(c, s, i);
    forall m ensures Own(m, s'.threads[i]) == Own(m, th) { SetHotAreaOk(m, c, th.cache, th.pc.chunk); }
    SetHotAreaOk(Bytes, c, th.cache, th.pc.chunk);
    Replace(c, s, i, s'.threads[i], s');
  }

  /** After a chunk has been installed the allocation cannot fail again. */
  lemma SecondTrySucceeds(c: Config, s: State, i: nat)
    requires Inv(c, s) && Enabled(c, s, Again(i))
    ensures Alloc(c, s.threads[i].cache, s.threads[i].pc.request).pos != NoPos
  {
    AllocSucceeds(c, s.threads[i].cache, s.threads[i].pc.request);
  }

  lemma AgainKeeps(c: Config, s: State, i: nat)
    requires Inv(c, s) && Enabled(c, s, Again(i))
    ensures Inv(c, DoAgain(c, s, i))
  {
    hide Alloc, Sfree, M, Held;
    var th := s.threads[i];
    var o := Alloc(c, th.cache, th.pc.request);
    var s' := DoAgain(c, s, i);
    SecondTrySucceeds(c, s, i);
    AllocKeeps(c, th.cache, th.pc.request);
    AllocCounts(c, th.cache, th.pc.request);
    AllocConserves(Bytes, c, th.cache, th.pc.request);
    forall m ensures Own(m, s'.threads[i]) + Sum(m, s'.live) == Own(m, th) + Sum(m, s.live) {
      AllocConserves(m, c, th.cache, th.pc.request);
      LiveAdd(m, s.live, Block(o.pos, th.pc.request));
      if th.pc.why.ForRealloc? { FreeAfter(m, c, o.cache, th.pc.why.held); }
    }
    if th.pc.why.ForRealloc? { FreeAfter(Bytes, c, o.cache, th.pc.why.held); }
    Replace(c, s, i, s'.threads[i], s');
  }

  lemma SyncKeeps(c: Config, s: State, i: nat)
    requires Inv(c, s) && Enabled(c, s, Sync(i))
    ensures Inv(c, DoSync(s, i))
  {
    hide M, SumBins, Sum;
    assert ThreadOk(c, s.threads[i]);
    Replace(c, s, i, SyncedThread(s.threads[i]), DoSync(s, i));
  }

  lemma SpawnKeeps(c: Config, s: State)
    requires Inv(c, s)
    ensures Inv(c, Step(c, s, Spawn))
  {
    hide M;
    var s' := Step(c, s, Spawn);
    var th := Thread(FreshCache(c), Idle);
    forall m ensures Accounted(s', m) {
      assert Accounted(s, m);
      SumOwnConcat(m, s.threads, th);
      FreshOwnsNothing(m, c);
    }
    SumOwnConcat(Bytes, s.threads, th);
    FreshOwnsNothing(Bytes, c);
    assert ThreadOk(c, th);
  }

  lemma FreshOwnsNothing(m: Measure, c: Config)
    ensures Held(m, FreshCache(c)) == 0 && Listed(m, FreshCache(c)) == 0
  {
    EmptyBins(m, FreshCache(c).bins);
  }

  lemma {:induction false} EmptyBins(m: Measure, bins: seq<seq<Block>>)
    requires forall i :: 0 <= i < |bins| ==> bins[i] == []
    ensures SumBins(m, bins) == 0
  {
    if |bins| > 0 { EmptyBins(m, bins[1..]); }
  }

  lemma StepKeeps(c: Config, s: State, e: Event)
    requires Inv(c, s) && Enabled(c, s, e)
    ensures Inv(c, Step(c, s, e)) && s.n <= Step(c, s, e).n
  {
    match e
    case Allocate(i, request) => AllocateKeeps(c, s, i, request);
    case Free(i, k) => FreeKeeps(c, s, i, k);
    case Realloc(i, k, newlen) => ReallocKeeps(c, s, i, k, newlen);
    case Load(i) => LoadKeeps(c, s, i);
    case Swap(i, spurious) => SwapKeeps(c, s, i, spurious);
    case Install(i) => InstallKeeps(c, s, i);
    case Again(i) => AgainKeeps(c, s, i);
    case Sync(i) => SyncKeeps(c, s, i);
    case Spawn => SpawnKeeps(c, s);
  }

  // ------------------------------------------------------------------- whole runs

  function Start(): State
  {
    State(0, 0, [], [])
  }

  /** `s` is reached from the empty pool by the steps `es`, in this order. */
  ghost predicate Reaches(c: Config, es: seq<Event>, s: State)
  {
    if |es| == 0 then c.Ok() && s == Start()
    else exists s0 :: Reaches(c, es[..|es|-1], s0) && Inv(c, s0) && Enabled(c, s0, es[|es|-1]) && s == Step(c, s0, es[|es|-1])
  }

  /** Every state of every interleaving satisfies the invariant. */
  lemma {:induction false} EveryRunIsSafe(c: Config, es: seq<Event>, s: State)
    requires Reaches(c, es, s)
    ensures Inv(c, s)
  {
    if |es| == 0 {
      forall m ensures Accounted(s, m) { assert M(m, Block(0, 0)) == 0; }
    } else {
      var s0 :| Reaches(c, es[..|es|-1], s0) && Inv(c, s0) && Enabled(c, s0, es[|es|-1]) && s == Step(c, s0, es[|es|-1]);
      StepKeeps(c, s0, es[|es|-1]);
    }
  }

  /** No step is ever stuck for lack of the invariant: what is enabled can be taken. */
  lemma RunsContinue(c: Config, es: seq<Event>, s: State, e: Event)
    requires Reaches(c, es, s) && Enabled(c, s, e)
    ensures Inv(c, s) && Reaches(c, es + [e], Step(c, s, e)) && s.n <= Step(c, s, e).n <= c.cap
  {
    EveryRunIsSafe(c, es, s);
    StepKeeps(c, s, e);
    assert (es + [e])[..|es|] == es && (es + [e])[|es|] == e;
  }

  /** Live blocks never overlap. */
  lemma LiveBlocksApart(c: Config, es: seq<Event>, s: State, i: nat, j: nat)
    requires Reaches(c, es, s) && i < j < |s.live|
    ensures s.live[i].pos + s.live[i].len <= s.live[j].pos || s.live[j].pos + s.live[j].len <= s.live[i].pos
  {
    hide ThreadOk, Reaches, SumOwn;
    EveryRunIsSafe(c, es, s);
    var a, b := s.live[i], s.live[j];
    var x := if a.pos < b.pos then b.pos else a.pos;
    assert Accounted(s, Owns(x));
    TwoOf(Owns(x), s.live, i, j);
  }

  /** Every live block lies inside the used part of the buffer. */
  lemma LiveBlockInside(c: Config, es: seq<Event>, s: State, i: nat)
    requires Reaches(c, es, s) && i < |s.live|
    ensures s.live[i].len > 0 && s.live[i].pos + s.live[i].len <= s.n <= c.cap
  {
    hide ThreadOk, Reaches, SumOwn;
    EveryRunIsSafe(c, es, s);
    var last := s.live[i].pos + s.live[i].len - 1;
    assert Accounted(s, Owns(last));
    SumRemove(Owns(last), s.live, i);
  }

  lemma TwoOf(m: Measure, live: seq<Block>, i: nat, j: nat)
    requires i < j < |live|
    ensures M(m, live[i]) + M(m, live[j]) <= Sum(m, live)
  {
    hide M;
    SumRemove(m, live, i);
    assert Without(live, i)[j-1] == live[j];
    SumRemove(m, Without(live, i), j - 1);
  }

  /** No byte of a live block is at the same time in a free list or hot area of any thread,
      or in a chunk that is reserved but not installed. */
  lemma LiveBytesNotFree(c: Config, es: seq<Event>, s: State, k: nat, i: nat, x: nat)
    requires Reaches(c, es, s) && k < |s.live| && i < |s.threads| && s.live[k].pos <= x < s.live[k].pos + s.live[k].len
    ensures Own(Owns(x), s.threads[i]) == 0
  {
    EveryRunIsSafe(c, es, s);
    assert Accounted(s, Owns(x));
    SumRemove(Owns(x), s.live, k);
    OwnPart(Owns(x), s.threads, i);
  }

  lemma {:induction false} OwnPart(m: Measure, ts: seq<Thread>, i: nat)
    requires i < |ts|
    ensures Own(m, ts[i]) <= SumOwn(m, ts)
  {
    if i > 0 { OwnPart(m, ts[1..], i - 1); }
  }

  /** The shared counter and the unflushed parts add up to the threads' own counters,
      and none of them is negative, so no unsigned counter wraps. */
  lemma FragmentCounters(c: Config, es: seq<Event>, s: State)
    requires Reaches(c, es, s)
    ensures s.fragment + SumInc(s.threads) == SumFrag(s.threads) && s.fragment >= 0
    ensures forall i :: 0 <= i < |s.threads| ==> CountersOk(c, s.threads[i].cache) && s.threads[i].cache.fragSize >= Listed(Bytes, s.threads[i].cache)
  {
    EveryRunIsSafe(c, es, s);
    ToldSplits(c, s.threads);
    forall i | 0 <= i < |s.threads| ensures CountersOk(c, s.threads[i].cache) { assert ThreadOk(c, s.threads[i]); }
  }

  function SumFrag(ts: seq<Thread>): int
  {
    if |ts| == 0 then 0 else ts[0].cache.fragSize + SumFrag(ts[1..])
  }

  lemma {:induction false} ToldSplits(c: Config, ts: seq<Thread>)
    requires c.Ok() && forall i :: 0 <= i < |ts| ==> ThreadOk(c, ts[i])
    ensures SumTold(ts) == SumFrag(ts) - SumInc(ts) && SumTold(ts) >= 0
  {
    if |ts| > 0 {
      assert ThreadOk(c, ts[0]);
      ToldSplits(c, ts[1..]);
    }
  }

  // ------------------------------------------------- synchronising the counters

  /** The states of the loop over all threads, from thread i on. */
  function SyncFrom(s: State, i: nat): State
    requires i <= |s.threads|
    decreases |s.threads| - i
  {
    if i == |s.threads| then s else SyncFrom(DoSync(s, i), i + 1)
  }

  /** After the loop nothing is pending: the shared counter is the sum of the threads' counters,
      which themselves are as before. */
  lemma SyncAll(c: Config, s: State)
    requires Inv(c, s)
    ensures var s' := SyncFrom(s, 0);
            Inv(c, s') && s'.fragment == SumFrag(s.threads) && SumInc(s'.threads) == 0
            && SumFrag(s'.threads) == SumFrag(s.threads) && s'.n == s.n && s'.live == s.live
  {
    hide Inv, ThreadOk;
    SyncLoop(c, s, 0);
    var s' := SyncFrom(s, 0);
    NothingPending(s'.threads, s.threads);
    CounterSum(c, s');
  }

  lemma {:induction false} SyncLoop(c: Config, s: State, i: nat)
    requires Inv(c, s) && i <= |s.threads|
    ensures var s' := SyncFrom(s, i);
            Inv(c, s') && s'.n == s.n && s'.live == s.live && |s'.threads| == |s.threads|
            && (forall j :: 0 <= j < |s.threads| ==> s'.threads[j] == if j < i then s.threads[j] else SyncedThread(s.threads[j]))
    decreases |s.threads| - i
  {
    hide Inv;
    if i < |s.threads| {
      SyncKeeps(c, s, i);
      SyncLoop(c, DoSync(s, i), i + 1);
    }
  }

  lemma {:induction false} NothingPending(ts': seq<Thread>, ts: seq<Thread>)
    requires |ts'| == |ts| && forall j :: 0 <= j < |ts| ==> ts'[j] == SyncedThread(ts[j])
    ensures SumInc(ts') == 0 && SumFrag(ts') == SumFrag(ts)
  {
    if |ts| > 0 { NothingPending(ts'[1..], ts[1..]); }
  }

  lemma CounterSum(c: Config, s: State)
    requires Inv(c, s)
    ensures s.fragment + SumInc(s.threads) == SumFrag(s.threads) && s.fragment >= 0
  {
    ToldSplits(c, s.threads);
  }

  /** The same turn of the loop without the caller's care: counter and increment are loaded in `s`,
      the sum and the zero are stored when the pool has gone on to `mid`. */
  function TornSync(s: State, mid: State, i: nat): State
    requires i < |s.threads| && i < |mid.threads|
  {
    mid.(fragment := s.fragment + s.threads[i].cache.fragInc, threads := mid.threads[i := SyncedThread(mid.threads[i])])
  }

  /** It is right exactly if the steps in between left counter plus increment of that thread as it was. */
  lemma TornSyncExact(c: Config, s: State, mid: State, i: nat)
    requires Inv(c, mid) && i < |s.threads| && i < |mid.threads|
    ensures Inv(c, TornSync(s, mid, i)) <==> mid.fragment + mid.threads[i].cache.fragInc == s.fragment + s.threads[i].cache.fragInc
  {
    SyncKeeps(c, mid, i);
    SumToldUpdate(mid.threads, i, SyncedThread(mid.threads[i]));
    TornDiffers(c, TornSync(s, mid, i), DoSync(mid, i));
  }

  /** States that differ in the shared counter only are not both right. */
  lemma TornDiffers(c: Config, a: State, b: State)
    requires Inv(c, b) && a == b.(fragment := a.fragment)
    ensures Inv(c, a) <==> a.fragment == b.fragment
  {
    if a.fragment == b.fragment { assert a == b; }
  }

  /** What a free adds to the thread's counters: nothing if the block goes back to the hot area. */
  function Counted(t: Cache, b: Block): nat
  {
    if b.pos + b.len == t.hotPos then 0 else b.len
  }

  /** So a single free by that thread in between loses its bytes, unless the hot area takes them. */
  lemma TornByFree(c: Config, s: State, i: nat, k: nat)
    requires Inv(c, s) && Enabled(c, s, Free(i, k))
    ensures var mid := DoFree(c, s, i, k); var torn := TornSync(s, mid, i);
            && Inv(c, mid) && (Inv(c, torn) <==> s.live[k].pos + s.live[k].len == s.threads[i].cache.hotPos)
            && SumTold(torn.threads) - torn.fragment == Counted(s.threads[i].cache, s.live[k])
  {
    hide Inv, Sfree, ThreadOk;
    FreeKeeps(c, s, i, k);
    var mid := DoFree(c, s, i, k);
    FreedCounts(c, s, i, k);
    TornSyncExact(c, s, mid, i);
    SumToldUpdate(mid.threads, i, SyncedThread(mid.threads[i]));
    InvCounter(c, mid);
  }

  lemma InvCounter(c: Config, s: State)
    requires Inv(c, s)
    ensures s.fragment == SumTold(s.threads)
  {
  }

  lemma FreedCounts(c: Config, s: State, i: nat, k: nat)
    requires Inv(c, s) && Enabled(c, s, Free(i, k))
    ensures s.live[k].len > 0
    ensures var mid := DoFree(c, s, i, k);
            mid.fragment + mid.threads[i].cache.fragInc == s.fragment + s.threads[i].cache.fragInc + Counted(s.threads[i].cache, s.live[k])
  {
    assert ThreadOk(c, s.threads[i]);
    hide ThreadOk, ShapeOk;
  }
}
