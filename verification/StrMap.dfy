/**
 The string map (src/terark/hash_strmap.hpp): keys are packed one after the other in a byte
 pool, each padded to whole units; the last byte of a slot says how many bytes pad it. Chains
 of slot numbers are as in the other hash table. Erased slots are threaded through their own
 bytes on free lists by length, or wait for a compaction.
 */
module StrMap {
  import G = GoldHash

  const Align: nat := 8
  const LinkBytes: nat := 4
  const DelMark: nat := 0xFFFF_FFFE
  const Tail: nat := 0xFFFF_FFFF

  type Byte = x: int | 0 <= x < 256
  type Bytes = seq<Byte>

  datatype Entry<V> = Entry(key: Bytes, value: V)

  // --------------------------------------------------------------------- the byte pool

  /** Units that a key of `len` bytes takes, with its pad byte. */
  function Units(len: nat): (u: nat)
    ensures u >= 1 && u * Align > len && u * Align <= len + Align
  {
    len / Align + 1
  }

  /** The pool's length cannot pass this limit, where the source throws. */
  const MaxOffset: nat := Tail * Align

  /** The least power of two times `p` that is not below `x`. */
  function Doubled(p: nat, x: nat): (r: nat)
    requires p > 0
    ensures r >= x && r >= p && (r == p || r < 2 * x)
    decreases x - p
  {
    if p >= x then p else Doubled(2 * p, x)
  }

  /** Length of the pool once it is enlarged to hold `need` bytes: a quarter more, rounded up to a
      power of two, within the limit. */
  function PoolCapacity(need: nat): (r: nat)
    ensures r >= need
  {
    var wanted := Doubled(1, need * 5 / 4);
    if need <= MaxOffset < wanted then MaxOffset else wanted
  }

  ghost predicate IsPowerOf2(n: nat)
  {
    n == 1 || (n > 0 && n % 2 == 0 && IsPowerOf2(n / 2))
  }

  lemma {:induction false} DoubledPower(p: nat, x: nat)
    requires IsPowerOf2(p)
    ensures IsPowerOf2(Doubled(p, x))
    decreases x - p
  {
    if p < x { DoubledPower(2 * p, x); }
  }

  /** The new length is the power of two next above five quarters of what is needed, or the limit. */
  lemma PoolCapacityOk(need: nat)
    requires need > 0
    ensures var r := PoolCapacity(need);
            need <= r && ((r == MaxOffset && MaxOffset < 2 * (need * 5 / 4)) || (IsPowerOf2(r) && need * 5 / 4 <= r && (r == 1 || r < 2 * (need * 5 / 4))))
  {
    DoubledPower(1, need * 5 / 4);
  }

  /** The bytes of slot `x`. */
  ghost predicate SlotIn(pool: Bytes, off: seq<nat>, x: nat)
  {
    x + 1 < |off| && off[x] < off[x + 1] && off[x + 1] * Align <= |pool|
  }

  /** The key in a slot: everything but the padding that its last byte counts. */
  function KeyAt(pool: Bytes, off: seq<nat>, x: nat): Bytes
    requires SlotIn(pool, off, x)
  {
    var beg, end := off[x] * Align, off[x + 1] * Align;
    var last: int := pool[end - 1];
    var extra := last + 1;
    if extra <= end - beg then pool[beg..end - extra] else []
  }

  /** What storing a key leaves in its slot. */
  ghost predicate Stored(pool: Bytes, off: seq<nat>, x: nat, key: Bytes)
  {
    && SlotIn(pool, off, x) && off[x + 1] - off[x] == Units(|key|)
    && pool[off[x] * Align..off[x] * Align + |key|] == key
    && pool[off[x + 1] * Align - 1] == (off[x + 1] - off[x]) * Align - |key| - 1
  }

  /** The pad byte recovers the key exactly. */
  lemma StoredKey(pool: Bytes, off: seq<nat>, x: nat, key: Bytes)
    requires Stored(pool, off, x, key)
    ensures KeyAt(pool, off, x) == key
  {
  }

  /** Zero the last unit, set the pad byte, copy the key. */
  function StoreKey(pool: Bytes, beg: nat, end: nat, key: Bytes): (r: Bytes)
    requires beg + |key| < end <= |pool| && beg + Align <= end && end - beg - |key| <= 256
    ensures |r| == |pool|
  {
    var p1 := pool[..end - Align] + Zeros(Align) + pool[end..];
    var p2 := p1[end - 1 := end - beg - |key| - 1];
    p2[..beg] + key + p2[beg + |key|..]
  }

  function Zeros(n: nat): (r: Bytes)
    ensures |r| == n
  {
    seq(n, _ => 0)
  }

  /** Only bytes of `[beg, end)` differ. */
  ghost predicate SameBytes(p: Bytes, q: Bytes, beg: nat, end: nat)
  {
    |p| == |q| && forall i :: 0 <= i < |p| && (i < beg || i >= end) ==> q[i] == p[i]
  }

  lemma StoreKeyOk(pool: Bytes, off: seq<nat>, x: nat, key: Bytes)
    requires SlotIn(pool, off, x) && off[x + 1] - off[x] == Units(|key|)
    ensures var beg, end := off[x] * Align, off[x + 1] * Align;
            && beg + |key| < end <= |pool| && beg + Align <= end && end - beg - |key| <= 256
            && Stored(StoreKey(pool, beg, end, key), off, x, key) && SameBytes(pool, StoreKey(pool, beg, end, key), beg, end)
            && forall b :: beg + |key| <= b < end - 1 ==> StoreKey(pool, beg, end, key)[b] == 0
  {
    hide StoreKey, SameBytes;
    var beg, end := off[x] * Align, off[x + 1] * Align;
    assert end - beg == (off[x + 1] - off[x]) * Align;
    StoreKeyBytes(pool, beg, end, key);
  }

  lemma StoreKeyBytes(pool: Bytes, beg: nat, end: nat, key: Bytes)
    requires beg + |key| < end <= |pool| && beg + Align <= end && end - beg - |key| <= 256
    ensures var r := StoreKey(pool, beg, end, key);
            && r[beg..beg + |key|] == key && r[end - 1] == end - beg - |key| - 1 && SameBytes(pool, r, beg, end)
            && forall b :: beg + |key| <= b < end - 1 && end - Align <= b ==> r[b] == 0
  {
    var p1 := pool[..end - Align] + Zeros(Align) + pool[end..];
    var p2 := p1[end - 1 := end - beg - |key| - 1];
    var r := StoreKey(pool, beg, end, key);
    assert forall i :: 0 <= i < |pool| && (i < beg || i >= end) ==> p2[i] == p1[i] == pool[i];
    assert r[beg..beg + |key|] == key;
    assert r[end - 1] == p2[end - 1];
  }

  /** Slots do not share bytes. */
  lemma SlotsApart(off: seq<nat>, n: nat, x: nat, y: nat)
    requires n < |off| && x < n && y < n && x != y && forall i :: 0 <= i < n ==> off[i] < off[i + 1]
    ensures off[x + 1] <= off[y] || off[y + 1] <= off[x]
  {
    if x < y { OffsetsRise(off, n, x + 1, y); } else { OffsetsRise(off, n, y + 1, x); }
  }

  lemma {:induction false} OffsetsRise(off: seq<nat>, n: nat, i: nat, j: nat)
    requires n < |off| && i <= j <= n && forall i :: 0 <= i < n ==> off[i] < off[i + 1]
    ensures off[i] <= off[j]
    decreases j - i
  {
    if i < j { OffsetsRise(off, n, i, j - 1); }
  }

  lemma StoredKeeps(p: Bytes, q: Bytes, off: seq<nat>, n: nat, x: nat, y: nat, key: Bytes)
    requires n < |off| && x < n && y < n && x != y && (forall i :: 0 <= i < n ==> off[i] < off[i + 1])
    requires Stored(p, off, y, key) && SameBytes(p, q, off[x] * Align, off[x + 1] * Align)
    ensures Stored(q, off, y, key)
  {
    SlotsApart(off, n, x, y);
    var beg := off[y] * Align;
    assert q[beg..beg + |key|] == p[beg..beg + |key|];
  }

  // ---------------------------------------------------------- links inside the pool

  function Enc(v: nat, k: nat): (r: Bytes)
    ensures |r| == k
  {
    if k == 0 then [] else [v % 256] + Enc(v / 256, k - 1)
  }

  function Dec(b: Bytes): nat
  {
    if |b| == 0 then 0 else b[0] + 256 * Dec(b[1..])
  }

  ghost function Pow256(k: nat): nat
  {
    if k == 0 then 1 else 256 * Pow256(k - 1)
  }

  lemma {:induction false} DecEnc(v: nat, k: nat)
    requires v < Pow256(k)
    ensures Dec(Enc(v, k)) == v
  {
    if k > 0 {
      assert Enc(v, k)[1..] == Enc(v / 256, k - 1);
      DecEnc(v / 256, k - 1);
    }
  }

  function LinkAt(pool: Bytes, off: seq<nat>, x: nat): nat
    requires SlotIn(pool, off, x)
  {
    Dec(pool[off[x] * Align..off[x] * Align + LinkBytes])
  }

  function SetLink(pool: Bytes, off: seq<nat>, x: nat, v: nat): (r: Bytes)
    requires SlotIn(pool, off, x)
    ensures |r| == |pool|
  {
    var beg := off[x] * Align;
    pool[..beg] + Enc(v, LinkBytes) + pool[beg + LinkBytes..]
  }

  lemma SetLinkOk(pool: Bytes, off: seq<nat>, x: nat, v: nat)
    requires SlotIn(pool, off, x) && v <= Tail
    ensures SlotIn(SetLink(pool, off, x, v), off, x) && LinkAt(SetLink(pool, off, x, v), off, x) == v
    ensures SameBytes(pool, SetLink(pool, off, x, v), off[x] * Align, off[x + 1] * Align)
  {
    var beg := off[x] * Align;
    assert Pow256(4) == 256 * 256 * 256 * 256 by { assert Pow256(1) == 256 && Pow256(2) == 256 * 256 && Pow256(3) == 256 * 256 * 256; }
    DecEnc(v, LinkBytes);
    assert SetLink(pool, off, x, v)[beg..beg + LinkBytes] == Enc(v, LinkBytes);
  }

  lemma LinkKeeps(p: Bytes, q: Bytes, off: seq<nat>, n: nat, x: nat, y: nat)
    requires n < |off| && x < n && y < n && x != y && (forall i :: 0 <= i < n ==> off[i] < off[i + 1])
    requires SlotIn(p, off, y) && SameBytes(p, q, off[x] * Align, off[x + 1] * Align)
    ensures SlotIn(q, off, y) && LinkAt(q, off, y) == LinkAt(p, off, y)
  {
    SlotsApart(off, n, x, y);
    var beg := off[y] * Align;
    assert q[beg..beg + LinkBytes] == p[beg..beg + LinkBytes];
  }

  // ------------------------------------------------------------------------ invariants

  datatype Cell<V> = Raw | Val(value: V)

  /** Offsets, counted in units, rise from zero; slot `x` lies between two of them. */
  ghost predicate Offsets(off: seq<nat>, n: nat, pool: Bytes)
  {
    n < |off| && off[0] == 0 && off[n] * Align <= |pool| && forall i :: 0 <= i < n ==> off[i] < off[i + 1]
  }

  lemma SlotOk(off: seq<nat>, n: nat, pool: Bytes, x: nat)
    requires Offsets(off, n, pool) && x < n
    ensures SlotIn(pool, off, x)
  {
    OffsetsRise(off, n, x + 1, n);
  }

  /** The live slots hold their keys and values. */
  ghost predicate Holds<V>(link: seq<nat>, off: seq<nat>, vals: seq<Cell<V>>, pool: Bytes, n: nat, model: map<nat, Entry<V>>)
  {
    && n <= |link| == |vals| <= DelMark && |off| == |link| + 1
    && (forall x :: x in model ==> x < n && link[x] != DelMark && HoldsAt(off, vals, pool, x, model[x]))
    && (forall x :: 0 <= x < n && link[x] != DelMark ==> x in model)
  }

  ghost predicate HoldsAt<V>(off: seq<nat>, vals: seq<Cell<V>>, pool: Bytes, x: nat, e: Entry<V>)
  {
    x < |vals| && vals[x] == Val(e.value) && Stored(pool, off, x, e.key)
  }

  /** A list of erased slots, linked through their first bytes. */
  ghost predicate FreeChain(pool: Bytes, off: seq<nat>, head: nat, c: seq<nat>)
  {
    && head == (if |c| == 0 then Tail else c[0]) && G.NoDup(c)
    && (forall i :: 0 <= i < |c| ==> SlotIn(pool, off, c[i]))
    && (forall i :: 0 <= i < |c| ==> LinkAt(pool, off, c[i]) == G.Next(c, i, Tail))
  }

  ghost predicate Erased(link: seq<nat>, n: nat, x: nat)
  {
    x < n <= |link| && link[x] == DelMark
  }

  /** With free lists in use, every erased slot is on the list for its length. */
  ghost predicate Filed(link: seq<nat>, off: seq<nat>, n: nat, fast: seq<seq<nat>>, huge: seq<nat>)
  {
    && n < |off|
    && (forall i, x: nat :: 0 <= i < |fast| ==> (x in fast[i] <==> OfLength(link, off, n, x, i + 1)))
    && (forall x: nat :: x in huge <==> Longer(link, off, n, x, |fast|))
  }

  ghost predicate OfLength(link: seq<nat>, off: seq<nat>, n: nat, x: nat, len: nat)
    requires n < |off|
  {
    Erased(link, n, x) && off[x + 1] == off[x] + len
  }

  ghost predicate Longer(link: seq<nat>, off: seq<nat>, n: nat, x: nat, len: nat)
    requires n < |off|
  {
    Erased(link, n, x) && off[x + 1] > off[x] + len
  }

  ghost predicate Chains(pool: Bytes, off: seq<nat>, fastHead: seq<nat>, hugeHead: nat, fast: seq<seq<nat>>, huge: seq<nat>)
  {
    && |fastHead| == |fast| && (forall i :: 0 <= i < |fast| ==> FreeChain(pool, off, fastHead[i], fast[i]))
    && FreeChain(pool, off, hugeHead, huge)
  }

  /** Bytes in erased slots below `n`. */
  ghost function FreeBytes<V>(off: seq<nat>, model: map<nat, Entry<V>>, n: nat): int
    requires n < |off| || n == 0
  {
    if n == 0 then 0 else FreeBytes(off, model, n - 1) + if n - 1 in model then 0 else (off[n] - off[n - 1]) * Align
  }

  ghost function LiveBytes<V>(off: seq<nat>, model: map<nat, Entry<V>>, n: nat): int
    requires n < |off| || n == 0
  {
    if n == 0 then 0 else LiveBytes(off, model, n - 1) + if n - 1 in model then (off[n] - off[n - 1]) * Align else 0
  }

  /** The pool is live bytes and free bytes, nothing else. */
  lemma {:induction false} PoolBytes<V>(off: seq<nat>, model: map<nat, Entry<V>>, n: nat)
    requires n < |off| && off[0] == 0
    ensures LiveBytes(off, model, n) + FreeBytes(off, model, n) == off[n] * Align
  {
    if n > 0 { PoolBytes(off, model, n - 1); }
  }

  /** All fields of a map at one moment. */
  datatype Table<V> = Table(bucket: seq<nat>, link: seq<nat>, off: seq<nat>, vals: seq<Cell<V>>, pool: Bytes, n: nat, maxload: nat,
                            useFree: bool, fastHead: seq<nat>, hugeHead: nat, nDeleted: nat, freepool: int,
                            chains: seq<seq<nat>>, fast: seq<seq<nat>>, huge: seq<nat>, model: map<nat, Entry<V>>)

  function Config<V>(hash: Bytes -> nat): G.Config<Bytes, Entry<V>>
  {
    G.Config((e: Entry<V>) => e.key, hash, DelMark)
  }

  /** What every operation keeps. */
  ghost predicate TableOk<V>(cfg: G.Config<Bytes, Entry<V>>, t: Table<V>)
  {
    && cfg == Config(cfg.hash)
    && G.Linked(cfg, t.bucket, t.link, t.chains, t.model) && G.KeysDiffer(cfg, t.model)
    && Offsets(t.off, t.n, t.pool) && Holds(t.link, t.off, t.vals, t.pool, t.n, t.model)
    && (t.useFree ==> Filed(t.link, t.off, t.n, t.fast, t.huge) && Chains(t.pool, t.off, t.fastHead, t.hugeHead, t.fast, t.huge))
    && t.n == |t.model| + t.nDeleted && t.freepool == FreeBytes(t.off, t.model, t.n)
    && (|t.bucket| == 1 ==> t.n == 0 && t.maxload == 0)
  }

  // ------------------------------------------------------------- slots under small changes

  lemma Facts<V>(cfg: G.Config<Bytes, Entry<V>>, t: Table<V>)
    requires TableOk(cfg, t)
    ensures cfg.delmark == DelMark && t.n <= |t.link| == |t.vals| <= DelMark && |t.off| == |t.link| + 1 && |t.bucket| == |t.chains| > 0
    ensures t.n == |t.model| + t.nDeleted && (|t.bucket| == 1 ==> t.n == 0 && t.maxload == 0) && t.off[t.n] * Align <= |t.pool|
    ensures Offsets(t.off, t.n, t.pool) && G.KeysDiffer(cfg, t.model) && G.Linked(cfg, t.bucket, t.link, t.chains, t.model)
    ensures |t.fastHead| == |t.fast| || !t.useFree
  {
  }

  lemma LiveSlot<V>(cfg: G.Config<Bytes, Entry<V>>, t: Table<V>, x: nat)
    requires TableOk(cfg, t) && x in t.model
    ensures x < t.n && SlotIn(t.pool, t.off, x) && KeyAt(t.pool, t.off, x) == t.model[x].key && t.vals[x] == Val(t.model[x].value) && t.link[x] != DelMark
    ensures cfg.HashOf(t.model[x]) == cfg.hash(KeyAt(t.pool, t.off, x)) && |t.bucket| > 1
  {
    assert HoldsAt(t.off, t.vals, t.pool, x, t.model[x]);
    StoredKey(t.pool, t.off, x, t.model[x].key);
  }

  /** Writing inside slot `x` leaves the other live slots alone. */
  lemma HoldsKeeps<V>(link: seq<nat>, off: seq<nat>, vals: seq<Cell<V>>, pool: Bytes, n: nat, model: map<nat, Entry<V>>, x: nat, pool': Bytes)
    requires Holds(link, off, vals, pool, n, model) && Offsets(off, n, pool) && x < n && x !in model
    requires SameBytes(pool, pool', off[x] * Align, off[x + 1] * Align)
    ensures Holds(link, off, vals, pool', n, model) && Offsets(off, n, pool')
  {
    forall y | y in model ensures HoldsAt(off, vals, pool', y, model[y]) {
      assert HoldsAt(off, vals, pool, y, model[y]);
      StoredKeeps(pool, pool', off, n, x, y, model[y].key);
    }
  }

  lemma FreeChainKeeps(pool: Bytes, off: seq<nat>, head: nat, c: seq<nat>, n: nat, x: nat, pool': Bytes)
    requires FreeChain(pool, off, head, c) && Offsets(off, n, pool) && x < n && x !in c && (forall i :: 0 <= i < |c| ==> c[i] < n)
    requires SameBytes(pool, pool', off[x] * Align, off[x + 1] * Align)
    ensures FreeChain(pool', off, head, c)
  {
    forall i | 0 <= i < |c| ensures SlotIn(pool', off, c[i]) && LinkAt(pool', off, c[i]) == G.Next(c, i, Tail) {
      assert c[i] in c;
      LinkKeeps(pool, pool', off, n, x, c[i]);
    }
  }

  lemma FreeChainPush(pool: Bytes, off: seq<nat>, head: nat, c: seq<nat>, n: nat, x: nat)
    requires FreeChain(pool, off, head, c) && Offsets(off, n, pool) && x < n <= DelMark && x !in c && (forall i :: 0 <= i < |c| ==> c[i] < n)
    ensures SlotIn(pool, off, x) && head <= Tail && FreeChain(SetLink(pool, off, x, head), off, x, [x] + c)
  {
    hide LinkAt, SetLink, SameBytes, G.NoDup;
    SlotOk(off, n, pool, x);
    assert |c| > 0 ==> c[0] < n;
    SetLinkOk(pool, off, x, head);
    var pool', d := SetLink(pool, off, x, head), [x] + c;
    FreeChainKeeps(pool, off, head, c, n, x, pool');
    hide Offsets, SlotIn;
    NoDupCons(x, c);
    forall i | 0 <= i < |d| ensures SlotIn(pool', off, d[i]) && LinkAt(pool', off, d[i]) == G.Next(d, i, Tail) {
      PushNext(c, x, i);
    }
  }

  lemma PushNext(c: seq<nat>, x: nat, i: nat)
    requires i <= |c|
    ensures var d := [x] + c; if i == 0 then d[i] == x && G.Next(d, i, Tail) == (if |c| == 0 then Tail else c[0]) else d[i] == c[i - 1] && G.Next(d, i, Tail) == G.Next(c, i - 1, Tail)
  {
  }

  lemma NoDupCons(x: nat, c: seq<nat>)
    requires G.NoDup(c) && x !in c
    ensures G.NoDup([x] + c)
  {
    var d := [x] + c;
    forall i, j | 0 <= i < j < |d| ensures d[i] != d[j] { assert d[j] == c[j - 1] && c[j - 1] in c; }
  }

  lemma FreeChainPop(pool: Bytes, off: seq<nat>, head: nat, c: seq<nat>)
    requires FreeChain(pool, off, head, c) && head != Tail
    ensures |c| > 0 && head == c[0] && SlotIn(pool, off, head) && FreeChain(pool, off, LinkAt(pool, off, head), c[1..])
    ensures forall x :: x in c[1..] <==> x in c && x != head
  {
    hide LinkAt, SlotIn;
    var d := c[1..];
    assert LinkAt(pool, off, c[0]) == G.Next(c, 0, Tail);
    forall i | 0 <= i < |d| ensures SlotIn(pool, off, d[i]) && LinkAt(pool, off, d[i]) == G.Next(d, i, Tail) {
      PopNext(c, i);
      var k := i + 1;
      assert LinkAt(pool, off, c[k]) == G.Next(c, k, Tail);
    }
    RestMembers(c);
  }

  lemma PopNext(c: seq<nat>, i: nat)
    requires i + 1 < |c|
    ensures c[1..][i] == c[i + 1] && G.Next(c[1..], i, Tail) == G.Next(c, i + 1, Tail)
  {
  }

  lemma RestMembers(c: seq<nat>)
    requires G.NoDup(c) && |c| > 0
    ensures G.NoDup(c[1..]) && forall x :: x in c[1..] <==> x in c && x != c[0]
  {
    G.WithoutNoDup(c, 0);
    assert G.Without(c, 0) == c[1..];
  }

  lemma {:induction false} FreeBytesSame<V>(off: seq<nat>, off': seq<nat>, a: map<nat, Entry<V>>, b: map<nat, Entry<V>>, n: nat)
    requires n < |off| && n < |off'| && (forall i :: 0 <= i <= n ==> off[i] == off'[i]) && (forall x :: 0 <= x < n ==> (x in a <==> x in b))
    ensures FreeBytes(off, a, n) == FreeBytes(off', b, n)
  {
    if n > 0 { FreeBytesSame(off, off', a, b, n - 1); }
  }

  /** One slot more or less among the erased ones. */
  lemma {:induction false} FreeBytesFlip<V>(off: seq<nat>, a: map<nat, Entry<V>>, b: map<nat, Entry<V>>, n: nat, x: nat)
    requires x < n < |off| && x in a && x !in b && forall y :: 0 <= y < n && y != x ==> (y in a <==> y in b)
    ensures FreeBytes(off, b, n) == FreeBytes(off, a, n) + (off[x + 1] - off[x]) * Align
  {
    if x < n - 1 { FreeBytesFlip(off, a, b, n - 1, x); } else { FreeBytesSame(off, off, a, b, n - 1); }
  }

  // ------------------------------------------------------------------- a slot in between

  ghost predicate HoldsBut<V>(link: seq<nat>, off: seq<nat>, vals: seq<Cell<V>>, pool: Bytes, n: nat, model: map<nat, Entry<V>>, slot: nat)
  {
    && n <= |link| == |vals| <= DelMark && |off| == |link| + 1
    && (forall x :: x in model ==> x < n && link[x] != DelMark && HoldsAt(off, vals, pool, x, model[x]))
    && (forall x :: 0 <= x < n && link[x] != DelMark && x != slot ==> x in model)
  }

  /** `slot` is neither live nor erased: taken and not yet filled, or unlinked and not yet freed. */
  ghost predicate Hole<V>(cfg: G.Config<Bytes, Entry<V>>, t: Table<V>, slot: nat)
  {
    && cfg == Config(cfg.hash) && slot < t.n && slot !in t.model
    && G.Linked(cfg, t.bucket, t.link, t.chains, t.model) && G.KeysDiffer(cfg, t.model)
    && Offsets(t.off, t.n, t.pool) && HoldsBut(t.link, t.off, t.vals, t.pool, t.n, t.model, slot) && t.link[slot] == Tail
    && (t.useFree ==> Filed(t.link, t.off, t.n, t.fast, t.huge) && Chains(t.pool, t.off, t.fastHead, t.hugeHead, t.fast, t.huge))
    && t.n == |t.model| + t.nDeleted + 1 && t.freepool == FreeBytes(t.off, t.model, t.n) - (t.off[slot + 1] - t.off[slot]) * Align
  }

  lemma HoleFacts<V>(cfg: G.Config<Bytes, Entry<V>>, t: Table<V>, slot: nat)
    requires Hole(cfg, t, slot)
    ensures cfg.delmark == DelMark && slot < t.n <= |t.link| == |t.vals| <= DelMark && |t.off| == |t.link| + 1 && |t.bucket| == |t.chains| > 0
    ensures slot !in t.model && SlotIn(t.pool, t.off, slot) && Offsets(t.off, t.n, t.pool)
  {
    SlotOk(t.off, t.n, t.pool, slot);
  }

  lemma ModelSize<V>(model: map<nat, Entry<V>>, x: nat)
    ensures |model - {x}| == if x in model then |model| - 1 else |model|
  {
    G.SizeWithout(model, x);
  }

  lemma ModelPlus<V>(model: map<nat, Entry<V>>, x: nat, e: Entry<V>)
    requires x !in model
    ensures |model[x := e]| == |model| + 1
  {
    assert model[x := e].Keys == model.Keys + {x};
    assert |model[x := e].Keys| == |model.Keys| + 1;
  }

  /** Erased slots are the same ones: so are the lists. */
  lemma FiledSame(link: seq<nat>, link': seq<nat>, off: seq<nat>, n: nat, fast: seq<seq<nat>>, huge: seq<nat>)
    requires Filed(link, off, n, fast, huge) && n <= |link| == |link'| && forall x :: 0 <= x < n ==> (link'[x] == DelMark <==> link[x] == DelMark)
    ensures Filed(link', off, n, fast, huge)
  {
    forall i, x: nat | 0 <= i < |fast| ensures x in fast[i] <==> OfLength(link', off, n, x, i + 1) {
      assert x in fast[i] <==> OfLength(link, off, n, x, i + 1);
    }
    forall x: nat ensures x in huge <==> Longer(link', off, n, x, |fast|) { assert x in huge <==> Longer(link, off, n, x, |fast|); }
  }

  /** Taking the live slot `idx` out of its chain. */
  ghost function Unlinked<V>(t: Table<V>, idx: nat, bucket: seq<nat>, link: seq<nat>, chains: seq<seq<nat>>): Table<V>
    requires idx < |link|
  {
    t.(bucket := bucket, link := link[idx := Tail], chains := chains, model := t.model - {idx})
  }

  lemma UnlinkedOk<V>(cfg: G.Config<Bytes, Entry<V>>, t: Table<V>, idx: nat, bucket: seq<nat>, link: seq<nat>, chains: seq<seq<nat>>)
    requires TableOk(cfg, t) && idx in t.model && G.Linked(cfg, bucket, link, chains, t.model - {idx}) && G.SameMarks(DelMark, link, t.link)
    ensures idx < |link| && Hole(cfg, Unlinked(t, idx, bucket, link, chains), idx)
  {
    hide G.Linked, Offsets, Filed, Chains, FreeBytes, Holds, HoldsBut, G.SameMarks, G.KeysDiffer, KeyAt, SlotIn;
    Facts(cfg, t);
    UnlinkedHolds(t, idx, link);
    LiveSlot(cfg, t, idx);
    var model1, link1 := t.model - {idx}, link[idx := Tail];
    G.LinkedKeeps(cfg, bucket, link, chains, model1, idx, Tail);
    ModelSize(t.model, idx);
    FreeBytesFlip(t.off, t.model, model1, t.n, idx);
    KeysFewer(cfg, t.model, idx);
    if t.useFree { FiledSame(t.link, link1, t.off, t.n, t.fast, t.huge); }
  }

  lemma KeysFewer<V>(cfg: G.Config<Bytes, Entry<V>>, model: map<nat, Entry<V>>, idx: nat)
    requires G.KeysDiffer(cfg, model)
    ensures G.KeysDiffer(cfg, model - {idx})
  {
  }

  lemma UnlinkedHolds<V>(t: Table<V>, idx: nat, link: seq<nat>)
    requires Holds(t.link, t.off, t.vals, t.pool, t.n, t.model) && idx in t.model && G.SameMarks(DelMark, link, t.link)
    ensures idx < |link| == |t.link| && HoldsBut(link[idx := Tail], t.off, t.vals, t.pool, t.n, t.model - {idx}, idx)
    ensures forall x :: 0 <= x < t.n ==> (link[idx := Tail][x] == DelMark <==> t.link[x] == DelMark)
  {
    hide HoldsAt;
  }

  /** Erasing the last slot shortens the table and the pool. */
  lemma DropLast<V>(cfg: G.Config<Bytes, Entry<V>>, t: Table<V>, idx: nat)
    requires Hole(cfg, t, idx) && t.n == idx + 1 && |t.bucket| > 1
    ensures TableOk(cfg, t.(n := idx))
  {
    hide G.Linked, Filed, Chains, Holds, HoldsBut, SlotIn, G.KeysDiffer;
    HoleFacts(cfg, t, idx);
    DropHolds(t, idx);
    if t.useFree { DropFiled(t.link, t.off, t.n, t.fast, t.huge, idx); }
    assert FreeBytes(t.off, t.model, t.n) == FreeBytes(t.off, t.model, idx) + (t.off[idx + 1] - t.off[idx]) * Align;
    assert Offsets(t.off, idx, t.pool);
    hide Offsets, FreeBytes;
  }

  lemma DropHolds<V>(t: Table<V>, idx: nat)
    requires HoldsBut(t.link, t.off, t.vals, t.pool, t.n, t.model, idx) && t.n == idx + 1 && idx !in t.model
    ensures Holds(t.link, t.off, t.vals, t.pool, idx, t.model)
  {
    hide HoldsAt;
  }

  lemma DropFiled(link: seq<nat>, off: seq<nat>, n: nat, fast: seq<seq<nat>>, huge: seq<nat>, idx: nat)
    requires Filed(link, off, n, fast, huge) && n == idx + 1 <= |link| && link[idx] != DelMark
    ensures Filed(link, off, idx, fast, huge)
  {
    forall i, x: nat | 0 <= i < |fast| ensures x in fast[i] <==> OfLength(link, off, idx, x, i + 1) {
      assert x in fast[i] <==> OfLength(link, off, n, x, i + 1);
    }
    forall x: nat ensures x in huge <==> Longer(link, off, idx, x, |fast|) { assert x in huge <==> Longer(link, off, n, x, |fast|); }
  }

  /** Marking a slot as erased, without free lists. */
  ghost function MarkedOnly<V>(t: Table<V>, idx: nat): Table<V>
    requires idx < |t.link| && idx + 1 < |t.off|
  {
    t.(link := t.link[idx := DelMark], nDeleted := t.nDeleted + 1, freepool := t.freepool + (t.off[idx + 1] - t.off[idx]) * Align)
  }

  lemma MarkedHolds<V>(t: Table<V>, idx: nat)
    requires HoldsBut(t.link, t.off, t.vals, t.pool, t.n, t.model, idx) && idx < t.n && idx !in t.model
    ensures Holds(t.link[idx := DelMark], t.off, t.vals, t.pool, t.n, t.model)
  {
    hide HoldsAt;
  }

  lemma MarkOnly<V>(cfg: G.Config<Bytes, Entry<V>>, t: Table<V>, idx: nat)
    requires Hole(cfg, t, idx) && !t.useFree && |t.bucket| > 1
    ensures idx < |t.link| && idx + 1 < |t.off| && TableOk(cfg, MarkedOnly(t, idx))
  {
    hide G.Linked, Offsets, FreeBytes, Holds, HoldsBut, SlotIn, G.KeysDiffer;
    HoleFacts(cfg, t, idx);
    G.LinkedKeeps(cfg, t.bucket, t.link, t.chains, t.model, idx, DelMark);
    MarkedHolds(t, idx);
  }

  // --------------------------------------------------------------- freeing to a list

  /** The list a slot of `len` units belongs to: its own length's, or the one for long slots. */
  function HeadFor(fastHead: seq<nat>, hugeHead: nat, len: nat): nat
    requires len > 0
  {
    if len <= |fastHead| then fastHead[len - 1] else hugeHead
  }

  function HeadsWith(fastHead: seq<nat>, len: nat, v: nat): (r: seq<nat>)
    requires len > 0
    ensures |r| == |fastHead|
  {
    if len <= |fastHead| then fastHead[len - 1 := v] else fastHead
  }

  function HugeWith(fastHead: seq<nat>, hugeHead: nat, len: nat, v: nat): nat
  {
    if len <= |fastHead| then hugeHead else v
  }

  ghost function Freed<V>(t: Table<V>, idx: nat, len: nat): Table<V>
    requires SlotIn(t.pool, t.off, idx) && idx < |t.link| && len > 0 && |t.fast| == |t.fastHead|
  {
    t.(pool := SetLink(t.pool, t.off, idx, HeadFor(t.fastHead, t.hugeHead, len)), link := t.link[idx := DelMark],
       fastHead := HeadsWith(t.fastHead, len, idx), hugeHead := HugeWith(t.fastHead, t.hugeHead, len, idx),
       fast := if len <= |t.fast| then t.fast[len - 1 := [idx] + t.fast[len - 1]] else t.fast,
       huge := if len <= |t.fast| then t.huge else [idx] + t.huge,
       nDeleted := t.nDeleted + 1, freepool := t.freepool + len * Align)
  }

  lemma FreedFiled<V>(t: Table<V>, idx: nat, len: nat)
    requires SlotIn(t.pool, t.off, idx) && idx < t.n <= |t.link| && len == t.off[idx + 1] - t.off[idx] && |t.fast| == |t.fastHead|
    requires Filed(t.link, t.off, t.n, t.fast, t.huge) && t.link[idx] == Tail
    ensures var u := Freed(t, idx, len); Filed(u.link, u.off, u.n, u.fast, u.huge)
    ensures idx !in t.huge && forall i :: 0 <= i < |t.fast| ==> idx !in t.fast[i]
  {
    var u := Freed(t, idx, len);
    assert !Erased(t.link, t.n, idx);
    hide SetLink;
    forall i, x: nat | 0 <= i < |u.fast| ensures x in u.fast[i] <==> OfLength(u.link, u.off, u.n, x, i + 1) {
      assert x in t.fast[i] <==> OfLength(t.link, t.off, t.n, x, i + 1);
    }
    forall x: nat ensures x in u.huge <==> Longer(u.link, u.off, u.n, x, |u.fast|) { assert x in t.huge <==> Longer(t.link, t.off, t.n, x, |t.fast|); }
  }

  /** All members of a list are slots of the table. */
  lemma Members(link: seq<nat>, off: seq<nat>, n: nat, fast: seq<seq<nat>>, huge: seq<nat>)
    requires Filed(link, off, n, fast, huge)
    ensures forall i, j :: 0 <= i < |fast| && 0 <= j < |fast[i]| ==> fast[i][j] < n
    ensures forall j :: 0 <= j < |huge| ==> huge[j] < n
  {
    forall i, j | 0 <= i < |fast| && 0 <= j < |fast[i]| ensures fast[i][j] < n {
      var x := fast[i][j];
      assert x in fast[i];
      assert OfLength(link, off, n, x, i + 1);
    }
    forall j | 0 <= j < |huge| ensures huge[j] < n {
      var x := huge[j];
      assert x in huge;
      assert Longer(link, off, n, x, |fast|);
    }
  }

  lemma FreedChains<V>(t: Table<V>, idx: nat, len: nat)
    requires Offsets(t.off, t.n, t.pool) && SlotIn(t.pool, t.off, idx) && idx < t.n <= |t.link| <= DelMark && len > 0
    requires Filed(t.link, t.off, t.n, t.fast, t.huge) && Chains(t.pool, t.off, t.fastHead, t.hugeHead, t.fast, t.huge)
    requires idx !in t.huge && forall i :: 0 <= i < |t.fast| ==> idx !in t.fast[i]
    ensures var u := Freed(t, idx, len); Chains(u.pool, u.off, u.fastHead, u.hugeHead, u.fast, u.huge)
    ensures SameBytes(t.pool, Freed(t, idx, len).pool, t.off[idx] * Align, t.off[idx + 1] * Align)
  {
    hide Filed, Offsets, LinkAt, SetLink, SameBytes, FreeChain, SlotIn;
    Members(t.link, t.off, t.n, t.fast, t.huge);
    var i := len - 1;
    var head := HeadFor(t.fastHead, t.hugeHead, len);
    if len <= |t.fast| {
      assert FreeChain(t.pool, t.off, t.fastHead[i], t.fast[i]);
      FreeChainPush(t.pool, t.off, t.fastHead[i], t.fast[i], t.n, idx);
    } else {
      FreeChainPush(t.pool, t.off, t.hugeHead, t.huge, t.n, idx);
    }
    SetLinkOk(t.pool, t.off, idx, head);
    ChainsKeep(t.pool, t.off, t.fastHead, t.hugeHead, t.fast, t.huge, t.n, idx, SetLink(t.pool, t.off, idx, head));
  }

  lemma ChainsKeep(pool: Bytes, off: seq<nat>, fastHead: seq<nat>, hugeHead: nat, fast: seq<seq<nat>>, huge: seq<nat>, n: nat, x: nat, pool': Bytes)
    requires Chains(pool, off, fastHead, hugeHead, fast, huge) && Offsets(off, n, pool) && x < n
    requires (forall i, j :: 0 <= i < |fast| && 0 <= j < |fast[i]| ==> fast[i][j] < n) && (forall j :: 0 <= j < |huge| ==> huge[j] < n)
    requires x !in huge && forall i :: 0 <= i < |fast| ==> x !in fast[i]
    requires SameBytes(pool, pool', off[x] * Align, off[x + 1] * Align)
    ensures Chains(pool', off, fastHead, hugeHead, fast, huge)
  {
    hide FreeChain, Offsets, SameBytes;
    forall i | 0 <= i < |fast| ensures FreeChain(pool', off, fastHead[i], fast[i]) { FreeChainKeeps(pool, off, fastHead[i], fast[i], n, x, pool'); }
    FreeChainKeeps(pool, off, hugeHead, huge, n, x, pool');
  }

  lemma FreedOk<V>(cfg: G.Config<Bytes, Entry<V>>, t: Table<V>, idx: nat, len: nat)
    requires Hole(cfg, t, idx) && t.useFree && |t.bucket| > 1 && len == t.off[idx + 1] - t.off[idx]
    ensures SlotIn(t.pool, t.off, idx) && idx < |t.link| && len > 0 && |t.fast| == |t.fastHead| && TableOk(cfg, Freed(t, idx, len))
  {
    assert Chains(t.pool, t.off, t.fastHead, t.hugeHead, t.fast, t.huge) && |t.fast| == |t.fastHead|;
    hide G.Linked, Offsets, FreeBytes, Holds, HoldsBut, G.KeysDiffer, Filed, Chains;
    HoleFacts(cfg, t, idx);
    FreedFiled(t, idx, len);
    FreedChains(t, idx, len);
    G.LinkedKeeps(cfg, t.bucket, t.link, t.chains, t.model, idx, DelMark);
    MarkedHolds(t, idx);
    hide SlotIn;
    HoldsKeeps(t.link[idx := DelMark], t.off, t.vals, t.pool, t.n, t.model, idx, Freed(t, idx, len).pool);
  }

  // ------------------------------------------------------------------- taking a slot

  /** An erased slot of `len` units comes off its list. */
  ghost function Taken<V>(t: Table<V>, slot: nat, len: nat, pool: Bytes, fastHead: seq<nat>, hugeHead: nat, fast: seq<seq<nat>>, huge: seq<nat>): Table<V>
    requires slot < |t.link| && t.nDeleted > 0
  {
    t.(pool := pool, fastHead := fastHead, hugeHead := hugeHead, fast := fast, huge := huge,
       link := t.link[slot := Tail], nDeleted := t.nDeleted - 1, freepool := t.freepool - len * Align)
  }

  lemma TakenHolds<V>(t: Table<V>, slot: nat)
    requires Holds(t.link, t.off, t.vals, t.pool, t.n, t.model) && slot < t.n && t.link[slot] == DelMark
    ensures slot !in t.model && HoldsBut(t.link[slot := Tail], t.off, t.vals, t.pool, t.n, t.model, slot)
  {
    hide HoldsAt;
  }

  lemma SomeErased<V>(t: Table<V>, slot: nat)
    requires Holds(t.link, t.off, t.vals, t.pool, t.n, t.model) && t.n == |t.model| + t.nDeleted && slot < t.n && slot !in t.model
    ensures t.nDeleted > 0
  {
    hide HoldsAt;
    G.LiveCount(t.model, t.n);
    G.LiveBound(t.model, t.n);
  }

  /** The lists without `slot` fit the links with `slot` taken. */
  lemma TakenFiled(link: seq<nat>, off: seq<nat>, n: nat, fast: seq<seq<nat>>, huge: seq<nat>, slot: nat, fast': seq<seq<nat>>, huge': seq<nat>)
    requires Filed(link, off, n, fast, huge) && slot < n <= |link| && |fast'| == |fast|
    requires forall i, x: nat :: 0 <= i < |fast| ==> (x in fast'[i] <==> x in fast[i] && x != slot)
    requires forall x: nat :: x in huge' <==> x in huge && x != slot
    ensures Filed(link[slot := Tail], off, n, fast', huge')
  {
    var link' := link[slot := Tail];
    forall i, x: nat | 0 <= i < |fast'| ensures x in fast'[i] <==> OfLength(link', off, n, x, i + 1) {
      assert x in fast[i] <==> OfLength(link, off, n, x, i + 1);
    }
    forall x: nat ensures x in huge' <==> Longer(link', off, n, x, |fast'|) { assert x in huge <==> Longer(link, off, n, x, |fast|); }
  }

  lemma TakeOk<V>(cfg: G.Config<Bytes, Entry<V>>, t: Table<V>, slot: nat, len: nat, pool: Bytes, fastHead: seq<nat>, hugeHead: nat, fast: seq<seq<nat>>, huge: seq<nat>)
    requires TableOk(cfg, t) && t.useFree && slot < t.n && t.link[slot] == DelMark && t.off[slot + 1] == t.off[slot] + len
    requires Filed(t.link[slot := Tail], t.off, t.n, fast, huge) && Chains(pool, t.off, fastHead, hugeHead, fast, huge)
    requires Offsets(t.off, t.n, pool) && Holds(t.link, t.off, t.vals, pool, t.n, t.model)
    ensures slot < |t.link| && t.nDeleted > 0 && Hole(cfg, Taken(t, slot, len, pool, fastHead, hugeHead, fast, huge), slot)
  {
    hide G.Linked, Offsets, FreeBytes, Holds, HoldsBut, G.KeysDiffer, Filed, Chains;
    Facts(cfg, t);
    TakenHolds(t, slot);
    SomeErased(t, slot);
    TakenHolds(t.(pool := pool), slot);
    G.LinkedKeeps(cfg, t.bucket, t.link, t.chains, t.model, slot, Tail);
  }

  /** From the list of its length. */
  lemma TakeFast<V>(cfg: G.Config<Bytes, Entry<V>>, t: Table<V>, len: nat)
    requires TableOk(cfg, t) && t.useFree && 0 < len <= |t.fastHead| && t.fastHead[len - 1] != Tail
    ensures var slot := t.fastHead[len - 1];
            && |t.fast| == |t.fastHead| && slot < t.n <= |t.link| && SlotIn(t.pool, t.off, slot) && t.nDeleted > 0 && |t.fast[len - 1]| > 0
            && slot + 1 < |t.off| && t.off[slot + 1] == t.off[slot] + len
            && Hole(cfg, Taken(t, slot, len, t.pool, t.fastHead[len - 1 := LinkAt(t.pool, t.off, slot)], t.hugeHead, t.fast[len - 1 := t.fast[len - 1][1..]], t.huge), slot)
  {
    hide FreeChain, Holds, Offsets, G.Linked, LinkAt, G.KeysDiffer, FreeBytes, Filed, SlotIn;
    var i := len - 1;
    var slot := t.fastHead[i];
    Facts(cfg, t);
    assert Chains(t.pool, t.off, t.fastHead, t.hugeHead, t.fast, t.huge);
    PopFast(t.pool, t.off, t.fastHead, t.hugeHead, t.fast, t.huge, t.link, t.n, i);
    hide Chains;
    TakeOk(cfg, t, slot, len, t.pool, t.fastHead[i := LinkAt(t.pool, t.off, slot)], t.hugeHead, t.fast[i := t.fast[i][1..]], t.huge);
  }

  lemma PopFast(pool: Bytes, off: seq<nat>, fastHead: seq<nat>, hugeHead: nat, fast: seq<seq<nat>>, huge: seq<nat>, link: seq<nat>, n: nat, i: nat)
    requires Filed(link, off, n, fast, huge) && Chains(pool, off, fastHead, hugeHead, fast, huge) && i < |fastHead| && fastHead[i] != Tail && n <= |link|
    ensures var slot := fastHead[i];
            && slot < n && link[slot] == DelMark && SlotIn(pool, off, slot) && off[slot + 1] == off[slot] + i + 1 && |fast[i]| > 0
            && Filed(link[slot := Tail], off, n, fast[i := fast[i][1..]], huge)
            && Chains(pool, off, fastHead[i := LinkAt(pool, off, slot)], hugeHead, fast[i := fast[i][1..]], huge)
  {
    var slot := fastHead[i];
    assert FreeChain(pool, off, fastHead[i], fast[i]);
    FreeChainPop(pool, off, fastHead[i], fast[i]);
    assert slot in fast[i] && OfLength(link, off, n, slot, i + 1);
    hide FreeChain, LinkAt;
    NotElsewhere(link, off, n, fast, huge, slot, i);
    TakenFiled(link, off, n, fast, huge, slot, fast[i := fast[i][1..]], huge);
    hide Filed;
  }

  lemma NotElsewhere(link: seq<nat>, off: seq<nat>, n: nat, fast: seq<seq<nat>>, huge: seq<nat>, slot: nat, i: nat)
    requires Filed(link, off, n, fast, huge) && i < |fast| && slot in fast[i]
    ensures slot !in huge && forall j :: 0 <= j < |fast| && j != i ==> slot !in fast[j]
  {
    assert OfLength(link, off, n, slot, i + 1);
    forall j | 0 <= j < |fast| && j != i ensures slot !in fast[j] { assert !OfLength(link, off, n, slot, j + 1); }
    assert !Longer(link, off, n, slot, |fast|);
  }

  /** Unlink the `j`-th slot of a list by redirecting its predecessor. */
  lemma FreeChainUnlink(pool: Bytes, off: seq<nat>, head: nat, c: seq<nat>, n: nat, j: nat)
    requires FreeChain(pool, off, head, c) && Offsets(off, n, pool) && n <= DelMark && 0 < j < |c| && (forall i :: 0 <= i < |c| ==> c[i] < n)
    ensures SlotIn(pool, off, c[j]) && SlotIn(pool, off, c[j - 1]) && LinkAt(pool, off, c[j]) <= Tail
    ensures FreeChain(SetLink(pool, off, c[j - 1], LinkAt(pool, off, c[j])), off, head, G.Without(c, j))
  {
    var p, v := c[j - 1], LinkAt(pool, off, c[j]);
    assert v == G.Next(c, j, Tail);
    SetLinkOk(pool, off, p, v);
    var pool', d := SetLink(pool, off, p, v), G.Without(c, j);
    G.WithoutNoDup(c, j);
    hide LinkAt, SetLink;
    forall i | 0 <= i < |d| ensures SlotIn(pool', off, d[i]) && LinkAt(pool', off, d[i]) == G.Next(d, i, Tail) {
      UnlinkedAt(pool, off, c, n, j, p, v, pool', i);
    }
  }

  lemma UnlinkedAt(pool: Bytes, off: seq<nat>, c: seq<nat>, n: nat, j: nat, p: nat, v: nat, pool': Bytes, i: nat)
    requires G.NoDup(c) && Offsets(off, n, pool) && 0 < j < |c| && p == c[j - 1] && v == G.Next(c, j, Tail) && (forall i :: 0 <= i < |c| ==> c[i] < n)
    requires (forall i :: 0 <= i < |c| ==> SlotIn(pool, off, c[i])) && (forall i :: 0 <= i < |c| ==> LinkAt(pool, off, c[i]) == G.Next(c, i, Tail))
    requires SlotIn(pool', off, p) && LinkAt(pool', off, p) == v && SameBytes(pool, pool', off[p] * Align, off[p + 1] * Align)
    requires i < |c| - 1
    ensures var d := G.Without(c, j); SlotIn(pool', off, d[i]) && LinkAt(pool', off, d[i]) == G.Next(d, i, Tail)
  {
    hide LinkAt, SlotIn, SameBytes, Offsets, G.NoDup, G.Without, G.Next;
    WithoutNext(c, j, i);
    if i != j - 1 {
      var k := if i < j then i else i + 1;
      Differ(c, k, j - 1);
      LinkStays(pool, pool', off, n, p, c[k]);
    }
  }

  lemma Differ(c: seq<nat>, i: nat, j: nat)
    requires G.NoDup(c) && i < |c| && j < |c| && i != j
    ensures c[i] != c[j]
  {
  }

  lemma LinkStays(pool: Bytes, pool': Bytes, off: seq<nat>, n: nat, x: nat, y: nat)
    requires Offsets(off, n, pool) && x < n && y < n && x != y && SlotIn(pool, off, y) && SameBytes(pool, pool', off[x] * Align, off[x + 1] * Align)
    ensures SlotIn(pool', off, y) && LinkAt(pool', off, y) == LinkAt(pool, off, y)
  {
    hide LinkAt, SlotIn, SameBytes;
    LinkKeeps(pool, pool', off, n, x, y);
  }

  lemma WithoutNext(c: seq<nat>, j: nat, i: nat)
    requires 0 < j < |c| && i < |c| - 1
    ensures var d, k := G.Without(c, j), if i < j then i else i + 1;
            d[i] == c[k] && G.Next(d, i, Tail) == if i == j - 1 then G.Next(c, j, Tail) else G.Next(c, k, Tail)
  {
  }

  /** The pool and list head after taking the `j`-th slot off the list of long slots. */
  function HugePool(pool: Bytes, off: seq<nat>, first: bool, prev: nat, slot: nat): (r: Bytes)
    requires SlotIn(pool, off, slot) && (!first ==> SlotIn(pool, off, prev))
    ensures |r| == |pool|
  {
    if first then pool else SetLink(pool, off, prev, LinkAt(pool, off, slot))
  }

  lemma PopHuge(pool: Bytes, off: seq<nat>, fastHead: seq<nat>, hugeHead: nat, fast: seq<seq<nat>>, huge: seq<nat>, link: seq<nat>, n: nat, j: nat)
    requires Filed(link, off, n, fast, huge) && Chains(pool, off, fastHead, hugeHead, fast, huge) && Offsets(off, n, pool) && j < |huge| && n <= |link| && n <= DelMark
    ensures var slot, prev := huge[j], if j == 0 then 0 else huge[j - 1];
            && slot < n && link[slot] == DelMark && SlotIn(pool, off, slot) && (j != 0 ==> prev < n && link[prev] == DelMark && SlotIn(pool, off, prev))
            && Filed(link[slot := Tail], off, n, fast, G.Without(huge, j))
            && var pool' := HugePool(pool, off, j == 0, prev, slot);
               && Chains(pool', off, fastHead, if j == 0 then LinkAt(pool, off, slot) else hugeHead, fast, G.Without(huge, j))
               && (j != 0 ==> SameBytes(pool, pool', off[prev] * Align, off[prev + 1] * Align))
  {
    hide FreeChain, LinkAt, SetLink, SlotIn, SameBytes, Offsets, G.Without;
    var slot := huge[j];
    Members(link, off, n, fast, huge);
    ChainAt(pool, off, hugeHead, huge, j);
    assert slot in huge && Longer(link, off, n, slot, |fast|);
    HugeOnly(link, off, n, fast, huge, slot);
    HugeWithout(pool, off, hugeHead, huge, j);
    TakenFiled(link, off, n, fast, huge, slot, fast, G.Without(huge, j));
    if j == 0 {
      HugeFirst(pool, off, hugeHead, huge);
    } else {
      var prev := huge[j - 1];
      ChainAt(pool, off, hugeHead, huge, j - 1);
      assert prev in huge && Longer(link, off, n, prev, |fast|);
      HugeOnly(link, off, n, fast, huge, prev);
      hide Filed;
      FreeChainUnlink(pool, off, hugeHead, huge, n, j);
      SetLinkOk(pool, off, prev, LinkAt(pool, off, slot));
      FastKeep(pool, off, fastHead, fast, n, prev, SetLink(pool, off, prev, LinkAt(pool, off, slot)));
    }
  }

  lemma HugeWithout(pool: Bytes, off: seq<nat>, head: nat, c: seq<nat>, j: nat)
    requires FreeChain(pool, off, head, c) && j < |c|
    ensures forall x :: x in G.Without(c, j) <==> x in c && x != c[j]
  {
    G.WithoutNoDup(c, j);
  }

  lemma HugeFirst(pool: Bytes, off: seq<nat>, head: nat, c: seq<nat>)
    requires FreeChain(pool, off, head, c) && |c| > 0 && c[0] != Tail && SlotIn(pool, off, c[0])
    ensures FreeChain(pool, off, LinkAt(pool, off, c[0]), G.Without(c, 0))
  {
    FreeChainPop(pool, off, head, c);
    assert G.Without(c, 0) == c[1..];
  }

  lemma HugeOnly(link: seq<nat>, off: seq<nat>, n: nat, fast: seq<seq<nat>>, huge: seq<nat>, slot: nat)
    requires Filed(link, off, n, fast, huge) && slot in huge
    ensures forall i :: 0 <= i < |fast| ==> slot !in fast[i]
  {
    assert Longer(link, off, n, slot, |fast|);
    forall i | 0 <= i < |fast| ensures slot !in fast[i] { assert !OfLength(link, off, n, slot, i + 1); }
  }

  lemma FastKeep(pool: Bytes, off: seq<nat>, fastHead: seq<nat>, fast: seq<seq<nat>>, n: nat, x: nat, pool': Bytes)
    requires |fastHead| == |fast| && (forall i :: 0 <= i < |fast| ==> FreeChain(pool, off, fastHead[i], fast[i])) && Offsets(off, n, pool) && x < n
    requires (forall i, j :: 0 <= i < |fast| && 0 <= j < |fast[i]| ==> fast[i][j] < n) && forall i :: 0 <= i < |fast| ==> x !in fast[i]
    requires SameBytes(pool, pool', off[x] * Align, off[x + 1] * Align)
    ensures forall i :: 0 <= i < |fast| ==> FreeChain(pool', off, fastHead[i], fast[i])
  {
    hide FreeChain, Offsets, SameBytes;
    forall i | 0 <= i < |fast| ensures FreeChain(pool', off, fastHead[i], fast[i]) { FreeChainKeeps(pool, off, fastHead[i], fast[i], n, x, pool'); }
  }

  ghost function HugeTaken<V>(t: Table<V>, j: nat, len: nat): Table<V>
    requires j < |t.huge| && t.huge[j] < |t.link| && t.nDeleted > 0 && SlotIn(t.pool, t.off, t.huge[j]) && (j != 0 ==> SlotIn(t.pool, t.off, t.huge[j - 1]))
  {
    var slot, prev := t.huge[j], if j == 0 then 0 else t.huge[j - 1];
    Taken(t, slot, len, HugePool(t.pool, t.off, j == 0, prev, slot), t.fastHead, if j == 0 then LinkAt(t.pool, t.off, slot) else t.hugeHead, t.fast, G.Without(t.huge, j))
  }

  lemma ListFacts<V>(cfg: G.Config<Bytes, Entry<V>>, t: Table<V>)
    requires TableOk(cfg, t) && t.useFree
    ensures Filed(t.link, t.off, t.n, t.fast, t.huge) && Chains(t.pool, t.off, t.fastHead, t.hugeHead, t.fast, t.huge)
    ensures Holds(t.link, t.off, t.vals, t.pool, t.n, t.model)
  {
  }

  /** From anywhere on the list of long slots. */
  lemma TakeHuge<V>(cfg: G.Config<Bytes, Entry<V>>, t: Table<V>, j: nat, len: nat)
    requires TableOk(cfg, t) && t.useFree && j < |t.huge| && t.huge[j] + 1 < |t.off| && t.off[t.huge[j] + 1] == t.off[t.huge[j]] + len
    ensures t.huge[j] < t.n <= |t.link| && t.nDeleted > 0 && SlotIn(t.pool, t.off, t.huge[j]) && (j != 0 ==> SlotIn(t.pool, t.off, t.huge[j - 1]))
    ensures Hole(cfg, HugeTaken(t, j, len), t.huge[j])
  {
    hide *;
    Facts(cfg, t);
    ListFacts(cfg, t);
    PopHuge(t.pool, t.off, t.fastHead, t.hugeHead, t.fast, t.huge, t.link, t.n, j);
    HoldsHuge(t, j);
    SomeErased(t, t.huge[j]);
    HugeTakenOk(cfg, t, j, len);
  }

  /** The live slots stay as they are when a slot leaves the list of long slots. */
  lemma HoldsHuge<V>(t: Table<V>, j: nat)
    requires Holds(t.link, t.off, t.vals, t.pool, t.n, t.model) && Offsets(t.off, t.n, t.pool) && j < |t.huge| && t.huge[j] < t.n <= |t.link| && t.link[t.huge[j]] == DelMark
    requires SlotIn(t.pool, t.off, t.huge[j])
    requires j != 0 ==> t.huge[j - 1] < t.n && t.link[t.huge[j - 1]] == DelMark && SlotIn(t.pool, t.off, t.huge[j - 1])
    requires j != 0 ==> SameBytes(t.pool, HugePool(t.pool, t.off, false, t.huge[j - 1], t.huge[j]), t.off[t.huge[j - 1]] * Align, t.off[t.huge[j - 1] + 1] * Align)
    ensures t.huge[j] !in t.model
    ensures var pool' := HugePool(t.pool, t.off, j == 0, if j == 0 then 0 else t.huge[j - 1], t.huge[j]);
            Offsets(t.off, t.n, pool') && Holds(t.link, t.off, t.vals, pool', t.n, t.model)
  {
    hide Holds, Offsets, HugePool, SlotIn, SameBytes;
    TakenHolds(t, t.huge[j]);
    if j != 0 {
      TakenHolds(t, t.huge[j - 1]);
      HoldsKeeps(t.link, t.off, t.vals, t.pool, t.n, t.model, t.huge[j - 1], HugePool(t.pool, t.off, false, t.huge[j - 1], t.huge[j]));
    } else {
      HugePoolFirst(t.pool, t.off, 0, t.huge[0]);
    }
  }

  lemma HugeTakenOk<V>(cfg: G.Config<Bytes, Entry<V>>, t: Table<V>, j: nat, len: nat)
    requires TableOk(cfg, t) && t.useFree && j < |t.huge| && t.huge[j] < t.n <= |t.link| && t.huge[j] + 1 < |t.off| && t.off[t.huge[j] + 1] == t.off[t.huge[j]] + len
    requires t.nDeleted > 0 && SlotIn(t.pool, t.off, t.huge[j]) && (j != 0 ==> SlotIn(t.pool, t.off, t.huge[j - 1])) && t.link[t.huge[j]] == DelMark
    requires var slot, prev := t.huge[j], if j == 0 then 0 else t.huge[j - 1];
             var pool' := HugePool(t.pool, t.off, j == 0, prev, slot);
             && Filed(t.link[slot := Tail], t.off, t.n, t.fast, G.Without(t.huge, j))
             && Chains(pool', t.off, t.fastHead, if j == 0 then LinkAt(t.pool, t.off, slot) else t.hugeHead, t.fast, G.Without(t.huge, j))
             && Offsets(t.off, t.n, pool') && Holds(t.link, t.off, t.vals, pool', t.n, t.model)
    ensures Hole(cfg, HugeTaken(t, j, len), t.huge[j])
  {
    hide TableOk, SlotIn, Filed, Chains, Offsets, Holds, G.Without, HugePool, LinkAt, Hole, Taken;
    var slot, prev := t.huge[j], if j == 0 then 0 else t.huge[j - 1];
    TakeOk(cfg, t, slot, len, HugePool(t.pool, t.off, j == 0, prev, slot), t.fastHead, if j == 0 then LinkAt(t.pool, t.off, slot) else t.hugeHead, t.fast, G.Without(t.huge, j));
  }

  lemma HugePoolFirst(pool: Bytes, off: seq<nat>, prev: nat, slot: nat)
    requires SlotIn(pool, off, slot)
    ensures HugePool(pool, off, true, prev, slot) == pool
  {
  }

  // ---------------------------------------------------------- a new slot, room, filling

  /** A new slot of `len` units at the end of the pool. */
  ghost function Appended<V>(t: Table<V>, len: nat): Table<V>
    requires t.n < |t.link| && t.n + 1 < |t.off|
  {
    t.(off := t.off[t.n + 1 := t.off[t.n] + len], link := t.link[t.n := Tail], n := t.n + 1)
  }

  lemma AppendHolds<V>(t: Table<V>, len: nat)
    requires Holds(t.link, t.off, t.vals, t.pool, t.n, t.model) && Offsets(t.off, t.n, t.pool) && t.n < |t.link| && len > 0
    requires (t.off[t.n] + len) * Align <= |t.pool|
    ensures var u := Appended(t, len); HoldsBut(u.link, u.off, u.vals, u.pool, u.n, u.model, t.n) && Offsets(u.off, u.n, u.pool) && t.n !in t.model
  {
    hide HoldsAt;
    var u := Appended(t, len);
    forall x | x in t.model ensures HoldsAt(u.off, u.vals, u.pool, x, t.model[x]) {
      assert HoldsAt(t.off, t.vals, t.pool, x, t.model[x]);
      SameEnds(t.off, u.off, t.vals, t.pool, x, t.model[x]);
    }
  }

  lemma SameEnds<V>(off: seq<nat>, off': seq<nat>, vals: seq<Cell<V>>, pool: Bytes, x: nat, e: Entry<V>)
    requires HoldsAt(off, vals, pool, x, e) && x + 1 < |off| == |off'| && off'[x] == off[x] && off'[x + 1] == off[x + 1]
    ensures HoldsAt(off', vals, pool, x, e)
  {
  }

  lemma AppendLists<V>(t: Table<V>, len: nat)
    requires Filed(t.link, t.off, t.n, t.fast, t.huge) && Chains(t.pool, t.off, t.fastHead, t.hugeHead, t.fast, t.huge) && t.n < |t.link| && t.n + 1 < |t.off|
    ensures var u := Appended(t, len); Filed(u.link, u.off, u.n, u.fast, u.huge) && Chains(u.pool, u.off, u.fastHead, u.hugeHead, u.fast, u.huge)
  {
    var u := Appended(t, len);
    Members(t.link, t.off, t.n, t.fast, t.huge);
    forall i, x: nat | 0 <= i < |u.fast| ensures x in u.fast[i] <==> OfLength(u.link, u.off, u.n, x, i + 1) {
      assert x in t.fast[i] <==> OfLength(t.link, t.off, t.n, x, i + 1);
    }
    forall x: nat ensures x in u.huge <==> Longer(u.link, u.off, u.n, x, |u.fast|) { assert x in t.huge <==> Longer(t.link, t.off, t.n, x, |t.fast|); }
    hide Filed;
    forall i | 0 <= i < |t.fast| ensures FreeChain(u.pool, u.off, u.fastHead[i], u.fast[i]) { AppendChain(t.pool, t.off, t.fastHead[i], t.fast[i], t.n, u.off); }
    AppendChain(t.pool, t.off, t.hugeHead, t.huge, t.n, u.off);
  }

  lemma AppendChain(pool: Bytes, off: seq<nat>, head: nat, c: seq<nat>, n: nat, off': seq<nat>)
    requires FreeChain(pool, off, head, c) && |off'| == |off| && (forall i :: 0 <= i < |off| && i <= n ==> off'[i] == off[i]) && forall i :: 0 <= i < |c| ==> c[i] < n
    ensures FreeChain(pool, off', head, c)
  {
    forall i | 0 <= i < |c| ensures SlotIn(pool, off', c[i]) && LinkAt(pool, off', c[i]) == G.Next(c, i, Tail) {
      assert SlotIn(pool, off, c[i]) && LinkAt(pool, off, c[i]) == G.Next(c, i, Tail);
    }
  }

  lemma AppendOk<V>(cfg: G.Config<Bytes, Entry<V>>, t: Table<V>, len: nat)
    requires TableOk(cfg, t) && t.n < |t.link| && len > 0 && (t.off[t.n] + len) * Align <= |t.pool|
    ensures t.n + 1 < |t.off| && Hole(cfg, Appended(t, len), t.n)
  {
    hide Holds, Offsets, G.Linked, G.KeysDiffer, FreeBytes, Filed, Chains, HoldsBut;
    Facts(cfg, t);
    AppendHolds(t, len);
    if t.useFree { AppendLists(t, len); }
    G.LinkedKeeps(cfg, t.bucket, t.link, t.chains, t.model, t.n, Tail);
    AppendBytes(t.off, t.model, t.n, len);
  }

  lemma AppendBytes<V>(off: seq<nat>, model: map<nat, Entry<V>>, n: nat, len: nat)
    requires n + 1 < |off| && n !in model
    ensures FreeBytes(off[n + 1 := off[n] + len], model, n + 1) == FreeBytes(off, model, n) + len * Align
  {
    FreeBytesSame(off, off[n + 1 := off[n] + len], model, model, n);
  }

  /** The key and the value of a new entry, in a slot that is not linked yet. */
  ghost function StoredIn<V>(t: Table<V>, slot: nat, e: Entry<V>): Table<V>
    requires SlotIn(t.pool, t.off, slot) && slot < |t.vals| && t.off[slot + 1] - t.off[slot] == Units(|e.key|)
  {
    StoreKeyOk(t.pool, t.off, slot, e.key);
    t.(pool := StoreKey(t.pool, t.off[slot] * Align, t.off[slot + 1] * Align, e.key), vals := t.vals[slot := Val(e.value)])
  }

  lemma StoreHolds<V>(t: Table<V>, slot: nat, pool: Bytes, v: V)
    requires HoldsBut(t.link, t.off, t.vals, t.pool, t.n, t.model, slot) && Offsets(t.off, t.n, t.pool) && slot < t.n && slot !in t.model
    requires SameBytes(t.pool, pool, t.off[slot] * Align, t.off[slot + 1] * Align)
    ensures HoldsBut(t.link, t.off, t.vals[slot := Val(v)], pool, t.n, t.model, slot) && Offsets(t.off, t.n, pool)
  {
    var vals' := t.vals[slot := Val(v)];
    forall x | x in t.model ensures HoldsAt(t.off, vals', pool, x, t.model[x]) {
      assert HoldsAt(t.off, t.vals, t.pool, x, t.model[x]);
      StoredKeeps(t.pool, pool, t.off, t.n, slot, x, t.model[x].key);
    }
    hide HoldsAt, Stored;
  }

  lemma StoreOk<V>(cfg: G.Config<Bytes, Entry<V>>, t: Table<V>, slot: nat, e: Entry<V>)
    requires Hole(cfg, t, slot) && slot + 1 < |t.off| && t.off[slot + 1] - t.off[slot] == Units(|e.key|)
    ensures SlotIn(t.pool, t.off, slot) && slot < |t.vals| && Hole(cfg, StoredIn(t, slot, e), slot)
    ensures HoldsAt(t.off, StoredIn(t, slot, e).vals, StoredIn(t, slot, e).pool, slot, e)
  {
    hide Holds, Offsets, G.Linked, FreeBytes, Filed, Chains, HoldsBut, SlotIn, StoreKey, Stored, SameBytes, G.KeysDiffer;
    HoleFacts(cfg, t, slot);
    StoreKeyOk(t.pool, t.off, slot, e.key);
    var pool' := StoreKey(t.pool, t.off[slot] * Align, t.off[slot + 1] * Align, e.key);
    StoreHolds(t, slot, pool', e.value);
    if t.useFree { StoreLists(t, slot, pool'); }
  }

  lemma StoreLists<V>(t: Table<V>, slot: nat, pool: Bytes)
    requires Filed(t.link, t.off, t.n, t.fast, t.huge) && Chains(t.pool, t.off, t.fastHead, t.hugeHead, t.fast, t.huge) && Offsets(t.off, t.n, t.pool)
    requires slot < t.n <= |t.link| && t.link[slot] == Tail && SameBytes(t.pool, pool, t.off[slot] * Align, t.off[slot + 1] * Align)
    ensures Chains(pool, t.off, t.fastHead, t.hugeHead, t.fast, t.huge)
  {
    assert !Erased(t.link, t.n, slot);
    Members(t.link, t.off, t.n, t.fast, t.huge);
    assert slot !in t.huge by { assert !Longer(t.link, t.off, t.n, slot, |t.fast|); }
    forall i | 0 <= i < |t.fast| ensures slot !in t.fast[i] { assert !OfLength(t.link, t.off, t.n, slot, i + 1); }
    hide Filed, Chains, Offsets, SameBytes;
    ChainsKeep(t.pool, t.off, t.fastHead, t.hugeHead, t.fast, t.huge, t.n, slot, pool);
  }

  /** The links of a new entry. */
  ghost function LinkedIn<V>(t: Table<V>, slot: nat, e: Entry<V>, i: nat): Table<V>
    requires slot < |t.link| && i < |t.bucket| == |t.chains|
  {
    t.(link := t.link[slot := t.bucket[i]], bucket := t.bucket[i := slot], chains := t.chains[i := [slot] + t.chains[i]], model := t.model[slot := e])
  }

  lemma LinkHolds<V>(t: Table<V>, slot: nat, e: Entry<V>, v: nat)
    requires HoldsBut(t.link, t.off, t.vals, t.pool, t.n, t.model, slot) && slot < t.n && slot !in t.model && v != DelMark && HoldsAt(t.off, t.vals, t.pool, slot, e)
    ensures Holds(t.link[slot := v], t.off, t.vals, t.pool, t.n, t.model[slot := e])
  {
    hide HoldsAt;
  }

  lemma LinkOk<V>(cfg: G.Config<Bytes, Entry<V>>, t: Table<V>, slot: nat, e: Entry<V>, i: nat)
    requires Hole(cfg, t, slot) && |t.bucket| > 1 && i == G.Home(cfg.HashOf(e), |t.bucket|) && G.NotFound(cfg, t.model, e.key) && HoldsAt(t.off, t.vals, t.pool, slot, e)
    ensures slot < |t.link| && i < |t.bucket| == |t.chains| && TableOk(cfg, LinkedIn(t, slot, e, i))
  {
    hide Holds, Offsets, G.Linked, FreeBytes, Filed, Chains, HoldsBut, HoldsAt, SlotIn, G.Home, G.NotFound, G.KeysDiffer;
    HoleFacts(cfg, t, slot);
    G.LinkedAdd(cfg, t.bucket, t.link, t.chains, t.model, i, slot, e);
    LinkHolds(t, slot, e, t.bucket[i]);
    FillKeys(cfg, t.model, slot, e);
    ModelPlus(t.model, slot, e);
    FreeBytesFlip(t.off, t.model[slot := e], t.model, t.n, slot);
    if t.useFree {
      assert forall x :: 0 <= x < t.n ==> (t.link[slot := t.bucket[i]][x] == DelMark <==> t.link[x] == DelMark);
      FiledSame(t.link, t.link[slot := t.bucket[i]], t.off, t.n, t.fast, t.huge);
    }
  }

  lemma FillKeys<V>(cfg: G.Config<Bytes, Entry<V>>, model: map<nat, Entry<V>>, slot: nat, e: Entry<V>)
    requires cfg == Config(cfg.hash) && G.KeysDiffer(cfg, model) && G.NotFound(cfg, model, e.key) && slot !in model
    ensures G.KeysDiffer(cfg, model[slot := e])
  {
  }

  // ------------------------------------------------------------------ room and relinking

  /** Reallocated arrays that agree with the old ones on everything in use. */
  ghost predicate SameUse<V>(t: Table<V>, u: Table<V>)
  {
    && u == t.(link := u.link, off := u.off, vals := u.vals, pool := u.pool)
    && t.n <= |u.link| == |u.vals| <= DelMark && |u.off| == |u.link| + 1 && t.n < |t.off| && t.n <= |t.link| && t.n <= |t.vals|
    && (forall x :: 0 <= x < t.n ==> u.link[x] == t.link[x] && u.vals[x] == t.vals[x])
    && (forall x :: 0 <= x <= t.n ==> u.off[x] == t.off[x])
    && |t.pool| <= |u.pool| && forall b :: 0 <= b < |t.pool| ==> u.pool[b] == t.pool[b]
  }

  lemma SameSlot<V>(t: Table<V>, u: Table<V>, x: nat)
    requires SameUse(t, u) && x < t.n && SlotIn(t.pool, t.off, x)
    ensures SlotIn(u.pool, u.off, x) && u.off[x] == t.off[x] && u.off[x + 1] == t.off[x + 1] && LinkAt(u.pool, u.off, x) == LinkAt(t.pool, t.off, x)
    ensures forall key :: Stored(t.pool, t.off, x, key) ==> Stored(u.pool, u.off, x, key)
  {
    var beg := t.off[x] * Align;
    assert u.pool[beg..beg + LinkBytes] == t.pool[beg..beg + LinkBytes];
    forall key | Stored(t.pool, t.off, x, key) ensures Stored(u.pool, u.off, x, key) {
      assert u.pool[beg..beg + |key|] == t.pool[beg..beg + |key|];
    }
  }

  lemma SameChain<V>(t: Table<V>, u: Table<V>, head: nat, c: seq<nat>)
    requires SameUse(t, u) && FreeChain(t.pool, t.off, head, c) && forall i :: 0 <= i < |c| ==> c[i] < t.n
    ensures FreeChain(u.pool, u.off, head, c)
  {
    hide SameUse, LinkAt;
    forall i | 0 <= i < |c| ensures SlotIn(u.pool, u.off, c[i]) && LinkAt(u.pool, u.off, c[i]) == G.Next(c, i, Tail) {
      SameSlot(t, u, c[i]);
    }
  }

  lemma SameLists<V>(t: Table<V>, u: Table<V>)
    requires SameUse(t, u) && Filed(t.link, t.off, t.n, t.fast, t.huge) && Chains(t.pool, t.off, t.fastHead, t.hugeHead, t.fast, t.huge)
    ensures Filed(u.link, u.off, u.n, u.fast, u.huge) && Chains(u.pool, u.off, u.fastHead, u.hugeHead, u.fast, u.huge)
  {
    Members(t.link, t.off, t.n, t.fast, t.huge);
    forall i, x: nat | 0 <= i < |u.fast| ensures x in u.fast[i] <==> OfLength(u.link, u.off, u.n, x, i + 1) {
      assert x in t.fast[i] <==> OfLength(t.link, t.off, t.n, x, i + 1);
    }
    forall x: nat ensures x in u.huge <==> Longer(u.link, u.off, u.n, x, |u.fast|) { assert x in t.huge <==> Longer(t.link, t.off, t.n, x, |t.fast|); }
    hide FreeChain;
    forall i | 0 <= i < |t.fast| ensures FreeChain(u.pool, u.off, u.fastHead[i], u.fast[i]) { SameChain(t, u, t.fastHead[i], t.fast[i]); }
    SameChain(t, u, t.hugeHead, t.huge);
  }

  lemma SameHolds<V>(t: Table<V>, u: Table<V>)
    requires SameUse(t, u) && Holds(t.link, t.off, t.vals, t.pool, t.n, t.model) && Offsets(t.off, t.n, t.pool)
    ensures Holds(u.link, u.off, u.vals, u.pool, u.n, u.model) && Offsets(u.off, u.n, u.pool)
  {
    forall x | x in t.model ensures HoldsAt(u.off, u.vals, u.pool, x, t.model[x]) {
      assert HoldsAt(t.off, t.vals, t.pool, x, t.model[x]);
      SameSlot(t, u, x);
    }
    hide HoldsAt;
  }

  lemma RoomOk<V>(cfg: G.Config<Bytes, Entry<V>>, t: Table<V>, u: Table<V>)
    requires TableOk(cfg, t) && SameUse(t, u)
    ensures TableOk(cfg, u)
  {
    hide Holds, Offsets, G.KeysDiffer, FreeBytes, Filed, Chains;
    SameHolds(t, u);
    if t.useFree { SameLists(t, u); }
    LiveBelow(t);
    G.LinkedCopy(cfg, t.bucket, t.link, u.link, t.chains, t.model);
    FreeBytesSame(t.off, u.off, t.model, t.model, t.n);
  }

  lemma LiveBelow<V>(t: Table<V>)
    requires Holds(t.link, t.off, t.vals, t.pool, t.n, t.model)
    ensures forall x :: x in t.model ==> x < t.n
  {
  }

  /** The keys that relinking reads, and which slots it links. */
  ghost predicate Readable<V>(link: seq<nat>, off: seq<nat>, pool: Bytes, n: nat, anyErased: bool, model: map<nat, Entry<V>>)
  {
    && n <= |link| <= DelMark && (forall x :: x in model ==> x < n && SlotIn(pool, off, x) && KeyAt(pool, off, x) == model[x].key)
    && (forall x :: 0 <= x < n ==> (x in model <==> !anyErased || link[x] != DelMark))
  }

  lemma ReadStep<V>(cfg: G.Config<Bytes, Entry<V>>, bucket: seq<nat>, link: seq<nat>, chains: seq<seq<nat>>, link0: seq<nat>, off: seq<nat>, pool: Bytes,
                    j: nat, n: nat, nb: nat, anyErased: bool, model: map<nat, Entry<V>>)
    requires cfg == Config(cfg.hash) && Readable(link0, off, pool, n, anyErased, model) && nb > 0 && j < n
    requires G.Relinking(cfg, bucket, link, chains, link0, j, n, nb, model)
    ensures j < |link| && |bucket| == |chains| == nb
    ensures anyErased && link[j] == DelMark ==> G.Relinking(cfg, bucket, link, chains, link0, j + 1, n, nb, model)
    ensures !anyErased || link[j] != DelMark ==>
              && SlotIn(pool, off, j)
              && var i := G.Home(cfg.hash(KeyAt(pool, off, j)), nb);
                 G.Relinking(cfg, bucket[i := j], link[j := bucket[i]], chains[i := [j] + chains[i]], link0, j + 1, n, nb, model)
  {
    hide G.Linked, G.Below, G.Home, KeyAt;
    G.BelowStep(model, j);
    assert j in model <==> !anyErased || link[j] != DelMark;
    if j in model {
      var i := G.Home(cfg.hash(KeyAt(pool, off, j)), nb);
      G.LinkedAdd(cfg, bucket, link, chains, G.Below(model, j), i, j, model[j]);
    }
  }

  lemma ReadBegin<V>(cfg: G.Config<Bytes, Entry<V>>, hash: Bytes -> nat, link0: seq<nat>, off: seq<nat>, pool: Bytes, n: nat, anyErased: bool, model: map<nat, Entry<V>>)
    requires cfg == Config<V>(hash) && Readable(link0, off, pool, n, anyErased, model)
    ensures cfg.hash == hash && cfg.delmark == DelMark && n <= |link0| <= DelMark && G.Below(model, n) == model
  {
    G.BelowAll(model, n);
  }

  /** Rebuild all chains for `nb` buckets from the keys in the pool. */
  method RelinkAll<V>(hash: Bytes -> nat, nb: nat, link0: seq<nat>, off: seq<nat>, pool: Bytes, n: nat, anyErased: bool, ghost model: map<nat, Entry<V>>)
    returns (bucket: seq<nat>, link: seq<nat>, ghost chains: seq<seq<nat>>)
    requires nb > 0 && Readable(link0, off, pool, n, anyErased, model)
    ensures |bucket| == nb && G.Linked(Config(hash), bucket, link, chains, model) && G.Marked(DelMark, link, link0, n, n, model)
  {
    hide *;
    var cfg := Config<V>(hash);
    ReadBegin(cfg, hash, link0, off, pool, n, anyErased, model);
    link := link0;
    bucket, chains := G.NoChains(cfg, nb, link, n, model);
    var j := 0;
    while j < n
      invariant 0 <= j <= n && G.Relinking(cfg, bucket, link, chains, link0, j, n, nb, model)
    {
      ReadStep(cfg, bucket, link, chains, link0, off, pool, j, n, nb, anyErased, model);
      if !anyErased || link[j] != DelMark {
        var i := G.Home(hash(KeyAt(pool, off, j)), nb);
        bucket, link, chains := bucket[i := j], link[j := bucket[i]], chains[i := [j] + chains[i]];
      }
      j := j + 1;
    }
    G.RelinkEnd(cfg, bucket, link, chains, link0, n, nb, model);
  }

  // ------------------------------------------------------------------------ compaction

  /** The first slots hold the entries of `live`, one after the other from the start. */
  ghost predicate Packed<V>(pool: Bytes, off: seq<nat>, vals: seq<Cell<V>>, live: seq<Entry<V>>)
  {
    |live| < |off| && off[0] == 0 && forall x :: 0 <= x < |live| ==> HoldsAt(off, vals, pool, x, live[x])
  }

  /** From slot `j` on nothing has moved yet. */
  ghost predicate Unread<V>(t: Table<V>, pool: Bytes, off: seq<nat>, vals: seq<Cell<V>>, j: nat)
  {
    && |pool| == |t.pool| && |off| == |t.off| && |vals| == |t.vals| && j < |t.off|
    && (forall x :: j <= x < |off| ==> off[x] == t.off[x]) && (forall x :: j <= x < |vals| ==> vals[x] == t.vals[x])
    && (forall b :: t.off[j] * Align <= b < |pool| ==> pool[b] == t.pool[b])
  }

  ghost predicate Compacting<V>(t: Table<V>, pool: Bytes, off: seq<nat>, vals: seq<Cell<V>>, i: nat, j: nat)
  {
    && i < j <= t.n && i == |G.LiveElems(t.model, j)| && Packed(pool, off, vals, G.LiveElems(t.model, j)) && Unread(t, pool, off, vals, j)
    && off[i] <= t.off[j] && off[i] * Align == LiveBytes(t.off, t.model, j)
  }

  /** Copy `len` units down. */
  function MoveDown(pool: Bytes, dst: nat, src: nat, len: nat): (r: Bytes)
    requires dst <= src && (src + len) * Align <= |pool|
    ensures |r| == |pool|
  {
    pool[..dst * Align] + pool[src * Align..(src + len) * Align] + pool[(dst + len) * Align..]
  }

  lemma MoveDownBytes(pool: Bytes, dst: nat, src: nat, len: nat, b: nat)
    requires dst <= src && (src + len) * Align <= |pool| && b < |pool|
    ensures MoveDown(pool, dst, src, len)[b] == if dst * Align <= b < (dst + len) * Align then pool[b + (src - dst) * Align] else pool[b]
  {
  }

  /** A slot below the copied range keeps its key. */
  lemma BelowKeeps(pool: Bytes, off: seq<nat>, off': seq<nat>, dst: nat, src: nat, len: nat, x: nat, key: Bytes)
    requires dst <= src && (src + len) * Align <= |pool| && Stored(pool, off, x, key) && off[x + 1] <= dst
    requires x + 1 < |off'| && off'[x] == off[x] && off'[x + 1] == off[x + 1]
    ensures Stored(MoveDown(pool, dst, src, len), off', x, key)
  {
    var p, beg := MoveDown(pool, dst, src, len), off[x] * Align;
    assert p[beg..beg + |key|] == pool[beg..beg + |key|];
  }

  /** The copied slot has the same key in its new place. */
  lemma MovedKey(pool: Bytes, off: seq<nat>, off': seq<nat>, i: nat, j: nat, key: Bytes)
    requires Stored(pool, off, j, key) && i + 1 < |off'| && off'[i] <= off[j] && off'[i + 1] == off'[i] + (off[j + 1] - off[j])
    ensures Stored(MoveDown(pool, off'[i], off[j], off[j + 1] - off[j]), off', i, key)
  {
    var dst, src, len := off'[i], off[j], off[j + 1] - off[j];
    MoveDownRange(pool, dst, src, len, |key|);
    MoveDownBytes(pool, dst, src, len, (dst + len) * Align - 1);
    hide MoveDown;
  }

  lemma MoveDownRange(pool: Bytes, dst: nat, src: nat, len: nat, k: nat)
    requires dst <= src && (src + len) * Align <= |pool| && k <= len * Align
    ensures MoveDown(pool, dst, src, len)[dst * Align..dst * Align + k] == pool[src * Align..src * Align + k]
  {
    var p, a, b := MoveDown(pool, dst, src, len), dst * Align, src * Align;
    var l, r := p[a..a + k], pool[b..b + k];
    forall i | 0 <= i < k ensures l[i] == r[i] { MoveDownBytes(pool, dst, src, len, a + i); }
  }

  lemma CompactSkip<V>(t: Table<V>, pool: Bytes, off: seq<nat>, vals: seq<Cell<V>>, i: nat, j: nat)
    requires Compacting(t, pool, off, vals, i, j) && j < t.n && j !in t.model && Offsets(t.off, t.n, t.pool)
    ensures Compacting(t, pool, off, vals, i, j + 1)
  {
    assert G.LiveElems(t.model, j + 1) == G.LiveElems(t.model, j);
  }

  lemma CompactMove<V>(t: Table<V>, pool: Bytes, off: seq<nat>, vals: seq<Cell<V>>, i: nat, j: nat)
    requires Compacting(t, pool, off, vals, i, j) && j < t.n && j in t.model
    requires Offsets(t.off, t.n, t.pool) && Holds(t.link, t.off, t.vals, t.pool, t.n, t.model)
    ensures j + 1 < |off| && i + 1 < |off| && off[i] <= off[j] < off[j + 1] && off[j + 1] * Align <= |pool| && j < |vals|
    ensures var len := off[j + 1] - off[j];
            Compacting(t, MoveDown(pool, off[i], off[j], len), off[i + 1 := off[i] + len], vals[i := vals[j]], i + 1, j + 1)
  {
    hide MoveDown, Stored, Packed, Unread, Offsets, Holds, SlotIn, HoldsAt;
    var e := t.model[j];
    LiveHolds(t, j);
    CompactSource(t, pool, off, vals, j, e);
    StoredLength(pool, off, j, e.key);
    UnreadFacts(t, pool, off, vals, j);
    var live := G.LiveElems(t.model, j);
    assert G.LiveElems(t.model, j + 1) == live + [e];
    assert LiveBytes(t.off, t.model, j + 1) == LiveBytes(t.off, t.model, j) + (t.off[j + 1] - t.off[j]) * Align;
    hide G.LiveElems, LiveBytes;
    CompactPacked(pool, off, vals, live, i, j, e);
    CompactUnread(t, pool, off, vals, i, j, off[j + 1] - off[j]);
  }

  lemma LiveHolds<V>(t: Table<V>, j: nat)
    requires Holds(t.link, t.off, t.vals, t.pool, t.n, t.model) && j in t.model
    ensures HoldsAt(t.off, t.vals, t.pool, j, t.model[j]) && j < t.n && j < |t.vals| && t.n < |t.off|
  {
  }

  lemma StoredLength(pool: Bytes, off: seq<nat>, x: nat, key: Bytes)
    requires Stored(pool, off, x, key)
    ensures x + 1 < |off| && off[x] < off[x + 1] && off[x + 1] * Align <= |pool|
  {
  }

  lemma UnreadFacts<V>(t: Table<V>, pool: Bytes, off: seq<nat>, vals: seq<Cell<V>>, j: nat)
    requires Unread(t, pool, off, vals, j)
    ensures |off| == |t.off| && |vals| == |t.vals| && j < |off| && off[j] == t.off[j] && (j + 1 < |off| ==> off[j + 1] == t.off[j + 1])
  {
  }

  lemma CompactPacked<V>(pool: Bytes, off: seq<nat>, vals: seq<Cell<V>>, live: seq<Entry<V>>, i: nat, j: nat, e: Entry<V>)
    requires Packed(pool, off, vals, live) && i == |live| < j && i < |vals| && j < |vals| && vals[j] == Val(e.value) && Stored(pool, off, j, e.key)
    requires j + 1 < |off| && off[i] <= off[j] < off[j + 1] && off[j + 1] * Align <= |pool|
    ensures var len := off[j + 1] - off[j]; Packed(MoveDown(pool, off[i], off[j], len), off[i + 1 := off[i] + len], vals[i := vals[j]], live + [e])
  {
    hide MoveDown, Stored, SlotIn, HoldsAt, Units, Packed;
    var len := off[j + 1] - off[j];
    var off', vals' := off[i + 1 := off[i] + len], vals[i := vals[j]];
    assert off[j] + len == off[j + 1];
    MovedKey(pool, off, off', i, j, e.key);
    PackedMore(pool, off, vals, live, off', vals', off[j], len, e);
  }

  lemma PackedMore<V>(pool: Bytes, off: seq<nat>, vals: seq<Cell<V>>, live: seq<Entry<V>>, off': seq<nat>, vals': seq<Cell<V>>, src: nat, len: nat, e: Entry<V>)
    requires Packed(pool, off, vals, live) && |live| < |vals| && |live| + 1 < |off| && off[|live|] <= src && (src + len) * Align <= |pool|
    requires off' == off[|live| + 1 := off[|live|] + len] && vals' == vals[|live| := Val(e.value)]
    requires Stored(MoveDown(pool, off[|live|], src, len), off', |live|, e.key)
    ensures Packed(MoveDown(pool, off[|live|], src, len), off', vals', live + [e])
  {
    hide MoveDown, Stored, HoldsAt;
    var pool' := MoveDown(pool, off[|live|], src, len);
    MovedHolds(off', vals', pool', |live|, e);
    forall x | 0 <= x < |live + [e]| ensures HoldsAt(off', vals', pool', x, (live + [e])[x]) {
      if x < |live| { StillPacked(pool, off, vals, live, x, off', vals', src, len); }
    }
  }

  lemma StillPacked<V>(pool: Bytes, off: seq<nat>, vals: seq<Cell<V>>, live: seq<Entry<V>>, x: nat, off': seq<nat>, vals': seq<Cell<V>>, src: nat, len: nat)
    requires Packed(pool, off, vals, live) && x < |live| < |vals| && |live| + 1 < |off| && off[|live|] <= src && (src + len) * Align <= |pool|
    requires off' == off[|live| + 1 := off[|live|] + len] && |vals'| == |vals| && vals'[x] == vals[x]
    ensures HoldsAt(off', vals', MoveDown(pool, off[|live|], src, len), x, live[x])
  {
    hide MoveDown, HoldsAt;
    assert HoldsAt(off, vals, pool, x, live[x]);
    PackedBelow(pool, off, vals, live, x);
    KeptHolds(pool, off, vals, off', vals', off[|live|], src, len, x, live[x]);
  }

  lemma KeptHolds<V>(pool: Bytes, off: seq<nat>, vals: seq<Cell<V>>, off': seq<nat>, vals': seq<Cell<V>>, dst: nat, src: nat, len: nat, x: nat, e: Entry<V>)
    requires HoldsAt(off, vals, pool, x, e) && dst <= src && (src + len) * Align <= |pool| && x + 1 < |off| && off[x + 1] <= dst
    requires x + 1 < |off'| && off'[x] == off[x] && off'[x + 1] == off[x + 1] && x < |vals| && x < |vals'| && vals'[x] == vals[x]
    ensures HoldsAt(off', vals', MoveDown(pool, dst, src, len), x, e)
  {
    hide MoveDown, Stored;
    BelowKeeps(pool, off, off', dst, src, len, x, e.key);
  }

  lemma MovedHolds<V>(off: seq<nat>, vals: seq<Cell<V>>, pool: Bytes, x: nat, e: Entry<V>)
    requires x < |vals| && vals[x] == Val(e.value) && Stored(pool, off, x, e.key)
    ensures HoldsAt(off, vals, pool, x, e)
  {
  }

  /** The slot about to be copied is still as it was. */
  lemma CompactSource<V>(t: Table<V>, pool: Bytes, off: seq<nat>, vals: seq<Cell<V>>, j: nat, e: Entry<V>)
    requires Unread(t, pool, off, vals, j) && HoldsAt(t.off, t.vals, t.pool, j, e)
    ensures Stored(pool, off, j, e.key) && j < |vals| && vals[j] == Val(e.value)
  {
    var beg := t.off[j] * Align;
    assert pool[beg..beg + |e.key|] == t.pool[beg..beg + |e.key|];
  }

  lemma {:induction false} PackedBelow<V>(pool: Bytes, off: seq<nat>, vals: seq<Cell<V>>, live: seq<Entry<V>>, x: nat)
    requires Packed(pool, off, vals, live) && x < |live|
    ensures off[x + 1] <= off[|live|]
    decreases |live| - x
  {
    if x + 1 < |live| {
      assert HoldsAt(off, vals, pool, x + 1, live[x + 1]);
      PackedBelow(pool, off, vals, live, x + 1);
    }
  }

  lemma CompactUnread<V>(t: Table<V>, pool: Bytes, off: seq<nat>, vals: seq<Cell<V>>, i: nat, j: nat, len: nat)
    requires Unread(t, pool, off, vals, j) && i < j && j + 1 < |off| && i < |vals| && j < |vals| && off[i] <= off[j] && off[j + 1] == off[j] + len && off[j + 1] * Align <= |pool|
    ensures Unread(t, MoveDown(pool, off[i], off[j], len), off[i + 1 := off[i] + len], vals[i := vals[j]], j + 1)
  {
    var pool' := MoveDown(pool, off[i], off[j], len);
    forall b | t.off[j + 1] * Align <= b < |pool'| ensures pool'[b] == t.pool[b] { MoveDownBytes(pool, off[i], off[j], len, b); }
  }

  lemma CompactFirst<V>(t: Table<V>, i: nat)
    requires Offsets(t.off, t.n, t.pool) && Holds(t.link, t.off, t.vals, t.pool, t.n, t.model) && i < t.n && i !in t.model && forall x :: 0 <= x < i ==> x in t.model
    ensures Compacting(t, t.pool, t.off, t.vals, i, i + 1)
  {
    G.AllBelowLive(t.model, i);
    var live := G.LiveElems(t.model, i);
    assert G.LiveElems(t.model, i + 1) == live;
    assert LiveBytes(t.off, t.model, i + 1) == LiveBytes(t.off, t.model, i);
    hide G.LiveElems, LiveBytes, HoldsAt;
    forall x | 0 <= x < i ensures HoldsAt(t.off, t.vals, t.pool, x, live[x]) { assert HoldsAt(t.off, t.vals, t.pool, x, t.model[x]); }
    AllLiveBytes(t.off, t.model, i);
  }

  lemma {:induction false} AllLiveBytes<V>(off: seq<nat>, model: map<nat, Entry<V>>, i: nat)
    requires i < |off| && off[0] == 0 && forall x :: 0 <= x < i ==> x in model
    ensures LiveBytes(off, model, i) == off[i] * Align
  {
    if i > 0 { AllLiveBytes(off, model, i - 1); }
  }

  /** Move all live keys and values down over the erased slots. */
  method Compact<V>(link: seq<nat>, off0: seq<nat>, vals0: seq<Cell<V>>, pool0: Bytes, n: nat, ghost t: Table<V>)
    returns (pool: Bytes, off: seq<nat>, vals: seq<Cell<V>>, i: nat)
    requires t.link == link && t.off == off0 && t.vals == vals0 && t.pool == pool0 && t.n == n
    requires Offsets(off0, n, pool0) && Holds(link, off0, vals0, pool0, n, t.model) && exists x :: 0 <= x < n && x !in t.model
    ensures i < n && Compacting(t, pool, off, vals, i, n)
  {
    hide Compacting, Holds, Offsets, MoveDown;
    HoldsSize(t);
    i := G.FirstErased(DelMark, link, n);
    FirstIs(t, i);
    CompactFirst(t, i);
    pool, off, vals := pool0, off0, vals0;
    var j := i + 1;
    while j < n
      invariant i < j <= n <= |link| && Compacting(t, pool, off, vals, i, j)
    {
      EitherErased(t, j);
      if link[j] != DelMark {
        CompactMove(t, pool, off, vals, i, j);
        var len := off[j + 1] - off[j];
        pool, off, vals := MoveDown(pool, off[i], off[j], len), off[i + 1 := off[i] + len], vals[i := vals[j]];
        i := i + 1;
      } else {
        CompactSkip(t, pool, off, vals, i, j);
      }
      j := j + 1;
    }
  }

  lemma HoldsSize<V>(t: Table<V>)
    requires Holds(t.link, t.off, t.vals, t.pool, t.n, t.model)
    ensures t.n <= |t.link|
  {
  }

  lemma EitherErased<V>(t: Table<V>, j: nat)
    requires Holds(t.link, t.off, t.vals, t.pool, t.n, t.model) && j < t.n
    ensures j < |t.link| && (j in t.model <==> t.link[j] != DelMark)
  {
  }

  lemma FirstIs<V>(t: Table<V>, i: nat)
    requires Holds(t.link, t.off, t.vals, t.pool, t.n, t.model) && (exists x :: 0 <= x < t.n && x !in t.model) && t.n <= |t.link|
    requires i <= t.n && (forall x :: 0 <= x < i ==> t.link[x] != DelMark) && (i < t.n ==> t.link[i] == DelMark)
    ensures i < t.n <= |t.link| && i !in t.model && forall x :: 0 <= x < i ==> x in t.model
  {
    hide HoldsAt;
  }

  lemma CompactReadable<V>(t: Table<V>, pool: Bytes, off: seq<nat>, vals: seq<Cell<V>>, i: nat)
    requires Compacting(t, pool, off, vals, i, t.n) && t.n <= |t.link| <= DelMark
    ensures Readable(t.link, off, pool, i, false, G.Compacted(t.model, t.n))
  {
    var live := G.LiveElems(t.model, t.n);
    hide G.LiveElems, Unread, LiveBytes;
    forall x | 0 <= x < i ensures SlotIn(pool, off, x) && KeyAt(pool, off, x) == live[x].key {
      assert HoldsAt(off, vals, pool, x, live[x]);
      StoredKey(pool, off, x, live[x].key);
    }
    hide KeyAt, SlotIn, Packed;
  }

  /** The table after a compaction. */
  ghost function Revoked<V>(t: Table<V>, pool: Bytes, off: seq<nat>, vals: seq<Cell<V>>, i: nat, bucket: seq<nat>, link: seq<nat>, chains: seq<seq<nat>>): Table<V>
  {
    t.(pool := pool, off := off, vals := vals, n := i, bucket := bucket, link := link, chains := chains, nDeleted := 0, freepool := 0, model := G.Compacted(t.model, t.n))
  }

  lemma CompactedHolds<V>(t: Table<V>, pool: Bytes, off: seq<nat>, vals: seq<Cell<V>>, i: nat, link: seq<nat>)
    requires Compacting(t, pool, off, vals, i, t.n) && G.Marked(DelMark, link, t.link, i, i, G.Compacted(t.model, t.n))
    requires t.n <= |t.link| == |t.vals| <= DelMark && |t.off| == |t.link| + 1
    ensures Holds(link, off, vals, pool, i, G.Compacted(t.model, t.n)) && Offsets(off, i, pool)
  {
    var live, model' := G.LiveElems(t.model, t.n), G.Compacted(t.model, t.n);
    hide G.LiveElems, LiveBytes;
    forall x | 0 <= x < i ensures HoldsAt(off, vals, pool, x, live[x]) && off[x] < off[x + 1] { assert HoldsAt(off, vals, pool, x, live[x]); }
    if i > 0 { var k := i - 1; assert HoldsAt(off, vals, pool, k, live[k]); }
    hide HoldsAt, Unread, Packed;
  }

  lemma CompactedCounts<V>(t: Table<V>, off: seq<nat>, i: nat)
    requires i == |G.LiveElems(t.model, t.n)| && i < |off|
    ensures |G.Compacted(t.model, t.n)| == i && FreeBytes(off, G.Compacted(t.model, t.n), i) == 0
  {
    var model' := G.Compacted(t.model, t.n);
    hide G.LiveElems;
    var keys: set<nat> := model'.Keys;
    G.RangeSize(keys, i);
    NoFreeBytes(off, model', i);
  }

  lemma {:induction false} NoFreeBytes<V>(off: seq<nat>, model: map<nat, Entry<V>>, i: nat)
    requires i < |off| && forall x :: 0 <= x < i ==> x in model
    ensures FreeBytes(off, model, i) == 0
  {
    if i > 0 { NoFreeBytes(off, model, i - 1); }
  }

  lemma RevokedOk<V>(cfg: G.Config<Bytes, Entry<V>>, t: Table<V>, pool: Bytes, off: seq<nat>, vals: seq<Cell<V>>, i: nat, bucket: seq<nat>, link: seq<nat>, chains: seq<seq<nat>>)
    requires TableOk(cfg, t) && !t.useFree && Compacting(t, pool, off, vals, i, t.n) && |bucket| > 1
    requires G.Linked(cfg, bucket, link, chains, G.Compacted(t.model, t.n)) && G.Marked(DelMark, link, t.link, i, i, G.Compacted(t.model, t.n))
    ensures TableOk(cfg, Revoked(t, pool, off, vals, i, bucket, link, chains))
    ensures i < |off| && |link| == |t.link| && |pool| == |t.pool| && off[i] * Align + t.freepool == t.off[t.n] * Align && t.n < |t.off|
  {
    assert i == |G.LiveElems(t.model, t.n)| && i < t.n && off[i] * Align == LiveBytes(t.off, t.model, t.n) && |off| == |t.off| && |pool| == |t.pool|;
    assert |link| == |t.link| by { G.MarkedSize(DelMark, link, t.link, i, G.Compacted(t.model, t.n)); }
    hide Holds, Offsets, G.Linked, G.KeysDiffer, FreeBytes, Compacting, G.Marked, G.Compacted;
    Facts(cfg, t);
    CompactedHolds(t, pool, off, vals, i, link);
    CompactedCounts(t, off, i);
    G.CompactKeys(cfg, t.model, t.n);
    OffsetsZero(t.off, t.n, t.pool);
    PoolBytes(t.off, t.model, t.n);
  }

  lemma OffsetsZero(off: seq<nat>, n: nat, pool: Bytes)
    requires Offsets(off, n, pool)
    ensures n < |off| && off[0] == 0
  {
  }

  /** Some slot is erased exactly if the counter says so. */
  lemma CountErased<V>(cfg: G.Config<Bytes, Entry<V>>, t: Table<V>)
    requires TableOk(cfg, t)
    ensures t.nDeleted > 0 ==> exists x :: 0 <= x < t.n && x !in t.model
    ensures t.nDeleted == 0 ==> t.freepool == 0
  {
    hide G.Linked, G.KeysDiffer, HoldsAt, Filed, Chains;
    G.LiveCount(t.model, t.n);
    if forall x :: 0 <= x < t.n ==> x in t.model {
      G.AllBelowLive(t.model, t.n);
      NoFreeBytes(t.off, t.model, t.n);
    } else {
      G.LiveBound(t.model, t.n);
    }
  }

  lemma TableReadable<V>(cfg: G.Config<Bytes, Entry<V>>, t: Table<V>)
    requires TableOk(cfg, t)
    ensures Readable(t.link, t.off, t.pool, t.n, t.nDeleted > 0, t.model)
  {
    hide KeyAt, SlotIn, TableOk, Offsets, G.Linked, G.KeysDiffer;
    Facts(cfg, t);
    forall x | x in t.model ensures x < t.n && SlotIn(t.pool, t.off, x) && KeyAt(t.pool, t.off, x) == t.model[x].key { LiveSlot(cfg, t, x); }
    if t.nDeleted == 0 { AllLiveIfNone(cfg, t); } else { LiveMarks(cfg, t); }
  }

  lemma LiveMarks<V>(cfg: G.Config<Bytes, Entry<V>>, t: Table<V>)
    requires TableOk(cfg, t)
    ensures t.n <= |t.link| && forall x :: 0 <= x < t.n ==> (x in t.model <==> t.link[x] != DelMark)
  {
    hide HoldsAt;
  }

  lemma AllLiveIfNone<V>(cfg: G.Config<Bytes, Entry<V>>, t: Table<V>)
    requires TableOk(cfg, t) && t.nDeleted == 0
    ensures forall x :: 0 <= x < t.n ==> x in t.model
  {
    hide G.Linked, G.KeysDiffer, HoldsAt, Filed, Chains, FreeBytes;
    G.LiveCount(t.model, t.n);
    G.LiveBound(t.model, t.n);
  }

  lemma RehashedOk<V>(cfg: G.Config<Bytes, Entry<V>>, t: Table<V>, bucket: seq<nat>, link: seq<nat>, chains: seq<seq<nat>>, maxload: nat)
    requires TableOk(cfg, t) && |bucket| > 1 && G.Linked(cfg, bucket, link, chains, t.model) && G.Marked(DelMark, link, t.link, t.n, t.n, t.model)
    ensures TableOk(cfg, t.(bucket := bucket, link := link, chains := chains, maxload := maxload)) && |link| == |t.link|
  {
    hide Offsets, G.Linked, G.KeysDiffer, FreeBytes, Filed, Chains, HoldsAt;
    G.MarkedSize(DelMark, link, t.link, t.n, t.model);
    assert forall x :: 0 <= x < t.n ==> (link[x] == DelMark <==> t.link[x] == DelMark);
    if t.useFree { FiledSame(t.link, link, t.off, t.n, t.fast, t.huge); }
  }

  // ------------------------------------------------------------------------- the object

  class HashStrMap<V> {
    const hash: Bytes -> nat
    var bucket: seq<nat>
    var link: seq<nat>
    var off: seq<nat>
    var vals: seq<Cell<V>>
    var pool: Bytes
    var nNodes: nat
    var maxload: nat
    var useFree: bool
    var fastHead: seq<nat>
    var hugeHead: nat
    var nDeleted: nat
    var freepool: int
    ghost var chains: seq<seq<nat>>
    ghost var fast: seq<seq<nat>>
    ghost var huge: seq<nat>
    ghost var model: map<nat, Entry<V>>

    ghost function Now(): Table<V>
      reads this
    {
      Table(bucket, link, off, vals, pool, nNodes, maxload, useFree, fastHead, hugeHead, nDeleted, freepool, chains, fast, huge, model)
    }

    ghost predicate Valid()
      reads this
    {
      TableOk(Config(hash), Now())
    }

    constructor (h: Bytes -> nat, freelists: bool, fastleng: nat)
      ensures Valid() && model == map[] && hash == h && useFree == freelists && |fastHead| == fastleng && pool == [] && nNodes == 0
    {
      hash := h;
      bucket, link, off, vals, pool, nNodes, maxload := [Tail], [], [0], [], [], 0, 0;
      useFree, fastHead, hugeHead, nDeleted, freepool := freelists, seq(fastleng, _ => Tail), Tail, 0, 0;
      chains, fast, huge, model := [[]], seq(fastleng, _ => []), [], map[];
    }

    /** The slot of a key, or the number of slots. */
    method FindI(key: Bytes) returns (p: nat)
      requires Valid()
      ensures p < nNodes ==> G.FoundAt(Config(hash), model, key, p)
      ensures p >= nNodes ==> p == nNodes && G.NotFound(Config(hash), model, key)
    {
      hide TableOk, KeyAt, G.Linked, G.Home, Offsets, G.KeysDiffer, G.NotFound, SlotIn, Config;
      ghost var cfg, t := Config<V>(hash), Now();
      Facts(cfg, t);
      ConfigHash<V>(hash);
      var b := G.Home(hash(key), |bucket|);
      ghost var c := chains[b];
      ghost var j := 0;
      ChainHead(cfg, t, b);
      p := bucket[b];
      while p != Tail
        invariant 0 <= j <= |c| && p == (if j < |c| then c[j] else Tail)
        invariant forall i :: 0 <= i < j ==> !G.FoundAt(cfg, model, key, c[i])
        decreases |c| - j
      {
        ChainStep(cfg, t, b, j);
        LiveSlot(cfg, t, p);
        FoundIs(cfg, t, key, p);
        if KeyAt(pool, off, p) == key { return; }
        p := link[p];
        j := j + 1;
      }
      ChainStep(cfg, t, b, j);
      AbsentKey(cfg, t, key);
      p := nNodes;
    }

    /** Change the number of buckets: no entry moves. */
    method Rehash(newBuckets: nat, newMaxload: nat)
      requires Valid() && newBuckets > 1
      modifies this`bucket, this`link, this`chains, this`maxload
      ensures Valid() && |bucket| == newBuckets && |link| == old(|link|)
      ensures maxload == if newBuckets != old(|bucket|) then newMaxload else old(maxload)
    {
      hide TableOk, Readable, G.Linked, G.Marked, Config;
      if newBuckets != |bucket| {
        ghost var t := Now();
        TableReadable(Config(hash), t);
        var bucket', link';
        ghost var chains';
        bucket', link', chains' := RelinkAll(hash, newBuckets, link, off, pool, nNodes, nDeleted > 0, model);
        RehashedOk(Config(hash), t, bucket', link', chains', newMaxload);
        bucket, link, chains, maxload := bucket', link', chains', newMaxload;
      }
    }

    /** Close the gaps in slots and pool, keeping the order, and rebuild the chains. */
    method RevokeDeleted()
      requires Valid() && !useFree
      modifies this`bucket, this`link, this`chains, this`pool, this`off, this`vals, this`nNodes, this`nDeleted, this`freepool, this`model
      ensures Valid() && nDeleted == 0 && freepool == 0 && |link| == old(|link|) && |pool| == old(|pool|) && |bucket| == old(|bucket|)
      ensures model == G.Compacted(old(model), old(nNodes)) && nNodes == old(nNodes) - old(nDeleted)
      ensures nNodes < |off| && old(nNodes) < old(|off|) && off[nNodes] * Align + old(freepool) == old(off[nNodes]) * Align
    {
      hide TableOk, G.Linked, G.Marked, Config, Offsets, Compacting, G.Compacted, G.KeysDiffer;
      ghost var cfg, t := Config<V>(hash), Now();
      Facts(cfg, t);
      CountErased(cfg, t);
      if nDeleted > 0 {
        Revoke();
      } else {
        NothingErased(cfg, t);
      }
    }

    method Revoke()
      requires Valid() && !useFree && nDeleted > 0
      modifies this`bucket, this`link, this`chains, this`pool, this`off, this`vals, this`nNodes, this`nDeleted, this`freepool, this`model
      ensures Valid() && nDeleted == 0 && freepool == 0 && |link| == old(|link|) && |pool| == old(|pool|) && |bucket| == old(|bucket|)
      ensures model == G.Compacted(old(model), old(nNodes)) && nNodes < old(nNodes) && nNodes == old(nNodes) - old(nDeleted)
      ensures nNodes < |off| && old(nNodes) < old(|off|) && off[nNodes] * Align + old(freepool) == old(off[nNodes]) * Align
    {
      hide TableOk, Config, G.Compacted, G.Linked, G.Marked, Readable, Halfway;
      ghost var t := Now();
      RevokeNoRelink();
      ghost var u := Now();
      HalfwayFacts(Config(hash), t, u);
      var bucket', link';
      ghost var chains';
      bucket', link', chains' := RelinkAll(hash, |bucket|, link, off, pool, nNodes, false, model);
      HalfwayOk(Config(hash), t, u, bucket', link', chains');
      bucket, link, chains := bucket', link', chains';
    }

    /** The compaction; chains and links are those of the old numbering. */
    method RevokeNoRelink()
      requires Valid() && !useFree && nDeleted > 0
      modifies this`pool, this`off, this`vals, this`nNodes, this`nDeleted, this`freepool, this`model
      ensures Halfway(old(Now()), Now())
    {
      hide TableOk, Config, G.Compacted, Halfway, Compacting, Holds, Offsets;
      ghost var t := Now();
      CountErased(Config(hash), t);
      TableHolds(Config(hash), t);
      var pool', off', vals', i := Compact(link, off, vals, pool, nNodes, t);
      HalfwayIs(t, pool', off', vals', i);
      pool, off, vals, nNodes, nDeleted, freepool, model := pool', off', vals', i, 0, 0, G.Compacted(t.model, t.n);
    }

    /** Take the first slot of the list for this length. */
    method TakeFromFast(len: nat) returns (slot: nat)
      requires Valid() && useFree && 0 < len <= |fastHead| && fastHead[len - 1] != Tail
      modifies this`fastHead, this`fast, this`link, this`nDeleted, this`freepool
      ensures Hole(Config(hash), Now(), slot) && slot + 1 < |off| && off[slot + 1] == off[slot] + len && Reused(old(Now()), Now(), slot, len)
    {
      hide TableOk, Hole, LinkAt, SlotIn, Config;
      FastVacant(Config(hash), Now(), len);
      TakeFast(Config(hash), Now(), len);
      var k, units := len - 1, len * Align;
      slot := fastHead[k];
      var next := LinkAt(pool, off, slot);
      fastHead, fast, link, nDeleted, freepool := fastHead[k := next], fast[k := fast[k][1..]], link[slot := Tail], nDeleted - 1, freepool - units;
    }

    /** Take a slot of exactly this length off the list of long slots, if there is one. */
    method TakeFromHuge(len: nat) returns (found: bool, slot: nat)
      requires Valid() && useFree && len > |fastHead|
      modifies this`pool, this`hugeHead, this`huge, this`link, this`nDeleted, this`freepool
      ensures found ==> Hole(Config(hash), Now(), slot) && slot + 1 < |off| && off[slot + 1] == off[slot] + len && Reused(old(Now()), Now(), slot, len)
      ensures !found ==> Valid() && Now() == old(Now()) && forall x :: !Vacant(Now(), x, len)
    {
      hide TableOk, Hole, Config, FreeChain, OtherLength, Vacant;
      HugeVacant(Config(hash), Now(), len);
      HugeList(Config(hash), Now());
      var first, prev;
      ghost var j;
      found, first, prev, slot, j := SearchHuge(pool, off, hugeHead, len, huge);
      if found { UnlinkHuge(len, first, prev, slot, j); }
    }

    method UnlinkHuge(len: nat, first: bool, prev: nat, slot: nat, ghost j: nat)
      requires Valid() && useFree && j < |huge| && slot == huge[j] && first == (j == 0) && prev == (if j == 0 then 0 else huge[j - 1])
      requires slot + 1 < |off| && off[slot + 1] == off[slot] + len
      modifies this`pool, this`hugeHead, this`huge, this`link, this`nDeleted, this`freepool
      ensures Hole(Config(hash), Now(), slot)
      ensures off == old(off) && |link| == old(|link|) && |pool| == old(|pool|) && nDeleted == old(nDeleted) - 1 && freepool == old(freepool) - len * Align
    {
      hide TableOk, Hole, LinkAt, SlotIn, Config, HugePool, G.Without;
      TakeHuge(Config(hash), Now(), j, len);
      var head := if first then LinkAt(pool, off, slot) else hugeHead;
      var pool', units := HugePool(pool, off, first, prev, slot), len * Align;
      pool, hugeHead, huge, link, nDeleted, freepool := pool', head, G.Without(huge, j), link[slot := Tail], nDeleted - 1, freepool - units;
    }

    /** Make room for one more slot. */
    method ReserveNode()
      requires Valid() && (nNodes == |link| ==> G.GrownCapacity(nNodes) <= DelMark)
      modifies this`link, this`off, this`vals
      ensures Valid() && nNodes < |link| && nNodes < |off| && nNodes < |old(off)| && off[..nNodes + 1] == old(off)[..nNodes + 1]
      ensures |link| == if nNodes < |old(link)| then |old(link)| else if nNodes == 0 then 1 else 2 * nNodes
    {
      hide TableOk, Config, SameUse, G.Resized, G.Linked, G.KeysDiffer;
      ghost var t := Now();
      Facts(Config(hash), t);
      if nNodes == |link| {
        var cap := G.GrownCapacity(nNodes);
        var link', off', vals' := G.Resized(link, nNodes, cap, 0), G.Resized(off, nNodes + 1, cap + 1, 0), G.Resized(vals, nNodes, cap, Raw);
        ResizedUse(t, t.(link := link', off := off', vals := vals'));
        RoomOk(Config(hash), t, t.(link := link', off := off', vals := vals'));
        assert off'[..nNodes + 1] == off[..nNodes + 1];
        link, off, vals := link', off', vals';
      }
    }

    /** A new slot at the end of the pool, after compacting or enlarging the pool if it is full. */
    method NewSlot(len: nat) returns (slot: nat, ghost compacted: bool)
      requires Valid() && len > 0 && (nNodes == |link| ==> G.GrownCapacity(nNodes) <= DelMark)
      modifies this
      ensures Hole(Config(hash), Now(), slot) && slot + 1 < |off| && off[slot + 1] == off[slot] + len && |bucket| == old(|bucket|) && useFree == old(useFree) && maxload == old(maxload)
      ensures model == if compacted then G.Compacted(old(model), old(nNodes)) else old(model)
      ensures compacted == Compacts(old(Now()), len) && Appends(old(Now()), Now(), slot, len)
    {
      hide TableOk, Hole, Config, G.Compacted, G.GrownCapacity;
      ghost var t := Now();
      ReserveNode();
      ghost var u := Now();
      assert u.off[t.n] == u.off[..t.n + 1][t.n] == t.off[..t.n + 1][t.n];
      compacted := PoolRoom(len);
      ghost var v := Now();
      slot := AppendSlot(len);
      assert v.off[..v.n + 1] == off[..v.n + 1];
    }

    method AppendSlot(len: nat) returns (slot: nat)
      requires Valid() && len > 0 && nNodes < |link| && nNodes < |off| && (off[nNodes] + len) * Align <= |pool|
      modifies this`off, this`link, this`nNodes
      ensures Hole(Config(hash), Now(), slot) && slot + 1 < |off| && off[slot + 1] == off[slot] + len
      ensures slot == old(nNodes) && nNodes == slot + 1 && |link| == old(|link|) && off == old(off)[nNodes := off[nNodes]]
    {
      hide TableOk, Hole, Config;
      AppendOk(Config(hash), Now(), len);
      slot := nNodes;
      var end := off[nNodes] + len;
      off, link, nNodes := off[nNodes + 1 := end], link[nNodes := Tail], nNodes + 1;
    }

    method PoolRoom(len: nat) returns (ghost compacted: bool)
      requires Valid() && len > 0 && nNodes < |link|
      modifies this
      ensures Valid() && |bucket| == old(|bucket|) && useFree == old(useFree) && maxload == old(maxload) && |link| == old(|link|) && nNodes < |link| && nNodes < |off| && (off[nNodes] + len) * Align <= |pool|
      ensures model == if compacted then G.Compacted(old(model), old(nNodes)) else old(model)
      ensures compacted == Compacts(old(Now()), len)
      ensures if compacted then nNodes == old(nNodes) - old(nDeleted) && Squeezed(old(Now()), Now()) else nNodes == old(nNodes) && off == old(off) && SameSlots(old(Now()), Now(), len)
    {
      hide TableOk, Config, G.Compacted, PoolCapacity, SameSlots, Offsets, G.Linked, G.KeysDiffer;
      ghost var t := Now();
      Facts(Config(hash), t);
      compacted := false;
      var need := (off[nNodes] + len) * Align;
      if need > |pool| {
        if !useFree && freepool >= len * Align && freepool >= |pool| / 4 {
          compacted := true;
          RevokeDeleted();
          SqueezedRoom(t, Now(), len);
        } else {
          EnlargePool(need);
          SameSlotsIn(t, Now(), len);
        }
      } else {
        SameSlotsIn(t, t, len);
      }
    }

    /** Room for `need` bytes and for some more. */
    method EnlargePool(need: nat)
      requires Valid() && need > |pool|
      modifies this`pool
      ensures Valid() && |pool| == PoolCapacity(need) >= need
    {
      hide TableOk, Config, SameUse, PoolCapacity, Offsets, G.Linked, G.KeysDiffer;
      ghost var t := Now();
      Facts(Config(hash), t);
      var cap := PoolCapacity(need);
      var pool' := pool + Zeros(cap - |pool|);
      LongerPool(t, pool');
      RoomOk(Config(hash), t, t.(pool := pool'));
      pool := pool';
    }

    /** An erased slot of the right length, or a new one. */
    method AllocSlot(len: nat) returns (slot: nat, ghost compacted: bool)
      requires Valid() && len > 0 && (nNodes == |link| ==> G.GrownCapacity(nNodes) <= DelMark)
      modifies this
      ensures Hole(Config(hash), Now(), slot) && slot + 1 < |off| && off[slot + 1] == off[slot] + len && |bucket| == old(|bucket|) && useFree == old(useFree) && maxload == old(maxload)
      ensures model == if compacted then G.Compacted(old(model), old(nNodes)) else old(model)
      ensures compacted == Compacts(old(Now()), len) && Allotted(old(Now()), Now(), slot, len)
    {
      hide TableOk, Hole, Config, G.Compacted, G.GrownCapacity, OtherLength, Vacant, Reused, Appends;
      compacted := false;
      if useFree {
        if 0 < len <= |fastHead| { FastVacant(Config(hash), Now(), len); }
        if len <= |fastHead| {
          if fastHead[len - 1] != Tail {
            slot := TakeFromFast(len);
            return;
          }
        } else {
          var found;
          ghost var t := Now();
          found, slot := TakeFromHuge(len);
          if found {
            ReusedVacant(t, Now(), slot, len);
            return;
          }
        }
      }
      slot, compacted := NewSlot(len);
    }

    /** Copy the key and the value into a slot. */
    method Store(slot: nat, key: Bytes, value: V)
      requires Hole(Config(hash), Now(), slot) && slot + 1 < |off| && off[slot + 1] == off[slot] + Units(|key|)
      modifies this`pool, this`vals
      ensures Hole(Config(hash), Now(), slot) && HoldsAt(off, vals, pool, slot, Entry(key, value)) && |pool| == old(|pool|)
    {
      hide TableOk, Hole, Config, StoreKey, SlotIn, HoldsAt;
      StoreOk(Config(hash), Now(), slot, Entry(key, value));
      StoreKeyOk(pool, off, slot, key);
      var pool' := StoreKey(pool, off[slot] * Align, off[slot + 1] * Align, key);
      pool, vals := pool', vals[slot := Val(value)];
    }

    /** Make a filled slot the head of its chain. */
    method LinkNew(slot: nat, h: nat, ghost e: Entry<V>)
      requires Hole(Config(hash), Now(), slot) && |bucket| > 1 && h == hash(e.key) && G.NotFound(Config(hash), model, e.key) && HoldsAt(off, vals, pool, slot, e)
      modifies this`link, this`bucket, this`chains, this`model
      ensures Valid() && model == old(model)[slot := e] && |bucket| == old(|bucket|) && |link| == old(|link|)
    {
      hide TableOk, Hole, Config, G.Home, G.NotFound, HoldsAt;
      var k := G.Home(h, |bucket|);
      HashIs<V>(hash, e);
      LinkOk(Config(hash), Now(), slot, e, k);
      link, bucket, chains, model := link[slot := bucket[k]], bucket[k := slot], chains[k := [slot] + chains[k]], model[slot := e];
    }

    /** Insert unless the key is there. A compaction on the way renumbers the slots. */
    method InsertI(key: Bytes, value: V, newBuckets: nat, newMaxload: nat) returns (slot: nat, isNew: bool, ghost compacted: bool)
      requires Valid() && newBuckets > 1 && (nNodes == |link| ==> G.GrownCapacity(nNodes) <= DelMark)
      modifies this
      ensures Valid() && useFree == old(useFree)
      ensures isNew == G.NotFound(Config(hash), old(model), key)
      ensures !isNew ==> G.FoundAt(Config(hash), model, key, slot) && Now() == old(Now())
      ensures isNew ==> var base := if compacted then G.Compacted(old(model), old(nNodes)) else old(model);
                        slot !in base && model == base[slot := Entry(key, value)]
      ensures isNew ==> compacted == Compacts(old(Now()), Units(|key|)) && Allotted(old(Now()), Now(), slot, Units(|key|))
      ensures isNew && old(nNodes) >= old(maxload) ==> |bucket| == newBuckets && maxload == if newBuckets != old(|bucket|) then newMaxload else old(maxload)
      ensures isNew && old(nNodes) < old(maxload) ==> |bucket| == old(|bucket|) && maxload == old(maxload)
    {
      hide TableOk, Config, G.Compacted, G.GrownCapacity;
      compacted := false;
      slot := FindI(key);
      if slot < nNodes {
        isNew := false;
      } else {
        hide G.NotFound;
        isNew := true;
        slot, compacted := AddNew(key, value, newBuckets, newMaxload);
      }
    }

    method AddNew(key: Bytes, value: V, newBuckets: nat, newMaxload: nat) returns (slot: nat, ghost compacted: bool)
      requires Valid() && newBuckets > 1 && (nNodes == |link| ==> G.GrownCapacity(nNodes) <= DelMark) && G.NotFound(Config(hash), model, key)
      modifies this
      ensures Valid() && useFree == old(useFree) && compacted == Compacts(old(Now()), Units(|key|)) && Allotted(old(Now()), Now(), slot, Units(|key|))
      ensures old(nNodes) >= old(maxload) ==> |bucket| == newBuckets && maxload == if newBuckets != old(|bucket|) then newMaxload else old(maxload)
      ensures old(nNodes) < old(maxload) ==> |bucket| == old(|bucket|) && maxload == old(maxload)
      ensures var base := if compacted then G.Compacted(old(model), old(nNodes)) else old(model);
              slot !in base && model == base[slot := Entry(key, value)]
    {
      hide TableOk, Config, G.Compacted, G.GrownCapacity, G.NotFound, Allotted, Compacts, Units;
      Facts(Config(hash), Now());
      ghost var t0 := Now();
      if nNodes >= maxload { Rehash(newBuckets, newMaxload); }
      ghost var t := Now();
      slot, compacted := PlaceNew(key, value);
      AllottedAlso(t0, t, Now(), Now(), slot, Units(|key|));
    }

    /** Give the entry a slot, fill it and link it. */
    method PlaceNew(key: Bytes, value: V) returns (slot: nat, ghost compacted: bool)
      requires Valid() && |bucket| > 1 && (nNodes == |link| ==> G.GrownCapacity(nNodes) <= DelMark) && G.NotFound(Config(hash), model, key)
      modifies this
      ensures Valid() && |bucket| == old(|bucket|) && useFree == old(useFree) && maxload == old(maxload)
      ensures compacted == Compacts(old(Now()), Units(|key|)) && Allotted(old(Now()), Now(), slot, Units(|key|))
      ensures var base := if compacted then G.Compacted(old(model), old(nNodes)) else old(model);
              slot !in base && model == base[slot := Entry(key, value)]
    {
      hide TableOk, Hole, Config, G.Compacted, G.GrownCapacity, G.NotFound, HoldsAt, Offsets, G.Linked, G.KeysDiffer, SlotIn, Allotted, Compacts, Units;
      ghost var t := Now();
      StillAbsent(Config(hash), t, key);
      UnitsPositive(|key|);
      slot, compacted := AllocSlot(Units(|key|));
      ghost var u := Now();
      HoleFacts(Config(hash), u, slot);
      Store(slot, key, value);
      LinkNew(slot, hash(key), Entry(key, value));
      AllottedAlso(t, t, u, Now(), slot, Units(|key|));
    }

    /** Erase the entry in a live slot. The last slot is dropped; otherwise the slot goes to a
        free list, or waits for a compaction, which runs once half of the slots are erased. */
    method EraseI(idx: nat) returns (ghost compacted: bool)
      requires Valid() && idx in model
      modifies this
      ensures Valid() && useFree == old(useFree)
      ensures model == if compacted then G.Compacted(old(model) - {idx}, old(nNodes)) else old(model) - {idx}
      ensures compacted == (!useFree && idx != old(nNodes) - 1 && old(nDeleted) + 1 >= old(nNodes) / 2)
      ensures |bucket| == old(|bucket|) && maxload == old(maxload) && |pool| == old(|pool|)
      ensures if idx == old(nNodes) - 1 then nNodes == idx && off == old(off) && nDeleted == old(nDeleted) && freepool == old(freepool) && fast == old(fast) && huge == old(huge)
              else if compacted then nNodes == old(nNodes) - old(nDeleted) - 1 && nDeleted == 0 && freepool == 0
              else nNodes == old(nNodes) && off == old(off) && nDeleted == old(nDeleted) + 1 && idx + 1 < |off| && freepool == old(freepool) + (off[idx + 1] - off[idx]) * Align
      ensures useFree && idx != old(nNodes) - 1 ==> idx + 1 < |off| && Listed(old(fast), old(huge), fast, huge, idx, off[idx + 1] - off[idx])
    {
      hide TableOk, Hole, Config, G.Compacted, Offsets, Listed;
      compacted := false;
      var n := nNodes;
      var len := Unlink(idx);
      if n - 1 == idx {
        DropLast(Config(hash), Now(), idx);
        nNodes := idx;
      } else if useFree {
        PutToFreelist(idx, len);
      } else {
        Mark(idx, len);
        if nDeleted >= nNodes / 2 {
          compacted := true;
          RevokeDeleted();
        }
      }
    }

    method Unlink(idx: nat) returns (len: nat)
      requires Valid() && idx in model
      modifies this`bucket, this`link, this`chains, this`model
      ensures Hole(Config(hash), Now(), idx) && model == old(model) - {idx} && |bucket| == old(|bucket|) > 1
      ensures idx < nNodes && idx + 1 < |off| && off[idx + 1] == off[idx] + len
    {
      hide TableOk, Hole, Config, G.Linked, G.SameMarks, G.Home, KeyAt;
      ghost var cfg, t := Config<V>(hash), Now();
      Facts(cfg, t);
      LiveSlot(cfg, t, idx);
      ConfigHash<V>(hash);
      len := off[idx + 1] - off[idx];
      var b := G.Home(hash(KeyAt(pool, off, idx)), |bucket|);
      var bucket', link';
      ghost var chains';
      bucket', link', chains' := G.UnlinkSlot(Config<V>(hash), bucket, link, chains, model, b, idx);
      UnlinkedOk(cfg, t, idx, bucket', link', chains');
      bucket, link, chains, model := bucket', link'[idx := Tail], chains', model - {idx};
    }

    /** Thread an erased slot onto the list for its length. */
    method PutToFreelist(idx: nat, len: nat)
      requires Hole(Config(hash), Now(), idx) && useFree && |bucket| > 1 && idx + 1 < |off| && off[idx + 1] == off[idx] + len
      modifies this`pool, this`link, this`fastHead, this`hugeHead, this`fast, this`huge, this`nDeleted, this`freepool
      ensures Valid() && nDeleted == old(nDeleted) + 1 && freepool == old(freepool) + len * Align && |pool| == old(|pool|)
      ensures Listed(old(fast), old(huge), fast, huge, idx, len)
    {
      hide TableOk, Hole, Config, SetLink, SlotIn;
      FreedOk(Config(hash), Now(), idx, len);
      if len <= |fastHead| { PutFast(idx, len); } else { PutHuge(idx, len); }
    }

    method PutFast(idx: nat, len: nat)
      requires SlotIn(pool, off, idx) && idx < |link| && 0 < len <= |fast| == |fastHead| && TableOk(Config(hash), Freed(Now(), idx, len))
      modifies this`pool, this`link, this`fastHead, this`fast, this`nDeleted, this`freepool
      ensures Valid() && nDeleted == old(nDeleted) + 1 && freepool == old(freepool) + len * Align && |pool| == old(|pool|)
      ensures Listed(old(fast), huge, fast, huge, idx, len)
    {
      hide TableOk, Config, SetLink, SlotIn, Freed;
      FreedFast(Now(), idx, len);
      var k, units := len - 1, len * Align;
      var pool' := SetLink(pool, off, idx, fastHead[k]);
      pool, link, fastHead, fast, nDeleted, freepool := pool', link[idx := DelMark], fastHead[k := idx], fast[k := [idx] + fast[k]], nDeleted + 1, freepool + units;
    }

    method PutHuge(idx: nat, len: nat)
      requires SlotIn(pool, off, idx) && idx < |link| && len > |fast| == |fastHead| && TableOk(Config(hash), Freed(Now(), idx, len))
      modifies this`pool, this`link, this`hugeHead, this`huge, this`nDeleted, this`freepool
      ensures Valid() && nDeleted == old(nDeleted) + 1 && freepool == old(freepool) + len * Align && |pool| == old(|pool|)
      ensures Listed(fast, old(huge), fast, huge, idx, len)
    {
      hide TableOk, Config, SetLink, SlotIn;
      var units := len * Align;
      var pool' := SetLink(pool, off, idx, hugeHead);
      pool, link, hugeHead, huge, nDeleted, freepool := pool', link[idx := DelMark], idx, [idx] + huge, nDeleted + 1, freepool + units;
    }

    method Mark(idx: nat, len: nat)
      requires Hole(Config(hash), Now(), idx) && !useFree && |bucket| > 1 && idx + 1 < |off| && off[idx + 1] == off[idx] + len
      modifies this`link, this`nDeleted, this`freepool
      ensures Valid() && nDeleted == old(nDeleted) + 1 && freepool == old(freepool) + len * Align
    {
      hide TableOk, Hole, Config;
      MarkOnly(Config(hash), Now(), idx);
      var units := len * Align;
      link, nDeleted, freepool := link[idx := DelMark], nDeleted + 1, freepool + units;
    }
  }

  /** `u` is `t` with slots and pool compacted, chains not yet rebuilt. */
  ghost predicate Halfway<V>(t: Table<V>, u: Table<V>)
  {
    u == Revoked(t, u.pool, u.off, u.vals, u.n, t.bucket, t.link, t.chains) && Compacting(t, u.pool, u.off, u.vals, u.n, t.n)
  }

  lemma HalfwayIs<V>(t: Table<V>, pool: Bytes, off: seq<nat>, vals: seq<Cell<V>>, i: nat)
    requires Compacting(t, pool, off, vals, i, t.n)
    ensures Halfway(t, Revoked(t, pool, off, vals, i, t.bucket, t.link, t.chains))
  {
  }

  lemma HalfwayFacts<V>(cfg: G.Config<Bytes, Entry<V>>, t: Table<V>, u: Table<V>)
    requires Halfway(t, u) && TableOk(cfg, t)
    ensures |u.bucket| == |t.bucket| > 1 && Readable(u.link, u.off, u.pool, u.n, false, u.model)
  {
    Facts(cfg, t);
    hide TableOk, G.Compacted;
    CompactReadable(t, u.pool, u.off, u.vals, u.n);
  }

  lemma HalfwayOk<V>(cfg: G.Config<Bytes, Entry<V>>, t: Table<V>, u: Table<V>, bucket: seq<nat>, link: seq<nat>, chains: seq<seq<nat>>)
    requires TableOk(cfg, t) && !t.useFree && Halfway(t, u) && |bucket| > 1
    requires G.Linked(cfg, bucket, link, chains, u.model) && G.Marked(DelMark, link, u.link, u.n, u.n, u.model)
    ensures TableOk(cfg, u.(bucket := bucket, link := link, chains := chains))
    ensures u.n < t.n < |t.off| && u.n < |u.off| && |link| == |t.link| && |u.pool| == |t.pool| && u.off[u.n] * Align + t.freepool == t.off[t.n] * Align
    ensures u.nDeleted == 0 && u.freepool == 0 && u.model == G.Compacted(t.model, t.n) && u.n == t.n - t.nDeleted
  {
    assert u.n < t.n && u.n == |G.LiveElems(t.model, t.n)|;
    HoldsOf(cfg, t);
    Facts(cfg, t);
    G.LiveCount(t.model, t.n);
    hide TableOk, G.Compacted, G.Linked, G.Marked, Compacting;
    RevokedOk(cfg, t, u.pool, u.off, u.vals, u.n, bucket, link, chains);
  }

  lemma ChainHead<V>(cfg: G.Config<Bytes, Entry<V>>, t: Table<V>, b: nat)
    requires TableOk(cfg, t) && b < |t.bucket|
    ensures |t.chains| == |t.bucket| && t.bucket[b] == if |t.chains[b]| == 0 then Tail else t.chains[b][0]
  {
    assert G.IsChain(t.link, t.bucket[b], t.chains[b], Tail);
  }

  /** The `j`-th slot of a chain is live, and its link leads to the next one. */
  lemma ChainStep<V>(cfg: G.Config<Bytes, Entry<V>>, t: Table<V>, b: nat, j: nat)
    requires TableOk(cfg, t) && b < |t.bucket| == |t.chains|
    ensures var c := t.chains[b];
            j < |c| ==> c[j] in t.model && c[j] != Tail && c[j] < |t.link| && t.link[c[j]] == if j + 1 < |c| then c[j + 1] else Tail
  {
    var c := t.chains[b];
    assert G.IsChain(t.link, t.bucket[b], c, Tail);
    if j < |c| {
      assert t.link[c[j]] == G.Next(c, j, Tail);
      assert c[j] in c && G.InBucket(cfg, |t.chains|, t.model, b, c[j]);
    }
  }

  lemma FoundIs<V>(cfg: G.Config<Bytes, Entry<V>>, t: Table<V>, key: Bytes, p: nat)
    requires TableOk(cfg, t) && p in t.model
    ensures G.FoundAt(cfg, t.model, key, p) <==> t.model[p].key == key
  {
  }

  lemma AbsentKey<V>(cfg: G.Config<Bytes, Entry<V>>, t: Table<V>, key: Bytes)
    requires TableOk(cfg, t) && |t.chains| > 0
    requires var c := t.chains[G.Home(cfg.hash(key), |t.chains|)]; forall i :: 0 <= i < |c| ==> !G.FoundAt(cfg, t.model, key, c[i])
    ensures G.NotFound(cfg, t.model, key)
  {
    G.NotInChain(cfg, t.chains, t.model, key);
  }

  lemma TableHolds<V>(cfg: G.Config<Bytes, Entry<V>>, t: Table<V>)
    requires TableOk(cfg, t)
    ensures Holds(t.link, t.off, t.vals, t.pool, t.n, t.model) && Offsets(t.off, t.n, t.pool) && (t.n > 0 ==> |t.bucket| > 1)
  {
  }

  lemma NothingErased<V>(cfg: G.Config<Bytes, Entry<V>>, t: Table<V>)
    requires TableOk(cfg, t) && t.nDeleted == 0
    ensures G.Compacted(t.model, t.n) == t.model && t.freepool == 0
  {
    hide TableOk, G.Compacted;
    AllLiveIfNone(cfg, t);
    CountErased(cfg, t);
    HoldsOf(cfg, t);
    AllStay(t.model, t.n);
  }

  lemma HoldsOf<V>(cfg: G.Config<Bytes, Entry<V>>, t: Table<V>)
    requires TableOk(cfg, t)
    ensures forall x :: x in t.model ==> x < t.n
  {
    LiveBelow(t);
  }

  lemma AllStay<E>(model: map<nat, E>, n: nat)
    requires forall x: nat :: x in model <==> x < n
    ensures G.Compacted(model, n) == model
  {
    G.AllBelowLive(model, n);
  }

  lemma HugeList<V>(cfg: G.Config<Bytes, Entry<V>>, t: Table<V>)
    requires TableOk(cfg, t) && t.useFree
    ensures FreeChain(t.pool, t.off, t.hugeHead, t.huge) && |t.off| <= Tail
  {
  }

  ghost predicate OtherLength(off: seq<nat>, x: nat, len: nat)
  {
    x + 1 < |off| && off[x + 1] != off[x] + len
  }

  // ------------------------------------------------------------ which slot is given out

  /** Slot `x` has been erased and is `len` units long. */
  ghost predicate Vacant<V>(t: Table<V>, x: nat, len: nat)
  {
    x < t.n && x !in t.model && x + 1 < |t.off| && t.off[x + 1] == t.off[x] + len
  }

  /** An erased slot of this length was taken, and it is one erased slot less. */
  ghost predicate Reused<V>(t: Table<V>, u: Table<V>, slot: nat, len: nat)
  {
    && Vacant(t, slot, len) && u.n == t.n && u.off == t.off && |u.pool| == |t.pool|
    && u.nDeleted == t.nDeleted - 1 && u.freepool == t.freepool - len * Align && |u.link| == |t.link|
  }

  /** A slot that ends `len` units behind the last one does not fit into the pool. */
  ghost predicate PoolFull<V>(t: Table<V>, len: nat)
  {
    t.n < |t.off| && (t.off[t.n] + len) * Align > |t.pool|
  }

  /** When the table is compacted instead of enlarging the pool. */
  ghost predicate Compacts<V>(t: Table<V>, len: nat)
  {
    !t.useFree && PoolFull(t, len) && t.freepool >= len * Align && t.freepool >= |t.pool| / 4
  }

  /** Nothing was erased or moved; the pool is only enlarged if it is full. */
  ghost predicate SameSlots<V>(t: Table<V>, u: Table<V>, len: nat)
  {
    && t.n < |t.off| && t.n < |u.off| && u.off[..t.n + 1] == t.off[..t.n + 1] && u.nDeleted == t.nDeleted && u.freepool == t.freepool
    && |u.pool| == if PoolFull(t, len) then PoolCapacity((t.off[t.n] + len) * Align) else |t.pool|
  }

  /** No erased slot is left: they were squeezed out. */
  ghost predicate Squeezed<V>(t: Table<V>, u: Table<V>)
  {
    u.nDeleted == 0 && u.freepool == 0 && |u.pool| == |t.pool|
  }

  /** A slot behind all others, after a compaction or without. */
  ghost predicate Appends<V>(t: Table<V>, u: Table<V>, slot: nat, len: nat)
  {
    && u.n == slot + 1 && |u.link| == (if t.n < |t.link| then |t.link| else if t.n == 0 then 1 else 2 * t.n)
    && if Compacts(t, len) then slot == t.n - t.nDeleted && Squeezed(t, u) else slot == t.n && SameSlots(t, u, len)
  }

  /** What a slot of `len` units is given out as: an erased one of that length if the lists are in
      use and there is one, and otherwise a new one. */
  ghost predicate Allotted<V>(t: Table<V>, u: Table<V>, slot: nat, len: nat)
  {
    if t.useFree && exists x :: Vacant(t, x, len) then Reused(t, u, slot, len) else Appends(t, u, slot, len)
  }

  lemma UnitsPositive(n: nat)
    ensures Units(n) > 0
  {
  }

  /** An erased slot goes to the head of the list for its length. */
  ghost predicate Listed(fast: seq<seq<nat>>, huge: seq<nat>, fast': seq<seq<nat>>, huge': seq<nat>, idx: nat, len: nat)
  {
    if 0 < len <= |fast| then fast' == fast[len - 1 := [idx] + fast[len - 1]] && huge' == huge
    else fast' == fast && huge' == [idx] + huge
  }

  lemma SqueezedRoom<V>(t: Table<V>, u: Table<V>, len: nat)
    requires t.n < |t.off| && u.n < |u.off| && t.off[t.n] * Align <= |t.pool| && |u.pool| == |t.pool|
    requires t.freepool >= len * Align && u.off[u.n] * Align + t.freepool == t.off[t.n] * Align
    ensures (u.off[u.n] + len) * Align <= |u.pool|
  {
    assert (u.off[u.n] + len) * Align == u.off[u.n] * Align + len * Align;
  }

  lemma SameSlotsIn<V>(t: Table<V>, u: Table<V>, len: nat)
    requires u == t.(pool := u.pool) && t.n < |t.off| && |u.pool| == if PoolFull(t, len) then PoolCapacity((t.off[t.n] + len) * Align) else |t.pool|
    ensures SameSlots(t, u, len) && (u.off[u.n] + len) * Align <= |u.pool|
  {
  }

  lemma ReusedVacant<V>(t: Table<V>, u: Table<V>, slot: nat, len: nat)
    requires Reused(t, u, slot, len)
    ensures Vacant(t, slot, len)
  {
  }

  /** Buckets, links and values do not matter for where a slot is put. */
  ghost predicate SameRoom<V>(t: Table<V>, u: Table<V>)
  {
    && u.n == t.n && u.useFree == t.useFree && u.off == t.off && |u.link| == |t.link| && |u.pool| == |t.pool| && u.nDeleted == t.nDeleted && u.freepool == t.freepool
  }

  lemma AllottedAlso<V>(t0: Table<V>, t: Table<V>, u: Table<V>, u': Table<V>, slot: nat, len: nat)
    requires Allotted(t, u, slot, len) && SameRoom(t0, t) && t0.model == t.model && SameRoom(u, u')
    ensures Allotted(t0, u', slot, len) && (Compacts(t0, len) <==> Compacts(t, len))
  {
    forall x ensures Vacant(t0, x, len) <==> Vacant(t, x, len) { }
  }

  lemma FastVacant<V>(cfg: G.Config<Bytes, Entry<V>>, t: Table<V>, len: nat)
    requires TableOk(cfg, t) && t.useFree && 0 < len <= |t.fastHead|
    ensures if t.fastHead[len - 1] != Tail then Vacant(t, t.fastHead[len - 1], len) else forall x :: !Vacant(t, x, len)
  {
    hide G.Linked, G.KeysDiffer, HoldsAt, LinkAt, FreeBytes;
    var i := len - 1;
    assert FreeChain(t.pool, t.off, t.fastHead[i], t.fast[i]);
    if t.fast[i] != [] {
      assert t.fast[i][0] in t.fast[i] && OfLength(t.link, t.off, t.n, t.fast[i][0], len);
    }
    forall x | Vacant(t, x, len) ensures t.fast[i] != [] { assert OfLength(t.link, t.off, t.n, x, i + 1) && x in t.fast[i]; }
  }

  lemma HugeVacant<V>(cfg: G.Config<Bytes, Entry<V>>, t: Table<V>, len: nat)
    requires TableOk(cfg, t) && t.useFree && len > |t.fastHead|
    ensures forall i :: 0 <= i < |t.huge| && t.huge[i] + 1 < |t.off| && t.off[t.huge[i] + 1] == t.off[t.huge[i]] + len ==> Vacant(t, t.huge[i], len)
    ensures (forall i :: 0 <= i < |t.huge| ==> OtherLength(t.off, t.huge[i], len)) ==> forall x :: !Vacant(t, x, len)
  {
    hide G.Linked, G.KeysDiffer, HoldsAt, LinkAt, FreeBytes, FreeChain;
    forall i | 0 <= i < |t.huge| ensures Longer(t.link, t.off, t.n, t.huge[i], |t.fast|) { assert t.huge[i] in t.huge; }
    forall x | Vacant(t, x, len) ensures exists i :: 0 <= i < |t.huge| && t.huge[i] == x {
      assert Longer(t.link, t.off, t.n, x, |t.fast|) && x in t.huge;
    }
  }

  lemma ChainAt(pool: Bytes, off: seq<nat>, head: nat, c: seq<nat>, j: nat)
    requires FreeChain(pool, off, head, c)
    ensures head == (if |c| == 0 then Tail else c[0])
    ensures j < |c| ==> SlotIn(pool, off, c[j]) && c[j] + 1 < |off| && LinkAt(pool, off, c[j]) == if j + 1 < |c| then c[j + 1] else Tail
  {
    if j < |c| { assert LinkAt(pool, off, c[j]) == G.Next(c, j, Tail); }
  }

  /** Walk a list of erased slots to one of exactly `len` units. */
  method SearchHuge(pool: Bytes, off: seq<nat>, head: nat, len: nat, ghost c: seq<nat>)
    returns (found: bool, first: bool, prev: nat, slot: nat, ghost j: nat)
    requires FreeChain(pool, off, head, c) && |off| <= Tail
    ensures found ==> j < |c| && slot == c[j] && slot + 1 < |off| && off[slot + 1] == off[slot] + len && first == (j == 0) && prev == if j == 0 then 0 else c[j - 1]
    ensures found ==> forall i :: 0 <= i < j ==> OtherLength(off, c[i], len)
    ensures !found ==> forall i :: 0 <= i < |c| ==> OtherLength(off, c[i], len)
  {
    hide FreeChain, LinkAt, SlotIn;
    ChainAt(pool, off, head, c, 0);
    first, prev, slot, j := true, 0, head, 0;
    while slot != Tail
      invariant 0 <= j <= |c| && slot == (if j < |c| then c[j] else Tail) && first == (j == 0) && prev == if j == 0 then 0 else c[j - 1]
      invariant forall i :: 0 <= i < j ==> OtherLength(off, c[i], len)
      decreases |c| - j
    {
      ChainAt(pool, off, head, c, j);
      if off[slot + 1] == off[slot] + len { return true, first, prev, slot, j; }
      first, prev, slot := false, slot, LinkAt(pool, off, slot);
      j := j + 1;
    }
    ChainAt(pool, off, head, c, j);
    return false, first, prev, slot, j;
  }

  lemma ResizedUse<V>(t: Table<V>, u: Table<V>)
    requires u == t.(link := u.link, off := u.off, vals := u.vals) && t.n <= |u.link| == |u.vals| <= DelMark && |u.off| == |u.link| + 1
    requires t.n < |t.off| && t.n <= |t.link| && t.n <= |t.vals|
    requires (forall x :: 0 <= x < t.n ==> u.link[x] == t.link[x]) && (forall x :: 0 <= x < t.n ==> u.vals[x] == t.vals[x]) && forall x :: 0 <= x < t.n + 1 ==> u.off[x] == t.off[x]
    ensures SameUse(t, u)
  {
  }

  lemma LongerPool<V>(t: Table<V>, pool: Bytes)
    requires |t.pool| <= |pool| && pool[..|t.pool|] == t.pool && t.n <= |t.link| == |t.vals| <= DelMark && |t.off| == |t.link| + 1
    ensures SameUse(t, t.(pool := pool))
  {
    forall b | 0 <= b < |t.pool| ensures pool[b] == t.pool[b] { assert pool[..|t.pool|][b] == pool[b]; }
  }

  lemma FreedFast<V>(t: Table<V>, idx: nat, len: nat)
    requires SlotIn(t.pool, t.off, idx) && idx < |t.link| && 0 < len <= |t.fast| == |t.fastHead|
    ensures var k := len - 1;
            Freed(t, idx, len) == t.(pool := SetLink(t.pool, t.off, idx, t.fastHead[k]), link := t.link[idx := DelMark], fastHead := t.fastHead[k := idx],
                                     fast := t.fast[k := [idx] + t.fast[k]], nDeleted := t.nDeleted + 1, freepool := t.freepool + len * Align)
  {
  }

  lemma HashIs<V>(hash: Bytes -> nat, e: Entry<V>)
    ensures Config(hash).HashOf(e) == hash(e.key)
  {
  }

  lemma ConfigHash<V>(hash: Bytes -> nat)
    ensures Config<V>(hash).hash == hash
  {
  }

  /** A compaction does not bring a key back. */
  lemma StillAbsent<V>(cfg: G.Config<Bytes, Entry<V>>, t: Table<V>, key: Bytes)
    requires G.NotFound(cfg, t.model, key)
    ensures G.NotFound(cfg, G.Compacted(t.model, t.n), key)
  {
    var model' := G.Compacted(t.model, t.n);
    forall i | i in model' ensures cfg.keyOf(model'[i]) != key { var x := G.LiveSource(t.model, t.n, i); }
  }

  // -------------------------------------------------------- the table as a map of strings

  /** What the slots hold after an operation that may have compacted them. */
  ghost function Renumbered<V>(model: map<nat, Entry<V>>, n: nat, compacted: bool): map<nat, Entry<V>>
  {
    if compacted then G.Compacted(model, n) else model
  }

  /** An insertion adds its key to the map, compaction or not. */
  lemma InsertRefines<V>(cfg: G.Config<Bytes, Entry<V>>, model: map<nat, Entry<V>>, n: nat, compacted: bool, m: map<Bytes, Entry<V>>, slot: nat, e: Entry<V>)
    requires cfg == Config(cfg.hash) && G.Represents(cfg, model, m) && (forall x :: x in model ==> x < n)
    requires G.NotFound(cfg, model, e.key) && slot !in Renumbered(model, n, compacted)
    ensures G.Represents(cfg, Renumbered(model, n, compacted)[slot := e], m[e.key := e])
  {
    hide G.Compacted;
    if compacted {
      G.CompactRefines(cfg, model, m, n);
      StillAbsent(cfg, Table([], [], [], [], [], n, 0, false, [], 0, 0, 0, [], [], [], model), e.key);
    }
    G.InsertRefines(cfg, Renumbered(model, n, compacted), m, slot, e);
  }

  /** An erasure removes its key and nothing else, compaction or not. */
  lemma EraseRefines<V>(cfg: G.Config<Bytes, Entry<V>>, model: map<nat, Entry<V>>, n: nat, compacted: bool, m: map<Bytes, Entry<V>>, idx: nat)
    requires cfg == Config(cfg.hash) && G.Represents(cfg, model, m) && G.KeysDiffer(cfg, model) && (forall x :: x in model ==> x < n) && idx in model
    ensures G.Represents(cfg, Renumbered(model - {idx}, n, compacted), m - {model[idx].key})
  {
    hide G.Compacted;
    G.EraseRefines(cfg, model, m, idx, n, true);
    assert G.Erased(model, idx, n, true) == model - {idx};
    if compacted { G.CompactRefines(cfg, model - {idx}, m - {model[idx].key}, n); }
  }
}
