/**
 The index-linked hash table (src/terark/gold_hash_map.hpp, gold_hash_tab): buckets and
 collision chains hold slot numbers, erased slots thread a free list through their own
 storage, and without the free list the last element moves into the hole.

 The arrays that the source reallocates are sequences here. The abstract state is `model`,
 the map from live slot numbers to elements.
 */
module GoldHash {

  /** Storage of a slot: not constructed, an element, or the next free slot's number. */
  datatype Slot<E> = Raw | Item(elem: E) | NextFree(next: nat)

  /** Hash, key extractor and the two largest link values. */
  datatype Config<!K, !E> = Config(keyOf: E -> K, hash: K -> nat, delmark: nat)
  {
    function Tail(): nat { delmark + 1 }
    function HashOf(e: E): nat { hash(keyOf(e)) }
  }

  /** The bucket of a hash value. */
  function Home(h: nat, buckets: nat): (b: nat)
    requires buckets > 0
    ensures b < buckets
  {
    h % buckets
  }

  // ------------------------------------------------------------------- chains

  /** Starting at `head` and following `link`, exactly the slots of `c`, then `tail`. */
  ghost predicate IsChain(link: seq<nat>, head: nat, c: seq<nat>, tail: nat)
  {
    && head == (if |c| == 0 then tail else c[0])
    && (forall i :: 0 <= i < |c| ==> c[i] < |link|)
    && (forall i :: 0 <= i < |c| ==> link[c[i]] == Next(c, i, tail))
  }

  ghost function Next(c: seq<nat>, i: nat, tail: nat): nat
  {
    if i + 1 < |c| then c[i + 1] else tail
  }

  ghost predicate Chained(bucket: seq<nat>, link: seq<nat>, chains: seq<seq<nat>>, tail: nat)
  {
    && |chains| == |bucket| > 0
    && forall b :: 0 <= b < |bucket| ==> IsChain(link, bucket[b], chains[b], tail)
  }

  ghost predicate NoDup(c: seq<nat>)
  {
    forall i, j :: 0 <= i < j < |c| ==> c[i] != c[j]
  }

  /** The chain of every bucket holds exactly the live slots that hash to it, once each. */
  ghost predicate Placed<K, E>(cfg: Config<K, E>, chains: seq<seq<nat>>, model: map<nat, E>)
  {
    && |chains| > 0
    && (forall b :: 0 <= b < |chains| ==> NoDup(chains[b]))
    && (forall b, x :: 0 <= b < |chains| && x in chains[b] ==> InBucket(cfg, |chains|, model, b, x))
    && (forall x :: x in model ==> x in chains[Home(cfg.HashOf(model[x]), |chains|)])
  }

  ghost predicate InBucket<K, E>(cfg: Config<K, E>, n: nat, model: map<nat, E>, b: int, x: nat)
    requires n > 0
  {
    x in model && Home(cfg.HashOf(model[x]), n) == b
  }

  ghost predicate KeysDiffer<K, E>(cfg: Config<K, E>, model: map<nat, E>)
  {
    forall x, y :: x in model && y in model && cfg.keyOf(model[x]) == cfg.keyOf(model[y]) ==> x == y
  }

  lemma ChainKeeps(link: seq<nat>, head: nat, c: seq<nat>, tail: nat, x: nat, v: nat)
    requires IsChain(link, head, c, tail) && x !in c && x < |link|
    ensures IsChain(link[x := v], head, c, tail)
  {
  }

  ghost predicate Unused(chains: seq<seq<nat>>, x: nat)
  {
    forall a :: 0 <= a < |chains| ==> x !in chains[a]
  }

  /** Prepend slot `x` to bucket `b`. */
  lemma ChainedAdd(bucket: seq<nat>, link: seq<nat>, chains: seq<seq<nat>>, tail: nat, b: nat, x: nat)
    requires Chained(bucket, link, chains, tail) && b < |bucket| && x < |link|
    requires Unused(chains, x)
    ensures Chained(bucket[b := x], link[x := bucket[b]], chains[b := [x] + chains[b]], tail)
  {
    var bucket', link', chains' := bucket[b := x], link[x := bucket[b]], chains[b := [x] + chains[b]];
    forall a | 0 <= a < |bucket| ensures IsChain(link', bucket'[a], chains'[a], tail) {
      ChainKeeps(link, bucket[a], chains[a], tail, x, bucket[b]);
      if a == b {
        var c, d := chains[b], chains'[b];
        forall i | 0 <= i < |d| ensures link'[d[i]] == Next(d, i, tail) {
          if i > 0 { assert d[i] == c[i - 1] && link'[c[i - 1]] == link[c[i - 1]] == Next(c, i - 1, tail); }
        }
      }
    }
  }

  function Without<T>(s: seq<T>, j: nat): (r: seq<T>)
    requires j < |s|
    ensures |r| == |s| - 1 && (forall i :: 0 <= i < j ==> r[i] == s[i]) && (forall i :: j <= i < |r| ==> r[i] == s[i + 1])
  {
    s[..j] + s[j + 1..]
  }

  /** Unlink the `j`-th slot of a chain by redirecting its predecessor. */
  lemma ChainUnlink(link: seq<nat>, head: nat, c: seq<nat>, tail: nat, j: nat, link': seq<nat>, head': nat)
    requires IsChain(link, head, c, tail) && NoDup(c) && j < |c|
    requires if j == 0 then link' == link && head' == link[c[0]] else link' == link[c[j - 1] := link[c[j]]] && head' == head
    ensures IsChain(link', head', Without(c, j), tail)
  {
    var d := Without(c, j);
    forall i | 0 <= i < |d| ensures d[i] < |link'| && link'[d[i]] == Next(d, i, tail) {
      if i < j - 1 { assert d[i] == c[i] != c[j - 1] && d[i + 1] == c[i + 1]; }
      else if i == j - 1 { assert d[i] == c[j - 1]; assert i + 1 < |d| ==> d[i + 1] == c[j + 1]; }
      else {
        assert d[i] == c[i + 1] && (i + 1 < |d| ==> d[i + 1] == c[i + 2]);
        assert j > 0 ==> c[i + 1] != c[j - 1];
      }
    }
  }

  lemma WithoutNoDup(c: seq<nat>, j: nat)
    requires NoDup(c) && j < |c|
    ensures NoDup(Without(c, j)) && forall x :: x in Without(c, j) <==> x in c && x != c[j]
  {
    var d := Without(c, j);
    forall i, k | 0 <= i < k < |d| ensures d[i] != d[k] {
      assert d[i] == c[if i < j then i else i + 1] && d[k] == c[if k < j then k else k + 1];
    }
    forall x ensures x in d <==> x in c && x != c[j] {
      if x in d { var i :| 0 <= i < |d| && d[i] == x; assert x == c[if i < j then i else i + 1]; }
      if x in c && x != c[j] { var i :| 0 <= i < |c| && c[i] == x; assert x == d[if i < j then i else i - 1]; }
    }
  }

  lemma ChainedRemove(bucket: seq<nat>, link: seq<nat>, chains: seq<seq<nat>>, tail: nat, b: nat, j: nat, bucket': seq<nat>, link': seq<nat>)
    requires Chained(bucket, link, chains, tail) && b < |bucket| && NoDup(chains[b]) && j < |chains[b]|
    requires forall a, x :: 0 <= a < |chains| && a != b && x in chains[a] ==> x !in chains[b]
    requires if j == 0 then link' == link && bucket' == bucket[b := link[chains[b][0]]]
             else link' == link[chains[b][j - 1] := link[chains[b][j]]] && bucket' == bucket
    ensures Chained(bucket', link', chains[b := Without(chains[b], j)], tail)
  {
    var c := chains[b];
    var chains' := chains[b := Without(c, j)];
    forall a | 0 <= a < |bucket| ensures IsChain(link', bucket'[a], chains'[a], tail) {
      if a == b {
        ChainUnlink(link, bucket[b], c, tail, j, link', bucket'[b]);
      } else if j > 0 {
        assert c[j - 1] in c;
        ChainKeeps(link, bucket[a], chains[a], tail, c[j - 1], link[c[j]]);
      }
    }
  }

  lemma PlacedAdd<K, E>(cfg: Config<K, E>, chains: seq<seq<nat>>, model: map<nat, E>, b: nat, x: nat, e: E)
    requires Placed(cfg, chains, model) && x !in model && b == Home(cfg.HashOf(e), |chains|)
    ensures Placed(cfg, chains[b := [x] + chains[b]], model[x := e])
  {
    var chains', model' := chains[b := [x] + chains[b]], model[x := e];
    forall a, y | 0 <= a < |chains'| && y in chains'[a] ensures InBucket(cfg, |chains'|, model', a, y) {
      if y != x { assert y in chains[a]; }
    }
    assert NoDup(chains'[b]) by { assert forall i :: 0 <= i < |chains[b]| ==> chains[b][i] in chains[b]; }
  }

  lemma PlacedRemove<K, E>(cfg: Config<K, E>, chains: seq<seq<nat>>, model: map<nat, E>, b: nat, j: nat)
    requires Placed(cfg, chains, model) && b < |chains| && j < |chains[b]|
    ensures Placed(cfg, chains[b := Without(chains[b], j)], model - {chains[b][j]})
  {
    WithoutNoDup(chains[b], j);
    var x := chains[b][j];
    var chains', model' := chains[b := Without(chains[b], j)], model - {x};
    forall a, y | 0 <= a < |chains'| && y in chains'[a] ensures InBucket(cfg, |chains'|, model', a, y) {
      assert y in chains[a] && InBucket(cfg, |chains|, model, a, y);
      assert x in chains[b] && InBucket(cfg, |chains|, model, b, x);
    }
  }

  /** Slots of different buckets are different. */
  lemma ChainsApart<K, E>(cfg: Config<K, E>, chains: seq<seq<nat>>, model: map<nat, E>, b: nat)
    requires Placed(cfg, chains, model) && b < |chains|
    ensures forall a, x :: 0 <= a < |chains| && a != b && x in chains[a] ==> x !in chains[b]
  {
    forall a, x | 0 <= a < |chains| && a != b && x in chains[a] ensures x !in chains[b] {
      assert InBucket(cfg, |chains|, model, a, x);
      assert x in chains[b] ==> InBucket(cfg, |chains|, model, b, x);
    }
  }

  // ---------------------------------------------------------------- slots and free list

  /** `model` is what the live slots hold; a slot is live unless its link is the mark. */
  ghost predicate SlotsOk<E>(delmark: nat, link: seq<nat>, data: seq<Slot<E>>, n: nat, model: map<nat, E>)
  {
    && n <= |link| == |data| <= delmark
    && (forall x :: x in model ==> x < n && link[x] != delmark && data[x] == Item(model[x]))
    && (forall x :: 0 <= x < n && link[x] != delmark ==> x in model)
  }

  /** `free` lists the marked slots below `n`, each once. */
  ghost predicate FreeSet(delmark: nat, link: seq<nat>, n: nat, free: seq<nat>)
  {
    && n <= |link| && NoDup(free)
    && (forall i :: 0 <= i < |free| ==> free[i] < n)
    && (forall i :: 0 <= i < |free| ==> link[free[i]] == delmark)
    && (forall x :: 0 <= x < n && link[x] == delmark ==> x in free)
  }

  /** Each slot of `free` stores the number of the next one, the last one the end value. */
  ghost predicate FreeThread<E>(data: seq<Slot<E>>, free: seq<nat>, end: nat)
  {
    && (forall i :: 0 <= i < |free| ==> free[i] < |data|)
    && (forall i :: 0 <= i < |free| ==> data[free[i]] == NextFree(Next(free, i, end)))
  }

  /** From `head` through the storage of erased slots, exactly the slots of `free`. */
  ghost predicate IsFreeList<E>(delmark: nat, link: seq<nat>, data: seq<Slot<E>>, n: nat, head: nat, free: seq<nat>)
  {
    && n <= |link| == |data|
    && (if head == delmark then free == [] else head == if |free| == 0 then delmark + 1 else free[0])
    && FreeSet(delmark, link, n, free) && FreeThread(data, free, delmark + 1)
  }

  ghost predicate HashesOk<K, E>(cfg: Config<K, E>, cached: bool, hashes: seq<nat>, cap: nat, model: map<nat, E>)
  {
    cached ==> |hashes| == cap && forall x :: x in model ==> x < cap && hashes[x] == cfg.HashOf(model[x])
  }

  /** Every live slot's key is `k`'s only slot. */
  ghost predicate FoundAt<K, E>(cfg: Config<K, E>, model: map<nat, E>, k: K, p: nat)
  {
    p in model && cfg.keyOf(model[p]) == k
  }

  ghost predicate NotFound<K, E>(cfg: Config<K, E>, model: map<nat, E>, k: K)
  {
    forall x :: x in model ==> cfg.keyOf(model[x]) != k
  }

  lemma NotInChain<K, E>(cfg: Config<K, E>, chains: seq<seq<nat>>, model: map<nat, E>, k: K)
    requires Placed(cfg, chains, model)
    requires forall i :: 0 <= i < |chains[Home(cfg.hash(k), |chains|)]| ==> !FoundAt(cfg, model, k, chains[Home(cfg.hash(k), |chains|)][i])
    ensures NotFound(cfg, model, k)
  {
    var c := chains[Home(cfg.hash(k), |chains|)];
    forall x | x in model ensures cfg.keyOf(model[x]) != k {
      assert x in c ==> exists i :: 0 <= i < |c| && c[i] == x;
    }
  }

  // ------------------------------------------------------------------- loops on values

  /** The part of a model below slot `j`. */
  ghost function Below<E>(model: map<nat, E>, j: nat): map<nat, E>
  {
    map x | x in model && x < j :: model[x]
  }

  lemma BelowStep<E>(model: map<nat, E>, j: nat)
    ensures j !in Below(model, j)
    ensures Below(model, j + 1) == if j in model then Below(model, j)[j := model[j]] else Below(model, j)
  {
  }

  lemma NewSlot<K, E>(cfg: Config<K, E>, chains: seq<seq<nat>>, model: map<nat, E>, x: nat)
    requires Placed(cfg, chains, model) && x !in model
    ensures Unused(chains, x)
  {
    forall a | 0 <= a < |chains| ensures x !in chains[a] {
      assert x in chains[a] ==> InBucket(cfg, |chains|, model, a, x);
    }
  }

  /** The table proper: chains in the arrays, holding exactly the model. */
  ghost predicate Linked<K, E>(cfg: Config<K, E>, bucket: seq<nat>, link: seq<nat>, chains: seq<seq<nat>>, model: map<nat, E>)
  {
    |bucket| == |chains| > 0 && |link| <= cfg.delmark && Chained(bucket, link, chains, cfg.Tail()) && Placed(cfg, chains, model)
  }

  /** Prepend slot `x` with element `e` to the chain of its bucket. */
  lemma LinkedAdd<K, E>(cfg: Config<K, E>, bucket: seq<nat>, link: seq<nat>, chains: seq<seq<nat>>, model: map<nat, E>, b: nat, x: nat, e: E)
    requires Linked(cfg, bucket, link, chains, model) && x < |link| && x !in model && b == Home(cfg.HashOf(e), |bucket|)
    ensures Linked(cfg, bucket[b := x], link[x := bucket[b]], chains[b := [x] + chains[b]], model[x := e]) && bucket[b] != cfg.delmark
  {
    NewSlot(cfg, chains, model, x);
    ChainedAdd(bucket, link, chains, cfg.Tail(), b, x);
    PlacedAdd(cfg, chains, model, b, x, e);
    HeadNotMark(bucket, link, chains, cfg.delmark, b);
  }

  /** Writing the link of a slot that is in no chain changes no chain. */
  lemma LinkedKeeps<K, E>(cfg: Config<K, E>, bucket: seq<nat>, link: seq<nat>, chains: seq<seq<nat>>, model: map<nat, E>, x: nat, v: nat)
    requires Linked(cfg, bucket, link, chains, model) && x < |link| && x !in model
    ensures Linked(cfg, bucket, link[x := v], chains, model)
  {
    NewSlot(cfg, chains, model, x);
    forall a | 0 <= a < |bucket| ensures IsChain(link[x := v], bucket[a], chains[a], cfg.Tail()) {
      ChainKeeps(link, bucket[a], chains[a], cfg.Tail(), x, v);
    }
  }

  /** The hash of a live slot's key, from the cache if there is one. */
  function HashAt<K, E>(cfg: Config<K, E>, cached: bool, hashes: seq<nat>, data: seq<Slot<E>>, x: nat): (h: nat)
    requires x < |data| && data[x].Item? && (cached ==> x < |hashes|)
  {
    if cached then hashes[x] else cfg.HashOf(data[x].elem)
  }

  /** What rebuilding the chains starts from: the storage of the live slots and, if any
      slot is free, the marks. */
  ghost predicate Storage<K, E>(cfg: Config<K, E>, link: seq<nat>, data: seq<Slot<E>>, cached: bool, hashes: seq<nat>, n: nat, anyFree: bool, model: map<nat, E>)
  {
    && n <= |link| == |data| <= cfg.delmark && HashesOk(cfg, cached, hashes, |data|, model)
    && (forall x :: x in model ==> x < n && data[x] == Item(model[x]))
    && (forall x :: 0 <= x < n ==> (x in model <==> !anyFree || link[x] != cfg.delmark))
  }

  /** Slots below `j` carry the mark exactly if they are free; the others are as they were. */
  ghost predicate Marked<E>(delmark: nat, link: seq<nat>, link0: seq<nat>, j: nat, n: nat, model: map<nat, E>)
  {
    && j <= n <= |link| == |link0|
    && (forall x :: j <= x < n ==> link[x] == link0[x])
    && (forall x :: 0 <= x < j ==> (link[x] == delmark <==> x !in model))
  }

  lemma StorageAt<K, E>(cfg: Config<K, E>, link0: seq<nat>, data: seq<Slot<E>>, cached: bool, hashes: seq<nat>, n: nat, anyFree: bool, model: map<nat, E>,
                        link: seq<nat>, j: nat, v: nat)
    requires Storage(cfg, link0, data, cached, hashes, n, anyFree, model) && Marked(cfg.delmark, link, link0, j, n, model) && j < n
    ensures j in model <==> !anyFree || link[j] != cfg.delmark
    ensures j in model ==> data[j] == Item(model[j]) && (cached ==> j < |hashes|) && HashAt(cfg, cached, hashes, data, j) == cfg.HashOf(model[j])
    ensures j in model && v != cfg.delmark ==> Marked(cfg.delmark, link[j := v], link0, j + 1, n, model)
    ensures j !in model ==> Marked(cfg.delmark, link, link0, j + 1, n, model)
  {
  }

  /** Rebuild all chains for `nb` buckets; with `anyFree`, marked slots are skipped. */
  method RelinkAll<K, E>(cfg: Config<K, E>, nb: nat, link0: seq<nat>, data: seq<Slot<E>>, cached: bool, hashes: seq<nat>,
                         n: nat, anyFree: bool, ghost model: map<nat, E>)
    returns (bucket: seq<nat>, link: seq<nat>, ghost chains: seq<seq<nat>>)
    requires nb > 0 && Storage(cfg, link0, data, cached, hashes, n, anyFree, model)
    ensures |bucket| == nb && Linked(cfg, bucket, link, chains, model)
    ensures Marked(cfg.delmark, link, link0, n, n, model)
  {
    hide Relinking, Storage, HashAt, Home, Marked, Linked;
    link := link0;
    RelinkBegin(cfg, link0, data, cached, hashes, n, anyFree, model);
    bucket, chains := NoChains(cfg, nb, link, n, model);
    var j := 0;
    while j < n
      invariant 0 <= j <= n && Relinking(cfg, bucket, link, chains, link0, j, n, nb, model)
    {
      RelinkStep(cfg, link0, data, cached, hashes, n, anyFree, model, bucket, link, chains, j, nb);
      if !anyFree || link[j] != cfg.delmark {
        var i := Home(HashAt(cfg, cached, hashes, data, j), nb);
        bucket, link, chains := bucket[i := j], link[j := bucket[i]], chains[i := [j] + chains[i]];
      }
      j := j + 1;
    }
    RelinkEnd(cfg, bucket, link, chains, link0, n, nb, model);
  }

  /** The chains hold the live slots below `j`. */
  ghost predicate Relinking<K, E>(cfg: Config<K, E>, bucket: seq<nat>, link: seq<nat>, chains: seq<seq<nat>>, link0: seq<nat>, j: nat, n: nat, nb: nat, model: map<nat, E>)
  {
    |bucket| == |chains| == nb && Linked(cfg, bucket, link, chains, Below(model, j)) && Marked(cfg.delmark, link, link0, j, n, model)
  }

  lemma RelinkStep<K, E>(cfg: Config<K, E>, link0: seq<nat>, data: seq<Slot<E>>, cached: bool, hashes: seq<nat>, n: nat, anyFree: bool, model: map<nat, E>,
                         bucket: seq<nat>, link: seq<nat>, chains: seq<seq<nat>>, j: nat, nb: nat)
    requires Storage(cfg, link0, data, cached, hashes, n, anyFree, model) && nb > 0 && j < n
    requires Relinking(cfg, bucket, link, chains, link0, j, n, nb, model)
    ensures j < |link| == |data| && |bucket| == |chains| == nb
    ensures anyFree && link[j] == cfg.delmark ==> Relinking(cfg, bucket, link, chains, link0, j + 1, n, nb, model)
    ensures !anyFree || link[j] != cfg.delmark ==>
              && data[j].Item? && (cached ==> j < |hashes|)
              && var i := Home(HashAt(cfg, cached, hashes, data, j), nb);
                 Relinking(cfg, bucket[i := j], link[j := bucket[i]], chains[i := [j] + chains[i]], link0, j + 1, n, nb, model)
  {
    assert n <= |link| == |link0| == |data|;
    hide Linked, Below, Home, Storage, HashAt, Marked;
    BelowStep(model, j);
    StorageAt(cfg, link0, data, cached, hashes, n, anyFree, model, link, j, 0);
    if !anyFree || link[j] != cfg.delmark {
      var i := Home(HashAt(cfg, cached, hashes, data, j), nb);
      StorageAt(cfg, link0, data, cached, hashes, n, anyFree, model, link, j, bucket[i]);
      LinkedAdd(cfg, bucket, link, chains, Below(model, j), i, j, model[j]);
    }
  }

  lemma RelinkEnd<K, E>(cfg: Config<K, E>, bucket: seq<nat>, link: seq<nat>, chains: seq<seq<nat>>, link0: seq<nat>, n: nat, nb: nat, model: map<nat, E>)
    requires Relinking(cfg, bucket, link, chains, link0, n, n, nb, model) && Below(model, n) == model
    ensures |bucket| == nb && Linked(cfg, bucket, link, chains, model) && Marked(cfg.delmark, link, link0, n, n, model)
  {
  }

  lemma RelinkBegin<K, E>(cfg: Config<K, E>, link0: seq<nat>, data: seq<Slot<E>>, cached: bool, hashes: seq<nat>, n: nat, anyFree: bool, model: map<nat, E>)
    requires Storage(cfg, link0, data, cached, hashes, n, anyFree, model)
    ensures n <= |link0| <= cfg.delmark && Below(model, n) == model
  {
    BelowAll(model, n);
  }

  method NoChains<K, E>(cfg: Config<K, E>, nb: nat, ghost link: seq<nat>, ghost n: nat, ghost model: map<nat, E>)
    returns (bucket: seq<nat>, ghost chains: seq<seq<nat>>)
    requires nb > 0 && n <= |link| <= cfg.delmark
    ensures Relinking(cfg, bucket, link, chains, link, 0, n, nb, model)
  {
    bucket := seq(nb, _ => cfg.Tail());
    chains := seq(nb, _ => []);
    EmptyChains(cfg, bucket, link, chains, model);
  }

  lemma BelowAll<E>(model: map<nat, E>, n: nat)
    requires forall x :: x in model ==> x < n
    ensures Below(model, n) == model
  {
  }

  lemma EmptyChains<K, E>(cfg: Config<K, E>, bucket: seq<nat>, link: seq<nat>, chains: seq<seq<nat>>, model: map<nat, E>)
    requires |bucket| == |chains| > 0 && |link| <= cfg.delmark
    requires forall b :: 0 <= b < |bucket| ==> bucket[b] == cfg.Tail() && chains[b] == []
    ensures Linked(cfg, bucket, link, chains, Below(model, 0))
  {
    forall b | 0 <= b < |bucket| ensures IsChain(link, bucket[b], chains[b], cfg.Tail()) { }
    assert Below(model, 0) == map[];
  }

  lemma HeadNotMark(bucket: seq<nat>, link: seq<nat>, chains: seq<seq<nat>>, delmark: nat, i: nat)
    requires Chained(bucket, link, chains, delmark + 1) && i < |bucket| && |link| <= delmark
    ensures bucket[i] != delmark
  {
    assert IsChain(link, bucket[i], chains[i], delmark + 1);
  }

  ghost predicate SameMarks(delmark: nat, a: seq<nat>, b: seq<nat>)
  {
    |a| == |b| && forall x :: 0 <= x < |a| ==> (a[x] == delmark <==> b[x] == delmark)
  }

  /** Walk the chain of bucket `b` to slot `idx` and take it out. */
  method UnlinkSlot<K, E>(cfg: Config<K, E>, bucket: seq<nat>, link: seq<nat>, ghost chains: seq<seq<nat>>, ghost model: map<nat, E>, b: nat, idx: nat)
    returns (bucket': seq<nat>, link': seq<nat>, ghost chains': seq<seq<nat>>)
    requires Linked(cfg, bucket, link, chains, model) && idx in model && b == Home(cfg.HashOf(model[idx]), |bucket|)
    ensures |bucket'| == |bucket| && Linked(cfg, bucket', link', chains', model - {idx})
    ensures SameMarks(cfg.delmark, link', link)
  {
    ghost var j: nat;
    ghost var c := chains[b];
    ghost var tail := cfg.Tail();
    ChainsApart(cfg, chains, model, b);
    PlacedRemove(cfg, chains, model, b, IndexIn(c, idx));
    assert IsChain(link, bucket[b], c, tail) && NoDup(c);
    hide Placed, Home;
    bucket', link', j := UnlinkFrom(bucket, link, c, tail, b, idx);
    assert j == IndexIn(c, idx);
    ChainedRemove(bucket, link, chains, tail, b, j, bucket', link');
    chains' := chains[b := Without(c, j)];
  }

  ghost function IndexIn(c: seq<nat>, x: nat): (i: nat)
    requires x in c
    ensures i < |c| && c[i] == x
  {
    if c[0] == x then 0 else 1 + IndexIn(c[1..], x)
  }

  method UnlinkFrom(bucket: seq<nat>, link: seq<nat>, ghost c: seq<nat>, ghost tail: nat, b: nat, idx: nat)
    returns (bucket': seq<nat>, link': seq<nat>, ghost j: nat)
    requires b < |bucket| && IsChain(link, bucket[b], c, tail) && NoDup(c) && idx in c && |link| < tail
    ensures j < |c| && c[j] == idx
    ensures if j == 0 then link' == link && bucket' == bucket[b := link[c[0]]]
            else link' == link[c[j - 1] := link[c[j]]] && bucket' == bucket
    ensures |link'| == |link| && forall x :: 0 <= x < |link| ==> (link'[x] == tail - 1 <==> link[x] == tail - 1)
  {
    hide IndexIn, NoDup, IsChain;
    ChainInside(link, bucket[b], c, tail);
    ghost var at := IndexIn(c, idx);
    var first, prev, curr := true, 0, bucket[b];
    j := 0;
    while curr != idx
      invariant 0 <= j <= at && curr == c[j] && first == (j == 0) && (j > 0 ==> prev == c[j - 1])
      decreases at - j
    {
      ChainGoesOn(link, bucket[b], c, tail, j);
      first, prev, curr := false, curr, link[curr];
      j := j + 1;
    }
    if first {
      bucket', link' := bucket[b := link[idx]], link;
    } else {
      NoMarks(link, bucket[b], c, tail, j);
      bucket', link' := bucket, link[prev := link[idx]];
    }
  }

  lemma ChainInside(link: seq<nat>, head: nat, c: seq<nat>, tail: nat)
    requires IsChain(link, head, c, tail) && |c| > 0
    ensures head == c[0] && forall i :: 0 <= i < |c| ==> c[i] < |link|
  {
  }

  lemma ChainGoesOn(link: seq<nat>, head: nat, c: seq<nat>, tail: nat, j: nat)
    requires IsChain(link, head, c, tail) && j + 1 < |c|
    ensures c[j] < |link| && link[c[j]] == c[j + 1]
  {
    assert link[c[j]] == Next(c, j, tail);
  }

  /** The links along a chain are slots or the tail, never the mark. */
  lemma NoMarks(link: seq<nat>, head: nat, c: seq<nat>, tail: nat, j: nat)
    requires IsChain(link, head, c, tail) && 0 < j < |c| && |link| < tail
    ensures link[c[j - 1]] != tail - 1 && link[c[j]] != tail - 1
  {
    var i := j - 1;
    assert link[c[i]] == Next(c, i, tail) && link[c[j]] == Next(c, j, tail);
  }

  // -------------------------------------------------------------- compaction and counting

  /** The live elements below slot `n`, in slot order. */
  ghost function LiveElems<E>(model: map<nat, E>, n: nat): seq<E>
  {
    if n == 0 then [] else LiveElems(model, n - 1) + if n - 1 in model then [model[n - 1]] else []
  }

  lemma {:induction false} LiveCount<E>(model: map<nat, E>, n: nat)
    requires forall x :: x in model ==> x < n
    ensures |LiveElems(model, n)| == |model|
    decreases n
  {
    if n == 0 {
      assert model == map[];
    } else {
      hide LiveElems;
      var m := n - 1;
      LiveStep(model, m);
      LiveCountRest(model, m, model - {m});
      LiveCount(model - {m}, m);
    }
  }

  lemma LiveStep<E>(model: map<nat, E>, m: nat)
    ensures |LiveElems(model, m + 1)| == |LiveElems(model, m)| + if m in model then 1 else 0
  {
  }

  lemma LiveCountRest<E>(model: map<nat, E>, m: nat, rest: map<nat, E>)
    requires rest == model - {m} && forall x :: x in model ==> x <= m
    ensures |rest| == (if m in model then |model| - 1 else |model|) && LiveElems(model, m) == LiveElems(rest, m) && forall x :: x in rest ==> x < m
  {
    SizeWithout(model, m);
    SameLive(model, rest, m);
  }

  lemma SizeWithout<E>(model: map<nat, E>, x: nat)
    ensures |model - {x}| == if x in model then |model| - 1 else |model|
  {
    var m := model - {x};
    assert m.Keys == model.Keys - {x};
    assert |m| == |m.Keys| && |model| == |model.Keys|;
  }

  lemma {:induction false} SameLive<E>(a: map<nat, E>, b: map<nat, E>, n: nat)
    requires forall x :: 0 <= x < n ==> (x in a <==> x in b) && (x in a ==> a[x] == b[x])
    ensures LiveElems(a, n) == LiveElems(b, n)
  {
    if n > 0 { SameLive(a, b, n - 1); }
  }

  lemma {:induction false} LiveBound<E>(model: map<nat, E>, n: nat)
    ensures |LiveElems(model, n)| <= n && ((exists x :: 0 <= x < n && x !in model) ==> |LiveElems(model, n)| < n)
  {
    if n > 0 { LiveBound(model, n - 1); }
  }

  lemma {:induction false} LivePrefix<E>(model: map<nat, E>, j: nat, n: nat)
    requires j <= n
    ensures LiveElems(model, j) <= LiveElems(model, n)
  {
    if j < n { LivePrefix(model, j, n - 1); }
  }

  /** The slots renumbered 0, 1, 2, … in their old order. */
  ghost function Compacted<E>(model: map<nat, E>, n: nat): (r: map<nat, E>)
  {
    var live := LiveElems(model, n);
    map i: nat | 0 <= i < |live| :: live[i]
  }

  // ------------------------------------------------------------- steps of the free list

  /** Marks and the storage of free slots unchanged: so is the list. */
  lemma FreeKeeps<E>(delmark: nat, link: seq<nat>, data: seq<Slot<E>>, n: nat, head: nat, free: seq<nat>, link': seq<nat>, data': seq<Slot<E>>, n': nat)
    requires IsFreeList(delmark, link, data, n, head, free) && n <= |link'| == |data'| && n' <= |link'|
    requires forall x :: 0 <= x < n ==> (link'[x] == delmark <==> link[x] == delmark)
    requires forall x :: 0 <= x < n && link[x] == delmark ==> data'[x] == data[x]
    requires n' >= n - 1 && (n' < n ==> link[n'] != delmark)
    requires forall x :: n <= x < n' ==> link'[x] != delmark
    ensures IsFreeList(delmark, link', data', n', head, free)
  {
    hide FreeThread, FreeSet;
    KeepsThread(delmark, link, data, n, free, data');
    KeepsSet(delmark, link, n, free, link', n');
  }

  lemma KeepsThread<E>(delmark: nat, link: seq<nat>, data: seq<Slot<E>>, n: nat, free: seq<nat>, data': seq<Slot<E>>)
    requires FreeSet(delmark, link, n, free) && FreeThread(data, free, delmark + 1) && n <= |data| && n <= |data'|
    requires forall x :: 0 <= x < n && link[x] == delmark ==> data'[x] == data[x]
    ensures FreeThread(data', free, delmark + 1)
  {
    forall i | 0 <= i < |free| ensures data'[free[i]] == NextFree(Next(free, i, delmark + 1)) { }
  }

  lemma KeepsSet(delmark: nat, link: seq<nat>, n: nat, free: seq<nat>, link': seq<nat>, n': nat)
    requires FreeSet(delmark, link, n, free) && n <= |link'| && n' <= |link'|
    requires forall x :: 0 <= x < n ==> (link'[x] == delmark <==> link[x] == delmark)
    requires n' >= n - 1 && (n' < n ==> link[n'] != delmark)
    requires forall x :: n <= x < n' ==> link'[x] != delmark
    ensures FreeSet(delmark, link', n', free)
  {
  }

  lemma PushThread<E>(data: seq<Slot<E>>, free: seq<nat>, end: nat, x: nat, head: nat)
    requires FreeThread(data, free, end) && x !in free && x < |data| && head == if |free| == 0 then end else free[0]
    ensures FreeThread(data[x := NextFree(head)], [x] + free, end)
  {
    var free', data' := [x] + free, data[x := NextFree(head)];
    forall i | 0 <= i < |free'| ensures data'[free'[i]] == NextFree(Next(free', i, end)) {
      if i > 0 {
        var k := i - 1;
        assert free'[i] == free[k] != x && Next(free', i, end) == Next(free, k, end);
      }
    }
  }

  lemma FreePush<E>(delmark: nat, link: seq<nat>, data: seq<Slot<E>>, n: nat, head: nat, free: seq<nat>, x: nat)
    requires IsFreeList(delmark, link, data, n, head, free) && head != delmark && x < n <= delmark && link[x] != delmark
    ensures IsFreeList(delmark, link[x := delmark], data[x := NextFree(head)], n, x, [x] + free)
  {
    hide FreeThread, FreeSet;
    PushSet(delmark, link, n, free, x);
    PushThread(data, free, delmark + 1, x, head);
  }

  lemma PushSet(delmark: nat, link: seq<nat>, n: nat, free: seq<nat>, x: nat)
    requires FreeSet(delmark, link, n, free) && x < n && link[x] != delmark
    ensures x !in free && FreeSet(delmark, link[x := delmark], n, [x] + free)
  {
    var free', link' := [x] + free, link[x := delmark];
    forall y | 0 <= y < n && link'[y] == delmark ensures y in free' { }
  }

  lemma PopThread<E>(data: seq<Slot<E>>, free: seq<nat>, end: nat, s: Slot<E>)
    requires FreeThread(data, free, end) && NoDup(free) && |free| > 0
    ensures data[free[0]] == NextFree(if |free| == 1 then end else free[1])
    ensures FreeThread(data[free[0] := s], free[1..], end)
  {
    var rest, data' := free[1..], data[free[0] := s];
    assert data[free[0]] == NextFree(Next(free, 0, end));
    forall i | 0 <= i < |rest| ensures data'[rest[i]] == NextFree(Next(rest, i, end)) {
      var k := i + 1;
      assert rest[i] == free[k] != free[0] && Next(rest, i, end) == Next(free, k, end);
    }
  }

  lemma PopSet(delmark: nat, link: seq<nat>, n: nat, free: seq<nat>, v: nat)
    requires FreeSet(delmark, link, n, free) && |free| > 0 && v != delmark
    ensures FreeSet(delmark, link[free[0] := v], n, free[1..])
  {
    var rest, link' := free[1..], link[free[0] := v];
    assert forall i :: 0 <= i < |rest| ==> rest[i] == free[i + 1];
    forall y | 0 <= y < n && link'[y] == delmark ensures y in rest { assert y in free && y != free[0]; }
  }

  lemma FreePop<E>(delmark: nat, link: seq<nat>, data: seq<Slot<E>>, n: nat, head: nat, free: seq<nat>, v: nat, s: Slot<E>)
    requires IsFreeList(delmark, link, data, n, head, free) && head < delmark && v != delmark && n <= delmark
    ensures |free| > 0 && head == free[0] < n && data[head].NextFree?
    ensures IsFreeList(delmark, link[head := v], data[head := s], n, data[head].next, free[1..])
  {
    assert |free| > 0 && free[0] < n && NoDup(free);
    assert |free| > 1 ==> free[1] < n;
    PopThread(data, free, delmark + 1, s);
    PopSet(delmark, link, n, free, v);
    hide FreeThread, FreeSet;
  }

  lemma FreeEmpty<E>(delmark: nat, link: seq<nat>, data: seq<Slot<E>>, n: nat, head: nat, free: seq<nat>)
    requires IsFreeList(delmark, link, data, n, head, free) && n <= delmark
    ensures head >= delmark <==> free == []
  {
  }

  lemma LiveStorage<K, E>(cfg: Config<K, E>, link: seq<nat>, data: seq<Slot<E>>, cached: bool, hashes: seq<nat>, n: nat, head: nat, free: seq<nat>, model: map<nat, E>)
    requires SlotsOk(cfg.delmark, link, data, n, model) && IsFreeList(cfg.delmark, link, data, n, head, free)
    requires HashesOk(cfg, cached, hashes, |link|, model)
    ensures Storage(cfg, link, data, cached, hashes, n, |free| > 0, model)
    ensures |free| == 0 ==> head >= cfg.delmark
  {
    hide FreeThread, NoDup;
    assert forall x :: 0 <= x < n && link[x] == cfg.delmark ==> x in free;
  }

  lemma StillLive<E>(delmark: nat, link0: seq<nat>, link: seq<nat>, data: seq<Slot<E>>, n: nat, head: nat, free: seq<nat>, model: map<nat, E>)
    requires SlotsOk(delmark, link0, data, n, model) && IsFreeList(delmark, link0, data, n, head, free) && Marked(delmark, link, link0, n, n, model)
    ensures SlotsOk(delmark, link, data, n, model) && IsFreeList(delmark, link, data, n, head, free)
  {
    hide IsFreeList;
    FreeKeeps(delmark, link0, data, n, head, free, link, data, n);
  }

  /** The first `n` entries, then as many fillers as needed. */
  function Resized<T>(s: seq<T>, n: nat, cap: nat, filler: T): (r: seq<T>)
    requires n <= |s| && n <= cap
    ensures |r| == cap && forall x :: 0 <= x < n ==> r[x] == s[x]
  {
    s[..n] + seq(cap - n, _ => filler)
  }

  /** Chains only touch the links of live slots. */
  lemma LinkedCopy<K, E>(cfg: Config<K, E>, bucket: seq<nat>, link: seq<nat>, link': seq<nat>, chains: seq<seq<nat>>, model: map<nat, E>)
    requires Linked(cfg, bucket, link, chains, model) && |link'| <= cfg.delmark
    requires forall x :: x in model ==> x < |link| && x < |link'| && link'[x] == link[x]
    ensures Linked(cfg, bucket, link', chains, model)
  {
    forall a | 0 <= a < |bucket| ensures IsChain(link', bucket[a], chains[a], cfg.Tail()) {
      var c := chains[a];
      assert IsChain(link, bucket[a], c, cfg.Tail());
      forall i | 0 <= i < |c| ensures c[i] < |link'| && link'[c[i]] == Next(c, i, cfg.Tail()) {
        assert c[i] in c && InBucket(cfg, |chains|, model, a, c[i]);
      }
    }
  }

  lemma ReservedOk<K, E>(cfg: Config<K, E>, bucket: seq<nat>, link: seq<nat>, link': seq<nat>, chains: seq<seq<nat>>, model: map<nat, E>, n: nat,
                         data: seq<Slot<E>>, data': seq<Slot<E>>, head: nat, free: seq<nat>)
    requires Linked(cfg, bucket, link, chains, model) && SlotsOk(cfg.delmark, link, data, n, model) && IsFreeList(cfg.delmark, link, data, n, head, free)
    requires n <= |link'| == |data'| <= cfg.delmark && forall x :: 0 <= x < n ==> link'[x] == link[x] && data'[x] == data[x]
    ensures Linked(cfg, bucket, link', chains, model) && SlotsOk(cfg.delmark, link', data', n, model) && IsFreeList(cfg.delmark, link', data', n, head, free)
  {
    hide Linked, IsFreeList;
    LinkedCopy(cfg, bucket, link, link', chains, model);
    FreeKeeps(cfg.delmark, link, data, n, head, free, link', data', n);
  }

  lemma ReservedHashes<K, E>(cfg: Config<K, E>, cached: bool, hashes: seq<nat>, hashes': seq<nat>, cap: nat, cap': nat, n: nat, model: map<nat, E>)
    requires HashesOk(cfg, cached, hashes, cap, model) && n <= cap && n <= cap' && forall x :: x in model ==> x < n
    requires cached ==> |hashes'| == cap' && forall x :: 0 <= x < n ==> hashes'[x] == hashes[x]
    ensures HashesOk(cfg, cached, hashes', cap', model)
  {
  }

  /** Like SlotsOk, with one slot taken that holds no element yet. */
  ghost predicate SlotsButOne<E>(delmark: nat, link: seq<nat>, data: seq<Slot<E>>, n: nat, model: map<nat, E>, slot: nat)
  {
    && n <= |link| == |data| <= delmark
    && (forall x :: x in model ==> x < n && link[x] != delmark && data[x] == Item(model[x]))
    && (forall x :: 0 <= x < n && link[x] != delmark && x != slot ==> x in model)
  }

  lemma SlotFresh<K, E>(cfg: Config<K, E>, bucket: seq<nat>, link: seq<nat>, data: seq<Slot<E>>, chains: seq<seq<nat>>, model: map<nat, E>, n: nat, head: nat, free: seq<nat>)
    requires Linked(cfg, bucket, link, chains, model) && SlotsOk(cfg.delmark, link, data, n, model) && IsFreeList(cfg.delmark, link, data, n, head, free)
    requires n < |link|
    ensures var link' := link[n := cfg.Tail()];
            && Linked(cfg, bucket, link', chains, model) && SlotsButOne(cfg.delmark, link', data, n + 1, model, n)
            && IsFreeList(cfg.delmark, link', data, n + 1, head, free) && n !in model
  {
    hide Linked, IsFreeList;
    LinkedKeeps(cfg, bucket, link, chains, model, n, cfg.Tail());
    FreeKeeps(cfg.delmark, link, data, n, head, free, link[n := cfg.Tail()], data, n + 1);
  }

  lemma SlotReused<K, E>(cfg: Config<K, E>, bucket: seq<nat>, link: seq<nat>, data: seq<Slot<E>>, chains: seq<seq<nat>>, model: map<nat, E>, n: nat, head: nat, free: seq<nat>)
    requires Linked(cfg, bucket, link, chains, model) && SlotsOk(cfg.delmark, link, data, n, model) && IsFreeList(cfg.delmark, link, data, n, head, free)
    requires head < cfg.delmark
    ensures |free| > 0 && head == free[0] < n && data[head].NextFree? && head !in model
    ensures var link' := link[head := cfg.Tail()];
            && Linked(cfg, bucket, link', chains, model) && SlotsButOne(cfg.delmark, link', data, n, model, head)
            && IsFreeList(cfg.delmark, link', data, n, data[head].next, free[1..])
  {
    assert link[free[0]] == cfg.delmark;
    hide Linked, IsFreeList;
    FreePop(cfg.delmark, link, data, n, head, free, cfg.Tail(), data[head]);
    assert data[head := data[head]] == data;
    LinkedKeeps(cfg, bucket, link, chains, model, head, cfg.Tail());
  }

  lemma SomeBucket<K, E>(cfg: Config<K, E>, bucket: seq<nat>, link: seq<nat>, chains: seq<seq<nat>>, model: map<nat, E>)
    requires Linked(cfg, bucket, link, chains, model)
    ensures |bucket| == |chains| > 0
  {
  }

  ghost function SetOf(s: seq<nat>): set<nat>
  {
    set x | x in s
  }

  lemma {:induction false} SetOfSize(s: seq<nat>)
    requires NoDup(s)
    ensures |SetOf(s)| == |s|
  {
    if s != [] {
      var t := s[1..];
      SetOfSize(t);
      assert SetOf(s) == SetOf(t) + {s[0]};
    }
  }

  lemma {:induction false} RangeSize(r: set<nat>, n: nat)
    requires forall x: nat :: x in r <==> x < n
    ensures |r| == n
  {
    if n > 0 {
      RangeSize(r - {n - 1}, n - 1);
    } else {
      assert r == {};
    }
  }

  /** Every slot below `n` is live or free, never both. */
  lemma LiveAndFree<E>(delmark: nat, link: seq<nat>, data: seq<Slot<E>>, n: nat, model: map<nat, E>, head: nat, free: seq<nat>)
    requires SlotsOk(delmark, link, data, n, model) && IsFreeList(delmark, link, data, n, head, free)
    ensures n == |model| + |free|
  {
    SetOfSize(free);
    hide FreeThread, NoDup;
    var live: set<nat> := model.Keys;
    assert live !! SetOf(free);
    RangeSize(live + SetOf(free), n);
  }

  lemma InsertedOk<K, E>(cfg: Config<K, E>, link: seq<nat>, data: seq<Slot<E>>, n: nat, model: map<nat, E>, head: nat, free: seq<nat>, slot: nat, e: E, v: nat)
    requires SlotsButOne(cfg.delmark, link, data, n, model, slot) && IsFreeList(cfg.delmark, link, data, n, head, free)
    requires slot < n && slot !in model && link[slot] != cfg.delmark && v != cfg.delmark && KeysDiffer(cfg, model) && NotFound(cfg, model, cfg.keyOf(e))
    ensures SlotsOk(cfg.delmark, link[slot := v], data[slot := Item(e)], n, model[slot := e])
    ensures IsFreeList(cfg.delmark, link[slot := v], data[slot := Item(e)], n, head, free) && KeysDiffer(cfg, model[slot := e])
  {
    hide IsFreeList;
    FreeKeeps(cfg.delmark, link, data, n, head, free, link[slot := v], data[slot := Item(e)], n);
  }

  lemma InsertedHashes<K, E>(cfg: Config<K, E>, cached: bool, hashes: seq<nat>, cap: nat, model: map<nat, E>, slot: nat, e: E)
    requires HashesOk(cfg, cached, hashes, cap, model) && slot < cap
    ensures HashesOk(cfg, cached, if cached then hashes[slot := cfg.HashOf(e)] else hashes, cap, model[slot := e])
  {
  }

  // ------------------------------------------------------------------- the table

  /** All fields of a table at one moment. */
  datatype Table<E> = Table(bucket: seq<nat>, link: seq<nat>, data: seq<Slot<E>>, cached: bool, hashes: seq<nat>, n: nat, maxload: nat,
                            head: nat, size: nat, chains: seq<seq<nat>>, free: seq<nat>, model: map<nat, E>)

  /** What every operation keeps. */
  ghost predicate TableOk<K, E>(cfg: Config<K, E>, t: Table<E>)
  {
    && Linked(cfg, t.bucket, t.link, t.chains, t.model)
    && SlotsOk(cfg.delmark, t.link, t.data, t.n, t.model)
    && IsFreeList(cfg.delmark, t.link, t.data, t.n, t.head, t.free) && t.size == |t.free|
    && HashesOk(cfg, t.cached, t.hashes, |t.link|, t.model)
    && KeysDiffer(cfg, t.model)
    && (|t.bucket| == 1 ==> t.n == 0 && t.maxload == 0)
  }

  /** The same while `slot` is taken and holds no element yet. */
  ghost predicate Holed<K, E>(cfg: Config<K, E>, t: Table<E>, slot: nat)
  {
    && slot < t.n && slot !in t.model
    && Linked(cfg, t.bucket, t.link, t.chains, t.model)
    && SlotsButOne(cfg.delmark, t.link, t.data, t.n, t.model, slot) && t.link[slot] != cfg.delmark
    && IsFreeList(cfg.delmark, t.link, t.data, t.n, t.head, t.free) && t.size == |t.free|
    && HashesOk(cfg, t.cached, t.hashes, |t.link|, t.model)
    && KeysDiffer(cfg, t.model)
  }

  lemma TableFacts<K, E>(cfg: Config<K, E>, t: Table<E>)
    requires TableOk(cfg, t)
    ensures t.n <= |t.link| == |t.data| <= cfg.delmark && |t.bucket| == |t.chains| > 0 && t.size == |t.free|
    ensures t.n == |t.model| + |t.free| && (t.head >= cfg.delmark <==> t.free == []) && (t.cached ==> |t.hashes| == |t.link|)
    ensures |t.bucket| == 1 ==> t.n == 0 && t.maxload == 0
    ensures t.free != [] ==> t.head == t.free[0]
  {
    LiveAndFree(cfg.delmark, t.link, t.data, t.n, t.model, t.head, t.free);
    FreeEmpty(cfg.delmark, t.link, t.data, t.n, t.head, t.free);
  }

  lemma LiveSlot<K, E>(cfg: Config<K, E>, t: Table<E>, x: nat)
    requires TableOk(cfg, t) && x in t.model
    ensures x < t.n <= |t.link| == |t.data| && t.data[x] == Item(t.model[x]) && t.link[x] != cfg.delmark
    ensures t.cached ==> x < |t.hashes| && t.hashes[x] == cfg.HashOf(t.model[x])
    ensures Linked(cfg, t.bucket, t.link, t.chains, t.model)
  {
  }

  lemma HoledFacts<K, E>(cfg: Config<K, E>, t: Table<E>, slot: nat)
    requires Holed(cfg, t, slot)
    ensures slot < t.n <= |t.link| == |t.data| <= cfg.delmark && |t.bucket| == |t.chains| > 0 && (t.cached ==> |t.hashes| == |t.link|)
    ensures slot !in t.model
  {
  }

  /** Relinking into `bucket`, `link`, `chains` changes nothing else. */
  lemma RelinkedOk<K, E>(cfg: Config<K, E>, t: Table<E>, bucket: seq<nat>, link: seq<nat>, chains: seq<seq<nat>>, maxload: nat)
    requires TableOk(cfg, t) && |bucket| > 1 && Linked(cfg, bucket, link, chains, t.model) && Marked(cfg.delmark, link, t.link, t.n, t.n, t.model)
    ensures TableOk(cfg, t.(bucket := bucket, link := link, chains := chains, maxload := maxload))
  {
    hide Linked, IsFreeList, SlotsOk, KeysDiffer, HashesOk;
    StillLive(cfg.delmark, t.link, link, t.data, t.n, t.head, t.free, t.model);
    assert |link| == |t.link| by { MarkedSize(cfg.delmark, link, t.link, t.n, t.model); }
  }

  lemma MarkedSize<E>(delmark: nat, link: seq<nat>, link0: seq<nat>, n: nat, model: map<nat, E>)
    requires Marked(delmark, link, link0, n, n, model)
    ensures |link| == |link0|
  {
  }

  lemma ReservedTable<K, E>(cfg: Config<K, E>, t: Table<E>, t': Table<E>)
    requires TableOk(cfg, t) && t' == t.(link := t'.link, data := t'.data, hashes := t'.hashes)
    requires t.n <= |t'.link| == |t'.data| <= cfg.delmark && (t.cached ==> |t'.hashes| == |t'.link|)
    requires forall x :: 0 <= x < t.n ==> t'.link[x] == t.link[x]
    requires forall x :: 0 <= x < t.n ==> t'.data[x] == t.data[x]
    requires t.cached ==> forall x :: 0 <= x < t.n ==> t'.hashes[x] == t.hashes[x]
    ensures TableOk(cfg, t')
  {
    TableFacts(cfg, t);
    assert forall x :: x in t.model ==> x < t.n;
    hide Linked, IsFreeList, SlotsOk, KeysDiffer, HashesOk;
    ReservedOk(cfg, t.bucket, t.link, t'.link, t.chains, t.model, t.n, t.data, t'.data, t.head, t.free);
    ReservedHashes(cfg, t.cached, t.hashes, t'.hashes, |t.link|, |t'.link|, t.n, t.model);
  }

  lemma AllocFresh<K, E>(cfg: Config<K, E>, t: Table<E>)
    requires TableOk(cfg, t) && t.n < |t.link|
    ensures Holed(cfg, t.(link := t.link[t.n := cfg.Tail()], n := t.n + 1), t.n)
  {
    hide Linked, IsFreeList, SlotsOk, KeysDiffer, HashesOk, SlotsButOne;
    SlotFresh(cfg, t.bucket, t.link, t.data, t.chains, t.model, t.n, t.head, t.free);
  }

  /** The head of the free list is followed by another free slot or the tail, never the mark. */
  lemma NextHead<K, E>(cfg: Config<K, E>, t: Table<E>)
    requires TableOk(cfg, t) && t.head < cfg.delmark
    ensures t.head < |t.data| && t.data[t.head].NextFree? && t.data[t.head].next != cfg.delmark
  {
    TableFacts(cfg, t);
    hide Linked, SlotsOk, KeysDiffer, HashesOk;
    assert t.data[t.free[0]] == NextFree(Next(t.free, 0, cfg.Tail()));
  }

  lemma AllocReuse<K, E>(cfg: Config<K, E>, t: Table<E>)
    requires TableOk(cfg, t) && t.head < cfg.delmark
    ensures t.head < t.n <= |t.link| == |t.data| && t.data[t.head].NextFree? && t.size > 0
    ensures Holed(cfg, t.(link := t.link[t.head := cfg.Tail()], head := t.data[t.head].next, size := t.size - 1, free := t.free[1..]), t.head)
  {
    TableFacts(cfg, t);
    hide Linked, IsFreeList, SlotsOk, KeysDiffer, HashesOk, SlotsButOne;
    SlotReused(cfg, t.bucket, t.link, t.data, t.chains, t.model, t.n, t.head, t.free);
  }

  /** Construct `e` in the taken slot and prepend it to the chain of bucket `i`. */
  ghost function Placing<K, E>(cfg: Config<K, E>, t: Table<E>, slot: nat, e: E, i: nat): Table<E>
    requires slot < |t.link| == |t.data| && i < |t.bucket| == |t.chains| && (t.cached ==> slot < |t.hashes|)
  {
    t.(data := t.data[slot := Item(e)], link := t.link[slot := t.bucket[i]], bucket := t.bucket[i := slot],
       hashes := if t.cached then t.hashes[slot := cfg.HashOf(e)] else t.hashes,
       chains := t.chains[i := [slot] + t.chains[i]], model := t.model[slot := e])
  }

  lemma PlacingOk<K, E>(cfg: Config<K, E>, t: Table<E>, slot: nat, e: E, i: nat)
    requires Holed(cfg, t, slot) && NotFound(cfg, t.model, cfg.keyOf(e)) && |t.bucket| > 1 && i == Home(cfg.HashOf(e), |t.bucket|)
    ensures slot < |t.link| == |t.data| && i < |t.bucket| == |t.chains| && (t.cached ==> slot < |t.hashes|)
    ensures TableOk(cfg, Placing(cfg, t, slot, e, i))
  {
    HoledFacts(cfg, t, slot);
    hide Linked, IsFreeList, SlotsOk, KeysDiffer, HashesOk, SlotsButOne, NotFound, Home;
    LinkedAdd(cfg, t.bucket, t.link, t.chains, t.model, i, slot, e);
    InsertedOk(cfg, t.link, t.data, t.n, t.model, t.head, t.free, slot, e, t.bucket[i]);
    InsertedHashes(cfg, t.cached, t.hashes, |t.link|, t.model, slot, e);
  }

  lemma HashLive<K, E>(cfg: Config<K, E>, t: Table<E>, x: nat)
    requires TableOk(cfg, t) && x in t.model
    ensures x < t.n <= |t.data| && t.data[x].Item? && (t.cached ==> x < |t.hashes|)
    ensures HashAt(cfg, t.cached, t.hashes, t.data, x) == cfg.HashOf(t.model[x]) && |t.bucket| > 1
  {
    LiveSlot(cfg, t, x);
    TableFacts(cfg, t);
  }

  lemma HoledLive<K, E>(cfg: Config<K, E>, t: Table<E>, slot: nat, x: nat)
    requires Holed(cfg, t, slot) && x in t.model
    ensures x < t.n <= |t.link| == |t.data| && t.data[x] == Item(t.model[x])
    ensures t.cached ==> x < |t.hashes| && t.hashes[x] == cfg.HashOf(t.model[x])
    ensures slot < |t.link| && (t.cached ==> slot < |t.hashes|)
    ensures Linked(cfg, t.bucket, t.link, t.chains, t.model)
  {
  }

  lemma AllLive<K, E>(cfg: Config<K, E>, t: Table<E>, x: nat)
    requires TableOk(cfg, t) && t.head == cfg.delmark && x < t.n
    ensures x in t.model
  {
  }

  /** Taking slot `idx` out of its chain leaves it a hole. */
  lemma UnlinkedOk<K, E>(cfg: Config<K, E>, t: Table<E>, idx: nat, bucket: seq<nat>, link: seq<nat>, chains: seq<seq<nat>>)
    requires TableOk(cfg, t) && idx in t.model && Linked(cfg, bucket, link, chains, t.model - {idx})
    requires SameMarks(cfg.delmark, link, t.link)
    ensures Holed(cfg, t.(bucket := bucket, link := link, chains := chains, model := t.model - {idx}), idx)
  {
    hide Linked, IsFreeList;
    FreeKeeps(cfg.delmark, t.link, t.data, t.n, t.head, t.free, link, t.data, t.n);
  }

  lemma DropLast<K, E>(cfg: Config<K, E>, t: Table<E>, idx: nat)
    requires t.n == idx + 1 && Holed(cfg, t, idx) && |t.bucket| > 1
    ensures TableOk(cfg, t.(n := idx))
  {
    hide Linked, IsFreeList;
    FreeKeeps(cfg.delmark, t.link, t.data, t.n, t.head, t.free, t.link, t.data, t.n - 1);
  }

  ghost function Freeing<K, E>(cfg: Config<K, E>, t: Table<E>, idx: nat): Table<E>
    requires idx < |t.link| == |t.data|
  {
    t.(link := t.link[idx := cfg.delmark], data := t.data[idx := NextFree(t.head)], head := idx, size := t.size + 1, free := [idx] + t.free)
  }

  lemma FreeingOk<K, E>(cfg: Config<K, E>, t: Table<E>, idx: nat)
    requires Holed(cfg, t, idx) && |t.bucket| > 1 && t.head != cfg.delmark
    ensures idx < |t.link| == |t.data| && TableOk(cfg, Freeing(cfg, t, idx))
  {
    hide Linked, IsFreeList;
    FreePush(cfg.delmark, t.link, t.data, t.n, t.head, t.free, idx);
    LinkedKeeps(cfg, t.bucket, t.link, t.chains, t.model, idx, cfg.delmark);
  }

  /** The element of the last slot moves into the hole; `u` has both slots out of their chains. */
  ghost function Moving<K, E>(cfg: Config<K, E>, t: Table<E>, u: Table<E>, idx: nat, j: nat): Table<E>
    requires 0 < t.n && idx < |u.link| && j < |u.bucket| == |u.chains| && t.n - 1 in t.model && idx < |t.data| && (t.cached ==> idx < |t.hashes|)
  {
    var e := t.model[t.n - 1];
    t.(bucket := u.bucket[j := idx], link := u.link[idx := u.bucket[j]], chains := u.chains[j := [idx] + u.chains[j]],
       data := t.data[idx := Item(e)], hashes := if t.cached then t.hashes[idx := cfg.HashOf(e)] else t.hashes,
       model := (t.model - {t.n - 1})[idx := e], n := t.n - 1)
  }

  lemma MovingOk<K, E>(cfg: Config<K, E>, t: Table<E>, u: Table<E>, idx: nat, j: nat)
    requires Holed(cfg, t, idx) && |u.bucket| > 1 && t.head == cfg.delmark && idx < t.n - 1
    requires t.n - 1 in t.model && j == Home(cfg.HashOf(t.model[t.n - 1]), |u.bucket|)
    requires Linked(cfg, u.bucket, u.link, u.chains, t.model - {t.n - 1})
    requires SameMarks(cfg.delmark, u.link, t.link)
    ensures idx < |u.link| && j < |u.bucket| == |u.chains| && idx < |t.data| && (t.cached ==> idx < |t.hashes|)
    ensures TableOk(cfg, Moving(cfg, t, u, idx, j))
  {
    hide Linked, Home, IsFreeList, KeysDiffer, HashesOk, SlotsOk, SlotsButOne;
    HoledLive(cfg, t, idx, t.n - 1);
    var last := t.n - 1;
    var e, rest := t.model[last], t.model - {last};
    SomeBucket(cfg, u.bucket, u.link, u.chains, rest);
    LinkedAdd(cfg, u.bucket, u.link, u.chains, rest, j, idx, e);
    var link', data' := u.link[idx := u.bucket[j]], t.data[idx := Item(e)];
    MovedFree(cfg.delmark, t.link, t.data, t.n, t.head, t.free, link', data');
    MovedSlots(cfg.delmark, t.link, t.data, t.n, t.model, idx, link', data');
    MovedKeys(cfg, t.model, last, idx);
    MovedHashes(cfg, t.cached, t.hashes, |t.link|, t.model, last, idx);
  }

  lemma MovedFree<E>(delmark: nat, link: seq<nat>, data: seq<Slot<E>>, n: nat, head: nat, free: seq<nat>, link': seq<nat>, data': seq<Slot<E>>)
    requires IsFreeList(delmark, link, data, n, head, free) && head == delmark && n > 0
    requires |link'| == |link| == |data'| && forall x :: 0 <= x < n ==> (link'[x] == delmark <==> link[x] == delmark)
    ensures IsFreeList(delmark, link', data', n - 1, head, free)
  {
  }

  lemma MovedSlots<E>(delmark: nat, link: seq<nat>, data: seq<Slot<E>>, n: nat, model: map<nat, E>, idx: nat, link': seq<nat>, data': seq<Slot<E>>)
    requires SlotsButOne(delmark, link, data, n, model, idx) && idx < n - 1 && n - 1 in model && idx !in model
    requires |link'| == |link| && link'[idx] != delmark && forall x :: 0 <= x < |link| && x != idx ==> (link'[x] == delmark <==> link[x] == delmark)
    requires data' == data[idx := Item(model[n - 1])]
    ensures SlotsOk(delmark, link', data', n - 1, (model - {n - 1})[idx := model[n - 1]])
  {
  }

  lemma MovedKeys<K, E>(cfg: Config<K, E>, model: map<nat, E>, last: nat, idx: nat)
    requires KeysDiffer(cfg, model) && last in model && idx !in model
    ensures KeysDiffer(cfg, (model - {last})[idx := model[last]])
  {
  }

  lemma MovedHashes<K, E>(cfg: Config<K, E>, cached: bool, hashes: seq<nat>, cap: nat, model: map<nat, E>, last: nat, idx: nat)
    requires HashesOk(cfg, cached, hashes, cap, model) && last in model && idx < cap
    ensures HashesOk(cfg, cached, if cached then hashes[idx := cfg.HashOf(model[last])] else hashes, cap, (model - {last})[idx := model[last]])
  {
  }

  /** The live slots after erasing `idx` from a table of `n` slots. */
  ghost function Erased<E>(model: map<nat, E>, idx: nat, n: nat, useFreelist: bool): map<nat, E>
  {
    if useFreelist || idx == n - 1 || n == 0 || n - 1 !in model then model - {idx}
    else (model - {idx, n - 1})[idx := model[n - 1]]
  }

  /** Where the slot `idx` of an erased element goes: to the head of the free list if that is in use
      and the slot is not the last one; otherwise the table is one slot shorter. */
  ghost predicate Given(idx: nat, n: nat, n': nat, useFreelist: bool, free: seq<nat>, free': seq<nat>)
  {
    if useFreelist && idx != n - 1 then n' == n && free' == [idx] + free else n' == n - 1 && free' == free
  }

  lemma ErasedMove<E>(model: map<nat, E>, idx: nat, n: nat)
    ensures Erased(model, idx, n, true) == model - {idx}
    ensures idx == n - 1 ==> Erased(model, idx, n, false) == model - {idx}
    ensures n > 0 && idx != n - 1 && n - 1 in model ==> Erased(model, idx, n, false) == (model - {idx} - {n - 1})[idx := model[n - 1]]
  {
  }

  /** The capacity asked for when all `n` slots are in use. */
  function GrownCapacity(n: nat): (cap: nat)
    ensures cap > n
  {
    if n == 0 then 1 else 2 * n
  }

  class GoldHashTab<!K(==), !E> {
    const cfg: Config<K, E>
    var bucket: seq<nat>
    var link: seq<nat>
    var data: seq<Slot<E>>
    var cached: bool
    var hashes: seq<nat>
    var nElem: nat
    var maxload: nat
    var freelistHead: nat
    var freelistSize: nat
    ghost var chains: seq<seq<nat>>
    ghost var free: seq<nat>
    ghost var model: map<nat, E>

    ghost function Now(): Table<E>
      reads this
    {
      Table(bucket, link, data, cached, hashes, nElem, maxload, freelistHead, freelistSize, chains, free, model)
    }

    ghost predicate Valid()
      reads this
    {
      TableOk(cfg, Now())
    }

    /** The empty table shares a dummy bucket until the first insertion. */
    constructor (c: Config<K, E>, caching: bool)
      ensures Valid() && model == map[] && cfg == c && !UsesFreelist() && cached == caching && nElem == 0 && |bucket| == 1
    {
      cfg := c;
      bucket, link, data, hashes := [c.Tail()], [], [], [];
      cached := caching;
      nElem, maxload, freelistHead, freelistSize := 0, 0, c.delmark, 0;
      chains, free, model := [[]], [], map[];
    }

    predicate UsesFreelist()
      reads this
    {
      freelistHead != cfg.delmark
    }

    /** The slot of a key, or `nElem`. */
    method FindI(k: K) returns (p: nat)
      requires Valid()
      ensures p < nElem ==> FoundAt(cfg, model, k, p)
      ensures p >= nElem ==> p == nElem && NotFound(cfg, model, k)
    {
      var b := Home(cfg.hash(k), |bucket|);
      ghost var c := chains[b];
      ghost var j := 0;
      assert IsChain(link, bucket[b], c, cfg.Tail());
      p := bucket[b];
      while p != cfg.Tail()
        invariant 0 <= j <= |c| && p == (if j < |c| then c[j] else cfg.Tail())
        invariant forall i :: 0 <= i < j ==> !FoundAt(cfg, model, k, c[i])
        decreases |c| - j
      {
        assert p in c && InBucket(cfg, |chains|, model, b, p);
        if cfg.keyOf(data[p].elem) == k { return; }
        assert link[c[j]] == Next(c, j, cfg.Tail());
        p := link[p];
        j := j + 1;
      }
      NotInChain(cfg, chains, model, k);
      p := nElem;
    }

    /** Rebuild all chains from the stored elements. */
    method Relink(nb: nat)
      requires nb > 1 && Storage(cfg, link, data, cached, hashes, nElem, freelistSize > 0, model)
      requires freelistSize == |free| && (if freelistSize > 0 then IsFreeList(cfg.delmark, link, data, nElem, freelistHead, free) else freelistHead >= cfg.delmark)
      modifies this`bucket, this`link, this`chains
      ensures Linked(cfg, bucket, link, chains, model) && |bucket| == nb
      ensures Marked(cfg.delmark, link, old(link), nElem, nElem, model)
    {
      SetMarks();
      bucket, link, chains := RelinkAll(cfg, nb, link, data, cached, hashes, nElem, freelistSize > 0, model);
    }

    /** Walk the free list and write the mark into every slot on it, where it already is. */
    method SetMarks()
      requires freelistSize == |free| && (if freelistSize > 0 then IsFreeList(cfg.delmark, link, data, nElem, freelistHead, free) else freelistHead >= cfg.delmark)
      modifies this`link
      ensures link == old(link)
    {
      var i := freelistHead;
      ghost var k := 0;
      while i < cfg.delmark
        invariant 0 <= k <= |free| && link == old(link)
        invariant i < cfg.delmark ==> k < |free| && i == free[k]
        decreases |free| - k
      {
        assert free[k] < |data| && data[free[k]] == NextFree(Next(free, k, cfg.Tail()));
        link := link[i := cfg.delmark];
        i := data[i].next;
        k := k + 1;
      }
    }

    /** Change the number of buckets: no element moves. */
    method Rehash(newBuckets: nat, newMaxload: nat)
      requires Valid() && newBuckets > 1
      modifies this`bucket, this`link, this`chains, this`maxload
      ensures Valid() && |bucket| == newBuckets && |link| == old(|link|)
      ensures maxload == if newBuckets != old(|bucket|) then newMaxload else old(maxload)
    {
      if newBuckets != |bucket| {
        ghost var t := Now();
        LiveStorage(cfg, link, data, cached, hashes, nElem, freelistHead, free, model);
        Relink(newBuckets);
        hide TableOk, Linked, Marked;
        RelinkedOk(cfg, t, bucket, link, chains, newMaxload);
        MarkedSize(cfg.delmark, link, t.link, nElem, model);
        maxload := newMaxload;
      }
    }

    /** Reallocate the slot arrays; slots past `nElem` are not kept. */
    method ReserveNodes(cap: nat)
      requires Valid() && nElem <= cap <= cfg.delmark
      modifies this`link, this`data, this`hashes
      ensures Valid() && |link| == if cap != nElem then cap else old(|link|)
    {
      hide TableOk, Resized;
      ghost var t := Now();
      TableFacts(cfg, t);
      if cap != |link| && cap != nElem {
        var hashes' := if cached then Resized(hashes, nElem, cap, 0) else hashes;
        var link', data' := Resized(link, nElem, cap, 0), Resized(data, nElem, cap, Raw);
        ReservedTable(cfg, t, t.(link := link', data := data', hashes := hashes'));
        hashes, link, data := hashes', link', data';
      }
    }

    /** Take a slot: the head of the free list, or a new one at the end. */
    method RiskSlotAlloc() returns (slot: nat)
      requires Valid() && (freelistHead >= cfg.delmark && nElem == |link| ==> GrownCapacity(nElem) <= cfg.delmark)
      modifies this`link, this`data, this`hashes, this`nElem, this`freelistHead, this`freelistSize, this`free
      ensures Holed(cfg, Now(), slot)
      ensures old(free) == [] ==> slot == old(nElem) && nElem == slot + 1 && free == []
      ensures old(free) != [] ==> slot == old(free)[0] && nElem == old(nElem) && free == old(free)[1..]
      ensures UsesFreelist() == old(UsesFreelist())
      ensures |link| == if old(free) != [] || old(nElem) < old(|link|) then old(|link|) else if old(nElem) == 0 then 1 else 2 * old(nElem)
    {
      hide TableOk, Holed;
      TableFacts(cfg, Now());
      if freelistHead >= cfg.delmark {
        slot := nElem;
        if nElem == |link| { ReserveNodes(GrownCapacity(nElem)); TableFacts(cfg, Now()); }
        AllocFresh(cfg, Now());
        nElem, link := nElem + 1, link[slot := cfg.Tail()];
      } else {
        slot := freelistHead;
        AllocReuse(cfg, Now());
        NextHead(cfg, Now());
        freelistSize, freelistHead, free, link := freelistSize - 1, data[slot].next, free[1..], link[slot := cfg.Tail()];
      }
    }

    /** Construct the element in its slot and make it the head of its chain. */
    method LinkNew(slot: nat, e: E, h: nat)
      requires Holed(cfg, Now(), slot) && h == cfg.HashOf(e) && |bucket| > 1 && NotFound(cfg, model, cfg.keyOf(e))
      modifies this`data, this`link, this`bucket, this`hashes, this`chains, this`model
      ensures Valid() && model == old(model)[slot := e] && |bucket| == old(|bucket|)
    {
      hide TableOk, Holed, NotFound, Home;
      ghost var t := Now();
      var i := Home(h, |bucket|);
      PlacingOk(cfg, t, slot, e, i);
      data := data[slot := Item(e)];
      link := link[slot := bucket[i]];
      bucket := bucket[i := slot];
      if cached { hashes := hashes[slot := h]; }
      chains := chains[i := [slot] + chains[i]];
      model := model[slot := e];
      assert Now() == Placing(cfg, t, slot, e, i);
    }

    /** Insert unless the key is there. The bucket count and load guard after a rehash are
        the caller's next prime and load factor. No other slot changes its element. */
    method InsertI(e: E, newBuckets: nat, newMaxload: nat) returns (slot: nat, isNew: bool)
      requires Valid() && newBuckets > 1
      requires freelistHead >= cfg.delmark && nElem == |link| ==> GrownCapacity(nElem) <= cfg.delmark
      modifies this`bucket, this`link, this`data, this`hashes, this`nElem, this`maxload, this`freelistHead, this`freelistSize, this`chains, this`free, this`model
      ensures Valid()
      ensures isNew == NotFound(cfg, old(model), cfg.keyOf(e))
      ensures !isNew ==> FoundAt(cfg, model, cfg.keyOf(e), slot) && Now() == old(Now())
      ensures isNew ==> slot !in old(model) && model == old(model)[slot := e]
      ensures isNew ==> if old(free) == [] then slot == old(nElem) && nElem == slot + 1 && free == [] else slot == old(free)[0] && nElem == old(nElem) && free == old(free)[1..]
      ensures isNew && old(nElem - freelistSize >= maxload) ==> |bucket| == newBuckets && maxload == if newBuckets != old(|bucket|) then newMaxload else old(maxload)
      ensures isNew && old(nElem - freelistSize < maxload) ==> |bucket| == old(|bucket|) && maxload == old(maxload)
      ensures UsesFreelist() == old(UsesFreelist())
    {
      var k := cfg.keyOf(e);
      var h := cfg.hash(k);
      hide TableOk, GrownCapacity;
      slot := FindI(k);
      if slot < nElem {
        isNew := false;
      } else {
        slot := AddNew(e, h, newBuckets, newMaxload);
        isNew := true;
      }
    }

    /** The rest of an insertion once the key is known to be new. */
    method AddNew(e: E, h: nat, newBuckets: nat, newMaxload: nat) returns (slot: nat)
      requires Valid() && newBuckets > 1 && NotFound(cfg, model, cfg.keyOf(e)) && h == cfg.HashOf(e)
      requires freelistHead >= cfg.delmark && nElem == |link| ==> GrownCapacity(nElem) <= cfg.delmark
      modifies this`bucket, this`link, this`data, this`hashes, this`nElem, this`maxload, this`freelistHead, this`freelistSize, this`chains, this`free, this`model
      ensures Valid() && slot !in old(model) && model == old(model)[slot := e]
      ensures if old(free) == [] then slot == old(nElem) && nElem == slot + 1 && free == [] else slot == old(free)[0] && nElem == old(nElem) && free == old(free)[1..]
      ensures old(nElem - freelistSize >= maxload) ==> |bucket| == newBuckets && maxload == if newBuckets != old(|bucket|) then newMaxload else old(maxload)
      ensures old(nElem - freelistSize < maxload) ==> |bucket| == old(|bucket|) && maxload == old(maxload)
      ensures UsesFreelist() == old(UsesFreelist())
    {
      hide TableOk, Holed, GrownCapacity, NotFound;
      TableFacts(cfg, Now());
      if nElem - freelistSize >= maxload {
        Rehash(newBuckets, newMaxload);
      }
      slot := RiskSlotAlloc();
      HoledFacts(cfg, Now(), slot);
      LinkNew(slot, e, h);
    }

    /** Take a live slot out of its chain; its element is gone from the table. */
    method Unlink(idx: nat, b: nat)
      requires Valid() && idx in model && |bucket| > 0 && b == Home(cfg.HashOf(model[idx]), |bucket|)
      modifies this`bucket, this`link, this`chains, this`model
      ensures Holed(cfg, Now(), idx) && model == old(model) - {idx} && |bucket| == old(|bucket|)
    {
      ghost var t := Now();
      hide TableOk, Holed, Linked, Home, SameMarks;
      LiveSlot(cfg, t, idx);
      var bucket', link';
      ghost var chains';
      bucket', link', chains' := UnlinkSlot(cfg, bucket, link, chains, model, b, idx);
      UnlinkedOk(cfg, t, idx, bucket', link', chains');
      bucket, link, chains, model := bucket', link', chains', model - {idx};
    }

    /** Put a slot that holds no element on the free list. */
    method FastSlotFree(idx: nat)
      requires Holed(cfg, Now(), idx) && UsesFreelist() && |bucket| > 1
      modifies this`link, this`data, this`freelistHead, this`freelistSize, this`free
      ensures Valid() && free == [idx] + old(free) && UsesFreelist()
    {
      hide TableOk, Holed;
      ghost var t := Now();
      FreeingOk(cfg, t, idx);
      HoledFacts(cfg, t, idx);
      link, data := link[idx := cfg.delmark], data[idx := NextFree(freelistHead)];
      freelistSize, freelistHead, free := freelistSize + 1, idx, [idx] + free;
    }

    /** Move the last element into the hole at `idx`. */
    method MoveLast(idx: nat)
      requires Holed(cfg, Now(), idx) && !UsesFreelist() && |bucket| > 1 && idx < nElem - 1 && nElem - 1 in model
      modifies this`bucket, this`link, this`chains, this`model, this`data, this`hashes, this`nElem
      ensures Valid() && nElem == old(nElem) - 1 && model == (old(model) - {old(nElem) - 1})[idx := old(model[nElem - 1])] && |bucket| == old(|bucket|)
    {
      hide TableOk, Holed, Linked, Home, SameMarks;
      ghost var t := Now();
      var last := nElem - 1;
      HoledLive(cfg, t, idx, last);
      var lastHash := HashAt(cfg, cached, hashes, data, last);
      var j := Home(lastHash, |bucket|);
      var bucket', link';
      ghost var chains';
      bucket', link', chains' := UnlinkSlot(cfg, bucket, link, chains, model, j, last);
      ghost var u := t.(bucket := bucket', link := link', chains := chains');
      MovingOk(cfg, t, u, idx, j);
      hide HashAt;
      if cached { hashes := hashes[idx := lastHash]; }
      data, link, bucket := data[idx := data[last]], link'[idx := bucket'[j]], bucket'[j := idx];
      chains, model, nElem := chains'[j := [idx] + chains'[j]], (model - {last})[idx := model[last]], last;
    }

    /** Erase the element at `idx`: shorten the table if it is the last one, free its slot if
        the free list is in use, and otherwise move the last element there. */
    method EraseI(idx: nat)
      requires Valid() && idx in model
      modifies this`bucket, this`link, this`data, this`hashes, this`nElem, this`freelistHead, this`freelistSize, this`chains, this`free, this`model
      ensures Valid() && UsesFreelist() == old(UsesFreelist())
      ensures model == Erased(old(model), idx, old(nElem), UsesFreelist())
      ensures Given(idx, old(nElem), nElem, UsesFreelist(), old(free), free)
      ensures |bucket| == old(|bucket|)
    {
      hide TableOk, Holed, Home, HashAt;
      HashLive(cfg, Now(), idx);
      var n := nElem;
      ErasedMove(model, idx, n);
      if !UsesFreelist() { AllLive(cfg, Now(), n - 1); }
      hide Erased;
      var h := HashAt(cfg, cached, hashes, data, idx);
      Unlink(idx, Home(h, |bucket|));
      if n - 1 == idx {
        DropLast(cfg, Now(), idx);
        nElem := idx;
      } else if UsesFreelist() {
        FastSlotFree(idx);
      } else {
        MoveLast(idx);
      }
    }

    /** Erase a key; the number of elements erased. */
    method Erase(k: K) returns (count: nat)
      requires Valid()
      modifies this`bucket, this`link, this`data, this`hashes, this`nElem, this`freelistHead, this`freelistSize, this`chains, this`free, this`model
      ensures Valid() && UsesFreelist() == old(UsesFreelist())
      ensures count == 0 ==> NotFound(cfg, old(model), k) && Now() == old(Now())
      ensures count != 0 ==> count == 1 && exists p :: FoundAt(cfg, old(model), k, p) && model == Erased(old(model), p, old(nElem), UsesFreelist()) && Given(p, old(nElem), nElem, UsesFreelist(), old(free), free)
    {
      hide TableOk;
      var p := FindI(k);
      if p < nElem {
        assert FoundAt(cfg, model, k, p);
        EraseI(p);
        count := 1;
      } else {
        count := 0;
      }
    }

    /** Erase without touching any other index. */
    method EraseToFreelist(idx: nat)
      requires Valid() && idx in model && UsesFreelist()
      modifies this`bucket, this`link, this`chains, this`model, this`data, this`freelistHead, this`freelistSize, this`free
      ensures Valid() && UsesFreelist() && model == old(model) - {idx} && free == [idx] + old(free) && |bucket| == old(|bucket|)
    {
      hide TableOk, Holed, Home, HashAt;
      HashLive(cfg, Now(), idx);
      var h := HashAt(cfg, cached, hashes, data, idx);
      Unlink(idx, Home(h, |bucket|));
      FastSlotFree(idx);
    }

    /** Erase all elements that satisfy `pred`; the others keep their indexes. */
    method KeepidEraseIf(pred: E -> bool) returns (erased: nat)
      requires Valid() && UsesFreelist()
      modifies this`bucket, this`link, this`chains, this`model, this`data, this`freelistHead, this`freelistSize, this`free
      ensures Valid() && UsesFreelist()
      ensures model == Kept(old(model), pred, nElem) && erased == |old(model)| - |model|
    {
      hide TableOk;
      ghost var model0 := model;
      TableFacts(cfg, Now());
      KeptAll(model0, pred);
      EmptyAllLive(cfg, Now());
      var n := nElem;
      var wasEmpty := freelistHead >= cfg.delmark;
      erased := 0;
      var i := 0;
      while i < n
        invariant 0 <= i <= n == nElem && Valid() && UsesFreelist()
        invariant model == Kept(model0, pred, i) && erased == |model0| - |model|
        invariant wasEmpty ==> forall x :: 0 <= x < n ==> x in model0
      {
        SlotState(cfg, Now(), i);
        KeptStep(model0, pred, i);
        if (wasEmpty || link[i] != cfg.delmark) && pred(data[i].elem) {
          EraseToFreelist(i);
          erased := erased + 1;
        }
        i := i + 1;
      }
    }

    /** Close the gaps of the erased slots, keeping the order of the elements. */
    method RevokeDeleted() returns (erased: nat)
      requires Valid() && UsesFreelist()
      modifies this
      ensures cached == old(cached) && maxload == old(maxload) && |bucket| == old(|bucket|)
      ensures Valid() && UsesFreelist() && free == [] && erased == old(|free|)
      ensures model == Compacted(old(model), old(nElem)) && nElem == |LiveElems(old(model), old(nElem))|
    {
      hide TableOk, LiveElems, Compacted, Revoked;
      ghost var t := Now();
      TableFacts(cfg, t);
      CompactSize(cfg, t);
      if freelistSize > 0 {
        erased := RevokeDeletedNoRelink();
        ghost var u := Now();
        RevokedFacts(cfg, t, u);
        Relink(|bucket|);
        RelinkedCompact(cfg, t, u, Now());
      } else {
        erased := 0;
        CompactNothing(cfg, t);
      }
    }

    /** The compaction; chains and links are those of the old numbering. */
    method RevokeDeletedNoRelink() returns (erased: nat)
      requires Valid() && freelistSize > 0
      modifies this`data, this`hashes, this`nElem, this`freelistHead, this`freelistSize, this`free, this`model
      ensures Revoked(cfg, old(Now()), Now()) && erased == old(nElem) - nElem
    {
      hide TableOk, Revoked, SlotsOk, HashesOk, Packed, LiveElems, Compacted;
      ghost var t := Now();
      TableSlots(cfg, t);
      var data', hashes', n' := CompactSlots(cfg, link, data, cached, hashes, nElem, model);
      RevokedOk(cfg, t, data', hashes', n');
      erased := nElem - n';
      data, hashes, nElem := data', hashes', n';
      freelistHead, freelistSize, free, model := cfg.Tail(), 0, [], Compacted(model, t.n);
    }

    method EnableFreelist()
      requires Valid()
      modifies this`freelistHead
      ensures Valid() && UsesFreelist()
    {
      if freelistHead == cfg.delmark { freelistHead := cfg.Tail(); }
    }

    method DisableFreelist()
      requires Valid()
      modifies this
      ensures cached == old(cached) && maxload == old(maxload) && |bucket| == old(|bucket|)
      ensures Valid() && !UsesFreelist()
      ensures model == if old(UsesFreelist()) then Compacted(old(model), old(nElem)) else old(model)
    {
      if freelistHead != cfg.delmark {
        hide TableOk;
        var _ := RevokeDeleted();
        TurnOff(cfg, Now());
        freelistHead := cfg.delmark;
      }
    }
  }

  // ------------------------------------------------ erasing by predicate, compaction

  /** The elements left after testing the slots below `i`. */
  ghost function Kept<E>(model: map<nat, E>, pred: E -> bool, i: nat): map<nat, E>
  {
    map x | x in model && !(x < i && pred(model[x])) :: model[x]
  }

  lemma KeptAll<E>(model: map<nat, E>, pred: E -> bool)
    ensures Kept(model, pred, 0) == model
  {
  }

  lemma KeptStep<E>(model: map<nat, E>, pred: E -> bool, i: nat)
    ensures i in model && pred(model[i]) ==> Kept(model, pred, i + 1) == Kept(model, pred, i) - {i} && |Kept(model, pred, i + 1)| == |Kept(model, pred, i)| - 1
    ensures !(i in model && pred(model[i])) ==> Kept(model, pred, i + 1) == Kept(model, pred, i)
    ensures i in model <==> i in Kept(model, pred, i)
    ensures i in model ==> Kept(model, pred, i)[i] == model[i]
  {
    if i in model && pred(model[i]) {
      assert Kept(model, pred, i + 1) == Kept(model, pred, i) - {i};
      SizeWithout(Kept(model, pred, i), i);
    }
  }

  lemma SlotState<K, E>(cfg: Config<K, E>, t: Table<E>, i: nat)
    requires TableOk(cfg, t) && i < t.n
    ensures t.n <= |t.link| == |t.data| && (t.link[i] != cfg.delmark <==> i in t.model) && (i in t.model ==> t.data[i] == Item(t.model[i]))
  {
  }

  lemma EmptyAllLive<K, E>(cfg: Config<K, E>, t: Table<E>)
    requires TableOk(cfg, t)
    ensures t.head >= cfg.delmark ==> forall x :: 0 <= x < t.n ==> x in t.model
  {
    FreeEmpty(cfg.delmark, t.link, t.data, t.n, t.head, t.free);
  }

  lemma TurnOff<K, E>(cfg: Config<K, E>, t: Table<E>)
    requires TableOk(cfg, t) && t.free == []
    ensures TableOk(cfg, t.(head := cfg.delmark))
  {
  }

  lemma TableSlots<K, E>(cfg: Config<K, E>, t: Table<E>)
    requires TableOk(cfg, t)
    ensures SlotsOk(cfg.delmark, t.link, t.data, t.n, t.model) && HashesOk(cfg, t.cached, t.hashes, |t.link|, t.model)
  {
  }

  /** The first slots hold the elements of `live`, with their hashes if those are cached. */
  ghost predicate Packed<K, E>(cfg: Config<K, E>, data: seq<Slot<E>>, cached: bool, hashes: seq<nat>, live: seq<E>)
  {
    && |live| <= |data| && (cached ==> |hashes| == |data|)
    && (forall x :: 0 <= x < |live| ==> data[x] == Item(live[x]))
    && (cached ==> forall x :: 0 <= x < |live| ==> hashes[x] == cfg.HashOf(live[x]))
  }

  lemma PackedAdd<K, E>(cfg: Config<K, E>, data: seq<Slot<E>>, cached: bool, hashes: seq<nat>, live: seq<E>, e: E)
    requires Packed(cfg, data, cached, hashes, live) && |live| < |data|
    ensures Packed(cfg, data[|live| := Item(e)], cached, if cached then hashes[|live| := cfg.HashOf(e)] else hashes, live + [e])
  {
  }

  /** Slots from `j` on are as they were. */
  ghost predicate Unread<E>(data: seq<Slot<E>>, data0: seq<Slot<E>>, cached: bool, hashes: seq<nat>, hashes0: seq<nat>, j: nat)
  {
    && |data| == |data0| && (forall x :: j <= x < |data| ==> data[x] == data0[x])
    && |hashes| == |hashes0| && (cached ==> forall x :: j <= x < |hashes| ==> hashes[x] == hashes0[x])
  }

  lemma {:induction false} AllBelowLive<E>(model: map<nat, E>, i: nat)
    requires forall x :: 0 <= x < i ==> x in model
    ensures |LiveElems(model, i)| == i && forall x :: 0 <= x < i ==> LiveElems(model, i)[x] == model[x]
  {
    if i > 0 { AllBelowLive(model, i - 1); }
  }

  lemma PackedStart<K, E>(cfg: Config<K, E>, link: seq<nat>, data: seq<Slot<E>>, cached: bool, hashes: seq<nat>, n: nat, model: map<nat, E>, i: nat)
    requires SlotsOk(cfg.delmark, link, data, n, model) && HashesOk(cfg, cached, hashes, |link|, model)
    requires i <= n && forall x :: 0 <= x < i ==> x in model
    ensures Packed(cfg, data, cached, hashes, LiveElems(model, i)) && |LiveElems(model, i)| == i
  {
    AllBelowLive(model, i);
  }

  lemma LiveAt<K, E>(cfg: Config<K, E>, link: seq<nat>, data0: seq<Slot<E>>, data: seq<Slot<E>>, cached: bool, hashes0: seq<nat>, hashes: seq<nat>, n: nat, model: map<nat, E>, j: nat)
    requires SlotsOk(cfg.delmark, link, data0, n, model) && HashesOk(cfg, cached, hashes0, |link|, model) && j < n
    requires Unread(data, data0, cached, hashes, hashes0, j)
    ensures j < |data| == |link| && (cached ==> j < |hashes| == |data|) && (j in model <==> link[j] != cfg.delmark)
    ensures j in model ==> data[j] == Item(model[j]) && (cached ==> hashes[j] == cfg.HashOf(model[j]))
    ensures LiveElems(model, j + 1) == LiveElems(model, j) + if j in model then [model[j]] else []
  {
  }

  /** The live elements below `j` are in the first `i` slots; the rest is unread. */
  ghost predicate Compacting<K, E>(cfg: Config<K, E>, data0: seq<Slot<E>>, data: seq<Slot<E>>, cached: bool, hashes0: seq<nat>, hashes: seq<nat>, model: map<nat, E>, i: nat, j: nat)
  {
    i < j <= |data| && i == |LiveElems(model, j)| && Packed(cfg, data, cached, hashes, LiveElems(model, j)) && Unread(data, data0, cached, hashes, hashes0, j)
  }

  lemma CompactStep<K, E>(cfg: Config<K, E>, link: seq<nat>, data0: seq<Slot<E>>, data: seq<Slot<E>>, cached: bool, hashes0: seq<nat>, hashes: seq<nat>, n: nat, model: map<nat, E>, i: nat, j: nat)
    requires SlotsOk(cfg.delmark, link, data0, n, model) && HashesOk(cfg, cached, hashes0, |link|, model) && j < n
    requires Compacting(cfg, data0, data, cached, hashes0, hashes, model, i, j)
    ensures i < j < |data| == |link| && (cached ==> |hashes| == |data|)
    ensures link[j] == cfg.delmark ==> Compacting(cfg, data0, data, cached, hashes0, hashes, model, i, j + 1)
    ensures link[j] != cfg.delmark ==> Compacting(cfg, data0, data[i := data[j]], cached, hashes0, if cached then hashes[i := hashes[j]] else hashes, model, i + 1, j + 1)
  {
    LiveAt(cfg, link, data0, data, cached, hashes0, hashes, n, model, j);
    hide SlotsOk, HashesOk, LiveElems, Packed;
    if link[j] != cfg.delmark { PackedAdd(cfg, data, cached, hashes, LiveElems(model, j), model[j]); }
  }

  method FirstErased(delmark: nat, link: seq<nat>, n: nat) returns (i: nat)
    requires n <= |link|
    ensures i <= n && (forall x :: 0 <= x < i ==> link[x] != delmark) && (i < n ==> link[i] == delmark)
  {
    i := 0;
    while i < n && link[i] != delmark
      invariant i <= n && forall x :: 0 <= x < i ==> link[x] != delmark
    {
      i := i + 1;
    }
  }

  /** Move the live elements down over the erased slots. */
  method CompactSlots<K, E>(cfg: Config<K, E>, link: seq<nat>, data0: seq<Slot<E>>, cached: bool, hashes0: seq<nat>, n: nat, ghost model: map<nat, E>)
    returns (data: seq<Slot<E>>, hashes: seq<nat>, i: nat)
    requires SlotsOk(cfg.delmark, link, data0, n, model) && HashesOk(cfg, cached, hashes0, |link|, model)
    ensures |data| == |data0| && i == |LiveElems(model, n)| <= n && Packed(cfg, data, cached, hashes, LiveElems(model, n))
  {
    i := FirstErased(cfg.delmark, link, n);
    PackedStart(cfg, link, data0, cached, hashes0, n, model, i);
    if i == n {
      data, hashes := data0, hashes0;
    } else {
      assert Compacting(cfg, data0, data0, cached, hashes0, hashes0, model, i, i + 1);
      hide SlotsOk, HashesOk, LiveElems, Compacting;
      data, hashes, i := CompactFrom(cfg, link, data0, cached, hashes0, n, i, model);
    }
  }

  method CompactFrom<K, E>(cfg: Config<K, E>, link: seq<nat>, data0: seq<Slot<E>>, cached: bool, hashes0: seq<nat>, n: nat, hole: nat, ghost model: map<nat, E>)
    returns (data: seq<Slot<E>>, hashes: seq<nat>, i: nat)
    requires SlotsOk(cfg.delmark, link, data0, n, model) && HashesOk(cfg, cached, hashes0, |link|, model)
    requires hole < n <= |link| && Compacting(cfg, data0, data0, cached, hashes0, hashes0, model, hole, hole + 1)
    ensures |data| == |data0| && i == |LiveElems(model, n)| <= n && Packed(cfg, data, cached, hashes, LiveElems(model, n))
  {
    hide SlotsOk, HashesOk, LiveElems, Compacting, Packed;
    data, hashes, i := data0, hashes0, hole;
    var j := i + 1;
    while j < n
      invariant i < j <= n && |data| == |data0| && Compacting(cfg, data0, data, cached, hashes0, hashes, model, i, j)
    {
      CompactStep(cfg, link, data0, data, cached, hashes0, hashes, n, model, i, j);
      if link[j] != cfg.delmark {
        if cached { hashes := hashes[i := hashes[j]]; }
        data := data[i := data[j]];
        i := i + 1;
      }
      j := j + 1;
    }
    CompactEnd(cfg, data0, data, cached, hashes0, hashes, model, i, n);
  }

  /** `u` is `t` with its slots compacted and its free list empty, chains not yet rebuilt. */
  ghost predicate Revoked<K, E>(cfg: Config<K, E>, t: Table<E>, u: Table<E>)
  {
    && u == t.(data := u.data, hashes := u.hashes, n := u.n, head := cfg.Tail(), size := 0, free := [], model := Compacted(t.model, t.n))
    && u.n == |LiveElems(t.model, t.n)| <= t.n
    && Storage(cfg, u.link, u.data, u.cached, u.hashes, u.n, false, u.model)
  }

  lemma RevokedOk<K, E>(cfg: Config<K, E>, t: Table<E>, data: seq<Slot<E>>, hashes: seq<nat>, n: nat)
    requires TableOk(cfg, t) && |data| == |t.data| && n == |LiveElems(t.model, t.n)| <= t.n && Packed(cfg, data, t.cached, hashes, LiveElems(t.model, t.n))
    ensures Revoked(cfg, t, t.(data := data, hashes := hashes, n := n, head := cfg.Tail(), size := 0, free := [], model := Compacted(t.model, t.n)))
  {
    hide TableOk, Storage, LiveElems, Packed;
    CompactStorage(cfg, t, data, hashes, n);
  }

  lemma RevokedFacts<K, E>(cfg: Config<K, E>, t: Table<E>, u: Table<E>)
    requires Revoked(cfg, t, u)
    ensures Storage(cfg, u.link, u.data, u.cached, u.hashes, u.n, false, u.model) && u.bucket == t.bucket && u.cached == t.cached && u.maxload == t.maxload
    ensures u.size == 0 && u.free == [] && u.head == cfg.Tail() && u.n == |LiveElems(t.model, t.n)| && u.model == Compacted(t.model, t.n)
  {
  }

  lemma RelinkedCompact<K, E>(cfg: Config<K, E>, t: Table<E>, u: Table<E>, w: Table<E>)
    requires TableOk(cfg, t) && t.size > 0 && Revoked(cfg, t, u) && w == u.(bucket := w.bucket, link := w.link, chains := w.chains) && |w.bucket| > 1
    requires Linked(cfg, w.bucket, w.link, w.chains, w.model) && Marked(cfg.delmark, w.link, u.link, w.n, w.n, w.model)
    ensures TableOk(cfg, w)
  {
    hide TableOk, Linked, Storage, Marked, Compacted;
    CompactedOk(cfg, t, u.link, w);
  }

  lemma CompactEnd<K, E>(cfg: Config<K, E>, data0: seq<Slot<E>>, data: seq<Slot<E>>, cached: bool, hashes0: seq<nat>, hashes: seq<nat>, model: map<nat, E>, i: nat, n: nat)
    requires Compacting(cfg, data0, data, cached, hashes0, hashes, model, i, n)
    ensures i == |LiveElems(model, n)| <= n && Packed(cfg, data, cached, hashes, LiveElems(model, n))
  {
  }

  lemma CompactSize<K, E>(cfg: Config<K, E>, t: Table<E>)
    requires TableOk(cfg, t)
    ensures |LiveElems(t.model, t.n)| + |t.free| == t.n && (t.n > 0 ==> |t.bucket| > 1)
  {
    TableFacts(cfg, t);
    assert forall x :: x in t.model ==> x < t.n;
    hide TableOk;
    LiveCount(t.model, t.n);
  }

  lemma CompactNothing<K, E>(cfg: Config<K, E>, t: Table<E>)
    requires TableOk(cfg, t) && t.free == []
    ensures Compacted(t.model, t.n) == t.model && |LiveElems(t.model, t.n)| == t.n
  {
    assert forall x :: x in t.model ==> x < t.n;
    FreeEmpty(cfg.delmark, t.link, t.data, t.n, t.head, t.free);
    EmptyAllLive(cfg, t);
    hide TableOk;
    AllBelowLive(t.model, t.n);
  }

  lemma CompactStorage<K, E>(cfg: Config<K, E>, t: Table<E>, data: seq<Slot<E>>, hashes: seq<nat>, n: nat)
    requires TableOk(cfg, t) && |data| == |t.data| && n == |LiveElems(t.model, t.n)| <= t.n && Packed(cfg, data, t.cached, hashes, LiveElems(t.model, t.n))
    ensures Storage(cfg, t.link, data, t.cached, hashes, n, false, Compacted(t.model, t.n))
  {
    hide TableOk, LiveElems;
    TableFacts(cfg, t);
    PackedStorage(cfg, t.link, data, t.cached, hashes, LiveElems(t.model, t.n), Compacted(t.model, t.n));
  }

  lemma PackedStorage<K, E>(cfg: Config<K, E>, link: seq<nat>, data: seq<Slot<E>>, cached: bool, hashes: seq<nat>, live: seq<E>, model: map<nat, E>)
    requires |live| <= |link| == |data| <= cfg.delmark && Packed(cfg, data, cached, hashes, live)
    requires forall x: nat :: x in model <==> x < |live|
    requires forall x: nat :: x in model ==> model[x] == live[x]
    ensures Storage(cfg, link, data, cached, hashes, |live|, false, model)
  {
  }

  lemma CompactedOk<K, E>(cfg: Config<K, E>, t: Table<E>, link0: seq<nat>, u: Table<E>)
    requires TableOk(cfg, t) && t.size > 0 && u.free == [] && u.size == 0 && u.head == cfg.Tail() && u.model == Compacted(t.model, t.n) && |u.bucket| > 1
    requires Linked(cfg, u.bucket, u.link, u.chains, u.model) && Storage(cfg, link0, u.data, u.cached, u.hashes, u.n, false, u.model)
    requires Marked(cfg.delmark, u.link, link0, u.n, u.n, u.model)
    ensures TableOk(cfg, u)
  {
    hide Linked, KeysDiffer, Compacted, SlotsOk, IsFreeList, HashesOk, Storage, Marked;
    CompactKeys(cfg, t.model, t.n);
    CompactedParts(cfg, link0, u);
  }

  lemma CompactedParts<K, E>(cfg: Config<K, E>, link0: seq<nat>, u: Table<E>)
    requires Storage(cfg, link0, u.data, u.cached, u.hashes, u.n, false, u.model) && Marked(cfg.delmark, u.link, link0, u.n, u.n, u.model)
    requires u.free == [] && u.head == cfg.Tail()
    ensures SlotsOk(cfg.delmark, u.link, u.data, u.n, u.model) && IsFreeList(cfg.delmark, u.link, u.data, u.n, u.head, u.free)
    ensures HashesOk(cfg, u.cached, u.hashes, |u.link|, u.model)
  {
  }

  /** The slot that the `i`-th live element comes from. */
  lemma {:induction false} LiveSource<E>(model: map<nat, E>, n: nat, i: nat) returns (x: nat)
    requires i < |LiveElems(model, n)|
    ensures x in model && x < n && model[x] == LiveElems(model, n)[i] && |LiveElems(model, x)| == i
  {
    if i < |LiveElems(model, n - 1)| {
      x := LiveSource(model, n - 1, i);
    } else {
      x := n - 1;
    }
  }

  lemma CompactKeys<K, E>(cfg: Config<K, E>, model: map<nat, E>, n: nat)
    requires KeysDiffer(cfg, model)
    ensures KeysDiffer(cfg, Compacted(model, n))
  {
    var live := LiveElems(model, n);
    forall i: nat, j: nat | i < |live| && j < |live| && cfg.keyOf(live[i]) == cfg.keyOf(live[j]) ensures i == j {
      var x := LiveSource(model, n, i);
      var y := LiveSource(model, n, j);
    }
  }

  // -------------------------------------------------------------- the table as a map

  /** The live slots hold exactly the entries of `m`. */
  ghost predicate Represents<K(!new), E>(cfg: Config<K, E>, model: map<nat, E>, m: map<K, E>)
  {
    && (forall x :: x in model ==> Entry(cfg, model[x], m))
    && (forall k :: k in m ==> exists x :: FoundAt(cfg, model, k, x))
  }

  ghost predicate Entry<K, E>(cfg: Config<K, E>, e: E, m: map<K, E>)
  {
    cfg.keyOf(e) in m && m[cfg.keyOf(e)] == e
  }

  /** Lookup answers as the map would. */
  lemma FindRefines<K(!new), E>(cfg: Config<K, E>, model: map<nat, E>, m: map<K, E>, k: K)
    requires Represents(cfg, model, m)
    ensures NotFound(cfg, model, k) <==> k !in m
    ensures forall x :: FoundAt(cfg, model, k, x) ==> k in m && m[k] == model[x]
  {
    assert forall x :: x in model ==> Entry(cfg, model[x], m);
    if k in m {
      var x :| FoundAt(cfg, model, k, x);
      assert !NotFound(cfg, model, k);
    }
  }

  lemma InsertRefines<K(!new), E>(cfg: Config<K, E>, model: map<nat, E>, m: map<K, E>, slot: nat, e: E)
    requires Represents(cfg, model, m) && slot !in model && NotFound(cfg, model, cfg.keyOf(e))
    ensures cfg.keyOf(e) !in m && Represents(cfg, model[slot := e], m[cfg.keyOf(e) := e])
  {
    FindRefines(cfg, model, m, cfg.keyOf(e));
    var model', m' := model[slot := e], m[cfg.keyOf(e) := e];
    forall x | x in model' ensures Entry(cfg, model'[x], m') {
      if x != slot { assert Entry(cfg, model[x], m) && cfg.keyOf(model[x]) != cfg.keyOf(e); }
    }
    forall k | k in m' ensures exists x :: FoundAt(cfg, model', k, x) {
      if k == cfg.keyOf(e) {
        assert FoundAt(cfg, model', k, slot);
      } else {
        var x :| FoundAt(cfg, model, k, x);
        assert FoundAt(cfg, model', k, x);
      }
    }
  }

  /** In every branch an erasure removes the key of the erased slot and nothing else. */
  lemma EraseRefines<K(!new), E>(cfg: Config<K, E>, model: map<nat, E>, m: map<K, E>, idx: nat, n: nat, useFreelist: bool)
    requires Represents(cfg, model, m) && KeysDiffer(cfg, model) && idx in model
    ensures Represents(cfg, Erased(model, idx, n, useFreelist), m - {cfg.keyOf(model[idx])})
  {
    var k0 := cfg.keyOf(model[idx]);
    var model', m' := Erased(model, idx, n, useFreelist), m - {k0};
    forall x | x in model' ensures Entry(cfg, model'[x], m') {
      var y := if x == idx then n - 1 else x;
      assert y in model && y != idx && model'[x] == model[y];
      assert Entry(cfg, model[y], m) && cfg.keyOf(model[y]) != k0;
    }
    forall k | k in m' ensures exists x :: FoundAt(cfg, model', k, x) {
      var y: nat :| FoundAt(cfg, model, k, y);
      assert y != idx;
      if y in model' {
        assert model'[y] == model[y];
        assert FoundAt(cfg, model', k, y);
      } else {
        assert y == n - 1 && model'[idx] == model[y];
        assert FoundAt(cfg, model', k, idx);
      }
    }
  }

  /** Compaction sends the element of slot `x` to the number of live slots below `x`: all
      elements stay, in their order. */
  lemma {:induction false} RankOf<E>(model: map<nat, E>, n: nat, x: nat)
    requires x in model && x < n
    ensures |LiveElems(model, x)| in Compacted(model, n) && Compacted(model, n)[|LiveElems(model, x)|] == model[x]
    ensures forall y :: y in model && x < y < n ==> |LiveElems(model, x)| < |LiveElems(model, y)|
  {
    assert LiveElems(model, x + 1) == LiveElems(model, x) + [model[x]];
    LivePrefix(model, x + 1, n);
    forall y | y in model && x < y < n ensures |LiveElems(model, x)| < |LiveElems(model, y)| { LivePrefix(model, x + 1, y); }
  }

  lemma CompactRefines<K(!new), E>(cfg: Config<K, E>, model: map<nat, E>, m: map<K, E>, n: nat)
    requires Represents(cfg, model, m) && forall x :: x in model ==> x < n
    ensures Represents(cfg, Compacted(model, n), m)
  {
    var model' := Compacted(model, n);
    forall i | i in model' ensures Entry(cfg, model'[i], m) {
      var x := LiveSource(model, n, i);
      assert Entry(cfg, model[x], m);
    }
    forall k | k in m ensures exists x :: FoundAt(cfg, model', k, x) {
      var x :| FoundAt(cfg, model, k, x);
      RankOf(model, n, x);
      assert FoundAt(cfg, model', k, |LiveElems(model, x)|);
    }
  }
}
