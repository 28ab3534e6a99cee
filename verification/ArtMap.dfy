/**
 The tree as its callers see it (3rdparty/libart/art.c): iteration with a callback, the
 `art_tree` object with its root and size, and whole runs of calls against a finite map.
 */
module ArtMap {
  import opened ArtLayout
  import opened ArtTree

  // ------------------------------------------------------------------ iteration

  /** Feed the entries to the callback in order; a non-zero answer stops the walk. */
  function Visit<V, S>(e: seq<Entry<V>>, cb: (S, Key, V) -> (S, int), s: S): (S, int)
  {
    if e == [] then (s, 0)
    else
      var (s', res) := cb(s, e[0].0, e[0].1);
      if res != 0 then (s', res) else Visit(e[1..], cb, s')
  }

  /** Calling back on the first `k` entries leads through the states `ss`; all answers before the
      last are zero, `res` is the last one, and only a non-zero answer ends the walk early. */
  ghost predicate Walk<V, S>(e: seq<Entry<V>>, cb: (S, Key, V) -> (S, int), ss: seq<S>, k: nat, s: S, s': S, res: int)
  {
    && k <= |e| && |ss| == k + 1 && ss[0] == s && ss[k] == s'
    && (forall j :: 0 <= j < k ==> cb(ss[j], e[j].0, e[j].1) == (ss[j + 1], if j == k - 1 then res else 0))
    && (k == 0 ==> res == 0) && (k < |e| ==> res != 0)
  }

  ghost predicate Walked<V, S(!new)>(e: seq<Entry<V>>, cb: (S, Key, V) -> (S, int), s: S, s': S, res: int)
  {
    exists k: nat, ss: seq<S> :: Walk(e, cb, ss, k, s, s', res)
  }

  /** Feeding the entries one by one is such a walk. */
  lemma {:induction false} VisitWalks<V, S(!new)>(e: seq<Entry<V>>, cb: (S, Key, V) -> (S, int), s: S)
    ensures var (s', res) := Visit(e, cb, s); Walked(e, cb, s, s', res)
  {
    var (s', res) := Visit(e, cb, s);
    if e == [] {
      assert Walk(e, cb, [s], 0, s, s', res);
    } else {
      var (s1, r1) := cb(s, e[0].0, e[0].1);
      if r1 != 0 {
        assert Walk(e, cb, [s, s1], 1, s, s', res);
      } else {
        VisitWalks(e[1..], cb, s1);
        var k: nat, ss: seq<S> :| Walk(e[1..], cb, ss, k, s1, s', res);
        WalkOn(e, cb, ss, k, s, s1, s', res);
      }
    }
  }

  lemma WalkOn<V, S>(e: seq<Entry<V>>, cb: (S, Key, V) -> (S, int), ss: seq<S>, k: nat, s: S, s1: S, s': S, res: int)
    requires e != [] && cb(s, e[0].0, e[0].1) == (s1, 0) && Walk(e[1..], cb, ss, k, s1, s', res)
    ensures Walk(e, cb, [s] + ss, k + 1, s, s', res)
  {
    var tt := [s] + ss;
    forall j | 0 <= j < k + 1 ensures cb(tt[j], e[j].0, e[j].1) == (tt[j + 1], if j == k then res else 0) {
      if j > 0 { assert cb(ss[j - 1], e[1..][j - 1].0, e[1..][j - 1].1) == (ss[j], if j - 1 == k - 1 then res else 0); }
    }
  }

  /** There is only one such walk. */
  lemma {:induction false} WalkUnique<V, S>(e: seq<Entry<V>>, cb: (S, Key, V) -> (S, int), ss: seq<S>, k: nat, s: S, s': S, res: int)
    requires Walk(e, cb, ss, k, s, s', res)
    ensures Visit(e, cb, s) == (s', res)
    decreases k
  {
    if k > 0 {
      assert cb(ss[0], e[0].0, e[0].1) == (ss[1], if k == 1 then res else 0);
      if k > 1 || res == 0 {
        forall j | 0 <= j < k - 1 ensures cb(ss[1..][j], e[1..][j].0, e[1..][j].1) == (ss[1..][j + 1], if j == k - 2 then res else 0) {
          assert cb(ss[j + 1], e[j + 1].0, e[j + 1].1) == (ss[j + 2], if j + 1 == k - 1 then res else 0);
        }
        WalkUnique(e[1..], cb, ss[1..], k - 1, ss[1], s', res);
      }
    }
  }

  lemma {:induction false} VisitConcat<V, S>(a: seq<Entry<V>>, b: seq<Entry<V>>, cb: (S, Key, V) -> (S, int), s: S)
    ensures var (s', res) := Visit(a, cb, s); Visit(a + b, cb, s) == if res != 0 then (s', res) else Visit(b, cb, s')
  {
    if a == [] {
      assert a + b == b;
    } else {
      assert (a + b)[0] == a[0] && (a + b)[1..] == a[1..] + b;
      VisitConcat(a[1..], b, cb, cb(s, a[0].0, a[0].1).0);
    }
  }

  ghost function ByteOf(keys: seq<Byte>, i: nat): (r: nat)
    ensures r <= 256
  {
    if i < |keys| then keys[i] else 256
  }

  /** From the `i`-th byte of a sorted array: its child's entries, then those of the next byte. */
  lemma ArrayStep<V(!new)>(n: Node<V>, i: nat)
    requires (n.Node4? || n.Node16?) && Grounded(n) && i < |n.keys|
    ensures |n.kids| == |n.keys| && Grounded(n.kids[i])
    ensures EntriesFrom(n, ByteOf(n.keys, i)) == Entries(n.kids[i]) + EntriesFrom(n, ByteOf(n.keys, i + 1))
  {
    hide Grounded, FindChild, Sorted;
    var c: int, d := n.keys[i], ByteOf(n.keys, i + 1);
    ArrayGap(n, i);
    SkipEmpty(n, c + 1, d);
  }

  /** The child of the `i`-th byte, and none from there to the next byte. */
  lemma ArrayGap<V(!new)>(n: Node<V>, i: nat)
    requires (n.Node4? || n.Node16?) && Grounded(n) && i < |n.keys|
    ensures SizesOk(n) && |n.kids| == |n.keys| && Grounded(n.kids[i]) && FindChild(n, n.keys[i]) == Some(n.kids[i])
    ensures n.keys[i] < ByteOf(n.keys, i + 1)
    ensures forall x: Byte :: n.keys[i] < x < ByteOf(n.keys, i + 1) ==> FindChild(n, x).None?
  {
    hide CountOk, Branches;
    SortedIndex(n.keys, i);
    assert FindChild(n, n.keys[i]) == Some(n.kids[i]);
    forall x: Byte | n.keys[i] < x < ByteOf(n.keys, i + 1) ensures FindChild(n, x).None? { Between(n.keys, i, x); }
  }

  lemma ArrayStart<V(!new)>(n: Node<V>)
    requires (n.Node4? || n.Node16?) && Grounded(n)
    ensures EntriesFrom(n, 0) == EntriesFrom(n, ByteOf(n.keys, 0)) && n.h.num == |n.keys| == |n.kids|
    ensures EntriesFrom(n, ByteOf(n.keys, |n.keys|)) == []
  {
    ArrayBranches(n);
    var d := ByteOf(n.keys, 0);
    forall x | 0 <= x < d ensures FindChild(n, x).None? { }
    SkipEmpty(n, 0, d);
  }

  lemma Between(keys: seq<Byte>, i: nat, x: int)
    requires Sorted(keys) && i < |keys| && keys[i] < x < ByteOf(keys, i + 1)
    ensures x !in keys
  {
    forall j | 0 <= j < |keys| ensures keys[j] != x {
      assert j <= i ==> keys[j] <= keys[i];
      assert j > i ==> keys[i + 1] <= keys[j];
    }
  }

  /** Depth-first walk: array layouts by position, the others by byte. */
  method RecursiveIter<V(!new), S(!new)>(n: Node<V>, cb: (S, Key, V) -> (S, int), s: S) returns (s': S, res: int)
    requires Grounded(n)
    ensures (s', res) == Visit(Entries(n), cb, s)
    ensures Walked(Entries(n), cb, s, s', res)
    decreases n, 1
  {
    VisitWalks(Entries(n), cb, s);
    if n.Leaf? {
      assert Entries(n) == [(n.key, n.value)] && Entries(n)[1..] == [];
      var (s1, r1) := cb(s, n.key, n.value);
      return s1, r1;
    }
    if n.Node4? || n.Node16? {
      s', res := IterArray(n, cb, s);
    } else {
      s', res := IterBytes(n, cb, s);
    }
  }

  method IterArray<V(!new), S(!new)>(n: Node<V>, cb: (S, Key, V) -> (S, int), s: S) returns (s': S, res: int)
    requires (n.Node4? || n.Node16?) && Grounded(n)
    ensures (s', res) == Visit(EntriesFrom(n, 0), cb, s)
    decreases n, 0
  {
    hide Grounded, EntriesFrom, Entries, ByteOf;
    ArrayStart(n);
    s', res := s, 0;
    var i := 0;
    while i < n.h.num
      invariant 0 <= i <= n.h.num == |n.keys| == |n.kids|
      invariant Visit(EntriesFrom(n, 0), cb, s) == Visit(EntriesFrom(n, ByteOf(n.keys, i)), cb, s')
      invariant res == 0
    {
      ArrayStep(n, i);
      VisitConcat(Entries(n.kids[i]), EntriesFrom(n, ByteOf(n.keys, i + 1)), cb, s');
      s', res := RecursiveIter(n.kids[i], cb, s');
      if res != 0 { return; }
      i := i + 1;
    }
  }

  method IterBytes<V(!new), S(!new)>(n: Node<V>, cb: (S, Key, V) -> (S, int), s: S) returns (s': S, res: int)
    requires (n.Node48? || n.Node256?) && Grounded(n)
    ensures (s', res) == Visit(EntriesFrom(n, 0), cb, s)
    decreases n, 0
  {
    assert LayoutOk(n) && SizesOk(n);
    hide LayoutOk, CountOk;
    s', res := s, 0;
    var c := 0;
    while c < 256
      invariant 0 <= c <= 256 && SizesOk(n)
      invariant Visit(EntriesFrom(n, 0), cb, s) == Visit(EntriesFrom(n, c), cb, s')
      invariant res == 0
    {
      var child := FindChild(n, c);
      if child.Some? {
        VisitConcat(Entries(child.value), EntriesFrom(n, c + 1), cb, s');
        s', res := RecursiveIter(child.value, cb, s');
        if res != 0 { return; }
      }
      c := c + 1;
    }
  }

  // ------------------------------------------------------- the tree and a finite map

  ghost predicate RootOk<V(!new)>(root: Option<Node<V>>)
  {
    root.Some? ==> Wf(root.value, [])
  }

  /** The tree holds exactly the entries of `m`. */
  ghost predicate Holds<V(!new)>(root: Option<Node<V>>, m: map<Key, V>)
  {
    && RootOk(root)
    && (forall k, v :: RootHas(root, k, v) <==> k in m && m[k] == v)
  }

  function Lookup<V>(m: map<Key, V>, k: Key): Option<V>
  {
    if k in m then Some(m[k]) else None
  }

  /** No other key of the map is a prefix of `key` or has it as a prefix. */
  ghost predicate PrefixFree<V>(m: map<Key, V>, key: Key)
  {
    forall k :: k in m ==> k == key || (!(k <= key) && !(key <= k))
  }

  ghost predicate RootFree<V(!new)>(root: Option<Node<V>>, key: Key)
  {
    root.Some? ==> Insertable(root.value, key, 0)
  }

  function InsertRoot<V(!new)>(root: Option<Node<V>>, key: Key, v: V): (Option<Node<V>>, Option<V>)
    requires RootFree(root, key)
  {
    if root.None? then (Some(Leaf(key, v)), None)
    else var (n, o) := Insert(root.value, key, v, 0); (Some(n), o)
  }

  function DeleteRoot<V(!new)>(root: Option<Node<V>>, key: Key, junk: nat -> Byte): (Option<Node<V>>, Option<V>)
    requires root.Some? ==> Grounded(root.value)
  {
    if root.None? then (None, None) else Delete(root.value, key, 0, junk)
  }

  lemma HoldsFree<V(!new)>(root: Option<Node<V>>, m: map<Key, V>, key: Key)
    requires Holds(root, m) && PrefixFree(m, key)
    ensures RootFree(root, key)
  {
    if root.Some? {
      hide Wf, Has;
      assert key[..0] == [];
      forall k, v | Has(root.value, k, v) ensures k == key || (!(k <= key) && !(key <= k)) { assert RootHas(root, k, v); }
    }
  }

  lemma HoldsAt<V(!new)>(root: Option<Node<V>>, m: map<Key, V>, k: Key)
    requires Holds(root, m) && k in m
    ensures RootHas(root, k, m[k])
  {
  }

  lemma EmptyHolds<V(!new)>(root: Option<Node<V>>, m: map<Key, V>)
    requires Holds(root, m) && root.None?
    ensures m == map[]
  {
    if m != map[] {
      var k :| k in m;
      HoldsAt(root, m, k);
      assert false;
    }
  }

  lemma HoldsInsert<V(!new)>(root: Option<Node<V>>, m: map<Key, V>, key: Key, v: V)
    requires Holds(root, m) && PrefixFree(m, key)
    ensures RootFree(root, key)
    ensures var (root', o) := InsertRoot(root, key, v); Holds(root', m[key := v]) && o == Lookup(m, key)
  {
    HoldsFree(root, m, key);
    var (root', o) := InsertRoot(root, key, v);
    if root.Some? {
      hide Wf, Has, Insert;
      InsertOk(root.value, key, v, 0);
      assert key[..0] == [];
      forall k, w ensures RootHas(root', k, w) <==> k in m[key := v] && m[key := v][k] == w {
        assert Has(root.value, k, w) <==> RootHas(root, k, w);
      }
      OldValue(root, m, key, o);
    } else {
      EmptyHolds(root, m);
    }
  }

  lemma OldValue<V(!new)>(root: Option<Node<V>>, m: map<Key, V>, key: Key, o: Option<V>)
    requires root.Some? && Holds(root, m) && Was(root.value, key, o)
    ensures o == Lookup(m, key)
  {
    hide Wf, Has;
    if key in m { assert RootHas(root, key, m[key]); }
    if o.Some? { assert Has(root.value, key, o.value); assert RootHas(root, key, o.value); }
  }

  lemma HoldsDelete<V(!new)>(root: Option<Node<V>>, m: map<Key, V>, key: Key, junk: nat -> Byte)
    requires Holds(root, m)
    ensures root.Some? ==> Grounded(root.value)
    ensures var (root', o) := DeleteRoot(root, key, junk); Holds(root', m - {key}) && o == Lookup(m, key)
  {
    if root.Some? {
      WfGrounded(root.value, []);
      hide Wf, Has, Delete, Grounded;
      DeleteOk(root.value, [], key, junk);
      var (root', o) := DeleteRoot(root, key, junk);
      OldValue(root, m, key, o);
      forall k, w ensures RootHas(root', k, w) <==> k in m - {key} && (m - {key})[k] == w {
        assert Has(root.value, k, w) <==> RootHas(root, k, w);
      }
    } else {
      EmptyHolds(root, m);
    }
  }

  lemma HoldsFind<V(!new)>(root: Option<Node<V>>, m: map<Key, V>, key: Key, junk: nat -> Byte)
    requires Holds(root, m)
    ensures root.Some? ==> Grounded(root.value)
    ensures FindRoot(root, key, junk) == Lookup(m, key)
  {
    if root.Some? {
      FindOk(root.value, [], key, junk);
      OldValue(root, m, key, FindRoot(root, key, junk));
    } else {
      EmptyHolds(root, m);
    }
  }

  // -------------------------------------------------------------------- whole runs

  /** The calls of a caller. Searches and deletions may each find other bytes behind their key. */
  datatype Op<V> = Put(key: Key, value: V) | Del(key: Key, junk: nat -> Byte) | Get(key: Key, junk: nat -> Byte)

  datatype Tree<V> = Tree(root: Option<Node<V>>, size: int)

  /** The map after one call. */
  function MapStep<V>(m: map<Key, V>, op: Op<V>): map<Key, V>
  {
    match op
    case Put(k, v) => m[k := v]
    case Del(k, _) => m - {k}
    case Get(_, _) => m
  }

  /** Every insertion of a run is prefix-free against the keys present at that time. */
  ghost predicate PrefixFreeRun<V>(m: map<Key, V>, ops: seq<Op<V>>)
    decreases |ops|
  {
    ops == [] || ((ops[0].Put? ==> PrefixFree(m, ops[0].key)) && PrefixFreeRun(MapStep(m, ops[0]), ops[1..]))
  }

  ghost predicate Agrees<V(!new)>(t: Tree<V>, m: map<Key, V>)
  {
    Holds(t.root, m) && t.size == |m|
  }

  /** One call of art_insert, art_delete or art_search: the new tree and the answer. */
  function TreeStep<V(!new)>(t: Tree<V>, op: Op<V>): (Tree<V>, Option<V>)
    requires op.Put? ==> RootFree(t.root, op.key)
    requires t.root.Some? ==> Grounded(t.root.value)
  {
    match op
    case Put(k, v) =>
      var (root, o) := InsertRoot(t.root, k, v);
      (Tree(root, if o.None? then t.size + 1 else t.size), o)
    case Del(k, junk) =>
      var (root, o) := DeleteRoot(t.root, k, junk);
      (Tree(root, if o.Some? then t.size - 1 else t.size), o)
    case Get(k, junk) => (t, FindRoot(t.root, k, junk))
  }

  lemma StepReady<V(!new)>(t: Tree<V>, m: map<Key, V>, op: Op<V>)
    requires Agrees(t, m) && (op.Put? ==> PrefixFree(m, op.key))
    ensures op.Put? ==> RootFree(t.root, op.key)
    ensures t.root.Some? ==> Grounded(t.root.value)
  {
    if op.Put? { HoldsFree(t.root, m, op.key); }
    if t.root.Some? { WfGrounded(t.root.value, []); }
  }

  /** One call: the tree follows the map, its size counts the keys, and the answer is
      the value the key had. */
  lemma StepAgrees<V(!new)>(t: Tree<V>, m: map<Key, V>, op: Op<V>)
    requires Agrees(t, m) && (op.Put? ==> PrefixFree(m, op.key))
    ensures op.Put? ==> RootFree(t.root, op.key)
    ensures t.root.Some? ==> Grounded(t.root.value)
    ensures var (t', o) := TreeStep(t, op); Agrees(t', MapStep(m, op)) && o == Lookup(m, op.key)
  {
    StepReady(t, m, op);
    hide Holds, InsertRoot, DeleteRoot, FindRoot, Grounded, RootFree, PrefixFree;
    MapSize(m, op);
    match op {
      case Put(k, v) => HoldsInsert(t.root, m, k, v);
      case Del(k, junk) => HoldsDelete(t.root, m, k, junk);
      case Get(k, junk) => HoldsFind(t.root, m, k, junk);
    }
  }

  lemma MapSize<V>(m: map<Key, V>, op: Op<V>)
    ensures |MapStep(m, op)| == match op case Put(k, v) => (if k in m then |m| else |m| + 1) case Del(k, _) => (if k in m then |m| - 1 else |m|) case Get(_, _) => |m|
  {
    match op {
      case Put(k, v) => PutSize(m, k, v);
      case Del(k, _) => DelSize(m, k);
      case Get(_, _) =>
    }
  }

  lemma PutSize<V>(m: map<Key, V>, k: Key, v: V)
    ensures |m[k := v]| == if k in m then |m| else |m| + 1
  {
    assert m[k := v].Keys == m.Keys + {k};
    KeyCount(m.Keys, k);
    assert |m[k := v].Keys| == |m[k := v]|;
  }

  lemma DelSize<V>(m: map<Key, V>, k: Key)
    ensures |m - {k}| == if k in m then |m| - 1 else |m|
  {
    assert (m - {k}).Keys == m.Keys - {k};
    KeyCount(m.Keys, k);
    assert |(m - {k}).Keys| == |m - {k}|;
  }

  lemma KeyCount(s: set<Key>, k: Key)
    ensures |s + {k}| == |s| + if k in s then 0 else 1
    ensures |s - {k}| == |s| - if k in s then 1 else 0
  {
    if k in s { assert s + {k} == s; } else { assert s - {k} == s; }
  }

  /** A run of calls: the final tree and all answers. */
  ghost function TreeRun<V(!new)>(t: Tree<V>, m: map<Key, V>, ops: seq<Op<V>>): (Tree<V>, seq<Option<V>>)
    requires Agrees(t, m) && PrefixFreeRun(m, ops)
    decreases |ops|
  {
    if ops == [] then (t, [])
    else
      StepAgrees(t, m, ops[0]);
      var (t1, o) := TreeStep(t, ops[0]);
      var (t', os) := TreeRun(t1, MapStep(m, ops[0]), ops[1..]);
      (t', [o] + os)
  }

  ghost function MapRun<V>(m: map<Key, V>, ops: seq<Op<V>>): (map<Key, V>, seq<Option<V>>)
    decreases |ops|
  {
    if ops == [] then (m, [])
    else
      var (m', os) := MapRun(MapStep(m, ops[0]), ops[1..]);
      (m', [Lookup(m, ops[0].key)] + os)
  }

  /** Over every prefix-free run the tree gives the answers of a finite map and ends up
      holding the same entries, whatever bytes lie behind the keys. */
  lemma {:induction false} RunAgrees<V(!new)>(t: Tree<V>, m: map<Key, V>, ops: seq<Op<V>>)
    requires Agrees(t, m) && PrefixFreeRun(m, ops)
    ensures TreeRun(t, m, ops).1 == MapRun(m, ops).1
    ensures Agrees(TreeRun(t, m, ops).0, MapRun(m, ops).0)
    decreases |ops|
  {
    if ops != [] {
      hide Agrees, TreeStep;
      StepAgrees(t, m, ops[0]);
      RunAgrees(TreeStep(t, ops[0]).0, MapStep(m, ops[0]), ops[1..]);
    }
  }

  // ------------------------------------------------------------------- the object

  class ArtTreeObject<V(!new)> {
    var root: Option<Node<V>>
    var size: nat
    ghost var model: map<Key, V>

    ghost predicate Valid()
      reads this
    {
      Holds(root, model) && size == |model|
    }

    constructor ()
      ensures Valid() && model == map[]
    {
      root, size, model := None, 0, map[];
    }

    method Search(key: Key, junk: nat -> Byte) returns (r: Option<V>)
      requires Valid()
      ensures r == Lookup(model, key)
    {
      HoldsFind(root, model, key, junk);
      r := ArtTree.Search(root, key, junk);
    }

    method Insert(key: Key, v: V) returns (o: Option<V>)
      requires Valid() && PrefixFree(model, key)
      modifies this
      ensures Valid() && model == old(model)[key := v] && o == Lookup(old(model), key)
    {
      ghost var t := Tree(root, size);
      StepAgrees(t, model, Put(key, v));
      HoldsInsert(root, model, key, v);
      var (root', o') := InsertRoot(root, key, v);
      o := o';
      root := root';
      if o.None? { size := size + 1; }
      model := model[key := v];
    }

    method Delete(key: Key, junk: nat -> Byte) returns (o: Option<V>)
      requires Valid()
      modifies this
      ensures Valid() && model == old(model) - {key} && o == Lookup(old(model), key)
    {
      ghost var t := Tree(root, size);
      StepAgrees(t, model, Del(key, junk));
      HoldsDelete(root, model, key, junk);
      var (root', o') := DeleteRoot(root, key, junk);
      o := o';
      root := root';
      model := model - {key};
      if o.Some? { size := size - 1; }
    }

    /** Every entry once, in strictly ascending unsigned byte order, until the callback stops. */
    method Iter<S(!new)>(cb: (S, Key, V) -> (S, int), s: S) returns (s': S, res: int)
      requires Valid()
      ensures exists e :: Listing(e, model) && Walked(e, cb, s, s', res)
    {
      ghost var e: seq<Entry<V>> := [];
      if root.None? {
        s', res := s, 0;
        VisitWalks(e, cb, s);
        forall k, v ensures (k, v) in e <==> k in model && model[k] == v { assert !RootHas(root, k, v); }
      } else {
        EntriesOk(root.value, []);
        e := Entries(root.value);
        s', res := RecursiveIter(root.value, cb, s);
        forall k, v ensures (k, v) in e <==> k in model && model[k] == v { assert RootHas(root, k, v) <==> Has(root.value, k, v); }
      }
      assert Listing(e, model);
    }
  }

  /** `e` is the entries of the map in strictly ascending key order. */
  ghost predicate Listing<V(!new)>(e: seq<Entry<V>>, m: map<Key, V>)
  {
    Ascending(e) && forall k, v :: (k, v) in e <==> k in m && m[k] == v
  }
}
