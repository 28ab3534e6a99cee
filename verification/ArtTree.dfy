/**
 The adaptive radix tree (3rdparty/libart/art.c): search, insert, delete and iteration.

 Nodes are values here: where the source writes through a reference to a node, the
 operation below returns the node that takes its place.
 */
module ArtTree {
  import opened ArtLayout

  // ------------------------------------------------------------- what a tree means

  /** Key `k` is stored below `n` with value `v`. */
  ghost predicate Has<V(!new)>(n: Node<V>, k: Key, v: V)
    decreases n
  {
    if n.Leaf? then n.key == k && n.value == v
    else SizesOk(n) && exists c: Byte :: FindChild(n, c).Some? && Has(FindChild(n, c).value, k, v)
  }

  /** `n` is a well-formed node at `path`: all keys below start with `path`, an inner node
      has at least two children in a layout of the right size, and it stores the length
      and the first bytes of the prefix its keys share after `path`. */
  ghost predicate Wf<V(!new)>(n: Node<V>, path: Key)
    decreases n, 1
  {
    if n.Leaf? then path <= n.key
    else LayoutOk(n) && CountOk(n) && exists p: Key :: Inner(n, path, p)
  }

  ghost predicate Inner<V(!new)>(n: Node<V>, path: Key, p: Key)
    requires !n.Leaf? && LayoutOk(n)
    decreases n, 0
  {
    && |p| == n.h.plen && n.h.partial[..Min(MaxPrefix, |p|)] == p[..Min(MaxPrefix, |p|)]
    && forall c: Byte :: FindChild(n, c).Some? ==> Wf(FindChild(n, c).value, path + p + [c])
  }

  lemma InnerFacts<V(!new)>(n: Node<V>, path: Key, p: Key)
    requires !n.Leaf? && LayoutOk(n) && Inner(n, path, p)
    ensures SizesOk(n) && |n.h.partial| == MaxPrefix && n.h.plen == |p| && n.h.partial[..Min(MaxPrefix, |p|)] == p[..Min(MaxPrefix, |p|)]
  {
  }

  lemma {:induction false} HasStarts<V(!new)>(n: Node<V>, path: Key, k: Key, v: V)
    requires Wf(n, path) && Has(n, k, v)
    ensures path <= k
    decreases n
  {
    if !n.Leaf? {
      var p :| Inner(n, path, p);
      var c: Byte :| FindChild(n, c).Some? && Has(FindChild(n, c).value, k, v);
      HasStarts(FindChild(n, c).value, path + p + [c], k, v);
    }
  }

  /** A key below an inner node continues with the shared prefix and is found under its next byte. */
  lemma HasBranch<V(!new)>(n: Node<V>, path: Key, p: Key, k: Key, v: V)
    requires !n.Leaf? && LayoutOk(n) && Inner(n, path, p) && Has(n, k, v)
    ensures path + p <= k && |path + p| < |k|
    ensures FindChild(n, k[|path + p|]).Some? && Has(FindChild(n, k[|path + p|]).value, k, v)
  {
    var c: Byte :| FindChild(n, c).Some? && Has(FindChild(n, c).value, k, v);
    HasStarts(FindChild(n, c).value, path + p + [c], k, v);
    assert path + p + [c] <= k;
    assert k[|path + p|] == (path + p + [c])[|path + p|] == c;
    assert path + p == (path + p + [c])[..|path + p|];
  }

  lemma {:induction false} HasUnique<V(!new)>(n: Node<V>, path: Key, k: Key, v: V, w: V)
    requires Wf(n, path) && Has(n, k, v) && Has(n, k, w)
    ensures v == w
    decreases n
  {
    if !n.Leaf? {
      var p :| Inner(n, path, p);
      HasBranch(n, path, p, k, v);
      HasBranch(n, path, p, k, w);
      var c := k[|path + p|];
      HasUnique(FindChild(n, c).value, path + p + [c], k, v, w);
    }
  }

  /** `n'` holds what `n` holds, except that `key` now has the value `o`, or none. */
  ghost predicate Upd<V(!new)>(n: Node<V>, n': Node<V>, key: Key, o: Option<V>)
  {
    forall k, w :: Has(n', k, w) <==> if k == key then o == Some(w) else Has(n, k, w)
  }

  /** Replacing the child on the path of `key` carries the child's update upwards. */
  lemma UpdChild<V(!new)>(n: Node<V>, path: Key, p: Key, c: Byte, child': Node<V>, n': Node<V>, key: Key, o: Option<V>)
    requires !n.Leaf? && LayoutOk(n) && Inner(n, path, p) && FindChild(n, c).Some?
    requires !n'.Leaf? && SizesOk(n') && forall x: Byte :: FindChild(n', x) == if x == c then Some(child') else FindChild(n, x)
    requires Upd(FindChild(n, c).value, child', key, o) && path + p + [c] <= key
    ensures Upd(n, n', key, o)
  {
    InnerFacts(n, path, p);
    assert key[|path + p|] == c;
    hide LayoutOk, FindChild, Has, Wf, Inner, SizesOk;
    forall k, w ensures Has(n', k, w) <==> if k == key then o == Some(w) else Has(n, k, w) {
      UpdChildAt(n, path, p, c, child', n', key, o, k, w);
    }
  }

  lemma UpdChildAt<V(!new)>(n: Node<V>, path: Key, p: Key, c: Byte, child': Node<V>, n': Node<V>, key: Key, o: Option<V>, k: Key, w: V)
    requires !n.Leaf? && LayoutOk(n) && Inner(n, path, p) && SizesOk(n) && FindChild(n, c).Some?
    requires !n'.Leaf? && SizesOk(n') && forall x: Byte :: FindChild(n', x) == if x == c then Some(child') else FindChild(n, x)
    requires Upd(FindChild(n, c).value, child', key, o) && |path + p| < |key| && key[|path + p|] == c
    ensures Has(n', k, w) <==> if k == key then o == Some(w) else Has(n, k, w)
  {
    hide LayoutOk, FindChild, Wf, Inner, SizesOk;
    if Has(n', k, w) {
      var d: Byte :| FindChild(n', d).Some? && Has(FindChild(n', d).value, k, w);
      if d != c { StartsWith(n, path, p, d, k, w); } else if k != key { assert Has(FindChild(n, c).value, k, w); }
    }
    if k == key && o == Some(w) { assert Has(FindChild(n', c).value, k, w); }
    if k != key && Has(n, k, w) {
      var d: Byte :| FindChild(n, d).Some? && Has(FindChild(n, d).value, k, w);
      assert Has(FindChild(n', d).value, k, w);
    }
  }

  /** Keys below the child at byte `d` have that byte after the prefix. */
  lemma StartsWith<V(!new)>(n: Node<V>, path: Key, p: Key, d: Byte, k: Key, w: V)
    requires !n.Leaf? && LayoutOk(n) && Inner(n, path, p) && FindChild(n, d).Some? && Has(FindChild(n, d).value, k, w)
    ensures |path + p| < |k| && k[|path + p|] == d
  {
    ChildWf(n, path, p, d);
    hide LayoutOk, FindChild, Wf, Inner, Has;
    HasStarts(FindChild(n, d).value, path + p + [d], k, w);
    assert k[|path + p|] == (path + p + [d])[|path + p|];
  }

  lemma UpdAdded<V(!new)>(n: Node<V>, path: Key, p: Key, c: Byte, n': Node<V>, key: Key, v: V)
    requires !n.Leaf? && LayoutOk(n) && Inner(n, path, p) && FindChild(n, c).None?
    requires !n'.Leaf? && SizesOk(n') && forall x: Byte :: FindChild(n', x) == if x == c then Some(Leaf(key, v)) else FindChild(n, x)
    requires path + p + [c] <= key
    ensures Upd(n, n', key, Some(v))
  {
    InnerFacts(n, path, p);
    assert key[|path + p|] == c;
    hide LayoutOk, FindChild, Wf, Inner, SizesOk, Has;
    forall k, w ensures Has(n', k, w) <==> if k == key then Some(v) == Some(w) else Has(n, k, w) {
      UpdAddedAt(n, path, p, c, n', key, v, k, w);
    }
  }

  lemma UpdAddedAt<V(!new)>(n: Node<V>, path: Key, p: Key, c: Byte, n': Node<V>, key: Key, v: V, k: Key, w: V)
    requires !n.Leaf? && LayoutOk(n) && Inner(n, path, p) && SizesOk(n) && FindChild(n, c).None? && |path + p| < |key| && key[|path + p|] == c
    requires !n'.Leaf? && SizesOk(n') && forall x: Byte :: FindChild(n', x) == if x == c then Some(Leaf(key, v)) else FindChild(n, x)
    ensures Has(n', k, w) <==> if k == key then v == w else Has(n, k, w)
  {
    hide LayoutOk, FindChild, Wf, Inner, SizesOk;
    if Has(n', k, w) {
      var d: Byte :| FindChild(n', d).Some? && Has(FindChild(n', d).value, k, w);
      if d != c { StartsWith(n, path, p, d, k, w); }
    }
    if k == key && v == w { assert Has(FindChild(n', c).value, k, w); }
    if k != key && Has(n, k, w) {
      var d: Byte :| FindChild(n, d).Some? && Has(FindChild(n, d).value, k, w);
      assert Has(FindChild(n', d).value, k, w);
    }
  }

  lemma UpdRemoved<V(!new)>(n: Node<V>, path: Key, p: Key, c: Byte, n': Node<V>, key: Key, v: V)
    requires !n.Leaf? && LayoutOk(n) && Inner(n, path, p) && FindChild(n, c) == Some(Leaf(key, v))
    requires !n'.Leaf? && SizesOk(n') && forall x: Byte :: FindChild(n', x) == if x == c then None else FindChild(n, x)
    ensures Upd(n, n', key, None)
  {
    InnerFacts(n, path, p);
    assert Has(FindChild(n, c).value, key, v);
    StartsWith(n, path, p, c, key, v);
    hide LayoutOk, FindChild, Wf, Inner, SizesOk, Has;
    forall k, w ensures Has(n', k, w) <==> k != key && Has(n, k, w) {
      UpdRemovedAt(n, path, p, c, n', key, v, k, w);
    }
  }

  lemma UpdRemovedAt<V(!new)>(n: Node<V>, path: Key, p: Key, c: Byte, n': Node<V>, key: Key, v: V, k: Key, w: V)
    requires !n.Leaf? && LayoutOk(n) && Inner(n, path, p) && SizesOk(n) && |path + p| < |key| && key[|path + p|] == c
    requires FindChild(n, c) == Some(Leaf(key, v))
    requires !n'.Leaf? && SizesOk(n') && forall x: Byte :: FindChild(n', x) == if x == c then None else FindChild(n, x)
    ensures Has(n', k, w) <==> k != key && Has(n, k, w)
  {
    hide LayoutOk, FindChild, Wf, Inner, SizesOk;
    if Has(n', k, w) {
      var d: Byte :| FindChild(n', d).Some? && Has(FindChild(n', d).value, k, w);
      assert Has(FindChild(n, d).value, k, w);
      StartsWith(n, path, p, d, k, w);
    }
    if k != key && Has(n, k, w) {
      var d: Byte :| FindChild(n, d).Some? && Has(FindChild(n, d).value, k, w);
      assert Has(FindChild(n', d).value, k, w);
    }
  }

  /** Same children at the same total path: only the split between path and prefix moved. */
  lemma Reprefixed<V(!new)>(n: Node<V>, path: Key, p: Key, n': Node<V>, path': Key, p': Key)
    requires !n.Leaf? && LayoutOk(n) && CountOk(n) && Inner(n, path, p)
    requires !n'.Leaf? && LayoutOk(n') && CountOk(n') && forall x: Byte :: FindChild(n', x) == FindChild(n, x)
    requires path + p == path' + p' && |p'| == n'.h.plen && n'.h.partial[..Min(MaxPrefix, |p'|)] == p'[..Min(MaxPrefix, |p'|)]
    ensures Wf(n', path') && forall k, v :: Has(n', k, v) <==> Has(n, k, v)
  {
    forall c: Byte | FindChild(n', c).Some? ensures Wf(FindChild(n', c).value, path' + p' + [c]) {
      assert path + p + [c] == path' + p' + [c];
    }
    assert Inner(n', path', p');
    SameHas(n, n');
  }

  lemma SameHas<V(!new)>(n: Node<V>, n': Node<V>)
    requires !n.Leaf? && SizesOk(n) && !n'.Leaf? && SizesOk(n') && forall x: Byte :: FindChild(n', x) == FindChild(n, x)
    ensures forall k, v :: Has(n', k, v) <==> Has(n, k, v)
  {
    forall k, v ensures Has(n', k, v) <==> Has(n, k, v) {
      if Has(n', k, v) {
        var d: Byte :| FindChild(n', d).Some? && Has(FindChild(n', d).value, k, v);
        assert Has(FindChild(n, d).value, k, v);
      }
      if Has(n, k, v) {
        var d: Byte :| FindChild(n, d).Some? && Has(FindChild(n, d).value, k, v);
        assert Has(FindChild(n', d).value, k, v);
      }
    }
  }

  // ---------------------------------------------------------------- small helpers

  /** Length of the longest common prefix. */
  function CommonLen(a: Key, b: Key): (r: nat)
    ensures r <= |a| && r <= |b| && a[..r] == b[..r]
    ensures r < |a| && r < |b| ==> a[r] != b[r]
  {
    if |a| == 0 || |b| == 0 || a[0] != b[0] then 0
    else
      var r := 1 + CommonLen(a[1..], b[1..]);
      assert a[..r] == [a[0]] + a[1..][..r-1] && b[..r] == [b[0]] + b[1..][..r-1];
      r
  }

  /** How many of the stored prefix bytes agree with the key at `depth`. */
  function CheckPrefix(h: Header, key: Key, depth: nat): nat
    requires |h.partial| == MaxPrefix
  {
    if depth <= |key| then CommonLen(h.partial[..Min(MaxPrefix, h.plen)], key[depth..]) else 0
  }

  /** The byte of the key at `depth`; past its end, whatever is in memory there. */
  function ByteAt(key: Key, depth: nat, junk: nat -> Byte): Byte
  {
    if depth < |key| then key[depth] else junk(depth)
  }

  /** A stored key passes the prefix check of every node on its path. */
  lemma CheckPasses<V(!new)>(n: Node<V>, path: Key, p: Key, key: Key)
    requires !n.Leaf? && LayoutOk(n) && Inner(n, path, p) && path + p <= key
    ensures CheckPrefix(n.h, key, |path|) == Min(MaxPrefix, n.h.plen)
  {
    var m := Min(MaxPrefix, n.h.plen);
    var stored, rest := n.h.partial[..m], key[|path|..];
    assert p == (path + p)[|path|..] == key[|path|..|path + p|];
    assert rest[..m] == p[..m] == stored;
    assert forall j :: 0 <= j < m ==> stored[j] == rest[..m][j] == rest[j];
  }

  // --------------------------------------------------------------------- search

  ghost predicate RootHas<V(!new)>(root: Option<Node<V>>, k: Key, v: V)
  {
    root.Some? && Has(root.value, k, v)
  }

  /** Optimistic search below `n`: only stored prefix bytes are compared on the way down; the
      comparison with the leaf decides. */
  function Find<V(!new)>(n: Node<V>, key: Key, depth: nat, junk: nat -> Byte): Option<V>
    requires Grounded(n)
    decreases n
  {
    if n.Leaf? then if n.key == key then Some(n.value) else None
    else if n.h.plen > 0 && CheckPrefix(n.h, key, depth) != Min(MaxPrefix, n.h.plen) then None
    else
      var child := FindChild(n, ByteAt(key, depth + n.h.plen, junk));
      if child.None? then None else Find(child.value, key, depth + n.h.plen + 1, junk)
  }

  function FindRoot<V(!new)>(root: Option<Node<V>>, key: Key, junk: nat -> Byte): Option<V>
    requires root.Some? ==> Grounded(root.value)
  {
    if root.None? then None else Find(root.value, key, 0, junk)
  }

  /** The answer is what the tree holds for the key, whatever bytes lie behind the key's end. */
  lemma {:induction false} FindOk<V(!new)>(n: Node<V>, path: Key, key: Key, junk: nat -> Byte)
    requires Wf(n, path)
    ensures Grounded(n) && Was(n, key, Find(n, key, |path|, junk))
    decreases n, 1
  {
    WfGrounded(n, path);
    if !n.Leaf? {
      var p :| Inner(n, path, p);
      FindInner(n, path, p, key, junk);
    }
  }

  lemma {:induction false} FindInner<V(!new)>(n: Node<V>, path: Key, p: Key, key: Key, junk: nat -> Byte)
    requires !n.Leaf? && LayoutOk(n) && CountOk(n) && Inner(n, path, p) && Grounded(n)
    ensures Was(n, key, Find(n, key, |path|, junk))
    decreases n, 0
  {
    hide LayoutOk, CountOk, Inner, Wf, Has, FindChild, SizesOk, Grounded, CheckPrefix, ByteAt;
    InnerLength(n, path, p);
    var len := CheckPrefix(n.h, key, |path|);
    if n.h.plen > 0 && len != Min(MaxPrefix, n.h.plen) {
      Absent(n, path, p, key, len);
    } else {
      Narrows(n, path, p, key, junk);
      var c := ByteAt(key, |path| + n.h.plen, junk);
      if FindChild(n, c).Some? {
        ChildWf(n, path, p, c);
        FindOk(FindChild(n, c).value, path + p + [c], key, junk);
      }
    }
  }

  /** One step of the descent. */
  lemma FindStep<V(!new)>(n: Node<V>, key: Key, depth: nat, junk: nat -> Byte)
    requires Grounded(n)
    ensures n.Leaf? ==> Find(n, key, depth, junk) == if n.key == key then Some(n.value) else None
    ensures !n.Leaf? ==> SizesOk(n) && |n.h.partial| == MaxPrefix
    ensures !n.Leaf? && n.h.plen > 0 && CheckPrefix(n.h, key, depth) != Min(MaxPrefix, n.h.plen) ==> Find(n, key, depth, junk) == None
    ensures !n.Leaf? && (n.h.plen > 0 ==> CheckPrefix(n.h, key, depth) == Min(MaxPrefix, n.h.plen)) ==>
              var child := FindChild(n, ByteAt(key, depth + n.h.plen, junk));
              if child.None? then Find(n, key, depth, junk) == None
              else Grounded(child.value) && Find(n, key, depth, junk) == Find(child.value, key, depth + n.h.plen + 1, junk)
  {
    hide FindChild, CheckPrefix, ByteAt;
  }

  /** The loop that descends by one node at a time. */
  method Search<V(!new)>(root: Option<Node<V>>, key: Key, junk: nat -> Byte) returns (r: Option<V>)
    requires root.Some? ==> Wf(root.value, [])
    ensures root.Some? ==> Grounded(root.value)
    ensures r == FindRoot(root, key, junk)
    ensures forall v :: r == Some(v) <==> RootHas(root, key, v)
  {
    hide Find, Grounded, Wf, Has, FindChild, CheckPrefix, ByteAt, SizesOk;
    if root.None? { return None; }
    FindOk(root.value, [], key, junk);
    var n := root.value;
    var depth: nat := 0;
    while true
      invariant Grounded(n) && Find(n, key, depth, junk) == Find(root.value, key, 0, junk)
      decreases n
    {
      FindStep(n, key, depth, junk);
      if n.Leaf? {
        if n.key == key { return Some(n.value); }
        return None;
      }
      if n.h.plen > 0 {
        var len := CheckPrefix(n.h, key, depth);
        if len != Min(MaxPrefix, n.h.plen) { return None; }
        depth := depth + n.h.plen;
      }
      var child := FindChild(n, ByteAt(key, depth, junk));
      if child.None? { return None; }
      n := child.value;
      depth := depth + 1;
    }
  }

  lemma Absent<V(!new)>(n: Node<V>, path: Key, p: Key, key: Key, len: nat)
    requires !n.Leaf? && LayoutOk(n) && Inner(n, path, p)
    requires len == CheckPrefix(n.h, key, |path|) != Min(MaxPrefix, n.h.plen)
    ensures forall v :: !Has(n, key, v)
  {
    forall v ensures !Has(n, key, v) {
      if Has(n, key, v) {
        HasBranch(n, path, p, key, v);
        CheckPasses(n, path, p, key);
        assert false;
      }
    }
  }

  /** If the key is below `n`, it is below the child its next byte selects. */
  lemma Narrow<V(!new)>(n: Node<V>, path: Key, p: Key, key: Key, c: Byte, junk: nat -> Byte)
    requires !n.Leaf? && LayoutOk(n) && Inner(n, path, p) && c == ByteAt(key, |path + p|, junk)
    ensures forall v :: Has(n, key, v) <==> FindChild(n, c).Some? && Has(FindChild(n, c).value, key, v)
  {
    forall v ensures Has(n, key, v) <==> FindChild(n, c).Some? && Has(FindChild(n, c).value, key, v) {
      if Has(n, key, v) { HasBranch(n, path, p, key, v); }
    }
  }

  // ------------------------------------------------------------------- minimum

  ghost predicate Grounded<V(!new)>(n: Node<V>)
    decreases n
  {
    n.Leaf? || (LayoutOk(n) && CountOk(n) && forall c: Byte :: FindChild(n, c).Some? ==> Grounded(FindChild(n, c).value))
  }

  lemma {:induction false} WfGrounded<V(!new)>(n: Node<V>, path: Key)
    requires Wf(n, path)
    ensures Grounded(n)
    decreases n
  {
    if !n.Leaf? {
      var p :| Inner(n, path, p);
      forall c: Byte | FindChild(n, c).Some? ensures Grounded(FindChild(n, c).value) {
        WfGrounded(FindChild(n, c).value, path + p + [c]);
      }
    }
  }

  /** The leaf reached by always taking the smallest byte. */
  function Minimum<V(!new)>(n: Node<V>): (r: Node<V>)
    requires Grounded(n)
    ensures r.Leaf?
    decreases n
  {
    if n.Leaf? then n else FirstChildOk(n); Minimum(FirstChild(n))
  }

  lemma {:induction false} MinimumHas<V(!new)>(n: Node<V>)
    requires Grounded(n)
    ensures Has(n, Minimum(n).key, Minimum(n).value)
    decreases n
  {
    if !n.Leaf? {
      FirstChildOk(n);
      var c: Byte := Scan(n, 0);
      MinimumHas(FirstChild(n));
      assert FindChild(n, c).Some? && Has(FindChild(n, c).value, Minimum(n).key, Minimum(n).value);
    }
  }

  // -------------------------------------------------------------------- insert

  /** `key` is stored below `n` already, or no stored key is a prefix of the other. */
  ghost predicate Free<V(!new)>(n: Node<V>, key: Key)
  {
    forall k, v :: Has(n, k, v) ==> k == key || (!(k <= key) && !(key <= k))
  }

  function Zeros(): (r: seq<Byte>)
    ensures |r| == MaxPrefix
  {
    seq(MaxPrefix, _ => 0)
  }

  /** Overwrite the first `k` bytes of a prefix array. */
  function Store(dst: seq<Byte>, src: seq<Byte>, k: nat): (r: seq<Byte>)
    requires |dst| == MaxPrefix && k <= MaxPrefix && k <= |src|
    ensures |r| == MaxPrefix && r[..k] == src[..k]
  {
    src[..k] + dst[k..]
  }

  function EmptyNode4<V>(plen: nat, partial: seq<Byte>): Node<V>
  {
    Node4(Header(0, plen, partial), [], [])
  }

  /** A Node4 with two children, made by two calls of the source's add_child4. */
  function Pair<V>(plen: nat, partial: seq<Byte>, a: Byte, x: Node<V>, b: Byte, y: Node<V>): Node<V>
    requires |partial| == MaxPrefix
  {
    var n1 := AddArray(EmptyNode4(plen, partial), a, x);
    AddArray(n1, b, y)
  }

  lemma PairOk<V>(plen: nat, partial: seq<Byte>, a: Byte, x: Node<V>, b: Byte, y: Node<V>)
    requires |partial| == MaxPrefix && a != b
    ensures var n := Pair(plen, partial, a, x, b, y);
            && n.Node4? && LayoutOk(n) && CountOk(n) && SamePrefix(Header(0, plen, partial), n.h)
            && forall c: Byte :: FindChild(n, c) == if c == b then Some(y) else if c == a then Some(x) else None
  {
    hide Branches, AddArray, StructureOk, FindChild;
    var n1 := AddArray(EmptyNode4(plen, partial), a, x);
    FirstOfPair(plen, partial, a, x);
    AddArrayOk(n1, b, y);
    var n := AddArray(n1, b, y);
    AddArrayKind(n1, b, y);
    LayoutSizes(n);
    AddedBranches(n1, b, y, n);
  }

  lemma AddArrayKind<V>(n: Node<V>, c: Byte, x: Node<V>)
    requires n.Node4? && SizesOk(n) && |n.keys| < 4
    ensures AddArray(n, c, x).Node4?
  {
  }

  lemma LayoutSizes<V>(n: Node<V>)
    requires !n.Leaf? && LayoutOk(n)
    ensures SizesOk(n)
  {
  }

  lemma FirstOfPair<V>(plen: nat, partial: seq<Byte>, a: Byte, x: Node<V>)
    requires |partial| == MaxPrefix
    ensures var n := AddArray(EmptyNode4(plen, partial), a, x);
            && n.Node4? && LayoutOk(n) && SizesOk(n) && SamePrefix(Header(0, plen, partial), n.h) && |n.keys| == 1 == |Branches(n)|
            && forall c: Byte :: FindChild(n, c) == if c == a then Some(x) else None
  {
    var n0: Node<V> := EmptyNode4(plen, partial);
    assert Branches(n0) == {};
    assert forall c: Byte :: FindChild(n0, c) == None;
    AddArrayOk(n0, a, x);
    AddedBranches(n0, a, x, AddArray(n0, a, x));
    ArrayBranches(AddArray(n0, a, x));
  }

  /** A Node4 over two subtrees that part after `p`. */
  lemma Forked<V(!new)>(n: Node<V>, path: Key, p: Key, a: Byte, x: Node<V>, key: Key, v: V)
    requires n.Node4? && LayoutOk(n) && CountOk(n) && |p| == n.h.plen && n.h.partial[..Min(MaxPrefix, |p|)] == p[..Min(MaxPrefix, |p|)]
    requires path + p <= key && |path + p| < |key| && key[|path + p|] != a && Wf(x, path + p + [a])
    requires forall c: Byte :: FindChild(n, c) == if c == key[|path + p|] then Some(Leaf(key, v)) else if c == a then Some(x) else None
    ensures Wf(n, path) && Upd(x, n, key, Some(v))
  {
    var b := key[|path + p|];
    assert path + p + [b] <= key by { assert key[..|path + p| + 1] == path + p + [b]; }
    assert Inner(n, path, p);
    forall k, w ensures Has(n, k, w) <==> if k == key then Some(v) == Some(w) else Has(x, k, w) {
      if Has(x, k, w) {
        HasStarts(x, path + p + [a], k, w);
        assert k[|path + p|] == a;
        assert Has(FindChild(n, a).value, k, w);
      }
      if k == key && w == v { assert Has(FindChild(n, b).value, k, w); }
      if Has(n, k, w) { var d: Byte :| FindChild(n, d).Some? && Has(FindChild(n, d).value, k, w); }
    }
  }

  /** Where two keys of which neither is a prefix of the other part. */
  lemma Parting(a: Key, b: Key, depth: nat)
    requires depth <= |a| && depth <= |b| && a[..depth] == b[..depth] && !(a <= b) && !(b <= a)
    ensures var l := CommonLen(a[depth..], b[depth..]);
            depth + l < |a| && depth + l < |b| && a[depth + l] != b[depth + l] && a[..depth + l] == b[..depth + l]
    ensures var l := CommonLen(a[depth..], b[depth..]);
            && b[..depth] + b[depth..][..l] == b[..depth + l]
            && (depth + l < |a| ==> b[..depth] + b[depth..][..l] + [a[depth + l]] == a[..depth + l + 1])
  {
    var l := CommonLen(a[depth..], b[depth..]);
    assert a[..depth + l] == a[..depth] + a[depth..][..l] && b[..depth + l] == b[..depth] + b[depth..][..l];
    assert depth + l < |a|;
    assert depth + l < |b|;
    assert a[depth..][l] == a[depth + l] && b[depth..][l] == b[depth + l];
  }

  /** A leaf with another key becomes a Node4 over the old leaf and the new one. */
  function SplitLeaf<V(!new)>(l: Node<V>, key: Key, v: V, depth: nat): Node<V>
    requires l.Leaf? && depth <= |key| && key[..depth] <= l.key && !(l.key <= key) && !(key <= l.key)
  {
    Parting(l.key, key, depth);
    var len := CommonLen(l.key[depth..], key[depth..]);
    Pair(len, Store(Zeros(), key[depth..], Min(MaxPrefix, len)), l.key[depth + len], l, key[depth + len], Leaf(key, v))
  }

  lemma SplitLeafOk<V(!new)>(l: Node<V>, key: Key, v: V, depth: nat)
    requires l.Leaf? && depth <= |key| && key[..depth] <= l.key && !(l.key <= key) && !(key <= l.key)
    ensures Wf(SplitLeaf(l, key, v, depth), key[..depth]) && Upd(l, SplitLeaf(l, key, v, depth), key, Some(v))
  {
    hide LayoutOk, CountOk, Wf, Upd, Pair, FindChild, CommonLen, Store;
    Parting(l.key, key, depth);
    var len := CommonLen(l.key[depth..], key[depth..]);
    var path, p := key[..depth], key[depth..][..len];
    var a, m := l.key[depth + len], Min(MaxPrefix, len);
    var top := Store(Zeros(), key[depth..], m);
    LeafWf(l.key, l.value, path + p + [a]);
    StorePrefix(Zeros(), key[depth..], p, m);
    ForkedPair(len, top, path, p, a, l, key, v);
  }

  lemma ForkedPair<V(!new)>(len: nat, top: seq<Byte>, path: Key, p: Key, a: Byte, x: Node<V>, key: Key, v: V)
    requires |top| == MaxPrefix && len == |p| && top[..Min(MaxPrefix, len)] == p[..Min(MaxPrefix, len)]
    requires path + p <= key && |path + p| < |key| && key[|path + p|] != a && Wf(x, path + p + [a])
    ensures var n := Pair(len, top, a, x, key[|path + p|], Leaf(key, v)); Wf(n, path) && Upd(x, n, key, Some(v))
  {
    hide LayoutOk, CountOk, Wf, Upd, Pair, FindChild;
    PairOk(len, top, a, x, key[|path + p|], Leaf(key, v));
    Forked(Pair(len, top, a, x, key[|path + p|], Leaf(key, v)), path, p, a, x, key, v);
  }

  /** Where the key leaves the prefix of `n`: beyond the ten stored bytes the smallest
      leaf is consulted, and its comparison may run past the prefix. */
  function PrefixMismatch<V(!new)>(n: Node<V>, key: Key, depth: nat): nat
    requires !n.Leaf? && Grounded(n) && depth <= |key|
  {
    var i := CheckPrefix(n.h, key, depth);
    if i < Min(Min(MaxPrefix, n.h.plen), |key| - depth) then i
    else if n.h.plen > MaxPrefix then
      var l := Minimum(n).key;
      if depth + i <= |l| then i + CommonLen(l[depth + i..], key[depth + i..]) else i
    else i
  }

  /** The smallest leaf spells out the whole prefix. */
  lemma MinimumSpells<V(!new)>(n: Node<V>, path: Key, p: Key)
    requires !n.Leaf? && LayoutOk(n) && CountOk(n) && Inner(n, path, p)
    ensures Grounded(n) && path + p <= Minimum(n).key && |path + p| < |Minimum(n).key|
  {
    assert Wf(n, path);
    WfGrounded(n, path);
    MinimumHas(n);
    HasBranch(n, path, p, Minimum(n).key, Minimum(n).value);
  }

  /** `d` at or past the end of the prefix means that the key continues with all of it;
      otherwise `d` is the exact point of departure. */
  ghost predicate Departs(path: Key, p: Key, key: Key, d: nat)
  {
    if d >= |p| then path + p <= key
    else |path| + d <= |key| && path + p[..d] <= key && (|path| + d < |key| ==> key[|path| + d] != p[d])
  }

  lemma MismatchOk<V(!new)>(n: Node<V>, path: Key, p: Key, key: Key)
    requires !n.Leaf? && LayoutOk(n) && CountOk(n) && Inner(n, path, p) && path <= key
    ensures Grounded(n) && Departs(path, p, key, PrefixMismatch(n, key, |path|))
  {
    hide LayoutOk, CountOk, Inner, Grounded, Minimum, CommonLen, Departs, SizesOk, FindChild, Wf, Has;
    MinimumSpells(n, path, p);
    InnerFacts(n, path, p);
    var depth, m := |path|, Min(MaxPrefix, |p|);
    var i := CheckPrefix(n.h, key, depth);
    StoredPart(path, p, m, key, i);
    if i >= Min(m, |key| - depth) && |p| > MaxPrefix {
      var l := Minimum(n).key;
      var j := CommonLen(l[depth + i..], key[depth + i..]);
      BothAgree(path, p, l, key, i, j);
    }
  }

  lemma StoredPart(path: Key, p: Key, m: nat, key: Key, i: nat)
    requires m <= |p| && path <= key && i == CommonLen(p[..m], key[|path|..])
    ensures i <= m && |path| + i <= |key| && key[..|path| + i] == path + p[..i]
    ensures i < m || m == |p| ==> Departs(path, p, key, i)
  {
    assert key == path + key[|path|..];
    assert p[..m][..i] == p[..i];
    assert key[..|path| + i] == path + key[|path|..][..i];
    if i == |p| { assert p[..i] == p; }
  }

  lemma BothAgree(path: Key, p: Key, l: Key, key: Key, i: nat, j: nat)
    requires path + p <= l && path <= key && i <= |p| && |path| + i <= |key| && key[..|path| + i] == path + p[..i]
    requires j == CommonLen(l[|path| + i..], key[|path| + i..])
    ensures Departs(path, p, key, i + j)
  {
    hide CommonLen, Departs;
    var at := |path| + i;
    assert l[..at] == path + p[..i];
    AgreeUpTo(l, key, at, j);
    AgreeDeparts(path, p, l, key, i + j);
  }

  lemma AgreeUpTo(l: Key, key: Key, at: nat, j: nat)
    requires at <= |l| && at <= |key| && l[..at] == key[..at] && j == CommonLen(l[at..], key[at..])
    ensures at + j <= |l| && at + j <= |key| && l[..at + j] == key[..at + j]
    ensures at + j < |l| && at + j < |key| ==> l[at + j] != key[at + j]
  {
    assert key[..at + j] == key[..at] + key[at..][..j];
    assert l[..at + j] == l[..at] + l[at..][..j];
  }

  lemma AgreeDeparts(path: Key, p: Key, l: Key, key: Key, d: nat)
    requires path + p <= l && |path| + d <= |l| && |path| + d <= |key| && l[..|path| + d] == key[..|path| + d]
    requires |path| + d < |l| && |path| + d < |key| ==> l[|path| + d] != key[|path| + d]
    ensures Departs(path, p, key, d)
  {
    var e := |path| + d;
    if d >= |p| {
      assert path + p == l[..e][..|path + p|] == key[..e][..|path + p|] == key[..|path + p|];
    } else {
      assert l[e] == (path + p)[e] == p[d];
      assert path + p[..d] == (path + p)[..e] == l[..e];
    }
  }

  /** The byte at which a node is split off, and the prefix bytes it keeps: taken from the
      stored prefix if that is complete, from the smallest leaf otherwise. */
  function BranchByte<V(!new)>(n: Node<V>, depth: nat, diff: nat): Byte
    requires Splittable(n, depth, diff)
  {
    if n.h.plen <= MaxPrefix then n.h.partial[diff] else Minimum(n).key[depth + diff]
  }

  function RestBytes<V(!new)>(n: Node<V>, depth: nat, diff: nat): (r: seq<Byte>)
    requires Splittable(n, depth, diff)
    ensures |r| == MaxPrefix
  {
    var m := Min(MaxPrefix, n.h.plen - (diff + 1));
    if n.h.plen <= MaxPrefix then Store(n.h.partial, n.h.partial[diff + 1..], m)
    else Store(n.h.partial, Minimum(n).key[depth + diff + 1..], m)
  }

  ghost predicate Splittable<V(!new)>(n: Node<V>, depth: nat, diff: nat)
  {
    && !n.Leaf? && Grounded(n) && |n.h.partial| == MaxPrefix && diff < n.h.plen
    && (n.h.plen > MaxPrefix ==> depth + n.h.plen < |Minimum(n).key|)
  }

  /** A node whose prefix the key leaves after `diff` bytes gets a Node4 above it. */
  function SplitNode<V(!new)>(n: Node<V>, key: Key, v: V, depth: nat, diff: nat): Node<V>
    requires Splittable(n, depth, diff) && depth + diff < |key|
  {
    var below := WithPrefix(n, n.h.plen - (diff + 1), RestBytes(n, depth, diff));
    Pair(diff, Store(Zeros(), n.h.partial, Min(MaxPrefix, diff)),
         BranchByte(n, depth, diff), below, key[depth + diff], Leaf(key, v))
  }

  /** What the split stores: the bytes of the shared prefix before and after the branching byte. */
  lemma SplitBytes(partial: seq<Byte>, path: Key, p: Key, l: Key, diff: nat)
    requires |partial| == MaxPrefix && partial[..Min(MaxPrefix, |p|)] == p[..Min(MaxPrefix, |p|)]
    requires path + p <= l && diff < |p|
    ensures var k, m := Min(MaxPrefix, diff), Min(MaxPrefix, |p| - diff - 1);
            && partial[..k] == p[..diff][..k]
            && l[|path| + diff] == p[diff] && l[|path| + diff + 1..][..m] == p[diff + 1..][..m]
            && (|p| <= MaxPrefix ==> partial[diff] == p[diff] && partial[diff + 1..][..m] == p[diff + 1..][..m])
  {
    var k, m := Min(MaxPrefix, diff), Min(MaxPrefix, |p| - diff - 1);
    var stored := Min(MaxPrefix, |p|);
    assert partial[..k] == partial[..stored][..k] && p[..diff][..k] == p[..stored][..k];
    assert p == l[|path|..|path| + |p|];
    assert l[|path| + diff] == p[diff];
    SliceOf(l[|path|..], |p|, diff + 1, m);
    assert l[|path| + diff + 1..] == l[|path|..][diff + 1..] && l[|path|..][..|p|] == p;
    if |p| <= MaxPrefix {
      assert partial[..stored][diff] == p[diff] && p[..stored] == p;
      SliceOf(partial, stored, diff + 1, m);
    }
  }

  lemma SliceOf(a: Key, n: nat, at: nat, m: nat)
    requires at + m <= n <= |a|
    ensures a[at..][..m] == a[..n][at..][..m]
  {
    forall i | 0 <= i < m ensures a[at..][..m][i] == a[..n][at..][..m][i] { }
  }

  /** The old node under the branching byte, with the rest of its prefix. */
  lemma LowerHalf<V(!new)>(n: Node<V>, path: Key, p: Key, p1: Key, diff: nat, a: Byte, plen: nat, rest: seq<Byte>)
    requires !n.Leaf? && LayoutOk(n) && CountOk(n) && Inner(n, path, p) && diff < |p| && |rest| == MaxPrefix
    requires p1 == p[..diff] && a == p[diff] && plen == |p| - diff - 1
    requires var m := Min(MaxPrefix, |p| - diff - 1); rest[..m] == p[diff + 1..][..m]
    ensures Wf(WithPrefix(n, plen, rest), path + p1 + [a])
    ensures forall k, w :: Has(WithPrefix(n, plen, rest), k, w) <==> Has(n, k, w)
  {
    hide LayoutOk, CountOk, WithPrefix, Wf, Has, Inner, FindChild, SizesOk;
    var p2 := p[diff + 1..];
    WithPrefixOk(n, |p2|, rest);
    HalvesJoin(path, p, p1, diff, a, p2);
    Reprefixed(n, path, p, WithPrefix(n, |p2|, rest), path + p1 + [a], p2);
  }

  lemma HalvesJoin(path: Key, p: Key, p1: Key, diff: nat, a: Byte, p2: Key)
    requires diff < |p| && p1 == p[..diff] && a == p[diff] && p2 == p[diff + 1..]
    ensures path + p == path + p1 + [a] + p2
  {
    assert p == p1 + [a] + p2;
  }

  lemma StorePrefix(dst: seq<Byte>, src: seq<Byte>, p: Key, k: nat)
    requires |dst| == MaxPrefix && k <= MaxPrefix && k <= |src| && k <= |p| && src[..k] == p[..k]
    ensures Store(dst, src, k)[..k] == p[..k]
  {
  }

  lemma SplitParts<V(!new)>(n: Node<V>, path: Key, p: Key, p1: Key, diff: nat)
    requires !n.Leaf? && LayoutOk(n) && CountOk(n) && Inner(n, path, p) && diff < |p| && p1 == p[..diff]
    ensures Splittable(n, |path|, diff) && BranchByte(n, |path|, diff) == p[diff]
    ensures var k := Min(MaxPrefix, diff); n.h.partial[..k] == p1[..k]
    ensures var m := Min(MaxPrefix, |p| - diff - 1); RestBytes(n, |path|, diff)[..m] == p[diff + 1..][..m]
  {
    MinimumSpells(n, path, p);
    assert |n.h.partial| == MaxPrefix && n.h.plen == |p| && n.h.partial[..Min(MaxPrefix, |p|)] == p[..Min(MaxPrefix, |p|)];
    hide LayoutOk, CountOk, Inner, Grounded, Minimum;
    SplitBytes(n.h.partial, path, p, Minimum(n).key, diff);
  }

  ghost predicate Begins(key: Key, start: Key)
  {
    start <= key
  }

  /** All that the new Node4 above a split needs: `n2` is the old node below byte `a`, and
      `top` stores the prefix `p1` the two branches share. */
  ghost predicate Fork<V(!new)>(n: Node<V>, n2: Node<V>, path: Key, p1: Key, d: nat, at: nat, a: Byte, top: seq<Byte>, key: Key)
  {
    && d == |p1| && at == |path| + |p1| && |top| == MaxPrefix && top[..Min(MaxPrefix, d)] == p1[..Min(MaxPrefix, d)]
    && at < |key| && Begins(key, path + p1) && key[at] != a && Wf(n2, path + p1 + [a])
    && forall k, w :: Has(n2, k, w) <==> Has(n, k, w)
  }

  lemma Above<V(!new)>(n: Node<V>, n2: Node<V>, path: Key, p1: Key, d: nat, at: nat, a: Byte, top: seq<Byte>, key: Key, v: V)
    requires Fork(n, n2, path, p1, d, at, a, top, key)
    ensures |top| == MaxPrefix && at < |key|
    ensures Wf(Pair(d, top, a, n2, key[at], Leaf(key, v)), path) && Upd(n, Pair(d, top, a, n2, key[at], Leaf(key, v)), key, Some(v))
  {
    PairOk(d, top, a, n2, key[at], Leaf(key, v));
    hide LayoutOk, CountOk, Wf, Has, Pair, FindChild;
    Forked(Pair(d, top, a, n2, key[at], Leaf(key, v)), path, p1, a, n2, key, v);
  }

  lemma SplitUpper<V(!new)>(n: Node<V>, path: Key, p: Key, p1: Key, diff: nat)
    requires !n.Leaf? && LayoutOk(n) && CountOk(n) && Inner(n, path, p) && diff < |p| && p1 == p[..diff]
    ensures Splittable(n, |path|, diff) && BranchByte(n, |path|, diff) == p[diff]
    ensures Store(Zeros(), n.h.partial, Min(MaxPrefix, diff))[..Min(MaxPrefix, diff)] == p1[..Min(MaxPrefix, diff)]
  {
    hide LayoutOk, CountOk, Inner, BranchByte, Store, FindChild, SizesOk;
    InnerFacts(n, path, p);
    SplitParts(n, path, p, p1, diff);
    StorePrefix(Zeros(), n.h.partial, p1, Min(MaxPrefix, diff));
  }

  lemma SplitLower<V(!new)>(n: Node<V>, path: Key, p: Key, p1: Key, diff: nat)
    requires !n.Leaf? && LayoutOk(n) && CountOk(n) && Inner(n, path, p) && diff < |p| && p1 == p[..diff]
    ensures Splittable(n, |path|, diff)
    ensures Wf(WithPrefix(n, n.h.plen - (diff + 1), RestBytes(n, |path|, diff)), path + p1 + [BranchByte(n, |path|, diff)])
    ensures forall k, w :: Has(WithPrefix(n, n.h.plen - (diff + 1), RestBytes(n, |path|, diff)), k, w) <==> Has(n, k, w)
  {
    hide LayoutOk, CountOk, Wf, Has, Inner, WithPrefix, BranchByte, RestBytes, FindChild, SizesOk;
    InnerFacts(n, path, p);
    SplitParts(n, path, p, p1, diff);
    LowerHalf(n, path, p, p1, diff, BranchByte(n, |path|, diff), n.h.plen - (diff + 1), RestBytes(n, |path|, diff));
  }

  lemma SplitFork<V(!new)>(n: Node<V>, path: Key, p: Key, p1: Key, key: Key, diff: nat)
    requires !n.Leaf? && LayoutOk(n) && CountOk(n) && Inner(n, path, p)
    requires diff < |p| && p1 == p[..diff] && |path| + diff < |key| && Begins(key, path + p1) && key[|path| + diff] != p[diff]
    ensures Splittable(n, |path|, diff)
    ensures Fork(n, WithPrefix(n, n.h.plen - (diff + 1), RestBytes(n, |path|, diff)), path, p1, diff, |path| + diff,
                 BranchByte(n, |path|, diff), Store(Zeros(), n.h.partial, Min(MaxPrefix, diff)), key)
  {
    hide LayoutOk, CountOk, Wf, Has, Inner, WithPrefix, BranchByte, RestBytes, Store, FindChild, SizesOk, Begins, Grounded, Minimum;
    SplitUpper(n, path, p, p1, diff);
    SplitLower(n, path, p, p1, diff);
  }

  lemma SplitTop<V(!new)>(n: Node<V>, path: Key, p1: Key, key: Key, v: V, diff: nat)
    requires Splittable(n, |path|, diff) && |path| + diff < |key|
    requires Fork(n, WithPrefix(n, n.h.plen - (diff + 1), RestBytes(n, |path|, diff)), path, p1, diff, |path| + diff,
                  BranchByte(n, |path|, diff), Store(Zeros(), n.h.partial, Min(MaxPrefix, diff)), key)
    ensures Wf(SplitNode(n, key, v, |path|, diff), path) && Upd(n, SplitNode(n, key, v, |path|, diff), key, Some(v))
  {
    hide Fork, Wf, Upd, Pair, WithPrefix, BranchByte, RestBytes, Store, LayoutOk, CountOk, Inner, Grounded, Minimum;
    Above(n, WithPrefix(n, n.h.plen - (diff + 1), RestBytes(n, |path|, diff)), path, p1, diff, |path| + diff,
          BranchByte(n, |path|, diff), Store(Zeros(), n.h.partial, Min(MaxPrefix, diff)), key, v);
  }

  lemma SplitNodeOk<V(!new)>(n: Node<V>, path: Key, p: Key, p1: Key, key: Key, v: V, diff: nat)
    requires !n.Leaf? && LayoutOk(n) && CountOk(n) && Inner(n, path, p)
    requires diff < |p| && p1 == p[..diff] && |path| + diff < |key| && Begins(key, path + p1) && key[|path| + diff] != p[diff]
    ensures Splittable(n, |path|, diff)
    ensures Wf(SplitNode(n, key, v, |path|, diff), path) && Upd(n, SplitNode(n, key, v, |path|, diff), key, Some(v))
  {
    hide Fork, Wf, Upd, WithPrefix, BranchByte, RestBytes, Store, LayoutOk, CountOk, Inner, Grounded, Minimum, SplitNode, Begins;
    SplitFork(n, path, p, p1, key, diff);
    SplitTop(n, path, p1, key, v, diff);
  }

  /** The node reached by `key[..depth]`, below which no key is a proper prefix of `key` or extends it. */
  ghost predicate Insertable<V(!new)>(n: Node<V>, key: Key, depth: nat)
  {
    depth <= |key| && Wf(n, key[..depth]) && Free(n, key)
  }

  /** What the next step of an insertion below `n` relies on: every byte it reads exists. */
  ghost predicate Ready<V(!new)>(n: Node<V>, key: Key, depth: nat)
    requires !n.Leaf? && depth <= |key|
  {
    && Grounded(n)
    && (n.h.plen > 0 && PrefixMismatch(n, key, depth) < n.h.plen ==> Splittable(n, depth, PrefixMismatch(n, key, depth)) && depth + PrefixMismatch(n, key, depth) < |key|)
    && (n.h.plen == 0 || PrefixMismatch(n, key, depth) >= n.h.plen ==> Descends(n, key, depth + n.h.plen))
  }

  lemma InsertReady<V(!new)>(n: Node<V>, key: Key, depth: nat)
    requires !n.Leaf? && Insertable(n, key, depth)
    ensures Ready(n, key, depth)
  {
    hide Ready;
    var path := key[..depth];
    assert Wf(n, path);
    var p :| Inner(n, path, p);
    ReadyAt(n, path, p, key);
  }

  lemma ReadyAt<V(!new)>(n: Node<V>, path: Key, p: Key, key: Key)
    requires !n.Leaf? && LayoutOk(n) && CountOk(n) && Inner(n, path, p) && path <= key && Free(n, key)
    ensures Ready(n, key, |path|)
  {
    hide LayoutOk, CountOk, Wf, Has, Inner, Grounded, Minimum, Free, Descends, PrefixMismatch, Splittable;
    InnerFacts(n, path, p);
    MinimumSpells(n, path, p);
    MismatchOk(n, path, p, key);
    var d := PrefixMismatch(n, key, |path|);
    hide Departs;
    GoesOn(n, path, p, key, d);
    if d < |p| { SplitParts(n, path, p, p[..d], d); }
    if d >= |p| { BelowOk(n, path, p, key, d); }
  }

  /** The key does not end inside the prefix, or it would be a prefix of the smallest key below. */
  lemma GoesOn<V(!new)>(n: Node<V>, path: Key, p: Key, key: Key, d: nat)
    requires !n.Leaf? && LayoutOk(n) && CountOk(n) && Inner(n, path, p) && Free(n, key)
    requires Departs(path, p, key, d)
    ensures if d < |p| then |path| + d < |key| else |path| + |p| < |key|
  {
    MinimumSpells(n, path, p);
    MinimumHas(n);
    var l := Minimum(n).key;
    hide LayoutOk, CountOk, Inner, Grounded, Minimum, Has;
    assert if d < |p| then path + p[..d] <= l else path + p <= l;
  }

  /** The key runs through the whole prefix and goes on into a child, if there is one. */
  ghost predicate Descends<V(!new)>(n: Node<V>, key: Key, depth: nat)
    requires !n.Leaf?
  {
    && depth < |key| && SizesOk(n)
    && (FindChild(n, key[depth]).Some? ==> Insertable(FindChild(n, key[depth]).value, key, depth + 1))
  }

  lemma ChildPath(path: Key, p: Key, key: Key)
    requires path + p <= key && |path| + |p| < |key|
    ensures path + p + [key[|path| + |p|]] == key[..|path| + |p| + 1]
  {
  }

  lemma BelowOk<V(!new)>(n: Node<V>, path: Key, p: Key, key: Key, m: nat)
    requires !n.Leaf? && LayoutOk(n) && Inner(n, path, p) && Departs(path, p, key, m) && m >= |p| && |path| + |p| < |key| && Free(n, key)
    ensures Descends(n, key, |path| + |p|)
  {
    hide Free, Wf, LayoutOk, Inner, FindChild, SizesOk, Departs, Has;
    InnerFacts(n, path, p);
    var c := key[|path| + |p|];
    DepartsPast(path, p, key, m);
    ChildPath(path, p, key);
    if FindChild(n, c).Some? {
      ChildWf(n, path, p, c);
      FreeBelow(n, c, key);
    }
  }

  lemma ChildWf<V(!new)>(n: Node<V>, path: Key, p: Key, c: Byte)
    requires !n.Leaf? && LayoutOk(n) && Inner(n, path, p) && FindChild(n, c).Some?
    ensures Wf(FindChild(n, c).value, path + p + [c])
  {
  }

  lemma FreeBelow<V(!new)>(n: Node<V>, c: Byte, key: Key)
    requires !n.Leaf? && SizesOk(n) && FindChild(n, c).Some? && Free(n, key)
    ensures Free(FindChild(n, c).value, key)
  {
    var child := FindChild(n, c).value;
    forall k, w | Has(child, k, w) ensures k == key || (!(k <= key) && !(key <= k)) { assert Has(n, k, w); }
  }

  lemma LeafReady<V(!new)>(n: Node<V>, key: Key, depth: nat)
    requires n.Leaf? && Insertable(n, key, depth) && n.key != key
    ensures key[..depth] <= n.key && !(n.key <= key) && !(key <= n.key)
  {
    assert Has(n, n.key, n.value);
  }

  lemma NodeReady<V(!new)>(n: Node<V>, path: Key)
    requires !n.Leaf? && Wf(n, path)
    ensures LayoutOk(n) && CountOk(n)
  {
  }

  /** Insert below `n`, which sits at depth `depth` on the key's path; also the old value. */
  function Insert<V(!new)>(n: Node<V>, key: Key, v: V, depth: nat): (Node<V>, Option<V>)
    requires Insertable(n, key, depth)
    decreases n, 1
  {
    hide LayoutOk, CountOk, SizesOk, FindChild, Inner, Wf, Has, Free, Grounded, Minimum, Splittable, Descends, PrefixMismatch;
    if n.Leaf? then
      if n.key == key then (Leaf(n.key, v), Some(n.value))
      else
        LeafReady(n, key, depth);
        (SplitLeaf(n, key, v, depth), None)
    else
      InsertReady(n, key, depth);
      NodeReady(n, key[..depth]);
      if n.h.plen > 0 then
        var diff := PrefixMismatch(n, key, depth);
        if diff >= n.h.plen then InsertBelow(n, key, v, depth + n.h.plen)
        else (SplitNode(n, key, v, depth, diff), None)
      else InsertBelow(n, key, v, depth)
  }

  /** The key has matched the prefix of `n`: go on into its child, or become one. */
  function InsertBelow<V(!new)>(n: Node<V>, key: Key, v: V, depth: nat): (Node<V>, Option<V>)
    requires !n.Leaf? && LayoutOk(n) && CountOk(n) && Descends(n, key, depth)
    decreases n, 0
  {
    var c := key[depth];
    var child := FindChild(n, c);
    if child.Some? then
      var (child', o) := Insert(child.value, key, v, depth + 1);
      (SetChild(n, c, child'), o)
    else (AddChild(n, c, Leaf(key, v)), None)
  }

  /** The old value returned is the one the tree held for the key, if any. */
  ghost predicate Was<V(!new)>(n: Node<V>, key: Key, o: Option<V>)
  {
    forall w :: o == Some(w) <==> Has(n, key, w)
  }

  /** What an insertion at `path` achieves. */
  ghost predicate Inserted<V(!new)>(n: Node<V>, path: Key, key: Key, v: V, r: (Node<V>, Option<V>))
  {
    Wf(r.0, path) && Upd(n, r.0, key, Some(v)) && Was(n, key, r.1)
  }

  lemma {:induction false} InsertOk<V(!new)>(n: Node<V>, key: Key, v: V, depth: nat)
    requires Insertable(n, key, depth)
    ensures Inserted(n, key[..depth], key, v, Insert(n, key, v, depth))
    decreases n, 2
  {
    if n.Leaf? {
      InsertLeaf(n, key, v, depth);
    } else {
      var path := key[..depth];
      assert Wf(n, path);
      var p :| Inner(n, path, p);
      hide Inserted, Insert;
      InsertInner(n, key, v, depth, p);
    }
  }

  lemma InsertLeaf<V(!new)>(n: Node<V>, key: Key, v: V, depth: nat)
    requires n.Leaf? && Insertable(n, key, depth)
    ensures Inserted(n, key[..depth], key, v, Insert(n, key, v, depth))
  {
    hide LayoutOk, CountOk, Inner, SplitLeaf, Free, SizesOk, FindChild;
    if n.key != key {
      LeafReady(n, key, depth);
      SplitLeafOk(n, key, v, depth);
    }
  }

  lemma {:induction false} InsertInner<V(!new)>(n: Node<V>, key: Key, v: V, depth: nat, p: Key)
    requires !n.Leaf? && Insertable(n, key, depth) && LayoutOk(n) && CountOk(n) && Inner(n, key[..depth], p)
    ensures Inserted(n, key[..depth], key, v, Insert(n, key, v, depth))
    decreases n, 1
  {
    hide LayoutOk, CountOk, Inner, Wf, Has, Free, Grounded, Minimum, Splittable, Descends, PrefixMismatch, SplitNode, InsertBelow, Inserted, Departs;
    var path := key[..depth];
    InsertReady(n, key, depth);
    MismatchOk(n, path, p, key);
    InnerFacts(n, path, p);
    var d := PrefixMismatch(n, key, depth);
    if |p| > 0 && d < |p| {
      SplitDeparts(n, path, p, key, v, d);
    } else {
      DepartsPast(path, p, key, d);
      InsertBelowOk(n, path, p, key, v);
    }
  }

  lemma DepartsPast(path: Key, p: Key, key: Key, d: nat)
    requires d >= |p| && Departs(path, p, key, d)
    ensures path + p <= key
  {
  }

  lemma SplitDeparts<V(!new)>(n: Node<V>, path: Key, p: Key, key: Key, v: V, d: nat)
    requires !n.Leaf? && LayoutOk(n) && CountOk(n) && Inner(n, path, p)
    requires d < |p| && |path| + d < |key| && Departs(path, p, key, d)
    ensures Splittable(n, |path|, d) && Inserted(n, path, key, v, (SplitNode(n, key, v, |path|, d), None))
  {
    hide LayoutOk, CountOk, Inner, Wf, Upd, Has, Grounded, Minimum, SplitNode, Splittable;
    SplitNodeOk(n, path, p, p[..d], key, v, d);
    forall w ensures !Has(n, key, w) {
      if Has(n, key, w) {
        HasBranch(n, path, p, key, w);
        PrefixByte(path, p, key, d);
        assert false;
      }
    }
  }

  lemma PrefixByte(path: Key, p: Key, key: Key, d: nat)
    requires path + p <= key && d < |p|
    ensures |path| + d < |key| && key[|path| + d] == p[d]
  {
    assert (path + p)[|path| + d] == p[d];
  }

  lemma {:induction false} InsertBelowOk<V(!new)>(n: Node<V>, path: Key, p: Key, key: Key, v: V)
    requires !n.Leaf? && LayoutOk(n) && CountOk(n) && Inner(n, path, p) && path + p <= key
    requires Descends(n, key, |path| + |p|)
    ensures Inserted(n, path, key, v, InsertBelow(n, key, v, |path| + |p|))
    decreases n, 0
  {
    hide LayoutOk, CountOk, Inner, Wf, Upd, Has, Free, Was, FindChild, SizesOk, Insert, Inserted;
    var d := |path| + |p|;
    var c := key[d];
    ChildPath(path, p, key);
    var child := FindChild(n, c);
    if child.Some? {
      InsertOk(child.value, key, v, d + 1);
      var (child', o) := Insert(child.value, key, v, d + 1);
      InsertReplaces(n, path, p, c, key, v, child', o);
    } else {
      InsertAdds(n, path, p, c, key, v);
    }
  }

  lemma InsertReplaces<V(!new)>(n: Node<V>, path: Key, p: Key, c: Byte, key: Key, v: V, child': Node<V>, o: Option<V>)
    requires !n.Leaf? && LayoutOk(n) && CountOk(n) && Inner(n, path, p) && FindChild(n, c).Some? && path + p + [c] <= key
    requires Inserted(FindChild(n, c).value, path + p + [c], key, v, (child', o))
    ensures Inserted(n, path, key, v, (SetChild(n, c, child'), o))
  {
    hide LayoutOk, CountOk, Inner, Wf, Upd, Has, Was, FindChild, SizesOk, SetChild;
    InnerFacts(n, path, p);
    SetChildOk(n, c, child');
    LayoutSizes(SetChild(n, c, child'));
    WfReplaced(n, path, p, c, child', SetChild(n, c, child'));
    UpdChild(n, path, p, c, child', SetChild(n, c, child'), key, Some(v));
    WasChild(n, path, p, key, c, o);
  }

  lemma InsertAdds<V(!new)>(n: Node<V>, path: Key, p: Key, c: Byte, key: Key, v: V)
    requires !n.Leaf? && LayoutOk(n) && CountOk(n) && Inner(n, path, p) && SizesOk(n) && FindChild(n, c).None? && path + p + [c] <= key
    ensures Inserted(n, path, key, v, (AddChild(n, c, Leaf(key, v)), None))
  {
    var n' := AddChild(n, c, Leaf(key, v));
    AddChildOk(n, c, Leaf(key, v));
    hide LayoutOk, CountOk, Inner, Wf, Upd, Has, FindChild, SizesOk, AddChild;
    assert Wf(Leaf(key, v), path + p + [c]) by { LeafWf(key, v, path + p + [c]); }
    WfAdded(n, path, p, c, Leaf(key, v), n');
    LayoutSizes(n');
    UpdAdded(n, path, p, c, n', key, v);
    WasNot(n, path, p, key, c);
  }

  lemma LeafWf<V(!new)>(key: Key, v: V, path: Key)
    requires path <= key
    ensures Wf(Leaf(key, v), path)
  {
  }

  lemma WfReplaced<V(!new)>(n: Node<V>, path: Key, p: Key, c: Byte, child': Node<V>, n': Node<V>)
    requires !n.Leaf? && LayoutOk(n) && Inner(n, path, p) && Wf(child', path + p + [c])
    requires !n'.Leaf? && LayoutOk(n') && CountOk(n') && n'.h == n.h
    requires forall x: Byte :: FindChild(n', x) == if x == c then Some(child') else FindChild(n, x)
    ensures Wf(n', path)
  {
    LayoutSizes(n');
    hide LayoutOk, CountOk, FindChild, SizesOk;
    forall x: Byte | FindChild(n', x).Some? ensures Wf(FindChild(n', x).value, path + p + [x]) {
      if x != c { ChildWf(n, path, p, x); }
    }
    assert Inner(n', path, p);
  }

  lemma WfAdded<V(!new)>(n: Node<V>, path: Key, p: Key, c: Byte, child: Node<V>, n': Node<V>)
    requires !n.Leaf? && LayoutOk(n) && Inner(n, path, p) && Wf(child, path + p + [c])
    requires Added(n, c, child, n') && CountOk(n')
    ensures Wf(n', path)
  {
    assert Inner(n', path, p);
  }

  lemma WasChild<V(!new)>(n: Node<V>, path: Key, p: Key, key: Key, c: Byte, o: Option<V>)
    requires !n.Leaf? && LayoutOk(n) && Inner(n, path, p) && path + p + [c] <= key
    requires FindChild(n, c).Some? && Was(FindChild(n, c).value, key, o)
    ensures Was(n, key, o)
  {
    InnerFacts(n, path, p);
    hide LayoutOk, Inner, FindChild;
    assert key[|path + p|] == c;
    forall w ensures Has(n, key, w) <==> Has(FindChild(n, c).value, key, w) {
      if Has(n, key, w) { HasBranch(n, path, p, key, w); }
    }
  }

  lemma WasNot<V(!new)>(n: Node<V>, path: Key, p: Key, key: Key, c: Byte)
    requires !n.Leaf? && LayoutOk(n) && Inner(n, path, p) && path + p + [c] <= key && FindChild(n, c).None?
    ensures Was(n, key, None)
  {
    hide LayoutOk, Inner, FindChild, Has;
    assert key[|path + p|] == c;
    forall w ensures !Has(n, key, w) {
      if Has(n, key, w) { HasBranch(n, path, p, key, w); assert false; }
    }
  }

  // -------------------------------------------------------------------- delete

  /** The stored prefix of a node that absorbs its parent: the parent's prefix, the byte
      that led to it, and its own prefix, cut off after ten bytes. */
  function Joined(h: Header, c: Byte, sub: Header): (r: seq<Byte>)
    requires |h.partial| == |sub.partial| == MaxPrefix
    ensures |r| == MaxPrefix
  {
    var a := if h.plen < MaxPrefix then h.partial[h.plen := c] else h.partial;
    var prefix := if h.plen < MaxPrefix then h.plen + 1 else h.plen;
    if prefix < MaxPrefix then
      var subPrefix := Min(sub.plen, MaxPrefix - prefix);
      var b := a[..prefix] + sub.partial[..subPrefix] + a[prefix + subPrefix..];
      Store(sub.partial, b, Min(prefix + subPrefix, MaxPrefix))
    else Store(sub.partial, a, Min(prefix, MaxPrefix))
  }

  lemma JoinedOk(h: Header, c: Byte, sub: Header, p: Key, q: Key)
    requires |h.partial| == |sub.partial| == MaxPrefix && h.plen == |p| && sub.plen == |q|
    requires h.partial[..Min(MaxPrefix, |p|)] == p[..Min(MaxPrefix, |p|)]
    requires sub.partial[..Min(MaxPrefix, |q|)] == q[..Min(MaxPrefix, |q|)]
    ensures var all := p + [c] + q; Joined(h, c, sub)[..Min(MaxPrefix, |all|)] == all[..Min(MaxPrefix, |all|)]
  {
    var all := p + [c] + q;
    if |p| < MaxPrefix {
      var a := h.partial[|p| := c];
      assert h.partial[..Min(MaxPrefix, |p|)] == p;
      assert a[..|p| + 1] == p + [c];
      var k := Min(|q|, MaxPrefix - |p| - 1);
      assert sub.partial[..k] == sub.partial[..Min(MaxPrefix, |q|)][..k] == q[..k];
      if |p| + 1 < MaxPrefix {
        var b := a[..|p| + 1] + sub.partial[..k] + a[|p| + 1 + k..];
        assert b[..|p| + 1 + k] == p + [c] + q[..k] == all[..|p| + 1 + k];
      } else {
        assert a[..MaxPrefix] == p + [c] == all[..MaxPrefix];
      }
    } else {
      assert all[..MaxPrefix] == p[..MaxPrefix];
    }
  }

  /** A Node4 left with a single child gives way to that child. */
  function Collapse<V>(n: Node<V>): Node<V>
    requires !n.Leaf? && LayoutOk(n)
    requires n.Node4? && |n.keys| == 1 && !n.kids[0].Leaf? ==> LayoutOk(n.kids[0])
  {
    if n.Node4? && |n.keys| == 1 then
      var child := n.kids[0];
      if child.Leaf? then child
      else WithPrefix(child, child.h.plen + n.h.plen + 1, Joined(n.h, n.keys[0], child.h))
    else n
  }

  lemma OnlyChild<V(!new)>(n: Node<V>)
    requires n.Node4? && LayoutOk(n) && |n.keys| == 1
    ensures forall c: Byte :: FindChild(n, c) == if c == n.keys[0] then Some(n.kids[0]) else None
    ensures forall k, w :: Has(n, k, w) <==> Has(n.kids[0], k, w)
  {
    var c := n.keys[0];
    forall k, w ensures Has(n, k, w) <==> Has(n.kids[0], k, w) {
      if Has(n.kids[0], k, w) { assert FindChild(n, c).Some? && Has(FindChild(n, c).value, k, w); }
    }
  }

  /** The child that takes its parent's place keeps the keys and a correct prefix. */
  lemma CollapseOk<V(!new)>(n: Node<V>, path: Key, p: Key)
    requires n.Node4? && LayoutOk(n) && |n.keys| == 1 && Inner(n, path, p)
    ensures !n.kids[0].Leaf? ==> LayoutOk(n.kids[0])
    ensures Wf(Collapse(n), path) && forall k, w :: Has(Collapse(n), k, w) <==> Has(n, k, w)
  {
    OnlyChild(n);
    InnerFacts(n, path, p);
    var c, child := n.keys[0], n.kids[0];
    ChildWf(n, path, p, c);
    if child.Leaf? {
      assert path <= path + p + [c];
    } else {
      CollapseInner(n, path, p, c, child);
    }
  }

  lemma CollapseInner<V(!new)>(n: Node<V>, path: Key, p: Key, c: Byte, child: Node<V>)
    requires n.Node4? && LayoutOk(n) && |n.keys| == 1 && Inner(n, path, p)
    requires c == n.keys[0] && child == n.kids[0] && !child.Leaf? && Wf(child, path + p + [c])
    ensures LayoutOk(child)
    ensures Wf(Collapse(n), path) && forall k, w :: Has(Collapse(n), k, w) <==> Has(child, k, w)
  {
    var q :| Inner(child, path + p + [c], q);
    CollapseAt(n, path, p, c, child, q);
  }

  lemma CollapseAt<V(!new)>(n: Node<V>, path: Key, p: Key, c: Byte, child: Node<V>, q: Key)
    requires n.Node4? && LayoutOk(n) && |n.keys| == 1 && Inner(n, path, p)
    requires c == n.keys[0] && |n.kids| > 0 && child == n.kids[0] && !child.Leaf? && LayoutOk(child) && CountOk(child) && Inner(child, path + p + [c], q)
    ensures Wf(Collapse(n), path) && forall k, w :: Has(Collapse(n), k, w) <==> Has(child, k, w)
  {
    hide LayoutOk, CountOk, Inner, Wf, Has, FindChild, SizesOk, Joined;
    InnerFacts(n, path, p);
    var path' := path + p + [c];
    InnerFacts(child, path', q);
    JoinedOk(n.h, c, child.h, p, q);
    var all := p + [c] + q;
    WithPrefixOk(child, |all|, Joined(n.h, c, child.h));
    assert path' + q == path + all;
    Reprefixed(child, path', q, Collapse(n), path, all);
  }

  /** Delete below `n`; also the old value. */
  function Delete<V(!new)>(n: Node<V>, key: Key, depth: nat, junk: nat -> Byte): (r: (Option<Node<V>>, Option<V>))
    requires Grounded(n)
    ensures !n.Leaf? ==> r.0.Some?
    decreases n, 1
  {
    if n.Leaf? then
      if n.key == key then (None, Some(n.value)) else (Some(n), None)
    else if n.h.plen > 0 && CheckPrefix(n.h, key, depth) != Min(MaxPrefix, n.h.plen) then (Some(n), None)
    else
      var d := depth + n.h.plen;
      DeleteAt(n, key, d, ByteAt(key, d, junk), junk)
  }

  /** The prefix has passed: delete in the child at byte `c`, which is at depth `d`. */
  function DeleteAt<V(!new)>(n: Node<V>, key: Key, d: nat, c: Byte, junk: nat -> Byte): (r: (Option<Node<V>>, Option<V>))
    requires !n.Leaf? && Grounded(n)
    ensures r.0.Some?
    decreases n, 0
  {
    var child := FindChild(n, c);
    if child.None? then (Some(n), None)
    else if child.value.Leaf? then
      if child.value.key == key then (Some(RemoveAndCollapse(n, c)), Some(child.value.value)) else (Some(n), None)
    else
      var (child', o) := Delete(child.value, key, d + 1, junk);
      (Some(SetChild(n, c, child'.value)), o)
  }

  function RemoveAndCollapse<V(!new)>(n: Node<V>, c: Byte): Node<V>
    requires !n.Leaf? && Grounded(n) && FindChild(n, c).Some?
  {
    RemoveReady(n, c);
    Collapse(RemoveChild(n, c))
  }

  lemma RemoveReady<V(!new)>(n: Node<V>, c: Byte)
    requires !n.Leaf? && Grounded(n) && FindChild(n, c).Some?
    ensures var n' := RemoveChild(n, c);
            !n'.Leaf? && LayoutOk(n') && (n'.Node4? && |n'.keys| == 1 && !n'.kids[0].Leaf? ==> LayoutOk(n'.kids[0]))
  {
    RemoveChildOk(n, c);
    var n' := RemoveChild(n, c);
    hide LayoutOk, CountOk, RemoveChild, SizesOk;
    if n'.Node4? && |n'.keys| == 1 {
      OnlyChild(n');
      assert FindChild(n', n'.keys[0]) == FindChild(n, n'.keys[0]);
    }
  }

  /** What a deletion at `path` achieves. */
  ghost predicate Deleted<V(!new)>(n: Node<V>, path: Key, key: Key, r: (Option<Node<V>>, Option<V>))
  {
    && Was(n, key, r.1)
    && (if r.0.Some? then Wf(r.0.value, path) && Upd(n, r.0.value, key, None)
        else forall k, w :: Has(n, k, w) ==> k == key)
  }

  /** The tree agrees with a map after the call, whatever bytes lie behind the key's end. */
  lemma {:induction false} DeleteOk<V(!new)>(n: Node<V>, path: Key, key: Key, junk: nat -> Byte)
    requires Wf(n, path)
    ensures Grounded(n) && Deleted(n, path, key, Delete(n, key, |path|, junk))
    decreases n, 2
  {
    WfGrounded(n, path);
    if !n.Leaf? {
      var p :| Inner(n, path, p);
      hide Deleted, Delete;
      DeleteInner(n, path, p, key, junk);
    }
  }

  lemma Untouched<V(!new)>(n: Node<V>, path: Key, key: Key)
    requires Wf(n, path) && forall w :: !Has(n, key, w)
    ensures Deleted(n, path, key, (Some(n), None))
  {
    hide Wf, Has;
  }

  lemma InnerLength<V(!new)>(n: Node<V>, path: Key, p: Key)
    requires !n.Leaf? && LayoutOk(n) && Inner(n, path, p)
    ensures SizesOk(n) && |n.h.partial| == MaxPrefix && n.h.plen == |p|
  {
  }

  lemma {:induction false} DeleteInner<V(!new)>(n: Node<V>, path: Key, p: Key, key: Key, junk: nat -> Byte)
    requires !n.Leaf? && Wf(n, path) && LayoutOk(n) && CountOk(n) && Inner(n, path, p) && Grounded(n)
    ensures Deleted(n, path, key, Delete(n, key, |path|, junk))
    decreases n, 1
  {
    hide LayoutOk, CountOk, Inner, Wf, Has, FindChild, SizesOk, Grounded, DeleteAt, Deleted, CheckPrefix, ByteAt, Narrowed, CommonLen, Upd, Was;
    InnerLength(n, path, p);
    var len := CheckPrefix(n.h, key, |path|);
    if n.h.plen > 0 && len != Min(MaxPrefix, n.h.plen) {
      Absent(n, path, p, key, len);
      Untouched(n, path, key);
    } else {
      Narrows(n, path, p, key, junk);
      DeleteAtOk(n, path, p, key, ByteAt(key, |path| + n.h.plen, junk), junk);
    }
  }

  /** The key is below the child at byte `c` or nowhere. */
  ghost predicate Narrowed<V(!new)>(n: Node<V>, key: Key, c: Byte)
    requires !n.Leaf? && SizesOk(n)
  {
    forall v :: Has(n, key, v) <==> FindChild(n, c).Some? && Has(FindChild(n, c).value, key, v)
  }

  lemma Narrows<V(!new)>(n: Node<V>, path: Key, p: Key, key: Key, junk: nat -> Byte)
    requires !n.Leaf? && LayoutOk(n) && Inner(n, path, p) && SizesOk(n)
    ensures Narrowed(n, key, ByteAt(key, |path| + n.h.plen, junk))
  {
    InnerFacts(n, path, p);
    hide LayoutOk, Inner, FindChild, Has, SizesOk, ByteAt;
    assert |path| + n.h.plen == |path + p|;
    Narrow(n, path, p, key, ByteAt(key, |path| + n.h.plen, junk), junk);
  }

  lemma {:induction false} DeleteAtOk<V(!new)>(n: Node<V>, path: Key, p: Key, key: Key, c: Byte, junk: nat -> Byte)
    requires !n.Leaf? && Wf(n, path) && LayoutOk(n) && CountOk(n) && Inner(n, path, p) && Grounded(n) && SizesOk(n)
    requires Narrowed(n, key, c)
    ensures Deleted(n, path, key, DeleteAt(n, key, |path| + |p|, c, junk))
    decreases n, 0
  {
    hide LayoutOk, CountOk, Inner, Wf, Has, FindChild, SizesOk, RemoveAndCollapse, Delete, Deleted, Grounded;
    var child := FindChild(n, c);
    if child.None? {
      Untouched(n, path, key);
    } else if child.value.Leaf? {
      DeleteLeaf(n, path, p, key, c, child.value);
    } else {
      ChildWf(n, path, p, c);
      DeleteOk(child.value, path + p + [c], key, junk);
      DeleteBelow(n, path, p, key, c, Delete(child.value, key, |path| + |p| + 1, junk));
    }
  }

  lemma DeleteLeaf<V(!new)>(n: Node<V>, path: Key, p: Key, key: Key, c: Byte, l: Node<V>)
    requires !n.Leaf? && Wf(n, path) && LayoutOk(n) && CountOk(n) && Inner(n, path, p) && Grounded(n) && SizesOk(n)
    requires FindChild(n, c) == Some(l) && l.Leaf? && forall v :: Has(n, key, v) <==> Has(l, key, v)
    ensures Deleted(n, path, key, if l.key == key then (Some(RemoveAndCollapse(n, c)), Some(l.value)) else (Some(n), None))
  {
    hide LayoutOk, CountOk, Inner, Wf, FindChild, SizesOk, RemoveAndCollapse;
    if l.key == key {
      RemoveAndCollapseOk(n, path, p, key, l.value, c);
    } else {
      Untouched(n, path, key);
    }
  }

  lemma SameInner<V(!new)>(n: Node<V>, path: Key, p: Key, c: Byte, n': Node<V>)
    requires !n.Leaf? && LayoutOk(n) && Inner(n, path, p) && Removed(n, c, n')
    ensures Inner(n', path, p)
  {
    hide LayoutOk, FindChild;
    assert LayoutOk(n') && SamePrefix(n.h, n'.h);
    InnerFacts(n, path, p);
    LayoutSizes(n');
    forall x: Byte | FindChild(n', x).Some? ensures Wf(FindChild(n', x).value, path + p + [x]) { }
  }

  lemma RemoveAndCollapseOk<V(!new)>(n: Node<V>, path: Key, p: Key, key: Key, v: V, c: Byte)
    requires !n.Leaf? && LayoutOk(n) && CountOk(n) && Inner(n, path, p) && Grounded(n) && SizesOk(n)
    requires FindChild(n, c) == Some(Leaf(key, v))
    ensures Wf(RemoveAndCollapse(n, c), path) && Upd(n, RemoveAndCollapse(n, c), key, None)
  {
    hide LayoutOk, CountOk, Inner, Wf, Has, FindChild, SizesOk, Branches, RemoveChild, Collapse;
    RemoveReady(n, c);
    RemoveChildOk(n, c);
    var n' := RemoveChild(n, c);
    LayoutSizes(n');
    SameInner(n, path, p, c, n');
    UpdRemoved(n, path, p, c, n', key, v);
    if n'.Node4? && |n'.keys| == 1 {
      CollapseOk(n', path, p);
    } else {
      StaysWf(n', path, p);
    }
  }

  lemma StaysWf<V(!new)>(n: Node<V>, path: Key, p: Key)
    requires !n.Leaf? && LayoutOk(n) && CountOk(n) && Inner(n, path, p) && !(n.Node4? && |n.keys| == 1)
    ensures Collapse(n) == n && Wf(n, path)
  {
  }

  lemma DeleteBelow<V(!new)>(n: Node<V>, path: Key, p: Key, key: Key, c: Byte, r: (Option<Node<V>>, Option<V>))
    requires !n.Leaf? && Wf(n, path) && LayoutOk(n) && CountOk(n) && Inner(n, path, p) && SizesOk(n) && FindChild(n, c).Some?
    requires forall v :: Has(n, key, v) <==> Has(FindChild(n, c).value, key, v)
    requires r.0.Some? && Deleted(FindChild(n, c).value, path + p + [c], key, r)
    ensures Deleted(n, path, key, (Some(SetChild(n, c, r.0.value)), r.1))
  {
    hide LayoutOk, CountOk, Inner, Wf, Has, FindChild, SizesOk, SetChild;
    var child' := r.0.value;
    SetChildOk(n, c, child');
    var n' := SetChild(n, c, child');
    LayoutSizes(n');
    WfReplaced(n, path, p, c, child', n');
    if path + p + [c] <= key {
      UpdChild(n, path, p, c, child', n', key, None);
    } else {
      UpdElsewhere(n, path, p, c, child', n', key);
    }
  }

  /** A junk byte led to a child that cannot hold the key: nothing changes. */
  lemma UpdElsewhere<V(!new)>(n: Node<V>, path: Key, p: Key, c: Byte, child': Node<V>, n': Node<V>, key: Key)
    requires !n.Leaf? && LayoutOk(n) && Inner(n, path, p) && FindChild(n, c).Some?
    requires !n'.Leaf? && SizesOk(n') && forall x: Byte :: FindChild(n', x) == if x == c then Some(child') else FindChild(n, x)
    requires Upd(FindChild(n, c).value, child', key, None) && forall v :: Has(n, key, v) <==> Has(FindChild(n, c).value, key, v)
    requires !(path + p + [c] <= key)
    ensures Upd(n, n', key, None)
  {
    hide LayoutOk, Inner, Wf, FindChild, Has;
    NotBelow(n, path, p, c, key);
    LayoutSizes(n);
    forall k, w ensures Has(n', k, w) <==> k != key && Has(n, k, w) {
      UpdElsewhereAt(n, c, child', n', key, k, w);
    }
  }

  lemma NotBelow<V(!new)>(n: Node<V>, path: Key, p: Key, c: Byte, key: Key)
    requires !n.Leaf? && LayoutOk(n) && Inner(n, path, p) && FindChild(n, c).Some?
    requires !(path + p + [c] <= key)
    ensures forall v :: !Has(FindChild(n, c).value, key, v)
  {
    var child := FindChild(n, c).value;
    ChildWf(n, path, p, c);
    hide LayoutOk, Inner, Wf, FindChild, Has;
    forall v ensures !Has(child, key, v) {
      if Has(child, key, v) { HasStarts(child, path + p + [c], key, v); assert false; }
    }
  }

  lemma UpdElsewhereAt<V(!new)>(n: Node<V>, c: Byte, child': Node<V>, n': Node<V>, key: Key, k: Key, w: V)
    requires !n.Leaf? && SizesOk(n) && FindChild(n, c).Some? && !Has(n, key, w)
    requires !n'.Leaf? && SizesOk(n') && forall x: Byte :: FindChild(n', x) == if x == c then Some(child') else FindChild(n, x)
    requires Upd(FindChild(n, c).value, child', key, None)
    ensures Has(n', k, w) <==> k != key && Has(n, k, w)
  {
    hide SizesOk, FindChild;
    if Has(n', k, w) {
      var d: Byte :| FindChild(n', d).Some? && Has(FindChild(n', d).value, k, w);
      assert Has(FindChild(n, d).value, k, w);
    }
    if k != key && Has(n, k, w) {
      var d: Byte :| FindChild(n, d).Some? && Has(FindChild(n, d).value, k, w);
      assert Has(FindChild(n', d).value, k, w);
    }
  }

  // ------------------------------------------------------------------ iteration

  /** Unsigned byte-wise order, a proper prefix first. */
  ghost predicate Less(a: Key, b: Key)
  {
    b != [] && (a == [] || a[0] < b[0] || (a[0] == b[0] && Less(a[1..], b[1..])))
  }

  lemma {:induction false} LessAt(a: Key, b: Key, d: nat)
    requires d < |a| && d < |b| && a[..d] == b[..d] && a[d] < b[d]
    ensures Less(a, b)
    decreases d
  {
    if d > 0 {
      assert a[0] == a[..d][0] && b[0] == b[..d][0];
      assert a[1..][..d-1] == a[..d][1..] && b[1..][..d-1] == b[..d][1..];
      LessAt(a[1..], b[1..], d - 1);
    }
  }

  type Entry<V> = (Key, V)

  /** All entries below `n`, child after child in the order of the bytes. */
  ghost function Entries<V(!new)>(n: Node<V>): seq<Entry<V>>
    requires Grounded(n)
    decreases n, 300
  {
    if n.Leaf? then [(n.key, n.value)] else EntriesFrom(n, 0)
  }

  ghost function EntriesFrom<V(!new)>(n: Node<V>, c: nat): seq<Entry<V>>
    requires !n.Leaf? && Grounded(n) && c <= 256
    decreases n, 256 - c
  {
    if c == 256 then []
    else if FindChild(n, c).Some? then Entries(FindChild(n, c).value) + EntriesFrom(n, c + 1)
    else EntriesFrom(n, c + 1)
  }

  ghost predicate Ascending<V(!new)>(e: seq<Entry<V>>)
  {
    forall i, j :: 0 <= i < j < |e| ==> Less(e[i].0, e[j].0)
  }

  ghost predicate Lists<V(!new)>(e: seq<Entry<V>>, n: Node<V>)
  {
    forall k, v :: (k, v) in e <==> Has(n, k, v)
  }

  /** The entries are exactly what the tree holds, in strictly ascending byte order. */
  lemma {:induction false} EntriesOk<V(!new)>(n: Node<V>, path: Key)
    requires Wf(n, path)
    ensures Grounded(n) && Ascending(Entries(n)) && Lists(Entries(n), n)
    decreases n, 300
  {
    WfGrounded(n, path);
    if !n.Leaf? {
      var p :| Inner(n, path, p);
      hide Grounded, Wf;
      EntriesFromOk(n, path, p, 0);
      forall k, v ensures (k, v) in Entries(n) <==> Has(n, k, v) {
        if Has(n, k, v) {
          var c: Byte :| FindChild(n, c).Some? && Has(FindChild(n, c).value, k, v);
          assert HasFrom(n, 0, k, v);
        }
      }
    }
  }

  /** Bytes without a child contribute nothing. */
  lemma {:induction false} SkipEmpty<V(!new)>(n: Node<V>, a: nat, b: nat)
    requires !n.Leaf? && Grounded(n) && a <= b <= 256 && forall c :: a <= c < b ==> FindChild(n, c).None?
    ensures EntriesFrom(n, a) == EntriesFrom(n, b)
    decreases b - a
  {
    if a < b { SkipEmpty(n, a + 1, b); }
  }

  lemma {:induction false} MinimumFirst<V(!new)>(n: Node<V>)
    requires Grounded(n)
    ensures Entries(n) != [] && Entries(n)[0] == (Minimum(n).key, Minimum(n).value)
    decreases n
  {
    if !n.Leaf? {
      FirstChildOk(n);
      SkipEmpty(n, 0, Scan(n, 0));
      MinimumFirst(FirstChild(n));
    }
  }

  /** The minimum is an entry, and the key of every other entry is greater. */
  lemma MinimumLeast<V(!new)>(n: Node<V>, path: Key)
    requires Wf(n, path)
    ensures Grounded(n) && Has(n, Minimum(n).key, Minimum(n).value)
    ensures forall k, v :: Has(n, k, v) ==> (k == Minimum(n).key && v == Minimum(n).value) || Less(Minimum(n).key, k)
  {
    EntriesOk(n, path);
    MinimumFirst(n);
    hide Wf, Has, Entries, Less, Grounded, Minimum;
    var e := Entries(n);
    assert e[0] in e;
    forall k, v | Has(n, k, v) ensures (k == Minimum(n).key && v == Minimum(n).value) || Less(Minimum(n).key, k) {
      assert (k, v) in e;
      var i :| 0 <= i < |e| && e[i] == (k, v);
    }
  }

  ghost predicate HasFrom<V(!new)>(n: Node<V>, c: nat, k: Key, v: V)
    requires !n.Leaf? && SizesOk(n)
  {
    exists d: Byte :: c <= d && FindChild(n, d).Some? && Has(FindChild(n, d).value, k, v)
  }

  lemma {:induction false} EntriesFromOk<V(!new)>(n: Node<V>, path: Key, p: Key, c: nat)
    requires !n.Leaf? && LayoutOk(n) && CountOk(n) && Inner(n, path, p) && Grounded(n) && c <= 256
    ensures SizesOk(n) && Ascending(EntriesFrom(n, c)) && forall k, v :: (k, v) in EntriesFrom(n, c) <==> HasFrom(n, c, k, v)
    decreases n, 256 - c
  {
    LayoutSizes(n);
    hide Grounded, Wf, LayoutOk, CountOk, Inner, FindChild, Has, Less, SizesOk;
    if c < 256 {
      EntriesFromOk(n, path, p, c + 1);
      var rest := EntriesFrom(n, c + 1);
      if FindChild(n, c).Some? {
        var child := FindChild(n, c).value;
        ChildWf(n, path, p, c);
        EntriesOk(child, path + p + [c]);
        FromStep(n, path, p, c, Entries(child), rest);
      } else {
        forall k, v ensures HasFrom(n, c, k, v) <==> HasFrom(n, c + 1, k, v) { }
      }
    }
  }

  lemma FromStep<V(!new)>(n: Node<V>, path: Key, p: Key, c: nat, here: seq<Entry<V>>, rest: seq<Entry<V>>)
    requires !n.Leaf? && LayoutOk(n) && Inner(n, path, p) && SizesOk(n) && c < 256 && FindChild(n, c).Some?
    requires Ascending(here) && Lists(here, FindChild(n, c).value)
    requires Ascending(rest) && forall k, v :: (k, v) in rest <==> HasFrom(n, c + 1, k, v)
    ensures Ascending(here + rest) && forall k, v :: (k, v) in here + rest <==> HasFrom(n, c, k, v)
  {
    hide LayoutOk, Inner, Wf, Has, FindChild, Less;
    forall i, j | 0 <= i < |here| && 0 <= j < |rest| ensures Less(here[i].0, rest[j].0) {
      var (k, v) := here[i];
      var (l, w) := rest[j];
      assert (k, v) in here && (l, w) in rest;
      var d: Byte :| c + 1 <= d && FindChild(n, d).Some? && Has(FindChild(n, d).value, l, w);
      ChildrenApart(n, path, p, c, d, k, v, l, w);
    }
    forall k, v ensures (k, v) in here + rest <==> HasFrom(n, c, k, v) {
      if (k, v) in here { assert Has(FindChild(n, c).value, k, v); }
    }
  }

  lemma ChildrenApart<V(!new)>(n: Node<V>, path: Key, p: Key, c: Byte, d: Byte, k: Key, v: V, l: Key, w: V)
    requires !n.Leaf? && LayoutOk(n) && Inner(n, path, p) && c < d && FindChild(n, c).Some? && FindChild(n, d).Some?
    requires Has(FindChild(n, c).value, k, v) && Has(FindChild(n, d).value, l, w)
    ensures Less(k, l)
  {
    ChildWf(n, path, p, c);
    ChildWf(n, path, p, d);
    hide LayoutOk, Inner, Wf, Has;
    HasStarts(FindChild(n, c).value, path + p + [c], k, v);
    HasStarts(FindChild(n, d).value, path + p + [d], l, w);
    var e := |path + p|;
    assert k[..e] == (path + p + [c])[..e] == path + p == (path + p + [d])[..e] == l[..e];
    assert k[e] == (path + p + [c])[e] && l[e] == (path + p + [d])[e];
    LessAt(k, l, e);
  }
}
