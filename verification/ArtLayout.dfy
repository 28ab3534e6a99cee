/**
 Adaptive radix tree nodes (3rdparty/libart/art.c): the four inner layouts and the
 operations that grow and shrink them. Every operation is stated by its effect on
 `FindChild`, the partial function from bytes to children that a layout represents.
 */
module ArtLayout {

  type Byte = x: int | 0 <= x < 256
  type Key = seq<Byte>

  const MaxPrefix: nat := 10

  datatype Option<+T> = None | Some(value: T)

  /** num_children is a uint8_t; the prefix array keeps at most ten of `plen` bytes. */
  datatype Header = Header(num: Byte, plen: nat, partial: seq<Byte>)

  /** Unused entries of the key arrays of Node4 and Node16 are not represented. */
  datatype Node<V> =
    | Leaf(key: Key, value: V)
    | Node4(h: Header, keys: seq<Byte>, kids: seq<Node<V>>)
    | Node16(h: Header, keys: seq<Byte>, kids: seq<Node<V>>)
    | Node48(h: Header, index: seq<nat>, slots: seq<Option<Node<V>>>)
    | Node256(h: Header, table: seq<Option<Node<V>>>)

  function Min(a: int, b: int): int
  {
    if a < b then a else b
  }

  /** Position of byte `c` in a key array, or its length. */
  function IndexOf(keys: seq<Byte>, c: Byte): (i: nat)
    ensures i <= |keys|
    ensures i < |keys| ==> keys[i] == c
    ensures forall j :: 0 <= j < i ==> keys[j] != c
  {
    if |keys| == 0 || keys[0] == c then 0 else 1 + IndexOf(keys[1..], c)
  }

  function FindIn<V>(keys: seq<Byte>, kids: seq<Node<V>>, c: Byte): (r: Option<Node<V>>)
    requires |keys| == |kids|
  {
    var i := IndexOf(keys, c);
    if i < |keys| then Some(kids[i]) else None
  }

  /** The arrays fit together, so that the accessors below are defined. */
  ghost predicate SizesOk<V>(n: Node<V>)
  {
    match n
    case Leaf(_, _) => true
    case Node4(h, keys, kids) => |h.partial| == MaxPrefix && |keys| == |kids| <= 4
    case Node16(h, keys, kids) => |h.partial| == MaxPrefix && |keys| == |kids| <= 16
    case Node48(h, index, slots) =>
      && |h.partial| == MaxPrefix && |index| == 256 && |slots| == 48
      && forall c :: 0 <= c < 256 ==> index[c] <= 48
    case Node256(h, table) => |h.partial| == MaxPrefix && |table| == 256
  }

  function FindChild<V>(n: Node<V>, c: Byte): (r: Option<Node<V>>)
    requires !n.Leaf? && SizesOk(n)
    ensures r.Some? ==> r.value < n
  {
    match n
    case Node4(_, keys, kids) => FindIn(keys, kids, c)
    case Node16(_, keys, kids) => FindIn(keys, kids, c)
    case Node48(_, index, slots) => if index[c] == 0 then None else slots[index[c] - 1]
    case Node256(_, table) => table[c]
  }

  ghost predicate Sorted(keys: seq<Byte>)
  {
    forall i, j :: 0 <= i < j < |keys| ==> keys[i] < keys[j]
  }

  /** In a Node48 every used index names a slot of its own, and every full slot is named. */
  ghost predicate SlotsOk<V>(index: seq<nat>, slots: seq<Option<Node<V>>>)
  {
    && |index| == 256 && |slots| == 48
    && (forall c :: 0 <= c < 256 ==> index[c] <= 48)
    && (forall c :: 0 <= c < 256 && index[c] > 0 ==> slots[index[c] - 1].Some?)
    && (forall c, d :: 0 <= c < d < 256 && index[c] > 0 ==> index[c] != index[d])
    && (forall p :: 0 <= p < 48 && slots[p].Some? ==> Named(index, p))
  }

  ghost predicate Named(index: seq<nat>, p: nat)
    requires |index| == 256
  {
    exists c :: 0 <= c < 256 && index[c] == p + 1
  }

  ghost function Branches<V>(n: Node<V>): set<int>
    requires !n.Leaf? && SizesOk(n)
  {
    set c | 0 <= c < 256 && FindChild(n, c).Some?
  }

  /** What every layout keeps, whatever its number of children. */
  ghost predicate LayoutOk<V>(n: Node<V>)
    requires !n.Leaf?
  {
    && StructureOk(n)
    && n.h.num == |Branches(n)| % 256
  }

  /** How many children each layout may have between operations. */
  ghost predicate CountOk<V>(n: Node<V>)
    requires !n.Leaf? && SizesOk(n)
  {
    var k := |Branches(n)|;
    match n
    case Node4(_, _, _) => 2 <= k <= 4
    case Node16(_, _, _) => 4 <= k <= 16
    case Node48(_, _, _) => 13 <= k <= 48
    case Node256(_, _) => 38 <= k <= 256
  }

  // ------------------------------------------------------------- counting lemmas

  lemma {:induction false} SortedIndex(keys: seq<Byte>, i: nat)
    requires Sorted(keys) && i < |keys|
    ensures IndexOf(keys, keys[i]) == i
  {
  }

  ghost function ByteSet(keys: seq<Byte>): set<int>
  {
    set c | 0 <= c < 256 && c in keys
  }

  lemma {:induction false} SortedCount(keys: seq<Byte>)
    requires Sorted(keys)
    ensures |ByteSet(keys)| == |keys|
  {
    if |keys| > 0 {
      SortedCount(keys[1..]);
      assert forall c :: c in keys <==> c == keys[0] || c in keys[1..];
      assert ByteSet(keys) == {keys[0]} + ByteSet(keys[1..]);
      assert keys[0] !in keys[1..];
    } else {
      assert ByteSet(keys) == {};
    }
  }

  /** A sorted array has one branch per entry. */
  lemma ArrayBranches<V>(n: Node<V>)
    requires (n.Node4? || n.Node16?) && SizesOk(n) && Sorted(n.keys)
    ensures Branches(n) == ByteSet(n.keys) && |Branches(n)| == |n.keys|
  {
    SortedCount(n.keys);
    forall c | 0 <= c < 256 ensures FindChild(n, c).Some? <==> c in n.keys { }
  }

  lemma {:induction false} BoundedSet(s: set<int>, n: nat)
    requires forall c :: c in s ==> 0 <= c < n
    ensures |s| <= n
  {
    if n > 0 {
      BoundedSet(s - {n - 1}, n - 1);
    } else {
      assert forall c :: c !in s;
      assert s == {};
    }
  }

  // --------------------------------------------------------------- adding a child

  /** `n'` is `n` with `child` at byte `c`, as far as lookups can tell, with the same prefix. */
  ghost predicate Added<V>(n: Node<V>, c: Byte, child: Node<V>, n': Node<V>)
    requires !n.Leaf? && SizesOk(n)
  {
    && !n'.Leaf? && LayoutOk(n')
    && (forall x: Byte :: FindChild(n', x) == if x == c then Some(child) else FindChild(n, x))
    && SamePrefix(n.h, n'.h)
  }

  /** Same compressed length, and the same bytes of it stored. */
  ghost predicate SamePrefix(a: Header, b: Header)
  {
    && |a.partial| == |b.partial| == MaxPrefix && a.plen == b.plen
    && a.partial[..Min(MaxPrefix, a.plen)] == b.partial[..Min(MaxPrefix, b.plen)]
  }

  lemma AddedBranches<V>(n: Node<V>, c: Byte, child: Node<V>, n': Node<V>)
    requires !n.Leaf? && SizesOk(n) && !n'.Leaf? && SizesOk(n') && FindChild(n, c).None?
    requires forall x: Byte :: FindChild(n', x) == if x == c then Some(child) else FindChild(n, x)
    ensures Branches(n') == Branches(n) + {c} && |Branches(n')| == |Branches(n)| + 1
    ensures |Branches(n')| <= 256
  {
    hide FindChild, SizesOk;
    forall x: Byte ensures x in Branches(n') <==> x == c || x in Branches(n) { }
    hide Branches;
    OneMore(Branches(n), Branches(n'), c);
    BoundedSet(Branches(n'), 256);
  }

  lemma OneMore(s: set<int>, s': set<int>, c: int)
    requires c !in s && c in s' && forall x :: x in s' <==> x == c || x in s
    ensures s' == s + {c} && |s'| == |s| + 1
  {
    forall x ensures x in s' <==> x in s + {c} { assert x in s' <==> x == c || x in s; }
    assert s' == s + {c};
  }

  function Bump(h: Header): Header
  {
    h.(num := (h.num + 1) % 256)
  }

  /** The structural part of the layout, without the count. */
  ghost predicate StructureOk<V>(n: Node<V>)
    requires !n.Leaf?
  {
    && SizesOk(n)
    && (n.Node4? ==> Sorted(n.keys))
    && (n.Node16? ==> Sorted(n.keys))
    && (n.Node48? ==> SlotsOk(n.index, n.slots))
  }

  lemma ToAdded<V>(n: Node<V>, c: Byte, child: Node<V>, n': Node<V>)
    requires !n.Leaf? && LayoutOk(n) && FindChild(n, c).None?
    requires !n'.Leaf? && StructureOk(n') && n'.h == Bump(n.h)
    requires forall x: Byte :: FindChild(n', x) == if x == c then Some(child) else FindChild(n, x)
    ensures Added(n, c, child, n')
  {
    hide Branches, Sorted, SlotsOk, FindChild;
    AddedBranches(n, c, child, n');
    ModStep(|Branches(n)|);
  }

  lemma ModStep(k: nat)
    ensures (k % 256 + 1) % 256 == (k + 1) % 256
  {
  }

  /** First position whose key is above `c`: the portable unsigned comparison. */
  function InsertPos(keys: seq<Byte>, c: Byte): (i: nat)
    ensures i <= |keys|
    ensures forall j :: 0 <= j < i ==> keys[j] <= c
    ensures i < |keys| ==> c < keys[i]
  {
    if |keys| == 0 || c < keys[0] then 0 else 1 + InsertPos(keys[1..], c)
  }

  function InsertAt<T>(s: seq<T>, i: nat, x: T): (r: seq<T>)
    requires i <= |s|
    ensures |r| == |s| + 1 && r[i] == x
    ensures forall j :: 0 <= j < i ==> r[j] == s[j]
    ensures forall j :: i < j < |r| ==> r[j] == s[j - 1]
  {
    s[..i] + [x] + s[i..]
  }

  lemma SortedAdd(keys: seq<Byte>, c: Byte)
    requires Sorted(keys) && c !in keys
    ensures Sorted(InsertAt(keys, InsertPos(keys, c), c))
  {
    var i := InsertPos(keys, c);
    var keys' := InsertAt(keys, i, c);
    hide InsertAt, InsertPos;
    forall a, b | 0 <= a < b < |keys'| ensures keys'[a] < keys'[b] {
      if a == i { assert keys[b-1] in keys; }
      if b == i { assert keys[a] in keys; }
      if i < |keys| && b > i { assert keys[i] <= keys[b-1]; }
    }
  }

  lemma ArrayAdd<V>(keys: seq<Byte>, kids: seq<Node<V>>, c: Byte, child: Node<V>)
    requires |keys| == |kids| && Sorted(keys) && c !in keys
    ensures var i := InsertPos(keys, c);
            var keys', kids' := InsertAt(keys, i, c), InsertAt(kids, i, child);
            Sorted(keys') && forall x: Byte :: FindIn(keys', kids', x) == if x == c then Some(child) else FindIn(keys, kids, x)
  {
    var i := InsertPos(keys, c);
    var keys', kids' := InsertAt(keys, i, c), InsertAt(kids, i, child);
    SortedAdd(keys, c);
    hide InsertAt, InsertPos, FindIn, Sorted;
    forall x: Byte ensures FindIn(keys', kids', x) == if x == c then Some(child) else FindIn(keys, kids, x) {
      ArrayAddAt(keys, kids, keys', kids', i, c, child, x);
    }
  }

  lemma ArrayAddAt<V>(keys: seq<Byte>, kids: seq<Node<V>>, keys': seq<Byte>, kids': seq<Node<V>>, i: nat, c: Byte, child: Node<V>, x: Byte)
    requires |keys| == |kids| && i <= |keys| && Sorted(keys') && c !in keys
    requires keys' == InsertAt(keys, i, c) && kids' == InsertAt(kids, i, child)
    ensures FindIn(keys', kids', x) == if x == c then Some(child) else FindIn(keys, kids, x)
  {
    hide InsertAt, IndexOf, Sorted;
    var k := IndexOf(keys, x);
    if x == c {
      SortedIndex(keys', i);
    } else if k < |keys| {
      var k' := if k < i then k else k + 1;
      assert keys'[k'] == x;
      SortedIndex(keys', k');
    } else {
      assert x !in keys';
    }
  }

  /** Copying a header into a fresh node copies the stored prefix bytes only. */
  function CopyHeader(h: Header): (r: Header)
    requires |h.partial| == MaxPrefix
    ensures SamePrefix(h, r) && r.num == h.num
  {
    var k := Min(MaxPrefix, h.plen);
    Header(h.num, h.plen, h.partial[..k] + seq(MaxPrefix - k, _ => 0))
  }

  function AddChild256<V>(n: Node<V>, c: Byte, child: Node<V>): (r: Node<V>)
    requires n.Node256? && SizesOk(n)
    ensures r.Node256?
  {
    n.(h := Bump(n.h), table := n.table[c := Some(child)])
  }

  /** First empty slot at or after `p`. */
  function FreeSlot<V>(slots: seq<Option<Node<V>>>, p: nat): (r: nat)
    requires p <= |slots|
    ensures p <= r <= |slots| && (r < |slots| ==> slots[r].None?)
    ensures forall j :: p <= j < r ==> slots[j].Some?
    decreases |slots| - p
  {
    if p == |slots| || slots[p].None? then p else FreeSlot(slots, p + 1)
  }

  function Grow48<V>(n: Node<V>): (r: Node<V>)
    requires n.Node48? && SizesOk(n)
    ensures r.Node256?
  {
    Node256(CopyHeader(n.h), seq(256, i requires 0 <= i < 256 => FindChild(n, i)))
  }

  function AddChild48<V>(n: Node<V>, c: Byte, child: Node<V>): (r: Node<V>)
    requires n.Node48? && SizesOk(n) && (n.h.num < 48 ==> FreeSlot(n.slots, 0) < 48)
    ensures if n.h.num < 48 then r.Node48? else r.Node256?
  {
    if n.h.num < 48 then
      var p := FreeSlot(n.slots, 0);
      n.(h := Bump(n.h), index := n.index[c := p + 1], slots := n.slots[p := Some(child)])
    else AddChild256(Grow48(n), c, child)
  }

  /** The index array that sends keys[i] to i + 1 for i < k. */
  function IndexFrom(keys: seq<Byte>, k: nat): (r: seq<nat>)
    requires k <= |keys| <= 48
    ensures |r| == 256 && forall c :: 0 <= c < 256 ==> r[c] <= k
  {
    if k == 0 then seq(256, _ => 0) else IndexFrom(keys, k - 1)[keys[k-1] := k]
  }

  function Grow16<V>(n: Node<V>): (r: Node<V>)
    requires n.Node16? && SizesOk(n)
    ensures r.Node48? && r.h.num == n.h.num
  {
    Node48(CopyHeader(n.h), IndexFrom(n.keys, |n.keys|),
           seq(48, p => if 0 <= p < |n.kids| then Some(n.kids[p]) else None))
  }

  function Grow4<V>(n: Node<V>): (r: Node<V>)
    requires n.Node4? && SizesOk(n)
    ensures r.Node16? && r.keys == n.keys
  {
    Node16(CopyHeader(n.h), n.keys, n.kids)
  }

  function AddArray<V>(n: Node<V>, c: Byte, child: Node<V>): (r: Node<V>)
    requires (n.Node4? || n.Node16?) && SizesOk(n)
    ensures r.Node4? <==> n.Node4?
    ensures r.Node16? <==> n.Node16?
  {
    var i := InsertPos(n.keys, c);
    n.(h := Bump(n.h), keys := InsertAt(n.keys, i, c), kids := InsertAt(n.kids, i, child))
  }

  /** With fewer than 48 children a Node48 has an empty slot. */
  lemma {:induction false} SlotsInUse<V>(index: seq<nat>, slots: seq<Option<Node<V>>>, k: nat) returns (used: set<int>)
    requires SlotsOk(index, slots) && k <= 48 && forall p :: 0 <= p < k ==> slots[p].Some?
    ensures |used| == k && forall c :: c in used ==> 0 <= c < 256 && 0 < index[c] <= k
  {
    used := {};
    if k > 0 {
      var p := k - 1;
      used := SlotsInUse(index, slots, p);
      assert Named(index, p);
      var c :| 0 <= c < 256 && index[c] == p + 1;
      used := used + {c};
    }
  }

  lemma HasFreeSlot<V>(n: Node<V>)
    requires n.Node48? && LayoutOk(n) && |Branches(n)| < 48
    ensures FreeSlot(n.slots, 0) < 48
  {
    if FreeSlot(n.slots, 0) == 48 {
      var used := SlotsInUse(n.index, n.slots, 48);
      assert used <= Branches(n);
      SubsetSize(used, Branches(n));
    }
  }

  lemma {:induction false} SubsetSize(a: set<int>, b: set<int>)
    requires a <= b
    ensures |a| <= |b|
  {
    assert b == a + (b - a);
  }

  lemma {:induction false} IndexFromOk(keys: seq<Byte>, k: nat, c: Byte)
    requires Sorted(keys) && k <= |keys| <= 48
    ensures IndexFrom(keys, k)[c] == if IndexOf(keys, c) < k then IndexOf(keys, c) + 1 else 0
  {
    if k > 0 {
      IndexFromOk(keys, k - 1, c);
      SortedIndex(keys, k - 1);
    }
  }

  lemma Grow16Slot<V>(n: Node<V>)
    requires n.Node16? && SizesOk(n)
    ensures FreeSlot(Grow16(n).slots, 0) < 48
  {
    assert Grow16(n).slots[|n.kids|].None?;
  }

  /** Add a child at byte `c`; a full layout is replaced by the next larger one. */
  function AddChild<V>(n: Node<V>, c: Byte, child: Node<V>): Node<V>
    requires !n.Leaf? && LayoutOk(n) && (n.Node48? ==> |Branches(n)| <= 48)
  {
    match n
    case Node4(h, keys, kids) => if h.num < 4 then AddArray(n, c, child) else AddArray(Grow4(n), c, child)
    case Node16(h, keys, kids) => if h.num < 16 then AddArray(n, c, child) else Grow16Slot(n); AddChild48(Grow16(n), c, child)
    case Node48(h, index, slots) => (if h.num < 48 then HasFreeSlot(n); AddChild48(n, c, child) else AddChild48(n, c, child))
    case Node256(h, table) => AddChild256(n, c, child)
  }

  /** Same children, same prefix: a change of representation only. */
  ghost predicate SameNode<V>(n: Node<V>, n': Node<V>)
    requires !n.Leaf? && SizesOk(n)
  {
    && !n'.Leaf? && LayoutOk(n') && SamePrefix(n.h, n'.h)
    && forall x: Byte :: FindChild(n', x) == FindChild(n, x)
  }

  lemma ToSame<V>(n: Node<V>, n': Node<V>)
    requires !n.Leaf? && LayoutOk(n) && !n'.Leaf? && StructureOk(n')
    requires n'.h.num == n.h.num && SamePrefix(n.h, n'.h)
    requires forall x: Byte :: FindChild(n', x) == FindChild(n, x)
    ensures SameNode(n, n') && Branches(n') == Branches(n)
  {
    hide Sorted, SlotsOk, FindChild;
    assert Branches(n') == Branches(n);
  }

  lemma Grow4Ok<V>(n: Node<V>)
    requires n.Node4? && LayoutOk(n)
    ensures SameNode(n, Grow4(n))
  {
    ToSame(n, Grow4(n));
  }

  /** An index built from sorted bytes names each of the first `|keys|` slots once. */
  lemma IndexedSlots<V>(keys: seq<Byte>, slots: seq<Option<Node<V>>>)
    requires Sorted(keys) && |keys| <= 48 == |slots|
    requires forall p :: 0 <= p < 48 ==> (slots[p].Some? <==> p < |keys|)
    ensures SlotsOk(IndexFrom(keys, |keys|), slots)
  {
    hide IndexFrom, IndexOf, Sorted;
    var index := IndexFrom(keys, |keys|);
    forall c: Byte ensures index[c] > 0 ==> index[c] <= |keys| && keys[index[c] - 1] == c { IndexOfByte(keys, c); }
    forall p | 0 <= p < |keys| ensures Named(index, p) {
      IndexOfByte(keys, keys[p]);
      SortedIndex(keys, p);
      assert index[keys[p]] == p + 1;
    }
  }

  lemma IndexOfByte(keys: seq<Byte>, c: Byte)
    requires Sorted(keys) && |keys| <= 48
    ensures var i := IndexFrom(keys, |keys|)[c];
            && i == (if IndexOf(keys, c) < |keys| then IndexOf(keys, c) + 1 else 0)
            && (i > 0 ==> i <= |keys| && keys[i - 1] == c)
  {
    IndexFromOk(keys, |keys|, c);
  }

  lemma Grow16Slots<V>(n: Node<V>)
    requires n.Node16? && SizesOk(n) && Sorted(n.keys)
    ensures SlotsOk(Grow16(n).index, Grow16(n).slots)
  {
    hide Sorted, SlotsOk;
    IndexedSlots(n.keys, Grow16(n).slots);
  }

  lemma Grow16Ok<V>(n: Node<V>)
    requires n.Node16? && LayoutOk(n)
    ensures SameNode(n, Grow16(n)) && |Branches(Grow16(n))| == |Branches(n)| == |n.keys|
  {
    Grow16Slots(n);
    ArrayBranches(n);
    var n' := Grow16(n);
    forall x: Byte ensures FindChild(n', x) == FindChild(n, x) { IndexFromOk(n.keys, |n.keys|, x); }
    hide SlotsOk, Branches, Sorted;
    ToSame(n, n');
  }

  lemma Grow48Ok<V>(n: Node<V>)
    requires n.Node48? && LayoutOk(n)
    ensures SameNode(n, Grow48(n)) && Branches(Grow48(n)) == Branches(n)
  {
    var n' := Grow48(n);
    forall x: Byte ensures FindChild(n', x) == FindChild(n, x) { }
    hide SlotsOk, Branches;
    ToSame(n, n');
  }

  lemma AddArrayOk<V>(n: Node<V>, c: Byte, child: Node<V>)
    requires (n.Node4? && |n.keys| < 4) || (n.Node16? && |n.keys| < 16)
    requires LayoutOk(n) && FindChild(n, c).None?
    ensures Added(n, c, child, AddArray(n, c, child))
  {
    assert c !in n.keys;
    hide InsertPos, InsertAt, IndexOf, FindIn, Branches, Sorted;
    var n' := AddArray(n, c, child);
    ArrayAdd(n.keys, n.kids, c, child);
    forall x: Byte ensures FindChild(n', x) == if x == c then Some(child) else FindChild(n, x) { }
    ToAdded(n, c, child, n');
  }

  lemma AddChild256Ok<V>(n: Node<V>, c: Byte, child: Node<V>)
    requires n.Node256? && LayoutOk(n) && FindChild(n, c).None?
    ensures Added(n, c, child, AddChild256(n, c, child))
  {
    ToAdded(n, c, child, AddChild256(n, c, child));
  }

  lemma SlotAdded<V>(index: seq<nat>, slots: seq<Option<Node<V>>>, c: Byte, p: nat, child: Node<V>)
    requires SlotsOk(index, slots) && index[c] == 0 && p < 48 && slots[p].None?
    ensures SlotsOk(index[c := p + 1], slots[p := Some(child)])
  {
    var index', slots' := index[c := p + 1], slots[p := Some(child)];
    assert index'[c] == p + 1;
    forall q | 0 <= q < 48 && slots'[q].Some? ensures Named(index', q) {
      if q != p {
        assert Named(index, q);
        var d :| 0 <= d < 256 && index[d] == q + 1;
        assert index'[d] == q + 1;
      }
    }
    SlotsDistinct(index, slots, c, p, index');
  }

  lemma SlotsDistinct<V>(index: seq<nat>, slots: seq<Option<Node<V>>>, c: Byte, p: nat, index': seq<nat>)
    requires SlotsOk(index, slots) && index[c] == 0 && p < 48 && slots[p].None? && index' == index[c := p + 1]
    ensures forall d, e :: 0 <= d < e < 256 && index'[d] > 0 ==> index'[d] != index'[e]
  {
    forall d | 0 <= d < 256 ensures index[d] != p + 1 { }
    hide SlotsOk;
    assert forall d, e :: 0 <= d < e < 256 && index[d] > 0 ==> index[d] != index[e] by { SlotsDiffer(index, slots); }
  }

  lemma SlotsDiffer<V>(index: seq<nat>, slots: seq<Option<Node<V>>>)
    requires SlotsOk(index, slots)
    ensures |index| == 256 && forall d, e :: 0 <= d < e < 256 && index[d] > 0 ==> index[d] != index[e]
  {
  }

  lemma SlotLookup<V>(n: Node<V>, c: Byte, p: nat, child: Node<V>, n': Node<V>, x: Byte)
    requires n.Node48? && SizesOk(n) && SlotsOk(n.index, n.slots) && n.index[c] == 0 && p < 48 && n.slots[p].None?
    requires n'.Node48? && SizesOk(n') && n'.index == n.index[c := p + 1] && n'.slots == n.slots[p := Some(child)]
    ensures FindChild(n', x) == if x == c then Some(child) else FindChild(n, x)
  {
    if x != c { SlotUsed(n.index, n.slots, x); }
  }

  lemma SlotUsed<V>(index: seq<nat>, slots: seq<Option<Node<V>>>, x: Byte)
    requires SlotsOk(index, slots)
    ensures index[x] <= 48 && (index[x] > 0 ==> slots[index[x] - 1].Some?)
  {
  }

  lemma AddSlotOk<V>(n: Node<V>, c: Byte, child: Node<V>)
    requires n.Node48? && LayoutOk(n) && FindChild(n, c).None? && n.h.num < 48 && FreeSlot(n.slots, 0) < 48
    ensures Added(n, c, child, AddChild48(n, c, child))
  {
    var n', p := AddChild48(n, c, child), FreeSlot(n.slots, 0);
    assert n.index[c] == 0;
    hide Branches, SlotsOk, FreeSlot;
    SlotAdded(n.index, n.slots, c, p, child);
    forall x: Byte ensures FindChild(n', x) == if x == c then Some(child) else FindChild(n, x) {
      SlotLookup(n, c, p, child, n', x);
    }
    ToAdded(n, c, child, n');
  }

  lemma FullSlots<V>(n: Node<V>, c: Byte, child: Node<V>)
    requires n.Node48? && SizesOk(n) && n.h.num >= 48
    ensures AddChild48(n, c, child) == AddChild256(Grow48(n), c, child)
  {
  }

  lemma AddedKeep<V>(n: Node<V>, mid: Node<V>, c: Byte, child: Node<V>, n': Node<V>)
    requires !n.Leaf? && LayoutOk(n) && FindChild(n, c).None? && SameNode(n, mid) && Added(mid, c, child, n')
    ensures Added(n, c, child, n')
  {
    hide Branches, SlotsOk, FindChild, Sorted;
  }

  /** Adding a child changes the lookup at its byte and nothing else, in every layout
      and across every change of layout. */
  lemma AddChildOk<V>(n: Node<V>, c: Byte, child: Node<V>)
    requires !n.Leaf? && LayoutOk(n) && (n.Node48? ==> |Branches(n)| <= 48) && FindChild(n, c).None?
    ensures Added(n, c, child, AddChild(n, c, child))
    ensures CountOk(n) ==> CountOk(AddChild(n, c, child))
    ensures n.Node4? && |Branches(n)| < 4 ==> AddChild(n, c, child).Node4?
  {
    hide SlotsOk, Branches, Sorted, AddArray, AddChild48, AddChild256, Grow4, Grow16, Grow48, FindIn, FindChild;
    var n' := AddChild(n, c, child);
    match n {
      case Node4(_, _, _) =>
        ArrayBranches(n);
        if |n.keys| < 4 { AddArrayOk(n, c, child); }
        else { Grow4Ok(n); AddArrayOk(Grow4(n), c, child); AddedKeep(n, Grow4(n), c, child, n'); }
      case Node16(_, _, _) =>
        ArrayBranches(n);
        if |n.keys| < 16 { AddArrayOk(n, c, child); }
        else { Grow16Ok(n); Grow16Slot(n); AddSlotOk(Grow16(n), c, child); AddedKeep(n, Grow16(n), c, child, n'); }
      case Node48(_, _, _) =>
        if n.h.num < 48 { HasFreeSlot(n); AddSlotOk(n, c, child); }
        else { Grow48Ok(n); AddChild256Ok(Grow48(n), c, child); assert n' == AddChild48(n, c, child); FullSlots(n, c, child); AddedKeep(n, Grow48(n), c, child, n'); }
      case Node256(_, _) => AddChild256Ok(n, c, child);
    }
    AddedBranches(n, c, child, n');
  }

  // ------------------------------------------------------------- removing a child

  ghost predicate Removed<V>(n: Node<V>, c: Byte, n': Node<V>)
    requires !n.Leaf? && SizesOk(n)
  {
    && !n'.Leaf? && LayoutOk(n')
    && (forall x: Byte :: FindChild(n', x) == if x == c then None else FindChild(n, x))
    && SamePrefix(n.h, n'.h)
  }

  function Drop(h: Header): Header
  {
    h.(num := (h.num + 255) % 256)
  }

  lemma RemovedBranches<V>(n: Node<V>, c: Byte, n': Node<V>)
    requires !n.Leaf? && SizesOk(n) && !n'.Leaf? && SizesOk(n') && FindChild(n, c).Some?
    requires forall x: Byte :: FindChild(n', x) == if x == c then None else FindChild(n, x)
    ensures Branches(n) == Branches(n') + {c} && |Branches(n)| == |Branches(n')| + 1
    ensures |Branches(n)| <= 256
  {
    hide FindChild, SizesOk;
    forall x: Byte ensures x in Branches(n) <==> x == c || x in Branches(n') { }
    OneMore(Branches(n'), Branches(n), c);
    BoundedSet(Branches(n), 256);
  }

  lemma ToRemoved<V>(n: Node<V>, c: Byte, n': Node<V>)
    requires !n.Leaf? && LayoutOk(n) && FindChild(n, c).Some?
    requires !n'.Leaf? && StructureOk(n') && n'.h == Drop(n.h)
    requires forall x: Byte :: FindChild(n', x) == if x == c then None else FindChild(n, x)
    ensures Removed(n, c, n') && |Branches(n)| == |Branches(n')| + 1 && |Branches(n)| <= 256
  {
    hide Branches, Sorted, SlotsOk, FindChild;
    RemovedBranches(n, c, n');
    ModBack(|Branches(n')|);
  }

  lemma ModBack(k: nat)
    ensures ((k + 1) % 256 + 255) % 256 == k % 256
  {
  }

  function RemoveAt<T>(s: seq<T>, i: nat): (r: seq<T>)
    requires i < |s|
    ensures |r| == |s| - 1
    ensures forall j :: 0 <= j < i ==> r[j] == s[j]
    ensures forall j :: i <= j < |r| ==> r[j] == s[j + 1]
  {
    s[..i] + s[i+1..]
  }

  lemma ArrayRemove<V>(keys: seq<Byte>, kids: seq<Node<V>>, i: nat)
    requires |keys| == |kids| && Sorted(keys) && i < |keys|
    ensures var keys', kids' := RemoveAt(keys, i), RemoveAt(kids, i);
            Sorted(keys') && forall x: Byte :: FindIn(keys', kids', x) == if x == keys[i] then None else FindIn(keys, kids, x)
  {
    var keys', kids' := RemoveAt(keys, i), RemoveAt(kids, i);
    forall x: Byte ensures FindIn(keys', kids', x) == if x == keys[i] then None else FindIn(keys, kids, x) {
      var k := IndexOf(keys, x);
      if x == keys[i] {
        assert x !in keys';
      } else if k < |keys| {
        var k' := if k < i then k else k - 1;
        assert keys'[k'] == x;
        SortedIndex(keys', k');
      } else {
        assert x !in keys';
      }
    }
  }

  function RemoveArray<V>(n: Node<V>, c: Byte): (r: Node<V>)
    requires (n.Node4? || n.Node16?) && SizesOk(n) && IndexOf(n.keys, c) < |n.keys|
    ensures (r.Node4? <==> n.Node4?) && (r.Node16? <==> n.Node16?) && r.h == Drop(n.h)
  {
    var i := IndexOf(n.keys, c);
    n.(h := Drop(n.h), keys := RemoveAt(n.keys, i), kids := RemoveAt(n.kids, i))
  }

  /** The bytes from `i` on that have a child, in ascending order. */
  function BytesFrom<V>(n: Node<V>, i: nat): (r: seq<Byte>)
    requires !n.Leaf? && SizesOk(n) && i <= 256
    ensures forall c :: c in r <==> i <= c < 256 && FindChild(n, c).Some?
    ensures Sorted(r) && forall j :: 0 <= j < |r| ==> i <= r[j]
    decreases 256 - i
  {
    if i == 256 then []
    else if FindChild(n, i).Some? then [i] + BytesFrom(n, i + 1)
    else BytesFrom(n, i + 1)
  }

  function ChildrenOf<V>(n: Node<V>, bytes: seq<Byte>): (r: seq<Node<V>>)
    requires !n.Leaf? && SizesOk(n) && forall c :: c in bytes ==> FindChild(n, c).Some?
    ensures |r| == |bytes| && forall i :: 0 <= i < |bytes| ==> Some(r[i]) == FindChild(n, bytes[i])
  {
    seq(|bytes|, i requires 0 <= i < |bytes| => assert bytes[i] in bytes; FindChild(n, bytes[i]).value)
  }

  lemma BytesCount<V>(n: Node<V>)
    requires !n.Leaf? && SizesOk(n)
    ensures |BytesFrom(n, 0)| == |Branches(n)|
  {
    SortedCount(BytesFrom(n, 0));
    assert ByteSet(BytesFrom(n, 0)) == Branches(n);
  }

  function Shrink16<V>(n: Node<V>): (r: Node<V>)
    requires n.Node16? && SizesOk(n)
    ensures r.Node4?
  {
    Node4(CopyHeader(n.h), n.keys, n.kids)
  }

  function Shrink48<V>(n: Node<V>): (r: Node<V>)
    requires n.Node48? && SizesOk(n)
    ensures r.Node16?
  {
    var bytes := BytesFrom(n, 0);
    Node16(CopyHeader(n.h), bytes, ChildrenOf(n, bytes))
  }

  function Shrink256<V>(n: Node<V>): (r: Node<V>)
    requires n.Node256? && SizesOk(n) && |BytesFrom(n, 0)| <= 48
    ensures r.Node48?
  {
    var bytes := BytesFrom(n, 0);
    Node48(CopyHeader(n.h), IndexFrom(bytes, |bytes|),
           seq(48, p => if 0 <= p < |bytes| then FindChild(n, bytes[p]) else None))
  }

  function RemoveSlot<V>(n: Node<V>, c: Byte): (r: Node<V>)
    requires n.Node48? && SizesOk(n) && n.index[c] > 0
    ensures r.Node48? && r.h == Drop(n.h)
  {
    n.(h := Drop(n.h), index := n.index[c := 0], slots := n.slots[n.index[c] - 1 := None])
  }

  function RemoveEntry<V>(n: Node<V>, c: Byte): (r: Node<V>)
    requires n.Node256? && SizesOk(n)
    ensures r.Node256? && r.h == Drop(n.h)
  {
    n.(h := Drop(n.h), table := n.table[c := None])
  }

  /** Remove the child at byte `c`, moving to a smaller layout on underflow. A Node4 may
      be left with a single child; `Collapse` then removes the node itself. */
  function RemoveChild<V>(n: Node<V>, c: Byte): Node<V>
    requires !n.Leaf? && LayoutOk(n) && CountOk(n) && FindChild(n, c).Some?
  {
    match n
    case Node4(_, _, _) => RemoveArray(n, c)
    case Node16(_, _, _) =>
      var r := RemoveArray(n, c);
      if r.h.num == 3 then Shrink16(r) else r
    case Node48(_, _, _) =>
      var r := RemoveSlot(n, c);
      if r.h.num == 12 then Shrink48(r) else r
    case Node256(_, _) =>
      var r := RemoveEntry(n, c);
      TableShrinks(n, c);
      if r.h.num == 37 then Shrink256(r) else r
  }

  lemma RemoveArrayOk<V>(n: Node<V>, c: Byte)
    requires (n.Node4? || n.Node16?) && LayoutOk(n) && FindChild(n, c).Some?
    ensures IndexOf(n.keys, c) < |n.keys|
    ensures Removed(n, c, RemoveArray(n, c)) && |Branches(n)| == |Branches(RemoveArray(n, c))| + 1
    ensures |Branches(n)| == |n.keys|
  {
    ArrayBranches(n);
    var i, n' := IndexOf(n.keys, c), RemoveArray(n, c);
    hide IndexOf, FindIn, Branches, Sorted, RemoveAt;
    ArrayRemove(n.keys, n.kids, i);
    forall x: Byte ensures FindChild(n', x) == if x == c then None else FindChild(n, x) { }
    ToRemoved(n, c, n');
  }

  lemma RemoveEntryOk<V>(n: Node<V>, c: Byte)
    requires n.Node256? && LayoutOk(n) && FindChild(n, c).Some?
    ensures Removed(n, c, RemoveEntry(n, c)) && |Branches(n)| == |Branches(RemoveEntry(n, c))| + 1 && |Branches(n)| <= 256
  {
    ToRemoved(n, c, RemoveEntry(n, c));
  }

  lemma TableShrinks<V>(n: Node<V>, c: Byte)
    requires n.Node256? && LayoutOk(n) && FindChild(n, c).Some?
    ensures |BytesFrom(RemoveEntry(n, c), 0)| == |Branches(RemoveEntry(n, c))|
    ensures RemoveEntry(n, c).h.num == 37 ==> |BytesFrom(RemoveEntry(n, c), 0)| == 37
  {
    hide Branches, RemoveEntry, BytesFrom, FindChild;
    RemoveEntryOk(n, c);
    BytesCount(RemoveEntry(n, c));
  }

  lemma SlotRemoved<V>(index: seq<nat>, slots: seq<Option<Node<V>>>, c: Byte)
    requires SlotsOk(index, slots) && index[c] > 0
    ensures SlotsOk(index[c := 0], slots[index[c] - 1 := None])
  {
    var index', slots' := index[c := 0], slots[index[c] - 1 := None];
    forall q | 0 <= q < 48 && slots'[q].Some? ensures Named(index', q) {
      assert Named(index, q);
      var d :| 0 <= d < 256 && index[d] == q + 1;
      assert index'[d] == q + 1;
    }
  }

  lemma SlotGone<V>(n: Node<V>, c: Byte, x: Byte)
    requires n.Node48? && SizesOk(n) && SlotsOk(n.index, n.slots) && n.index[c] > 0
    ensures FindChild(RemoveSlot(n, c), x) == if x == c then None else FindChild(n, x)
  {
  }

  lemma RemoveSlotOk<V>(n: Node<V>, c: Byte)
    requires n.Node48? && LayoutOk(n) && FindChild(n, c).Some?
    ensures n.index[c] > 0
    ensures Removed(n, c, RemoveSlot(n, c)) && |Branches(n)| == |Branches(RemoveSlot(n, c))| + 1
  {
    var n' := RemoveSlot(n, c);
    SlotRemoved(n.index, n.slots, c);
    hide Branches, SlotsOk;
    forall x: Byte ensures FindChild(n', x) == if x == c then None else FindChild(n, x) { SlotGone(n, c, x); }
    ToRemoved(n, c, n');
  }

  lemma Shrink16Ok<V>(n: Node<V>)
    requires n.Node16? && LayoutOk(n) && |n.keys| <= 4
    ensures SameNode(n, Shrink16(n)) && Branches(Shrink16(n)) == Branches(n)
  {
    ToSame(n, Shrink16(n));
  }

  /** Looking up a byte in arrays built from the ascending list of branches. */
  lemma RankLookup<V>(n: Node<V>, bytes: seq<Byte>, x: Byte)
    requires !n.Leaf? && SizesOk(n) && bytes == BytesFrom(n, 0)
    ensures FindChild(n, x) == if IndexOf(bytes, x) < |bytes| then FindChild(n, bytes[IndexOf(bytes, x)]) else None
  {
    assert x in bytes <==> FindChild(n, x).Some?;
  }

  lemma Shrink48Ok<V>(n: Node<V>)
    requires n.Node48? && LayoutOk(n) && |Branches(n)| <= 16
    ensures SameNode(n, Shrink48(n)) && Branches(Shrink48(n)) == Branches(n)
  {
    hide SlotsOk, Branches, BytesFrom;
    BytesCount(n);
    var n', bytes := Shrink48(n), BytesFrom(n, 0);
    forall x: Byte ensures FindChild(n', x) == FindChild(n, x) { RankLookup(n, bytes, x); }
    ToSame(n, n');
  }

  lemma Shrink256Slots<V>(n: Node<V>)
    requires n.Node256? && SizesOk(n) && |BytesFrom(n, 0)| <= 48
    ensures SlotsOk(Shrink256(n).index, Shrink256(n).slots)
  {
    hide BytesFrom, Sorted, SlotsOk, FindChild;
    var n', bytes := Shrink256(n), BytesFrom(n, 0);
    forall p | 0 <= p < |bytes| ensures n'.slots[p].Some? { assert bytes[p] in bytes; }
    IndexedSlots(bytes, n'.slots);
  }

  lemma Shrink256Ok<V>(n: Node<V>)
    requires n.Node256? && LayoutOk(n) && |BytesFrom(n, 0)| <= 48
    ensures SameNode(n, Shrink256(n)) && Branches(Shrink256(n)) == Branches(n)
  {
    hide SlotsOk, Branches, BytesFrom;
    Shrink256Slots(n);
    var n', bytes := Shrink256(n), BytesFrom(n, 0);
    forall x: Byte ensures FindChild(n', x) == FindChild(n, x) {
      IndexFromOk(bytes, |bytes|, x);
      RankLookup(n, bytes, x);
    }
    ToSame(n, n');
  }

  lemma RemovedKeep<V>(n: Node<V>, c: Byte, mid: Node<V>, n': Node<V>)
    requires !n.Leaf? && LayoutOk(n) && Removed(n, c, mid) && SameNode(mid, n')
    ensures Removed(n, c, n')
  {
    hide Branches, SlotsOk, FindChild, Sorted;
  }

  /** Removing a child changes the lookup at its byte and nothing else; the counts stay in
      range, except that a Node4 may be left with one child. */
  lemma RemoveChildOk<V>(n: Node<V>, c: Byte)
    requires !n.Leaf? && LayoutOk(n) && CountOk(n) && FindChild(n, c).Some?
    ensures Removed(n, c, RemoveChild(n, c))
    ensures |Branches(n)| == |Branches(RemoveChild(n, c))| + 1
    ensures CountOk(RemoveChild(n, c)) || (n.Node4? && RemoveChild(n, c).Node4? && |RemoveChild(n, c).keys| == 1)
  {
    var n' := RemoveChild(n, c);
    match n {
      case Node4(_, _, _) => RemoveArrayOk(n, c);
      case Node16(_, _, _) =>
        RemoveArrayOk(n, c);
        RemoveSmall(n, c);
      case Node48(_, _, _) => RemoveSlots(n, c);
      case Node256(_, _) => RemoveTable(n, c);
    }
  }

  lemma RemoveSmall<V>(n: Node<V>, c: Byte)
    requires n.Node16? && LayoutOk(n) && CountOk(n) && FindChild(n, c).Some?
    ensures Removed(n, c, RemoveChild(n, c)) && |Branches(n)| == |Branches(RemoveChild(n, c))| + 1 && CountOk(RemoveChild(n, c))
  {
    hide Branches, Sorted, FindIn, RemoveArray, Shrink16;
    RemoveArrayOk(n, c);
    var r := RemoveArray(n, c);
    ArrayBranches(r);
    if r.h.num == 3 { Shrink16Ok(r); RemovedKeep(n, c, r, Shrink16(r)); }
  }

  lemma LayoutSizes<V>(n: Node<V>)
    requires !n.Leaf? && LayoutOk(n)
    ensures SizesOk(n)
  {
  }

  lemma RemoveSlots<V>(n: Node<V>, c: Byte)
    requires n.Node48? && LayoutOk(n) && CountOk(n) && FindChild(n, c).Some?
    ensures Removed(n, c, RemoveChild(n, c)) && |Branches(n)| == |Branches(RemoveChild(n, c))| + 1 && CountOk(RemoveChild(n, c))
  {
    hide Branches, SlotsOk, RemoveSlot, Shrink48, FindChild, LayoutOk, Removed;
    LayoutSizes(n);
    RemoveSlotOk(n, c);
    var r := RemoveSlot(n, c);
    SlotCount(n, c, r);
    if r.h.num == 12 {
      RemovedFacts(n, c, r);
      Shrink48Ok(r);
      RemovedKeep(n, c, r, Shrink48(r));
      SameCount(r, Shrink48(r));
    }
  }

  lemma SlotCount<V>(n: Node<V>, c: Byte, r: Node<V>)
    requires n.Node48? && LayoutOk(n) && CountOk(n) && Removed(n, c, r) && r.Node48? && |Branches(n)| == |Branches(r)| + 1
    ensures r.h.num == |Branches(r)| && (r.h.num == 12 || CountOk(r))
  {
    hide Branches, SlotsOk, FindChild;
  }

  lemma RemovedFacts<V>(n: Node<V>, c: Byte, r: Node<V>)
    requires !n.Leaf? && LayoutOk(n) && Removed(n, c, r)
    ensures LayoutOk(r) && SizesOk(r) && SizesOk(n)
  {
    hide Branches, SlotsOk, FindChild;
  }

  lemma SameCount<V>(r: Node<V>, s: Node<V>)
    requires r.Node48? && LayoutOk(r) && |Branches(r)| == 12 && s.Node16? && SameNode(r, s) && Branches(s) == Branches(r)
    ensures CountOk(s)
  {
    hide Branches, SlotsOk, FindChild;
  }

  lemma RemoveTable<V>(n: Node<V>, c: Byte)
    requires n.Node256? && LayoutOk(n) && CountOk(n) && FindChild(n, c).Some?
    ensures Removed(n, c, RemoveChild(n, c)) && |Branches(n)| == |Branches(RemoveChild(n, c))| + 1 && CountOk(RemoveChild(n, c))
  {
    hide Branches, RemoveEntry, Shrink256, BytesFrom, FindChild;
    RemoveEntryOk(n, c);
    TableShrinks(n, c);
    var r := RemoveEntry(n, c);
    if r.h.num == 37 { Shrink256Ok(r); RemovedKeep(n, c, r, Shrink256(r)); }
  }

  // ------------------------------------------- replacing a child or a header, first child

  /** The write through the reference that `find_child` returned. */
  function SetChild<V>(n: Node<V>, c: Byte, child: Node<V>): (r: Node<V>)
    requires !n.Leaf? && SizesOk(n) && FindChild(n, c).Some?
    ensures !r.Leaf? && r.h == n.h
  {
    match n
    case Node4(h, keys, kids) => Node4(h, keys, kids[IndexOf(keys, c) := child])
    case Node16(h, keys, kids) => Node16(h, keys, kids[IndexOf(keys, c) := child])
    case Node48(h, index, slots) => Node48(h, index, slots[index[c] - 1 := Some(child)])
    case Node256(h, table) => Node256(h, table[c := Some(child)])
  }

  lemma SlotReplaced<V>(index: seq<nat>, slots: seq<Option<Node<V>>>, c: Byte, child: Node<V>)
    requires SlotsOk(index, slots) && index[c] > 0
    ensures SlotsOk(index, slots[index[c] - 1 := Some(child)])
  {
    var slots' := slots[index[c] - 1 := Some(child)];
    forall p | 0 <= p < 48 && slots'[p].Some? ensures Named(index, p) {
      if p == index[c] - 1 { assert index[c] == p + 1; }
    }
  }

  lemma SetLookup<V>(n: Node<V>, c: Byte, child: Node<V>, x: Byte)
    requires !n.Leaf? && StructureOk(n) && FindChild(n, c).Some?
    ensures SizesOk(SetChild(n, c, child))
    ensures FindChild(SetChild(n, c, child), x) == if x == c then Some(child) else FindChild(n, x)
  {
  }

  lemma SetChildOk<V>(n: Node<V>, c: Byte, child: Node<V>)
    requires !n.Leaf? && LayoutOk(n) && FindChild(n, c).Some?
    ensures LayoutOk(SetChild(n, c, child)) && Branches(SetChild(n, c, child)) == Branches(n)
    ensures forall x: Byte :: FindChild(SetChild(n, c, child), x) == if x == c then Some(child) else FindChild(n, x)
    ensures CountOk(n) ==> CountOk(SetChild(n, c, child))
  {
    var n' := SetChild(n, c, child);
    if n.Node48? { SlotReplaced(n.index, n.slots, c, child); }
    hide SlotsOk;
    forall x: Byte ensures SizesOk(n') && FindChild(n', x) == if x == c then Some(child) else FindChild(n, x) { SetLookup(n, c, child, x); }
    hide FindChild, SetChild;
    assert Branches(n') == Branches(n);
  }

  function WithPrefix<V>(n: Node<V>, plen: nat, partial: seq<Byte>): (r: Node<V>)
    requires !n.Leaf?
    ensures !r.Leaf? && r.h == Header(n.h.num, plen, partial)
  {
    n.(h := Header(n.h.num, plen, partial))
  }

  lemma WithPrefixOk<V>(n: Node<V>, plen: nat, partial: seq<Byte>)
    requires !n.Leaf? && LayoutOk(n) && |partial| == MaxPrefix
    ensures var n' := WithPrefix(n, plen, partial);
            LayoutOk(n') && (forall x: Byte :: FindChild(n', x) == FindChild(n, x)) && (CountOk(n) ==> CountOk(n'))
  {
    var n' := WithPrefix(n, plen, partial);
    forall x: Byte ensures FindChild(n', x) == FindChild(n, x) { }
    hide SlotsOk, FindChild;
    assert Branches(n') == Branches(n);
  }

  /** First byte at or after `i` that has a child. */
  function Scan<V>(n: Node<V>, i: nat): (r: nat)
    requires !n.Leaf? && SizesOk(n) && i <= 256
    ensures i <= r <= 256 && (r < 256 ==> FindChild(n, r).Some?)
    ensures forall c :: i <= c < r ==> FindChild(n, c).None?
    decreases 256 - i
  {
    if i == 256 || FindChild(n, i).Some? then i else Scan(n, i + 1)
  }

  lemma NonEmpty<V>(n: Node<V>)
    requires !n.Leaf? && LayoutOk(n) && |Branches(n)| > 0
    ensures (n.Node4? || n.Node16?) ==> |n.keys| > 0
    ensures Scan(n, 0) < 256
  {
    if n.Node4? || n.Node16? { ArrayBranches(n); }
    var c :| c in Branches(n);
    assert FindChild(n, c).Some?;
  }

  /** The child with the smallest byte. */
  function FirstChild<V>(n: Node<V>): Node<V>
    requires !n.Leaf? && LayoutOk(n) && |Branches(n)| > 0
  {
    NonEmpty(n);
    if n.Node4? || n.Node16? then n.kids[0] else FindChild(n, Scan(n, 0)).value
  }

  lemma FirstChildOk<V>(n: Node<V>)
    requires !n.Leaf? && LayoutOk(n) && |Branches(n)| > 0
    ensures Scan(n, 0) < 256 && FindChild(n, Scan(n, 0)) == Some(FirstChild(n)) && FirstChild(n) < n
  {
    NonEmpty(n);
    if n.Node4? || n.Node16? {
      SortedIndex(n.keys, 0);
      assert FindChild(n, n.keys[0]) == Some(n.kids[0]);
      var b := Scan(n, 0);
      assert b <= n.keys[0];
      assert b in n.keys;
    }
  }

  // ---------------------------------------------------------- when the layout changes

  /** How many children a layout has room for. */
  function Room<V>(n: Node<V>): nat
  {
    match n
    case Leaf(_, _) => 0
    case Node4(_, _, _) => 4
    case Node16(_, _, _) => 16
    case Node48(_, _, _) => 48
    case Node256(_, _) => 256
  }

  /** A layout gives way to the next larger one exactly when it is full. */
  lemma AddChildRoom<V>(n: Node<V>, c: Byte, child: Node<V>)
    requires !n.Leaf? && LayoutOk(n) && (n.Node48? ==> |Branches(n)| <= 48) && FindChild(n, c).None?
    ensures var r := Room(AddChild(n, c, child));
            if |Branches(n)| < Room(n) then r == Room(n) else !n.Node256? && r == if n.Node4? then 16 else if n.Node16? then 48 else 256
  {
    hide SlotsOk, Branches, Sorted, FindIn, FindChild, Grow4, Grow16, Grow48, IndexFrom;
    FewBranches(n, c);
    if n.Node4? || n.Node16? { ArrayBranches(n); }
  }

  /** With a byte to spare the stored count is the number of children. */
  lemma FewBranches<V>(n: Node<V>, c: Byte)
    requires !n.Leaf? && LayoutOk(n) && FindChild(n, c).None?
    ensures n.h.num == |Branches(n)| <= 255
  {
    hide SlotsOk, Branches, Sorted, FindChild, SizesOk;
    NoBranch(n, c);
    OneSpare(Branches(n), c);
  }

  lemma NoBranch<V>(n: Node<V>, c: Byte)
    requires !n.Leaf? && SizesOk(n) && FindChild(n, c).None?
    ensures c !in Branches(n) && forall x :: x in Branches(n) ==> 0 <= x < 256
  {
    hide FindChild, SizesOk;
  }

  lemma OneSpare(s: set<int>, c: int)
    requires c !in s && 0 <= c < 256 && forall x :: x in s ==> 0 <= x < 256
    ensures |s| <= 255
  {
    BoundedSet(s + {c}, 256);
    assert |s + {c}| == |s| + 1;
  }

  /** And to the next smaller one exactly when 3, 12 or 37 children are left. */
  lemma RemoveChildRoom<V>(n: Node<V>, c: Byte)
    requires !n.Leaf? && LayoutOk(n) && CountOk(n) && FindChild(n, c).Some?
    ensures var r, k := Room(RemoveChild(n, c)), |Branches(n)| - 1;
            r == if n.Node16? && k == 3 then 4 else if n.Node48? && k == 12 then 16 else if n.Node256? && k == 37 then 48 else Room(n)
  {
    RemoveChildOk(n, c);
    DropsTo(n.h, |Branches(n)|);
    hide SlotsOk, Branches, Sorted, FindIn, FindChild, Shrink16, Shrink48, Shrink256, RemoveSlot, RemoveEntry, IndexOf, BytesFrom;
  }

  lemma DropsTo(h: Header, k: nat)
    requires 0 < k <= 256 && h.num == k % 256
    ensures Drop(h).num == k - 1
  {
  }
}
