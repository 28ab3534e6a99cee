/**
 The linked-list radix sort for keys of different lengths (src/terark/radix_sort.cpp, class
 Impl), and the in-place permutation that follows it.

 Elements are numbers below N; `link[x]` is the element after `x`. The sort relinks the
 elements only: first by length, then from the last character position to the first.
 */
module RadixSort {

  const Nil: int := -1

  // ------------------------------------------------------------- linked lists

  ghost predicate NoDup(c: seq<nat>)
  {
    forall i, j :: 0 <= i < j < |c| ==> c[i] != c[j]
  }

  ghost predicate InRange(c: seq<nat>, n: nat)
  {
    forall i :: 0 <= i < |c| ==> c[i] < n
  }

  /** The elements of `s` are linked one to the next; where the last one leads is open. */
  ghost predicate Segment(link: seq<int>, head: int, tail: int, s: seq<nat>)
  {
    && InRange(s, |link|)
    && (if |s| == 0 then head == Nil else head == s[0] && tail == s[|s| - 1])
    && (forall i :: 0 <= i < |s| - 1 ==> link[s[i]] == s[i + 1])
  }

  /** A list that ends. */
  ghost predicate IsList(link: seq<int>, head: int, s: seq<nat>)
  {
    && InRange(s, |link|)
    && (if |s| == 0 then head == Nil else head == s[0] && link[s[|s| - 1]] == Nil)
    && (forall i :: 0 <= i < |s| - 1 ==> link[s[i]] == s[i + 1])
  }

  ghost predicate SameOutside(link: seq<int>, link0: seq<int>, c: seq<nat>)
  {
    |link| == |link0| && forall x: nat :: x < |link| && x !in c ==> link[x] == link0[x]
  }

  lemma SegmentKeeps(link: seq<int>, head: int, tail: int, s: seq<nat>, x: nat, v: int)
    requires Segment(link, head, tail, s) && x < |link| && (x !in s || (|s| > 0 && NoDup(s) && x == s[|s| - 1]))
    ensures Segment(link[x := v], head, tail, s)
  {
    forall i | 0 <= i < |s| - 1 ensures link[x := v][s[i]] == s[i + 1] { assert s[i] != x; }
  }

  lemma ListKeeps(link: seq<int>, head: int, s: seq<nat>, x: nat, v: int)
    requires IsList(link, head, s) && x < |link| && x !in s
    ensures IsList(link[x := v], head, s)
  {
  }

  /** Linking the tail of one segment to the head of another. */
  lemma SegmentJoin(link: seq<int>, h1: int, t1: int, s1: seq<nat>, h2: int, t2: int, s2: seq<nat>)
    requires Segment(link, h1, t1, s1) && Segment(link, h2, t2, s2) && |s1| > 0 && |s2| > 0 && NoDup(s1 + s2)
    ensures 0 <= t1 < |link| && Segment(link[t1 := h2], h1, t2, s1 + s2)
  {
    var s, link' := s1 + s2, link[t1 := h2];
    var m := |s1| - 1;
    assert s[m] == t1;
    forall i | 0 <= i < |s| - 1 ensures link'[s[i]] == s[i + 1] {
      if i < m { assert s[i] == s1[i] && s[i + 1] == s1[i + 1] && s[i] != s[m]; }
      else if i == m { assert s[i + 1] == s2[0]; }
      else { assert s[i] == s2[i - |s1|] && s[i + 1] == s2[i - |s1| + 1] && s[i] != s[m]; }
    }
  }

  lemma SegmentEnd(link: seq<int>, head: int, tail: int, s: seq<nat>)
    requires Segment(link, head, tail, s) && |s| > 0 && NoDup(s)
    ensures 0 <= tail < |link| && IsList(link[tail := Nil], head, s)
  {
    SegmentKeeps(link, head, tail, s, s[|s| - 1], Nil);
  }

  // ----------------------------------------------------- distributing, on sequences

  /** The elements of `c` in bucket `k`, in their order. */
  ghost function Bucket(c: seq<nat>, f: seq<nat>, k: nat): (r: seq<nat>)
    requires InRange(c, |f|)
    ensures forall x :: x in r <==> x in c && f[x] == k
  {
    if |c| == 0 then []
    else
      var r := Bucket(c[..|c| - 1], f, k);
      if f[c[|c| - 1]] == k then r + [c[|c| - 1]] else r
  }

  lemma {:induction false} BucketNoDup(c: seq<nat>, f: seq<nat>, k: nat)
    requires InRange(c, |f|) && NoDup(c)
    ensures NoDup(Bucket(c, f, k))
    decreases |c|
  {
    if |c| > 0 {
      var d := c[..|c| - 1];
      BucketNoDup(d, f, k);
      assert c[|c| - 1] !in d;
    }
  }

  ghost predicate Segments(link: seq<int>, heads: seq<int>, tails: seq<int>, segs: seq<seq<nat>>)
  {
    && |heads| == |tails| == |segs|
    && forall k :: 0 <= k < |segs| ==> Segment(link, heads[k], tails[k], segs[k])
  }

  ghost function Buckets(c: seq<nat>, f: seq<nat>, n: nat): (r: seq<seq<nat>>)
    requires InRange(c, |f|)
    ensures |r| == n && forall k :: 0 <= k < n ==> r[k] == Bucket(c, f, k)
  {
    seq(n, k requires 0 <= k < n => Bucket(c, f, k))
  }

  /** The first `i` elements of the list are in their buckets; `p` leads the others. */
  ghost predicate Distributing(link: seq<int>, link0: seq<int>, heads: seq<int>, tails: seq<int>, p: int, c: seq<nat>, f: seq<nat>, i: nat, n: nat)
  {
    && i <= |c| && NoDup(c) && InRange(c, |f|) && |f| == |link| && (forall x :: x in c ==> f[x] < n)
    && InRange(c[..i], |f|) && Segments(link, heads, tails, Buckets(c[..i], f, n))
    && IsList(link, p, c[i..]) && SameOutside(link, link0, c)
  }

  /** Append element `p` to bucket `k`: the new head and tail tables and links. */
  function Heads(heads: seq<int>, k: nat, p: int): seq<int>
    requires k < |heads|
  {
    if heads[k] == Nil then heads[k := p] else heads
  }

  function Links(link: seq<int>, heads: seq<int>, tails: seq<int>, k: nat, p: int): (r: seq<int>)
    requires k < |heads| == |tails| && (heads[k] != Nil ==> 0 <= tails[k] < |link|)
    ensures |r| == |link|
  {
    if heads[k] == Nil then link else link[tails[k] := p]
  }

  lemma SegmentAppend(link: seq<int>, heads: seq<int>, tails: seq<int>, k: nat, s: seq<nat>, p: nat)
    requires k < |heads| == |tails| && Segment(link, heads[k], tails[k], s) && NoDup(s) && p !in s && p < |link|
    ensures heads[k] != Nil ==> 0 <= tails[k] < |link|
    ensures Segment(Links(link, heads, tails, k, p), Heads(heads, k, p)[k], p, s + [p])
  {
    if |s| > 0 {
      assert Segment(link, p, p, [p]);
      SegmentJoin(link, heads[k], tails[k], s, p, p, [p]);
    }
  }

  lemma OtherBucket(link: seq<int>, head: int, tail: int, s: seq<nat>, heads: seq<int>, tails: seq<int>, k: nat, t: seq<nat>, p: nat)
    requires Segment(link, head, tail, s) && k < |heads| == |tails| && Segment(link, heads[k], tails[k], t)
    requires forall x :: x in s ==> x !in t
    ensures heads[k] != Nil ==> 0 <= tails[k] < |link|
    ensures Segment(Links(link, heads, tails, k, p), head, tail, s)
  {
    if |t| > 0 {
      assert tails[k] == t[|t| - 1] && t[|t| - 1] in t;
      SegmentKeeps(link, head, tail, s, tails[k], p);
    }
  }

  lemma BucketStep(c: seq<nat>, f: seq<nat>, i: nat, k: nat)
    requires i < |c| && InRange(c, |f|)
    ensures InRange(c[..i], |f|) && InRange(c[..i + 1], |f|)
    ensures Bucket(c[..i + 1], f, k) == if f[c[i]] == k then Bucket(c[..i], f, k) + [c[i]] else Bucket(c[..i], f, k)
  {
    assert c[..i + 1][..i] == c[..i];
  }

  lemma DistributeSegs(link: seq<int>, heads: seq<int>, tails: seq<int>, c: seq<nat>, f: seq<nat>, i: nat, n: nat, p: nat, k: nat)
    requires i < |c| && NoDup(c) && InRange(c, |f|) && |f| == |link| && InRange(c[..i], |f|)
    requires Segments(link, heads, tails, Buckets(c[..i], f, n)) && p == c[i] && k == f[p] && k < n
    ensures heads[k] != Nil ==> 0 <= tails[k] < |link| && tails[k] in c[..i]
    ensures InRange(c[..i + 1], |f|) && Segments(Links(link, heads, tails, k, p), Heads(heads, k, p), tails[k := p], Buckets(c[..i + 1], f, n))
  {
    var d := c[..i];
    assert p !in d;
    BucketNoDup(d, f, k);
    SegmentAppend(link, heads, tails, k, Bucket(d, f, k), p);
    assert |Bucket(d, f, k)| > 0 ==> tails[k] in Bucket(d, f, k);
    var link', heads', tails' := Links(link, heads, tails, k, p), Heads(heads, k, p), tails[k := p];
    BucketStep(c, f, i, k);
    forall b | 0 <= b < n ensures Segment(link', heads'[b], tails'[b], Bucket(c[..i + 1], f, b)) {
      BucketStep(c, f, i, b);
      if b != k { OtherBucket(link, heads[b], tails[b], Bucket(d, f, b), heads, tails, k, Bucket(d, f, k), p); }
    }
  }

  lemma DistributeStep(link: seq<int>, link0: seq<int>, heads: seq<int>, tails: seq<int>, p: int, c: seq<nat>, f: seq<nat>, i: nat, n: nat, k: nat)
    requires Distributing(link, link0, heads, tails, p, c, f, i, n) && i < |c| && k == f[c[i]]
    ensures p == c[i] && k < n == |heads| == |tails| && (heads[k] != Nil ==> 0 <= tails[k] < |link|)
    ensures var link' := Links(link, heads, tails, k, p);
            0 <= p < |link'| && Distributing(link', link0, Heads(heads, k, p), tails[k := p], link'[p], c, f, i + 1, n)
  {
    assert c[i..][0] == c[i];
    assert c[i] in c;
    DistributeSegs(link, heads, tails, c, f, i, n, p, k);
    var link' := Links(link, heads, tails, k, p);
    DistributeRest(link, p, c, i, heads[k] == Nil, tails[k]);
    assert SameOutside(link', link0, c) by { assert heads[k] != Nil ==> tails[k] in c; }
  }

  lemma DistributeRest(link: seq<int>, p: int, c: seq<nat>, i: nat, empty: bool, t: int)
    requires i < |c| && NoDup(c) && IsList(link, p, c[i..]) && (!empty ==> 0 <= t < |link| && t in c[..i])
    ensures p == c[i] && 0 <= p < |link|
    ensures var link' := if empty then link else link[t := p]; IsList(link', link'[p], c[i + 1..])
  {
    assert c[i..][0] == c[i];
    if !empty {
      assert t !in c[i..];
      ListKeeps(link, p, c[i..], t, p);
    }
    var link' := if empty then link else link[t := p];
    var d, e := c[i..], c[i + 1..];
    assert forall j :: 0 <= j < |e| ==> e[j] == d[j + 1];
    assert |e| > 0 ==> e[|e| - 1] == d[|d| - 1];
    assert |e| == 0 ==> d[|d| - 1] == p;
    assert |e| > 0 ==> link'[d[0]] == d[1];
    forall j | 0 <= j < |e| - 1 ensures link'[e[j]] == e[j + 1] {
      var l := j + 1;
      assert link'[d[l]] == d[l + 1];
    }
  }

  // ----------------------------------------------------- collecting, on sequences

  ghost function Flat(segs: seq<seq<nat>>): seq<nat>
  {
    if |segs| == 0 then [] else Flat(segs[..|segs| - 1]) + segs[|segs| - 1]
  }

  /** The elements of the first `j` buckets, bucket after bucket: a stable sort by bucket. */
  ghost function SortBy(c: seq<nat>, f: seq<nat>, j: nat): (r: seq<nat>)
    requires InRange(c, |f|)
    ensures forall x :: x in r <==> x in c && f[x] < j
  {
    if j == 0 then [] else SortBy(c, f, j - 1) + Bucket(c, f, j - 1)
  }

  lemma {:induction false} FlatBuckets(c: seq<nat>, f: seq<nat>, n: nat, j: nat)
    requires InRange(c, |f|) && j <= n
    ensures Flat(Buckets(c, f, n)[..j]) == SortBy(c, f, j)
  {
    if j > 0 {
      FlatBuckets(c, f, n, j - 1);
      assert Buckets(c, f, n)[..j][..j - 1] == Buckets(c, f, n)[..j - 1];
    }
  }

  lemma {:induction false} SortByNoDup(c: seq<nat>, f: seq<nat>, j: nat)
    requires InRange(c, |f|) && NoDup(c)
    ensures NoDup(SortBy(c, f, j))
  {
    if j > 0 {
      SortByNoDup(c, f, j - 1);
      BucketNoDup(c, f, j - 1);
      ConcatNoDup(SortBy(c, f, j - 1), Bucket(c, f, j - 1));
    }
  }

  lemma {:induction false} FlatParts(segs: seq<seq<nat>>, j: nat)
    requires j < |segs|
    ensures Flat(segs[..j + 1]) == Flat(segs[..j]) + segs[j]
    ensures Flat(segs[..j + 1]) <= Flat(segs)
    decreases |segs| - j
  {
    assert segs[..j + 1][..j] == segs[..j];
    if j + 1 < |segs| {
      FlatParts(segs, j + 1);
    } else {
      assert segs[..j + 1] == segs;
    }
  }

  lemma ConcatNoDup(a: seq<nat>, b: seq<nat>)
    requires NoDup(a) && NoDup(b) && forall x :: x in b ==> x !in a
    ensures NoDup(a + b)
  {
    var c := a + b;
    forall i, j | 0 <= i < j < |c| ensures c[i] != c[j] {
      if i < |a| <= j { assert c[j] in b && c[i] in a; }
    }
  }

  lemma ConcatApart(a: seq<nat>, b: seq<nat>)
    requires NoDup(a + b)
    ensures forall x :: x in a ==> x !in b
  {
    forall i, l | 0 <= i < |a| && 0 <= l < |b| ensures a[i] != b[l] {
      assert (a + b)[i] == a[i] && (a + b)[|a| + l] == b[l];
    }
  }

  lemma PrefixIn(a: seq<nat>, b: seq<nat>)
    requires a <= b
    ensures forall x :: x in a ==> x in b
  {
    forall i | 0 <= i < |a| ensures a[i] in b { assert b[i] == a[i]; }
  }

  lemma PrefixNoDup(a: seq<nat>, b: seq<nat>)
    requires a <= b && NoDup(b)
    ensures NoDup(a)
  {
  }

  // ------------------------------------------------------------------ the list passes

  ghost predicate Digits(keys: seq<seq<int>>, code: int -> nat, kpos: nat, c: seq<nat>, f: seq<nat>, radix: nat)
  {
    && |f| == |keys| && InRange(c, |f|)
    && forall x :: x in c ==> kpos < |keys[x]| && code(keys[x][kpos]) == f[x] < radix
  }

  lemma DistributeStart(link: seq<int>, heads: seq<int>, tails: seq<int>, first: int, c: seq<nat>, f: seq<nat>, n: nat)
    requires IsList(link, first, c) && NoDup(c) && InRange(c, |f|) && |f| == |link| && |heads| == |tails| == n
    requires (forall k :: 0 <= k < n ==> heads[k] == Nil) && (forall x :: x in c ==> f[x] < n)
    ensures Distributing(link, link, heads, tails, first, c, f, 0, n)
  {
    assert c[0..] == c;
    forall k | 0 <= k < n ensures Segment(link, heads[k], tails[k], Bucket(c[..0], f, k)) { }
  }

  lemma DistributeEnd(link: seq<int>, link0: seq<int>, heads: seq<int>, tails: seq<int>, p: int, c: seq<nat>, f: seq<nat>, i: nat, n: nat)
    requires Distributing(link, link0, heads, tails, p, c, f, i, n)
    ensures p == Nil <==> i == |c|
    ensures i == |c| ==> Segments(link, heads, tails, Buckets(c, f, n)) && SameOutside(link, link0, c)
    ensures |heads| == |tails| == n && |link| == |link0| && i <= |c|
  {
    assert i < |c| ==> c[i..][0] == c[i];
    if i == |c| { assert c[..i] == c; }
  }

  /** Walk the list once and append each element to the list of its code at `kpos`. */
  method Distribute(link0: seq<int>, first: int, tails0: seq<int>, keys: seq<seq<int>>, code: int -> nat, kpos: nat, ghost c: seq<nat>, ghost f: seq<nat>)
    returns (link: seq<int>, heads: seq<int>, tails: seq<int>)
    requires IsList(link0, first, c) && NoDup(c) && |link0| == |keys| && Digits(keys, code, kpos, c, f, |tails0|)
    ensures Segments(link, heads, tails, Buckets(c, f, |tails0|)) && SameOutside(link, link0, c)
  {
    hide Distributing, Segments, SameOutside, NoDup, Buckets, IsList;
    link, tails := link0, tails0;
    heads := seq(|tails0|, _ => Nil);
    DistributeStart(link, heads, tails, first, c, f, |tails0|);
    DistributeEnd(link, link0, heads, tails, first, c, f, 0, |tails0|);
    var p := first;
    ghost var i := 0;
    while p != Nil
      invariant 0 <= i <= |c| && |heads| == |tails| == |tails0| && |link| == |link0| && (p == Nil <==> i == |c|)
      invariant Distributing(link, link0, heads, tails, p, c, f, i, |tails0|)
      decreases |c| - i
    {
      assert c[i] in c;
      DistributeStep(link, link0, heads, tails, p, c, f, i, |tails0|, f[c[i]]);
      var k := code(keys[p][kpos]);
      var isEmpty := heads[k] == Nil;
      if isEmpty { heads := heads[k := p]; } else { link := link[tails[k] := p]; }
      tails := tails[k := p];
      p := link[p];
      i := i + 1;
      DistributeEnd(link, link0, heads, tails, p, c, f, i, |tails0|);
    }
    DistributeEnd(link, link0, heads, tails, p, c, f, i, |tails0|);
  }

  lemma ListInRange(link: seq<int>, head: int, s: seq<nat>)
    requires IsList(link, head, s)
    ensures InRange(s, |link|)
  {
  }

  ghost predicate Lengths(keys: seq<seq<int>>, f: seq<nat>, maxLen: nat)
  {
    |f| == |keys| && forall x :: 0 <= x < |keys| ==> |keys[x]| == f[x] <= maxLen
  }

  /** The same by key length, over all elements in their initial order. */
  method LenDistribute(link0: seq<int>, keys: seq<seq<int>>, maxLen: nat, ghost c: seq<nat>, ghost f: seq<nat>)
    returns (link: seq<int>, heads: seq<int>, tails: seq<int>)
    requires |link0| == |keys| > 0 && IsList(link0[|keys| - 1 := Nil], 0, c) && NoDup(c) && Lengths(keys, f, maxLen)
    ensures Segments(link, heads, tails, Buckets(c, f, maxLen + 1)) && SameOutside(link, link0[|keys| - 1 := Nil], c)
  {
    hide Distributing, Segments, SameOutside, NoDup, Buckets, IsList;
    var p := 0;
    link := link0[|keys| - 1 := Nil];
    ghost var link1 := link;
    heads, tails := seq(maxLen + 1, _ => Nil), seq(maxLen + 1, _ => Nil);
    ListInRange(link, p, c);
    DistributeStart(link, heads, tails, p, c, f, maxLen + 1);
    DistributeEnd(link, link1, heads, tails, p, c, f, 0, maxLen + 1);
    ghost var i := 0;
    while p != Nil
      invariant 0 <= i <= |c| && |heads| == |tails| == maxLen + 1 && |link| == |link0| && (p == Nil <==> i == |c|)
      invariant Distributing(link, link1, heads, tails, p, c, f, i, maxLen + 1)
      decreases |c| - i
    {
      DistributeStep(link, link1, heads, tails, p, c, f, i, maxLen + 1, f[c[i]]);
      var k := |keys[p]|;
      if heads[k] == Nil { heads := heads[k := p]; } else { link := link[tails[k] := p]; }
      tails := tails[k := p];
      p := link[p];
      i := i + 1;
      DistributeEnd(link, link1, heads, tails, p, c, f, i, maxLen + 1);
    }
    DistributeEnd(link, link1, heads, tails, p, c, f, i, maxLen + 1);
  }

  /** Concatenate the non-empty lists of a table. */
  method Collect(link0: seq<int>, heads: seq<int>, tails: seq<int>, ghost segs: seq<seq<nat>>) returns (link: seq<int>, first: int)
    requires Segments(link0, heads, tails, segs) && NoDup(Flat(segs)) && |Flat(segs)| > 0
    ensures IsList(link, first, Flat(segs)) && SameOutside(link, link0, Flat(segs))
  {
    var j := 0;
    CollectStart(link0, heads, tails, segs, 0);
    while heads[j] == Nil
      invariant 0 <= j < |segs| == |heads| && Flat(segs[..j]) == []
      decreases |heads| - j
    {
      CollectStart(link0, heads, tails, segs, j);
      j := j + 1;
      CollectStart(link0, heads, tails, segs, j);
    }
    CollectStart(link0, heads, tails, segs, j);
    link := link0;
    first := heads[j];
    var last := tails[j];
    j := j + 1;
    hide Segments;
    while j < |heads|
      invariant 0 < j <= |heads| == |tails| == |segs|
      invariant Collecting(link, link0, heads, tails, segs, first, last, j)
    {
      CollectStep(link, link0, heads, tails, segs, first, last, j);
      if heads[j] != Nil {
        link := link[last := heads[j]];
        last := tails[j];
      }
      j := j + 1;
    }
    CollectEnd(link, link0, heads, tails, segs, first, last);
    link := link[last := Nil];
  }

  /** The first `j` lists are one segment, the others are as they were. */
  ghost predicate Collecting(link: seq<int>, link0: seq<int>, heads: seq<int>, tails: seq<int>, segs: seq<seq<nat>>, first: int, last: int, j: nat)
  {
    && j <= |segs| == |heads| == |tails| && |Flat(segs[..j])| > 0 && Segment(link, first, last, Flat(segs[..j]))
    && (forall k :: j <= k < |segs| ==> Segment(link, heads[k], tails[k], segs[k]))
    && SameOutside(link, link0, Flat(segs[..j]))
  }

  lemma FlatMember(segs: seq<seq<nat>>, j: nat, k: nat)
    requires j <= k < |segs| && NoDup(Flat(segs))
    ensures forall x :: x in Flat(segs[..j]) ==> x !in segs[k]
    ensures NoDup(Flat(segs[..j]))
  {
    hide Flat, NoDup;
    FlatParts(segs, k);
    FlatMonotone(segs, j, k);
    PrefixNoDup(Flat(segs[..k + 1]), Flat(segs));
    ConcatApart(Flat(segs[..k]), segs[k]);
    PrefixIn(Flat(segs[..j]), Flat(segs[..k]));
    PrefixNoDup(Flat(segs[..j]), Flat(segs[..k + 1]));
  }

  lemma {:induction false} FlatMonotone(segs: seq<seq<nat>>, j: nat, k: nat)
    requires j <= k <= |segs|
    ensures Flat(segs[..j]) <= Flat(segs[..k])
    decreases k - j
  {
    if j < k {
      FlatMonotone(segs, j, k - 1);
      assert segs[..k][..k - 1] == segs[..k - 1];
    }
  }

  lemma CollectStart(link: seq<int>, heads: seq<int>, tails: seq<int>, segs: seq<seq<nat>>, j: nat)
    requires Segments(link, heads, tails, segs) && j <= |segs| && Flat(segs[..j]) == [] && |Flat(segs)| > 0
    ensures j < |segs| == |heads| == |tails|
    ensures heads[j] == Nil ==> Flat(segs[..j + 1]) == []
    ensures heads[j] != Nil ==> Collecting(link, link, heads, tails, segs, heads[j], tails[j], j + 1)
  {
    assert segs[..|segs|] == segs;
    FlatParts(segs, j);
    assert Flat(segs[..j + 1]) == segs[j];
  }

  lemma CollectStep(link: seq<int>, link0: seq<int>, heads: seq<int>, tails: seq<int>, segs: seq<seq<nat>>, first: int, last: int, j: nat)
    requires Collecting(link, link0, heads, tails, segs, first, last, j) && j < |segs| && NoDup(Flat(segs))
    ensures 0 <= last < |link|
    ensures heads[j] == Nil ==> Collecting(link, link0, heads, tails, segs, first, last, j + 1)
    ensures heads[j] != Nil ==> Collecting(link[last := heads[j]], link0, heads, tails, segs, first, tails[j], j + 1)
  {
    var a, b := Flat(segs[..j]), segs[j];
    FlatParts(segs, j);
    PrefixNoDup(a + b, Flat(segs));
    assert last == a[|a| - 1] && a[|a| - 1] in a;
    assert Segment(link, heads[j], tails[j], b);
    if heads[j] == Nil {
      assert a + b == a;
    } else {
      SegmentJoin(link, first, last, a, heads[j], tails[j], b);
      var link' := link[last := heads[j]];
      forall k | j + 1 <= k < |segs| ensures Segment(link', heads[k], tails[k], segs[k]) {
        FlatMember(segs, j, k);
        SegmentKeeps(link, heads[k], tails[k], segs[k], last, heads[j]);
      }
    }
  }

  lemma CollectEnd(link: seq<int>, link0: seq<int>, heads: seq<int>, tails: seq<int>, segs: seq<seq<nat>>, first: int, last: int)
    requires Collecting(link, link0, heads, tails, segs, first, last, |segs|) && NoDup(Flat(segs))
    ensures 0 <= last < |link| && IsList(link[last := Nil], first, Flat(segs)) && SameOutside(link[last := Nil], link0, Flat(segs))
  {
    assert segs[..|segs|] == segs;
    SegmentEnd(link, first, last, Flat(segs));
    var a := Flat(segs);
    assert last == a[|a| - 1] && a[|a| - 1] in a;
  }

  // ---------------------------------------------------------------------- the order

  /** Lexicographic order, a proper prefix first. */
  ghost predicate Lex(a: seq<nat>, b: seq<nat>)
  {
    b != [] && (a == [] || a[0] < b[0] || (a[0] == b[0] && Lex(a[1..], b[1..])))
  }

  /** What the code of an element has from position `k` on. */
  ghost function Rest(codes: seq<seq<nat>>, k: nat, x: nat): seq<nat>
  {
    if x < |codes| && k <= |codes[x]| then codes[x][k..] else []
  }

  /** By the characters from position `k` on; equal ones by their initial position. */
  ghost predicate Before(codes: seq<seq<nat>>, k: nat, x: nat, y: nat)
  {
    Lex(Rest(codes, k, x), Rest(codes, k, y)) || (Rest(codes, k, x) == Rest(codes, k, y) && x < y)
  }

  ghost predicate Ordered(codes: seq<seq<nat>>, k: nat, c: seq<nat>)
  {
    forall i, j :: 0 <= i < j < |c| ==> Before(codes, k, c[i], c[j])
  }

  lemma BeforeDown(codes: seq<seq<nat>>, k: nat, x: nat, y: nat)
    requires x < |codes| && y < |codes| && k < |codes[x]| && k < |codes[y]|
    requires codes[x][k] < codes[y][k] || (codes[x][k] == codes[y][k] && Before(codes, k + 1, x, y))
    ensures Before(codes, k, x, y)
  {
    var a, b := Rest(codes, k, x), Rest(codes, k, y);
    assert a[0] == codes[x][k] && b[0] == codes[y][k];
    assert a[1..] == Rest(codes, k + 1, x) && b[1..] == Rest(codes, k + 1, y);
    assert a == [a[0]] + a[1..] && b == [b[0]] + b[1..];
  }

  lemma ConcatOrdered(codes: seq<seq<nat>>, k: nat, a: seq<nat>, b: seq<nat>)
    requires Ordered(codes, k, a) && Ordered(codes, k, b)
    requires forall x, y :: x in a && y in b ==> Before(codes, k, x, y)
    ensures Ordered(codes, k, a + b)
  {
    var c := a + b;
    forall i, j | 0 <= i < j < |c| ensures Before(codes, k, c[i], c[j]) {
      if i < |a| <= j { assert c[i] in a && c[j] in b; }
      else if j < |a| { assert c[i] == a[i] && c[j] == a[j]; }
      else { assert c[i] == b[i - |a|] && c[j] == b[j - |a|]; }
    }
  }

  /** A bucket keeps the order of the list it is taken from. */
  lemma {:induction false} BucketOrdered(codes: seq<seq<nat>>, k: nat, c: seq<nat>, f: seq<nat>, b: nat)
    requires InRange(c, |f|) && Ordered(codes, k, c)
    ensures Ordered(codes, k, Bucket(c, f, b))
    decreases |c|
  {
    if |c| > 0 {
      var d, x := c[..|c| - 1], c[|c| - 1];
      BucketOrdered(codes, k, d, f, b);
      if f[x] == b {
        forall y, z | y in Bucket(d, f, b) && z in [x] ensures Before(codes, k, y, z) {
          assert y in d;
          var i :| 0 <= i < |d| && d[i] == y;
          assert c[i] == y;
        }
        ConcatOrdered(codes, k, Bucket(d, f, b), [x]);
      }
    }
  }

  /** `f` is the code at position `k` of the elements of `c`. */
  ghost predicate CodeAt(codes: seq<seq<nat>>, k: nat, c: seq<nat>, f: seq<nat>)
  {
    && |f| == |codes| && InRange(c, |f|)
    && forall x :: x in c ==> k < |codes[x]| && f[x] == codes[x][k]
  }

  lemma {:induction false} BucketDown(codes: seq<seq<nat>>, k: nat, c: seq<nat>, f: seq<nat>, b: nat)
    requires CodeAt(codes, k, c, f) && Ordered(codes, k + 1, c)
    ensures Ordered(codes, k, Bucket(c, f, b))
  {
    BucketOrdered(codes, k + 1, c, f, b);
    var d := Bucket(c, f, b);
    forall i, j | 0 <= i < j < |d| ensures Before(codes, k, d[i], d[j]) {
      assert d[i] in d && d[j] in d;
      BeforeDown(codes, k, d[i], d[j]);
    }
  }

  /** One pass: sorted by the characters after `k` becomes sorted from `k` on. */
  lemma {:induction false} PassOrders(codes: seq<seq<nat>>, k: nat, c: seq<nat>, f: seq<nat>, j: nat)
    requires CodeAt(codes, k, c, f) && Ordered(codes, k + 1, c)
    ensures Ordered(codes, k, SortBy(c, f, j))
    decreases j
  {
    if j > 0 {
      var m := j - 1;
      var a, b := SortBy(c, f, m), Bucket(c, f, m);
      PassOrders(codes, k, c, f, m);
      BucketDown(codes, k, c, f, m);
      hide Ordered, SortBy, Bucket, Before;
      forall x, y | x in a && y in b ensures Before(codes, k, x, y) { BeforeDown(codes, k, x, y); }
      ConcatOrdered(codes, k, a, b);
      SortByStep(c, f, m);
    }
  }

  lemma SortByStep(c: seq<nat>, f: seq<nat>, m: nat)
    requires InRange(c, |f|)
    ensures SortBy(c, f, m + 1) == SortBy(c, f, m) + Bucket(c, f, m)
  {
  }

  /** Elements that end at `k` come before the longer ones. */
  lemma ShorterFirst(codes: seq<seq<nat>>, k: nat, short: seq<nat>, c: seq<nat>)
    requires forall x :: x in short ==> x < |codes| && |codes[x]| == k
    requires Ascends(short)
    requires Ordered(codes, k, c) && forall y :: y in c ==> y < |codes| && |codes[y]| > k
    ensures Ordered(codes, k, short + c)
  {
    forall x | x in short ensures Rest(codes, k, x) == [] { }
    forall i, j | 0 <= i < j < |short| ensures Before(codes, k, short[i], short[j]) { assert short[i] in short && short[j] in short; }
    ConcatOrdered(codes, k, short, c);
  }

  // ------------------------------------------------------------------------ the sort

  ghost function Iota(n: nat): (r: seq<nat>)
    ensures |r| == n && (forall i :: 0 <= i < n ==> r[i] == i) && forall x: nat :: x in r <==> x < n
  {
    if n == 0 then [] else Iota(n - 1) + [n - 1]
  }

  /** The keys with every character replaced by its code. */
  ghost function Coded(keys: seq<seq<int>>, code: int -> nat): (r: seq<seq<nat>>)
    ensures |r| == |keys| && forall x :: 0 <= x < |keys| ==> |r[x]| == |keys[x]|
    ensures forall x, i :: 0 <= x < |keys| && 0 <= i < |keys[x]| ==> r[x][i] == code(keys[x][i])
  {
    seq(|keys|, x requires 0 <= x < |keys| => seq(|keys[x]|, i requires 0 <= i < |keys[x]| => code(keys[x][i])))
  }

  ghost function LengthsOf(codes: seq<seq<nat>>): (r: seq<nat>)
    ensures |r| == |codes| && forall x :: 0 <= x < |codes| ==> r[x] == |codes[x]|
  {
    seq(|codes|, x requires 0 <= x < |codes| => |codes[x]|)
  }

  ghost function CodesAt(codes: seq<seq<nat>>, k: nat): (r: seq<nat>)
    ensures |r| == |codes| && forall x :: 0 <= x < |codes| && k < |codes[x]| ==> r[x] == codes[x][k]
  {
    seq(|codes|, x requires 0 <= x < |codes| => if k < |codes[x]| then codes[x][k] else 0)
  }

  /** The elements of code length `k`, in their initial order. */
  ghost function OfLength(codes: seq<seq<nat>>, k: nat): (r: seq<nat>)
    ensures forall x: nat :: x in r <==> x < |codes| && |codes[x]| == k
  {
    Bucket(Iota(|codes|), LengthsOf(codes), k)
  }

  ghost predicate Ascends(c: seq<nat>)
  {
    forall i, j :: 0 <= i < j < |c| ==> c[i] < c[j]
  }

  lemma AscendsAppend(c: seq<nat>, x: nat)
    requires Ascends(c) && forall y :: y in c ==> y < x
    ensures Ascends(c + [x])
  {
    var d := c + [x];
    forall i, j | 0 <= i < j < |d| ensures d[i] < d[j] {
      assert d[i] == c[i] && c[i] in c;
    }
  }

  lemma {:induction false} BucketAscends(c: seq<nat>, f: seq<nat>, k: nat)
    requires InRange(c, |f|) && Ascends(c)
    ensures Ascends(Bucket(c, f, k))
    decreases |c|
  {
    if |c| > 0 {
      var d, x := c[..|c| - 1], c[|c| - 1];
      BucketAscends(d, f, k);
      forall y | y in d ensures y < x {
        var j :| 0 <= j < |d| && d[j] == y;
        assert c[j] == y;
      }
      AscendsAppend(Bucket(d, f, k), x);
    }
  }

  /** `c` holds the elements of length at least `k`, sorted from position `from` on. */
  ghost predicate Chunk(codes: seq<seq<nat>>, k: nat, from: nat, c: seq<nat>)
  {
    && NoDup(c) && InRange(c, |codes|) && Ordered(codes, from, c)
    && forall x: nat :: x in c <==> x < |codes| && |codes[x]| >= k
  }

  /** The lists by length, for the lengths below `k`, as the first pass left them. */
  ghost predicate ByLength(codes: seq<seq<nat>>, link: seq<int>, heads: seq<int>, tails: seq<int>, k: nat)
  {
    && |link| == |codes| && k <= |heads| == |tails|
    && forall j :: 0 <= j < k ==> Segment(link, heads[j], tails[j], OfLength(codes, j))
  }

  lemma ByLengthKeeps(codes: seq<seq<nat>>, link: seq<int>, heads: seq<int>, tails: seq<int>, k: nat, c: seq<nat>, link': seq<int>)
    requires ByLength(codes, link, heads, tails, k) && SameOutside(link', link, c)
    requires forall x :: x in c ==> x < |codes| && |codes[x]| >= k
    ensures ByLength(codes, link', heads, tails, k)
  {
    forall j | 0 <= j < k ensures Segment(link', heads[j], tails[j], OfLength(codes, j)) {
      var s := OfLength(codes, j);
      assert Segment(link, heads[j], tails[j], s);
      forall i | 0 <= i < |s| - 1 ensures link'[s[i]] == s[i + 1] { assert s[i] in s; }
    }
  }

  lemma OfLengthFacts(codes: seq<seq<nat>>, k: nat)
    ensures var s := OfLength(codes, k); NoDup(s) && InRange(s, |codes|) && Ascends(s)
  {
    BucketAscends(Iota(|codes|), LengthsOf(codes), k);
    var s := OfLength(codes, k);
    assert s == Bucket(Iota(|codes|), LengthsOf(codes), k);
    forall i | 0 <= i < |s| ensures s[i] < |codes| { assert s[i] in s; }
  }

  /** Put the elements of length `k` in front of the longer ones. */
  lemma ChunkGrows(codes: seq<seq<nat>>, k: nat, c: seq<nat>)
    requires Chunk(codes, k + 1, k, c)
    ensures Chunk(codes, k, k, OfLength(codes, k) + c)
  {
    OfLengthFacts(codes, k);
    var s := OfLength(codes, k);
    ShorterFirst(codes, k, s, c);
    ConcatNoDup(s, c);
  }

  /** One pass over the elements of length at least `k + 1`. */
  lemma ChunkSorts(codes: seq<seq<nat>>, k: nat, c: seq<nat>, radix: nat)
    requires Chunk(codes, k + 1, k + 1, c) && forall x :: x in c ==> CodesAt(codes, k)[x] < radix
    ensures Chunk(codes, k + 1, k, SortBy(c, CodesAt(codes, k), radix))
  {
    var f := CodesAt(codes, k);
    PassOrders(codes, k, c, f, radix);
    SortByNoDup(c, f, radix);
    var r := SortBy(c, f, radix);
    forall i | 0 <= i < |r| ensures r[i] < |codes| { assert r[i] in r; }
  }

  lemma PrependList(link: seq<int>, h: int, t: int, s: seq<nat>, first: int, c: seq<nat>)
    requires Segment(link, h, t, s) && IsList(link, first, c) && |s| > 0 && |c| > 0 && NoDup(s + c)
    ensures 0 <= t < |link| && IsList(link[t := first], h, s + c)
  {
    assert Segment(link, first, c[|c| - 1], c);
    SegmentJoin(link, h, t, s, first, c[|c| - 1], c);
    ConcatApart(s, c);
    assert t == s[|s| - 1] && s[|s| - 1] in s;
    assert c[|c| - 1] in c;
    assert (s + c)[|s + c| - 1] == c[|c| - 1];
  }

  /** The initial links and the lists by length that the first pass makes of them. */
  lemma FirstPass(codes: seq<seq<nat>>, link0: seq<int>, link: seq<int>, heads: seq<int>, tails: seq<int>, first: int, maxLen: nat)
    requires InRange(Iota(|codes|), |LengthsOf(codes)|) && |link| == |codes|
    requires Segments(link0, heads, tails, Buckets(Iota(|codes|), LengthsOf(codes), maxLen + 1))
    requires IsList(link, first, Flat(Buckets(Iota(|codes|), LengthsOf(codes), maxLen + 1)))
    ensures |heads| == |tails| == maxLen + 1 && ByLength(codes, link, heads, tails, maxLen + 1)
    ensures OfLength(codes, maxLen) != [] ==> IsList(link, heads[maxLen], OfLength(codes, maxLen))
    ensures heads[0] != Nil ==> first == heads[0]
  {
    hide *;
    var segs := Buckets(Iota(|codes|), LengthsOf(codes), maxLen + 1);
    LengthBuckets(codes, maxLen + 1);
    FirstSegments(link0, link, heads, tails, first, segs);
    LastOfList(link, first, segs);
    ByLengthIs(codes, link, heads, tails, maxLen + 1, segs);
  }

  lemma LengthBuckets(codes: seq<seq<nat>>, n: nat)
    requires InRange(Iota(|codes|), |LengthsOf(codes)|)
    ensures forall k :: 0 <= k < n ==> Buckets(Iota(|codes|), LengthsOf(codes), n)[k] == OfLength(codes, k)
  {
  }

  lemma ByLengthIs(codes: seq<seq<nat>>, link: seq<int>, heads: seq<int>, tails: seq<int>, n: nat, segs: seq<seq<nat>>)
    requires |link| == |codes| && |segs| == n && Segments(link, heads, tails, segs) && forall k :: 0 <= k < n ==> segs[k] == OfLength(codes, k)
    ensures |heads| == |tails| == n && ByLength(codes, link, heads, tails, n)
  {
    forall k | 0 <= k < n ensures Segment(link, heads[k], tails[k], OfLength(codes, k)) { assert Segment(link, heads[k], tails[k], segs[k]); }
  }

  lemma FirstSegments(link0: seq<int>, link: seq<int>, heads: seq<int>, tails: seq<int>, first: int, segs: seq<seq<nat>>)
    requires Segments(link0, heads, tails, segs) && IsList(link, first, Flat(segs)) && |segs| > 0
    ensures Segments(link, heads, tails, segs) && (heads[0] != Nil ==> first == heads[0])
    ensures var k := |segs| - 1; |segs[k]| > 0 ==> heads[k] == segs[k][0]
  {
    forall k | 0 <= k < |segs| ensures Segment(link, heads[k], tails[k], segs[k]) {
      assert Segment(link0, heads[k], tails[k], segs[k]);
      PartOfList(link, first, segs, k, heads[k], tails[k]);
    }
    FirstOfList(segs);
    assert Segment(link0, heads[0], tails[0], segs[0]);
    var k := |segs| - 1;
    assert Segment(link0, heads[k], tails[k], segs[k]);
  }

  lemma PartOfList(link: seq<int>, first: int, segs: seq<seq<nat>>, k: nat, head: int, tail: int)
    requires IsList(link, first, Flat(segs)) && k < |segs|
    requires if |segs[k]| == 0 then head == Nil else head == segs[k][0] && tail == segs[k][|segs[k]| - 1]
    ensures Segment(link, head, tail, segs[k])
  {
    FlatParts(segs, k);
    hide Flat;
    Subrange(link, first, Flat(segs), Flat(segs[..k]), segs[k], head, tail);
  }

  lemma Subrange(link: seq<int>, first: int, all: seq<nat>, a: seq<nat>, s: seq<nat>, head: int, tail: int)
    requires IsList(link, first, all) && a + s <= all
    requires if |s| == 0 then head == Nil else head == s[0] && tail == s[|s| - 1]
    ensures Segment(link, head, tail, s)
  {
    forall i | 0 <= i < |s| ensures s[i] == all[|a| + i] { assert (a + s)[|a| + i] == s[i]; }
    forall i | 0 <= i < |s| ensures s[i] < |link| {
      var m := |a| + i;
      assert s[i] == all[m];
    }
    forall i | 0 <= i < |s| - 1 ensures link[s[i]] == s[i + 1] {
      var m, l := |a| + i, i + 1;
      assert s[i] == all[m] && s[l] == all[m + 1];
    }
  }

  lemma LastOfList(link: seq<int>, first: int, segs: seq<seq<nat>>)
    requires IsList(link, first, Flat(segs)) && |segs| > 0
    ensures var s := segs[|segs| - 1]; |s| > 0 ==> IsList(link, s[0], s)
  {
    var s := segs[|segs| - 1];
    if |s| > 0 {
      PartOfList(link, first, segs, |segs| - 1, s[0], s[|s| - 1]);
      var all := Flat(segs);
      assert all[|all| - 1] == s[|s| - 1];
    }
  }

  lemma FirstOfList(segs: seq<seq<nat>>)
    requires |segs| > 0
    ensures segs[0] <= Flat(segs)
  {
    FlatParts(segs, 0);
    assert segs[..0] == [];
  }

  /** All characters have a code below the radix, and some key has the greatest length. */
  ghost predicate KeysOk(keys: seq<seq<int>>, code: int -> nat, radix: nat, maxLen: nat)
  {
    && (forall x :: 0 <= x < |keys| ==> |keys[x]| <= maxLen) && (exists x :: 0 <= x < |keys| && |keys[x]| == maxLen)
    && (forall x, i :: 0 <= x < |keys| && 0 <= i < |keys[x]| ==> code(keys[x][i]) < radix)
  }

  /** `c` is all elements, by coded key and then by initial position. */
  ghost predicate SortedOrder(codes: seq<seq<nat>>, c: seq<nat>)
  {
    NoDup(c) && InRange(c, |codes|) && Ordered(codes, 0, c) && forall x: nat :: x in c <==> x < |codes|
  }

  lemma {:induction false} LexOneWay(a: seq<nat>, b: seq<nat>)
    ensures !(Lex(a, b) && Lex(b, a)) && !Lex(a, a)
  {
    if a != [] {
      LexOneWay(a[1..], a[1..]);
      if b != [] { LexOneWay(a[1..], b[1..]); }
    }
  }

  lemma BeforeOneWay(codes: seq<seq<nat>>, k: nat, x: nat, y: nat)
    ensures !(Before(codes, k, x, y) && Before(codes, k, y, x))
  {
    LexOneWay(Rest(codes, k, x), Rest(codes, k, y));
    LexOneWay(Rest(codes, k, y), Rest(codes, k, x));
  }

  /** There is only one stable order. */
  lemma {:induction false} OrderUnique(codes: seq<seq<nat>>, c: seq<nat>, d: seq<nat>, k: nat)
    requires SortedOrder(codes, c) && SortedOrder(codes, d) && |c| == |d| && k <= |c| && c[..k] == d[..k]
    ensures c == d
    decreases |c| - k
  {
    if k < |c| {
      var i := PlaceIn(codes, c, d, k);
      var j := PlaceIn(codes, d, c, k);
      if k < i && k < j {
        assert Before(codes, 0, d[k], d[i]) && Before(codes, 0, c[k], c[j]);
        BeforeOneWay(codes, 0, c[k], d[k]);
      }
      assert c[..k + 1] == c[..k] + [c[k]] && d[..k + 1] == d[..k] + [d[k]];
      OrderUnique(codes, c, d, k + 1);
    }
  }

  /** The `k`-th element of one order is at `k` or later in another that agrees before `k`. */
  lemma PlaceIn(codes: seq<seq<nat>>, c: seq<nat>, d: seq<nat>, k: nat) returns (i: nat)
    requires SortedOrder(codes, c) && SortedOrder(codes, d) && |c| == |d| && k < |c| && c[..k] == d[..k]
    ensures k <= i < |d| && d[i] == c[k]
  {
    assert c[k] in c && c[k] < |codes| && c[k] in d;
    forall j | 0 <= j < k ensures d[j] == c[j] != c[k] { assert d[..k][j] == c[..k][j]; }
    i :| 0 <= i < |d| && d[i] == c[k];
  }

  /** Relink all elements in sorted order. */
  method SortLinks(keys: seq<seq<int>>, code: int -> nat, radix: nat, maxLen: nat) returns (link: seq<int>, headLink: int, ghost order: seq<nat>)
    requires KeysOk(keys, code, radix, maxLen) && maxLen >= 1
    ensures |link| == |keys| && IsList(link, headLink, order) && SortedOrder(Coded(keys, code), order)
  {
    hide *;
    ghost var codes := Coded(keys, code);
    LongestChunk(keys, code, radix, maxLen);
    var lenHeads, lenTails, initialFirst;
    link, lenHeads, lenTails, initialFirst := SortKeyLen(keys, maxLen, codes);
    ByLengthFewer(codes, link, lenHeads, lenTails, maxLen);
    order := OfLength(codes, maxLen);
    var keyTails := seq(radix, _ => Nil);
    var first, klen := lenHeads[maxLen], maxLen;
    while klen > 1
      invariant 1 <= klen <= maxLen && |link| == |keys| && |keyTails| == radix && order != []
      invariant IsList(link, first, order) && Chunk(codes, klen, klen, order) && ByLength(codes, link, lenHeads, lenTails, klen)
    {
      klen := klen - 1;
      link, first, keyTails, order := SortAt(link, first, keyTails, keys, code, radix, maxLen, klen, lenHeads, lenTails, order);
      Prepend(codes, link, lenHeads, lenTails, first, klen, order);
      if lenHeads[klen] != Nil {
        link := link[lenTails[klen] := first];
        first := lenHeads[klen];
      }
      order := OfLength(codes, klen) + order;
    }
    link, first, keyTails, order := SortAt(link, first, keyTails, keys, code, radix, maxLen, 0, lenHeads, lenTails, order);
    Prepend(codes, link, lenHeads, lenTails, first, 0, order);
    if lenHeads[0] == Nil {
      headLink := first;
    } else {
      link := link[lenTails[0] := first];
      headLink := initialFirst;
    }
    order := OfLength(codes, 0) + order;
    AllSorted(codes, order);
  }

  lemma ByLengthFewer(codes: seq<seq<nat>>, link: seq<int>, heads: seq<int>, tails: seq<int>, k: nat)
    requires ByLength(codes, link, heads, tails, k + 1)
    ensures ByLength(codes, link, heads, tails, k)
  {
  }

  lemma AllSorted(codes: seq<seq<nat>>, c: seq<nat>)
    requires Chunk(codes, 0, 0, c)
    ensures SortedOrder(codes, c)
  {
  }

  lemma LongestChunk(keys: seq<seq<int>>, code: int -> nat, radix: nat, maxLen: nat)
    requires KeysOk(keys, code, radix, maxLen)
    ensures |keys| > 0 && forall x :: 0 <= x < |keys| ==> |Coded(keys, code)[x]| == |keys[x]| <= maxLen
    ensures var c := OfLength(Coded(keys, code), maxLen); c != [] && Chunk(Coded(keys, code), maxLen, maxLen, c)
  {
    var codes := Coded(keys, code);
    OfLengthFacts(codes, maxLen);
    var c := OfLength(codes, maxLen);
    ShorterFirst(codes, maxLen, c, []);
    assert c + [] == c;
    var x :| 0 <= x < |keys| && |keys[x]| == maxLen;
    assert |codes[x]| == maxLen;
    assert x in c;
  }

  /** Linking the elements of length `k` in front of the sorted longer ones. */
  lemma Prepend(codes: seq<seq<nat>>, link: seq<int>, heads: seq<int>, tails: seq<int>, first: int, k: nat, c: seq<nat>)
    requires ByLength(codes, link, heads, tails, k + 1) && IsList(link, first, c) && Chunk(codes, k + 1, k, c) && c != []
    ensures k < |heads| == |tails| && Chunk(codes, k, k, OfLength(codes, k) + c)
    ensures heads[k] == Nil ==> IsList(link, first, OfLength(codes, k) + c) && ByLength(codes, link, heads, tails, k)
    ensures heads[k] != Nil ==> 0 <= tails[k] < |link| && IsList(link[tails[k] := first], heads[k], OfLength(codes, k) + c)
                                && ByLength(codes, link[tails[k] := first], heads, tails, k)
  {
    var s := OfLength(codes, k);
    ChunkGrows(codes, k, c);
    assert Segment(link, heads[k], tails[k], s);
    hide Ordered, OfLength;
    if heads[k] == Nil {
      assert s + c == c;
    } else {
      PrependList(link, heads[k], tails[k], s, first, c);
      assert tails[k] == s[|s| - 1] && s[|s| - 1] in s;
      ByLengthKeeps(codes, link, heads, tails, k, [tails[k] as nat], link[tails[k] := first]);
    }
  }

  method SortKeyLen(keys: seq<seq<int>>, maxLen: nat, ghost codes: seq<seq<nat>>)
    returns (link: seq<int>, lenHeads: seq<int>, lenTails: seq<int>, initialFirst: int)
    requires |codes| == |keys| > 0 && forall x :: 0 <= x < |keys| ==> |codes[x]| == |keys[x]| <= maxLen
    ensures |link| == |keys| && |lenHeads| == |lenTails| == maxLen + 1 && ByLength(codes, link, lenHeads, lenTails, maxLen + 1)
    ensures OfLength(codes, maxLen) != [] ==> IsList(link, lenHeads[maxLen], OfLength(codes, maxLen))
    ensures lenHeads[0] != Nil ==> initialFirst == lenHeads[0]
  {
    hide *;
    ghost var all, lens := Iota(|codes|), LengthsOf(codes);
    link := seq(|keys|, j => j + 1);
    InitialList(link);
    ReadyByLength(keys, maxLen, codes);
    ghost var link1 := link[|keys| - 1 := Nil];
    link, lenHeads, lenTails := LenDistribute(link, keys, maxLen, all, lens);
    ghost var link0 := link;
    SameLength(link0, link1, all);
    ghost var segs := Buckets(all, lens, maxLen + 1);
    link, initialFirst := Collect(link, lenHeads, lenTails, segs);
    SameLength(link, link0, Flat(segs));
    FirstPass(codes, link0, link, lenHeads, lenTails, initialFirst, maxLen);
  }

  lemma SameLength(link: seq<int>, link0: seq<int>, c: seq<nat>)
    requires SameOutside(link, link0, c)
    ensures |link| == |link0|
  {
  }

  /** Every element linked to the next one is the list of all elements. */
  lemma InitialList(link: seq<int>)
    requires |link| > 0 && forall j :: 0 <= j < |link| ==> link[j] == j + 1
    ensures IsList(link[|link| - 1 := Nil], 0, Iota(|link|))
  {
  }

  lemma ReadyByLength(keys: seq<seq<int>>, maxLen: nat, codes: seq<seq<nat>>)
    requires |codes| == |keys| > 0 && forall x :: 0 <= x < |keys| ==> |codes[x]| == |keys[x]| <= maxLen
    ensures var all, lens := Iota(|codes|), LengthsOf(codes);
            && NoDup(all) && Lengths(keys, lens, maxLen) && InRange(all, |lens|)
            && NoDup(Flat(Buckets(all, lens, maxLen + 1))) && |Flat(Buckets(all, lens, maxLen + 1))| > 0
  {
    var all, lens := Iota(|codes|), LengthsOf(codes);
    hide Flat, Buckets, Iota, LengthsOf;
    AllInBuckets(all, lens, maxLen + 1);
  }

  lemma AllInBuckets(c: seq<nat>, f: seq<nat>, n: nat)
    requires InRange(c, |f|) && NoDup(c) && 0 in c && f[0] < n
    ensures NoDup(Flat(Buckets(c, f, n))) && |Flat(Buckets(c, f, n))| > 0
  {
    hide Flat, Buckets, SortBy, NoDup;
    var segs := Buckets(c, f, n);
    FlatBuckets(c, f, n, n);
    assert segs[..n] == segs;
    SortByNoDup(c, f, n);
    assert 0 in SortBy(c, f, n);
  }

  /** One pass: distribute by the code at `kpos`, then collect. */
  method SortAt(link0: seq<int>, first0: int, keyTails: seq<int>, keys: seq<seq<int>>, code: int -> nat, radix: nat, ghost maxLen: nat, kpos: nat,
                ghost lenHeads: seq<int>, ghost lenTails: seq<int>, ghost c: seq<nat>)
    returns (link: seq<int>, first: int, keyTails': seq<int>, ghost r: seq<nat>)
    requires KeysOk(keys, code, radix, maxLen) && |link0| == |keys| && |keyTails| == radix && c != []
    requires IsList(link0, first0, c) && Chunk(Coded(keys, code), kpos + 1, kpos + 1, c) && ByLength(Coded(keys, code), link0, lenHeads, lenTails, kpos + 1)
    ensures |link| == |keys| && |keyTails'| == radix && r != []
    ensures IsList(link, first, r) && Chunk(Coded(keys, code), kpos + 1, kpos, r) && ByLength(Coded(keys, code), link, lenHeads, lenTails, kpos + 1)
  {
    ghost var codes := Coded(keys, code);
    ghost var f := CodesAt(codes, kpos);
    assert Digits(keys, code, kpos, c, f, radix);
    var heads;
    link, heads, keyTails' := Distribute(link0, first0, keyTails, keys, code, kpos, c, f);
    ghost var link1 := link;
    ghost var segs := Buckets(c, f, radix);
    r := SortBy(c, f, radix);
    PassFlat(c, f, radix);
    ChunkSorts(codes, kpos, c, radix);
    link, first := Collect(link, heads, keyTails', segs);
    ByLengthKeeps(codes, link0, lenHeads, lenTails, kpos + 1, c, link);
  }

  lemma PassFlat(c: seq<nat>, f: seq<nat>, radix: nat)
    requires InRange(c, |f|) && NoDup(c) && c != [] && forall x :: x in c ==> f[x] < radix
    ensures Flat(Buckets(c, f, radix)) == SortBy(c, f, radix) && NoDup(SortBy(c, f, radix)) && SortBy(c, f, radix) != []
  {
    FlatBuckets(c, f, radix, radix);
    assert Buckets(c, f, radix)[..radix] == Buckets(c, f, radix);
    SortByNoDup(c, f, radix);
    assert c[0] in c && c[0] in SortBy(c, f, radix);
  }

  // ---------------------------------------------------------- the cycle-leader pass

  /** A permutation of the numbers below its length. */
  ghost predicate Perm(p: seq<nat>)
  {
    NoDup(p) && InRange(p, |p|)
  }

  ghost function SetOf(c: seq<nat>): set<nat>
  {
    set x | x in c
  }

  lemma {:induction false} SetOfSize(c: seq<nat>)
    requires NoDup(c)
    ensures |SetOf(c)| == |c|
  {
    if c != [] {
      var d := c[1..];
      SetOfSize(d);
      assert SetOf(c) == SetOf(d) + {c[0]};
    }
  }

  lemma {:induction false} RangeSize(r: set<nat>, n: nat)
    requires forall x: nat :: x in r <==> x < n
    ensures |r| == n
  {
    if n > 0 { RangeSize(r - {n - 1}, n - 1); } else { assert r == {}; }
  }

  lemma OrderIsPerm(codes: seq<seq<nat>>, c: seq<nat>)
    requires SortedOrder(codes, c)
    ensures |c| == |codes| && Perm(c)
  {
    SetOfSize(c);
    RangeSize(SetOf(c), |codes|);
  }

  /** Finished positions hold their final value and point to themselves; the others are
      untouched. Finished positions are whole cycles of `p`. */
  ghost predicate Cycles<T>(p: seq<nat>, orig: seq<T>, a: seq<T>, addr: seq<nat>, done: set<nat>)
  {
    && Perm(p) && |p| == |orig| == |a| == |addr| && Values(p, orig, a, addr, done)
    && (forall x :: 0 <= x < |p| ==> (x in done <==> p[x] in done))
  }

  ghost predicate Values<T>(p: seq<nat>, orig: seq<T>, a: seq<T>, addr: seq<nat>, done: set<nat>)
    requires Perm(p) && |p| == |orig| == |a| == |addr|
  {
    && (forall x :: 0 <= x < |p| && x in done ==> addr[x] == x && a[x] == orig[p[x]])
    && (forall x :: 0 <= x < |p| && x !in done ==> addr[x] == p[x] && a[x] == orig[x])
  }

  lemma ValuesStep<T>(p: seq<nat>, orig: seq<T>, a: seq<T>, addr: seq<nat>, done: set<nat>, j: nat, v: T)
    requires Perm(p) && |p| == |orig| == |a| == |addr| && Values(p, orig, a, addr, done) && j < |p| && v == orig[p[j]]
    ensures Values(p, orig, a[j := v], addr[j := j], done + {j})
  {
  }

  /** Inside a cycle: the positions of `cyc`, from `i` to just before `j`, are finished too. */
  ghost predicate InCycle<T>(p: seq<nat>, orig: seq<T>, a: seq<T>, addr: seq<nat>, done: set<nat>, cyc: set<nat>, i: nat, j: nat)
  {
    && Perm(p) && |p| == |orig| == |a| == |addr| && i < |p| && j < |p| && i !in done && j !in done && j !in cyc
    && Values(p, orig, a, addr, done + cyc)
    && (forall x :: 0 <= x < |p| ==> (x in done <==> p[x] in done))
    && (forall x :: x in cyc ==> x < |p| && x !in done)
    && Path(p, cyc, i, j)
  }

  /** `cyc` is the path from `i` to the predecessor of `j`. */
  ghost predicate Path(p: seq<nat>, cyc: set<nat>, i: nat, j: nat)
  {
    && (if i in cyc then j in Image(p, cyc) else i == j && cyc == {})
    && (forall x :: 0 <= x < |p| && p[x] in cyc && p[x] != i ==> x in cyc)
    && (forall x :: 0 <= x < |p| && x in cyc ==> p[x] in cyc || p[x] == j)
  }

  ghost function Image(p: seq<nat>, s: set<nat>): set<nat>
  {
    set x | 0 <= x < |p| && x in s :: p[x]
  }

  lemma CycleNext(p: seq<nat>, cyc: set<nat>, done: set<nat>, i: nat, j: nat, k: nat)
    requires Perm(p) && i < |p| && j < |p| && Path(p, cyc, i, j) && j !in cyc && j !in done && k == p[j] && k != i
    requires forall x :: 0 <= x < |p| ==> (x in done <==> p[x] in done)
    ensures k < |p| && k != j && k !in cyc && k !in done && Path(p, cyc + {j}, i, k)
  {
    if i in cyc {
      var y :| 0 <= y < |p| && y in cyc && p[y] == j;
      assert p[y] != p[j];
    }
    assert j in cyc + {j} && k in Image(p, cyc + {j});
    forall x | 0 <= x < |p| && p[x] in cyc + {j} && p[x] != i ensures x in cyc + {j} {
      if p[x] == j {
        var y :| 0 <= y < |p| && y in cyc && p[y] == j;
        assert x == y;
      }
    }
  }

  lemma CycleStep<T>(p: seq<nat>, orig: seq<T>, a: seq<T>, addr: seq<nat>, done: set<nat>, cyc: set<nat>, i: nat, j: nat)
    requires InCycle(p, orig, a, addr, done, cyc, i, j) && addr[j] != i
    ensures var k := addr[j]; k < |p| && InCycle(p, orig, a[j := a[k]], addr[j := j], done, cyc + {j}, i, k)
  {
    var k := addr[j];
    assert k == p[j] && a[j] == orig[j];
    CycleNext(p, cyc, done, i, j, k);
    assert a[k] == orig[k];
    ValuesStep(p, orig, a, addr, done + cyc, j, a[k]);
    assert done + cyc + {j} == done + (cyc + {j});
    hide Values, Path;
  }

  lemma CycleClosed<T>(p: seq<nat>, orig: seq<T>, a: seq<T>, addr: seq<nat>, done: set<nat>, cyc: set<nat>, i: nat, j: nat)
    requires InCycle(p, orig, a, addr, done, cyc, i, j) && addr[j] == i
    ensures Cycles(p, orig, a[j := orig[i]], addr[j := j], done + cyc + {j}) && i in done + cyc + {j}
  {
    var all := done + cyc + {j};
    assert p[j] == i;
    ValuesStep(p, orig, a, addr, done + cyc, j, orig[i]);
    hide Values;
    forall x | 0 <= x < |p| ensures x in all <==> p[x] in all {
      if p[x] == j && x != j {
        assert i in cyc;
        var y :| 0 <= y < |p| && y in cyc && p[y] == j;
        assert x == y;
      }
      if p[x] == i { assert x == j; }
    }
  }

  lemma FixedPoint<T>(p: seq<nat>, orig: seq<T>, a: seq<T>, addr: seq<nat>, done: set<nat>, i: nat)
    requires Cycles(p, orig, a, addr, done) && i < |p| && addr[i] == i
    ensures Cycles(p, orig, a, addr, done + {i})
  {
    forall x | 0 <= x < |p| ensures x in done + {i} <==> p[x] in done + {i} {
      if i !in done && p[x] == i { assert x == i; }
    }
  }

  lemma CycleStart<T>(p: seq<nat>, orig: seq<T>, a: seq<T>, addr: seq<nat>, done: set<nat>, i: nat)
    requires Cycles(p, orig, a, addr, done) && i < |p| && addr[i] != i
    ensures InCycle(p, orig, a, addr, done, {}, i, i) && a[i] == orig[i]
  {
  }

  /** Carry out one whole cycle of the permutation, starting at `i`. */
  method RotateCycle<T>(a: array<T>, addr0: seq<nat>, i: nat, ghost p: seq<nat>, ghost orig: seq<T>, ghost done: set<nat>)
    returns (addr: seq<nat>, ghost done': set<nat>)
    requires Cycles(p, orig, a[..], addr0, done) && i < |p| && addr0[i] != i
    modifies a
    ensures Cycles(p, orig, a[..], addr, done') && i in done' && done <= done' && |addr| == |addr0|
  {
    hide InCycle, Cycles;
    CycleStart(p, orig, a[..], addr0, done, i);
    addr := addr0;
    ghost var cyc: set<nat> := {};
    ghost var n := |p|;
    CycleSizes(p, orig, a[..], addr, done, cyc, i, i);
    var temp, j, more := a[i], i, true;
    while more
      invariant |addr| == a.Length == n && j < n && InCycle(p, orig, a[..], addr, done, cyc, i, j)
      invariant (forall x :: x in cyc ==> x < n) && j !in cyc
      invariant more == (addr[j] != i)
      decreases n - |cyc|
    {
      Fits(cyc + {j}, n);
      var k := addr[j];
      ghost var before := a[..];
      CycleStep(p, orig, before, addr, done, cyc, i, j);
      CycleSizes(p, orig, before[j := before[k]], addr[j := j], done, cyc + {j}, i, k);
      a[j] := a[k];
      assert a[..] == before[j := before[k]];
      addr := addr[j := j];
      cyc := cyc + {j};
      j := k;
      more := addr[k] != i;
    }
    CycleClosed(p, orig, a[..], addr, done, cyc, i, j);
    ghost var before := a[..];
    a[j] := temp;
    assert a[..] == before[j := temp];
    addr := addr[j := j];
    done' := done + cyc + {j};
  }

  lemma CycleSizes<T>(p: seq<nat>, orig: seq<T>, a: seq<T>, addr: seq<nat>, done: set<nat>, cyc: set<nat>, i: nat, j: nat)
    requires InCycle(p, orig, a, addr, done, cyc, i, j)
    ensures |p| == |orig| == |a| == |addr| && j < |p| && j !in cyc && (forall x :: x in cyc ==> x < |p|) && addr[j] < |p|
  {
  }

  lemma {:induction false} Fits(s: set<nat>, n: nat)
    requires forall x :: x in s ==> x < n
    ensures |s| <= n
  {
    if n > 0 {
      Fits(s - {n - 1}, n - 1);
    } else {
      assert s == {};
    }
  }

  /** Number the list, then permute the objects in place. */
  method Rearrange<T>(a: array<T>, link: seq<int>, headLink: int, ghost order: seq<nat>)
    requires IsList(link, headLink, order) && Perm(order) && |order| == |link| == a.Length
    modifies a
    ensures forall j :: 0 <= j < a.Length ==> a[j] == old(a[order[j]])
  {
    hide Cycles, Values, IsList, Perm;
    var addr := NumberList(link, headLink, order);
    ghost var orig := a[..];
    ghost var done: set<nat> := {};
    NothingDone(order, orig);
    var i := 0;
    while i < a.Length
      invariant 0 <= i <= a.Length == |addr| && Cycles(order, orig, a[..], addr, done)
      invariant forall x :: 0 <= x < i ==> x in done
    {
      if addr[i] != i {
        addr, done := RotateCycle(a, addr, i, order, orig, done);
      } else {
        FixedPoint(order, orig, a[..], addr, done, i);
        done := done + {i};
      }
      i := i + 1;
    }
    AllDone(order, orig, a[..], addr, done);
  }

  lemma NothingDone<T>(p: seq<nat>, orig: seq<T>)
    requires Perm(p) && |p| == |orig|
    ensures Cycles(p, orig, orig, p, {})
  {
  }

  lemma AllDone<T>(p: seq<nat>, orig: seq<T>, a: seq<T>, addr: seq<nat>, done: set<nat>)
    requires Cycles(p, orig, a, addr, done) && forall x :: 0 <= x < |p| ==> x in done
    ensures |p| == |a| == |orig| && forall x :: 0 <= x < |p| ==> p[x] < |orig| && a[x] == orig[p[x]]
  {
  }

  method NumberList(link: seq<int>, headLink: int, ghost order: seq<nat>) returns (addr: seq<nat>)
    requires IsList(link, headLink, order) && |order| == |link|
    ensures addr == order
  {
    addr := seq(|link|, _ => 0);
    var i, j := headLink, 0;
    while i != Nil
      invariant 0 <= j <= |order| && |addr| == |link| && i == (if j < |order| then order[j] else Nil)
      invariant forall x :: 0 <= x < j ==> addr[x] == order[x]
      decreases |order| - j
    {
      addr := addr[j := i];
      i := link[i];
      j := j + 1;
    }
  }

  /** The whole sort: the objects end up ordered by coded key, equal keys in their initial
      order. Without a non-empty key nothing moves. */
  method Sort<T>(a: array<T>, keys: seq<seq<int>>, code: int -> nat, radix: nat, maxLen: nat) returns (ghost order: seq<nat>)
    requires |keys| == a.Length && (|keys| == 0 ==> maxLen == 0) && (|keys| > 0 ==> KeysOk(keys, code, radix, maxLen))
    modifies a
    ensures |order| == a.Length && SortedOrder(Coded(keys, code), order)
    ensures forall j :: 0 <= j < a.Length ==> 0 <= order[j] < a.Length && a[j] == old(a[order[j]])
  {
    if maxLen == 0 {
      order := Iota(|keys|);
      AllEmpty(Coded(keys, code));
      return;
    }
    var link, headLink;
    link, headLink, order := SortLinks(keys, code, radix, maxLen);
    OrderIsPerm(Coded(keys, code), order);
    Rearrange(a, link, headLink, order);
  }

  lemma AllEmpty(codes: seq<seq<nat>>)
    requires forall x :: 0 <= x < |codes| ==> codes[x] == []
    ensures SortedOrder(codes, Iota(|codes|))
  {
    var c := Iota(|codes|);
    ShorterFirst(codes, 0, c, []);
    assert c + [] == c;
  }
}
