/**
 The comparison that sorts string keys by a cached prefix (src/terark/hash_strmap.hpp,
 ByteWiseKeyCompare; src/terark/fstring.hpp, less_align): first the big-endian number of the
 leading bytes, then the lengths, then the rest word by word.
 */
module KeyCompare {

  type Byte = x: int | 0 <= x < 256
  type Bytes = seq<Byte>

  /** Byte-wise lexicographic order, a proper prefix first. */
  ghost predicate Lex(a: Bytes, b: Bytes)
  {
    b != [] && (a == [] || a[0] < b[0] || (a[0] == b[0] && Lex(a[1..], b[1..])))
  }

  /** The number that the bytes spell, most significant first. */
  function BigEndian(s: Bytes): nat
  {
    if |s| == 0 then 0 else BigEndian(s[..|s| - 1]) * 256 + s[|s| - 1]
  }

  function ZeroPadded(key: Bytes, len: nat): (r: Bytes)
    ensures |r| == len
  {
    if |key| >= len then key[..len] else key + seq(len - |key|, _ => 0)
  }

  /** What the index stores beside each key. */
  function Prefix(key: Bytes, len: nat): nat
  {
    BigEndian(ZeroPadded(key, len))
  }

  /** The comparison skips a common part. */
  lemma {:induction false} LexSkip(a: Bytes, b: Bytes, i: nat)
    requires i <= |a| && i <= |b| && a[..i] == b[..i]
    ensures Lex(a, b) <==> Lex(a[i..], b[i..])
    decreases i
  {
    if i == 0 {
      assert a[0..] == a && b[0..] == b;
    } else {
      assert a[0] == a[..i][0] && b[0] == b[..i][0];
      assert a[1..][..i - 1] == a[..i][1..] && b[1..][..i - 1] == b[..i][1..];
      LexSkip(a[1..], b[1..], i - 1);
      assert a[1..][i - 1..] == a[i..] && b[1..][i - 1..] == b[i..];
    }
  }

  /** Strings of one length: the last byte matters only if all others are equal. */
  lemma {:induction false} LexLast(a: Bytes, b: Bytes, x: Byte, y: Byte)
    requires |a| == |b|
    ensures Lex(a + [x], b + [y]) <==> Lex(a, b) || (a == b && x < y)
  {
    if |a| > 0 {
      assert (a + [x])[1..] == a[1..] + [x] && (b + [y])[1..] == b[1..] + [y];
      LexLast(a[1..], b[1..], x, y);
      assert a == [a[0]] + a[1..] && b == [b[0]] + b[1..];
    } else {
      assert (a + [x])[1..] == [] && (b + [y])[1..] == [];
    }
  }

  lemma DigitOrder(a: nat, b: nat, x: Byte, y: Byte)
    ensures a * 256 + x < b * 256 + y <==> a < b || (a == b && x < y)
    ensures a * 256 + x == b * 256 + y <==> a == b && x == y
  {
  }

  /** Comparing the numbers is comparing the strings. */
  lemma {:induction false} NumberOrder(a: Bytes, b: Bytes)
    requires |a| == |b|
    ensures BigEndian(a) < BigEndian(b) <==> Lex(a, b)
    ensures BigEndian(a) == BigEndian(b) <==> a == b
    decreases |a|
  {
    if |a| > 0 {
      var a', b', x, y := a[..|a| - 1], b[..|b| - 1], a[|a| - 1], b[|b| - 1];
      NumberOrder(a', b');
      LexLast(a', b', x, y);
      DigitOrder(BigEndian(a'), BigEndian(b'), x, y);
      hide Lex;
      assert a == a' + [x] && b == b' + [y];
    }
  }

  lemma {:induction false} LexTotal(a: Bytes, b: Bytes)
    ensures Lex(a, b) || Lex(b, a) || a == b
    ensures !(Lex(a, b) && Lex(b, a)) && !Lex(a, a)
  {
    if a != [] {
      LexTotal(a[1..], a[1..]);
      if b != [] {
        LexTotal(a[1..], b[1..]);
        assert a == [a[0]] + a[1..] && b == [b[0]] + b[1..];
      }
    }
  }

  /** Equal padded prefixes of which one is not longer than the prefix: one string is then
      the other with zero bytes appended, or begins it. */
  lemma ShortOrder(x: Bytes, y: Bytes, len: nat)
    requires ZeroPadded(x, len) == ZeroPadded(y, len) && (|x| <= len || |y| <= len)
    ensures Lex(x, y) <==> |x| < |y|
  {
    var m := if |x| <= |y| then |x| else |y|;
    assert x[..m] == ZeroPadded(x, len)[..m] && y[..m] == ZeroPadded(y, len)[..m];
    LexSkip(x, y, m);
  }

  /** Strings that differ within the prefix. */
  lemma PrefixOrder(x: Bytes, y: Bytes, len: nat)
    requires Lex(ZeroPadded(x, len), ZeroPadded(y, len))
    ensures Lex(x, y)
  {
    var a, b := ZeroPadded(x, len), ZeroPadded(y, len);
    var i := Departure(a, b);
    var m := if |x| < i then |x| else i;
    assert forall j :: 0 <= j < i ==> a[j] == a[..i][j] && b[j] == b[..i][j];
    assert b[i] > 0;
    assert i < |y|;
    assert x[..m] == y[..m] by { assert x[..m] == a[..m] && y[..m] == b[..m]; }
    LexSkip(x, y, m);
  }

  /** The first place where the smaller of two strings of one length is smaller. */
  lemma {:induction false} Departure(a: Bytes, b: Bytes) returns (i: nat)
    requires Lex(a, b) && |a| == |b|
    ensures i < |a| && a[..i] == b[..i] && a[i] < b[i]
  {
    if a[0] < b[0] {
      i := 0;
    } else {
      var j := Departure(a[1..], b[1..]);
      i := j + 1;
      assert a[..i] == [a[0]] + a[1..][..j] && b[..i] == [b[0]] + b[1..][..j];
    }
  }

  /** Word-wise comparison of the rest: whole words while they are equal, then bytes. */
  method LessAlign(x: Bytes, y: Bytes, word: nat) returns (less: bool)
    requires word > 0
    ensures less <==> Lex(x, y)
  {
    var n := if |x| < |y| then |x| else |y|;
    var c: int := n - (word - 1);
    var i := 0;
    while i < c && x[i..i + word] == y[i..i + word]
      invariant 0 <= i <= n && x[..i] == y[..i]
    {
      assert x[..i + word] == x[..i] + x[i..i + word] && y[..i + word] == y[..i] + y[i..i + word];
      i := i + word;
    }
    while i < n
      invariant 0 <= i <= n && x[..i] == y[..i]
    {
      if x[i] != y[i] {
        LexSkip(x, y, i);
        return x[i] < y[i];
      }
      assert x[..i + 1] == x[..i] + [x[i]] && y[..i + 1] == y[..i] + [y[i]];
      i := i + 1;
    }
    LexSkip(x, y, n);
    return |x| < |y|;
  }

  /** The comparator agrees with byte-wise order on whole keys, whatever zero bytes they hold
      and however short they are. */
  method ByteWiseLess(x: Bytes, y: Bytes, px: nat, py: nat, prefixLen: nat, word: nat) returns (less: bool)
    requires word > 0 && px == Prefix(x, prefixLen) && py == Prefix(y, prefixLen)
    ensures less <==> Lex(x, y)
  {
    var a, b := ZeroPadded(x, prefixLen), ZeroPadded(y, prefixLen);
    NumberOrder(a, b);
    NumberOrder(b, a);
    LexTotal(x, y);
    if px < py {
      PrefixOrder(x, y, prefixLen);
      return true;
    }
    if py < px {
      PrefixOrder(y, x, prefixLen);
      return false;
    }
    if |x| <= prefixLen || |y| <= prefixLen {
      ShortOrder(x, y, prefixLen);
      return |x| < |y|;
    }
    assert x[..prefixLen] == y[..prefixLen];
    LexSkip(x, y, prefixLen);
    less := LessAlign(x[prefixLen..], y[prefixLen..], word);
  }
}
