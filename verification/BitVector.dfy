/**
 Bit-packed integer vectors: the word-addressed field accessors
 (src/terark/bitmap.cpp, src/terark/bitmap.hpp), the vector with its byte-addressed
 fast reader (src/terark/int_vector.hpp) and the streaming builder
 (src/terark/int_vector.cpp). Words have 64 bits, memory is little endian.
 */
module BitVectors {
  import opened Words

  const W: nat := 64

  predicate AllWords(ws: seq<Bits>)
  {
    forall i :: 0 <= i < |ws| ==> |ws[i]| == W
  }

  /** The memory behind an array of words, bit by bit. */
  function Flat(ws: seq<Bits>): (r: Bits)
    requires AllWords(ws)
    ensures |r| == W * |ws|
  {
    seq(W * |ws|, i requires 0 <= i < W * |ws| => ws[i / W][i % W])
  }

  lemma FlatAt(ws: seq<Bits>, p: nat, i: nat)
    requires AllWords(ws) && p < |ws| && i < W
    ensures Flat(ws)[W * p + i] == ws[p][i]
  {
    assert (W * p + i) / W == p && (W * p + i) % W == i;
  }

  /** Does the field [bitpos, bitpos + width) lie inside `n` words, counting the word
      at `bitpos` as touched even when the field is empty? */
  predicate InBounds(n: nat, bitpos: nat, width: nat)
  {
    width <= W && bitpos / W < n && bitpos + width <= W * n
  }

  /** The first `width` bits of `val` written over `mem` at `bitpos`. */
  function Overwrite(mem: Bits, bitpos: nat, width: nat, val: Bits): (r: Bits)
    requires width <= |val| && bitpos + width <= |mem|
    ensures |r| == |mem|
    ensures forall i :: 0 <= i < |mem| ==> r[i] == if bitpos <= i < bitpos + width then val[i - bitpos] else mem[i]
  {
    mem[..bitpos] + val[..width] + mem[bitpos + width..]
  }

  /** The first word of a field that ends before its word does. */
  lemma MaskInside(p: Bits, val: Bits, offset: nat, width: nat, r: Bits)
    requires |p| == |val| == W && offset + width < W
    requires forall i :: width <= i < W ==> !val[i]
    requires r == Or(And(p, Or(Not(Shl(Ones(W), offset)), Shl(Ones(W), offset + width))), Shl(val, offset))
    ensures forall i :: 0 <= i < W ==> r[i] == if offset <= i < offset + width then val[i - offset] else p[i]
  {
  }

  /** The first word of a field that reaches the end of its word. */
  lemma MaskToEnd(p: Bits, val: Bits, offset: nat, r: Bits)
    requires |p| == |val| == W && offset < W
    requires r == Or(And(p, Not(Shl(Ones(W), offset))), Shl(val, offset))
    ensures forall i :: 0 <= i < W ==> r[i] == if offset <= i then val[i - offset] else p[i]
  {
  }

  /** The second word of a field that continues there. */
  lemma MaskFromStart(p: Bits, val: Bits, offset: nat, width: nat, r: Bits)
    requires |p| == |val| == W && offset < W && W < offset + width && width <= W
    requires forall i :: width <= i < W ==> !val[i]
    requires r == Or(And(p, Shl(Ones(W), (offset + width) % W)), Shr(val, W - offset))
    ensures forall i :: 0 <= i < W ==> r[i] == if i < offset + width - W then val[i + W - offset] else p[i]
  {
  }

  /** Store the `width` low bits of `val` at bit `bitpos`. */
  method SetUint(base: array<Bits>, bitpos: nat, width: nat, val: Bits)
    requires AllWords(base[..]) && InBounds(base.Length, bitpos, width)
    requires |val| == W && forall i :: width <= i < W ==> !val[i]
    modifies base
    ensures AllWords(base[..])
    ensures Flat(base[..]) == Overwrite(old(Flat(base[..])), bitpos, width, val)
  {
    var p, offset := bitpos / W, bitpos % W;
    ghost var ws := base[..];
    if offset + width < W {
      var r := Or(And(base[p], Or(Not(Shl(Ones(W), offset)), Shl(Ones(W), offset + width))), Shl(val, offset));
      MaskInside(base[p], val, offset, width, r);
      base[p] := r;
      OneWord(ws, base[..], bitpos, width, val);
    } else {
      var r := Or(And(base[p], Not(Shl(Ones(W), offset))), Shl(val, offset));
      MaskToEnd(base[p], val, offset, r);
      if offset + width > W {
        var off2 := (offset + width) % W;
        var r2 := Or(And(base[p+1], Shl(Ones(W), off2)), Shr(val, W - offset));
        MaskFromStart(base[p+1], val, offset, width, r2);
        base[p] := r;
        base[p+1] := r2;
        TwoWords(ws, base[..], p, p + 1, bitpos, width, val);
      } else {
        base[p] := r;
        OneWord(ws, base[..], bitpos, width, val);
      }
    }
  }

  lemma OneWord(ws: seq<Bits>, ws': seq<Bits>, bitpos: nat, width: nat, val: Bits)
    requires AllWords(ws) && InBounds(|ws|, bitpos, width) && bitpos % W + width <= W && |val| == W
    requires |ws'| == |ws| && |ws'[bitpos / W]| == W && forall j :: 0 <= j < |ws| && j != bitpos / W ==> ws'[j] == ws[j]
    requires forall i :: 0 <= i < W ==> ws'[bitpos / W][i] == if bitpos % W <= i < bitpos % W + width then val[i - bitpos % W] else ws[bitpos / W][i]
    ensures AllWords(ws') && Flat(ws') == Overwrite(Flat(ws), bitpos, width, val)
  {
    hide Flat;
    forall i | 0 <= i < W * |ws| ensures Flat(ws')[i] == Overwrite(Flat(ws), bitpos, width, val)[i] {
      FlatAt(ws, i / W, i % W);
      FlatAt(ws', i / W, i % W);
    }
  }

  lemma TwoWords(ws: seq<Bits>, ws': seq<Bits>, p: nat, q: nat, bitpos: nat, width: nat, val: Bits)
    requires AllWords(ws) && InBounds(|ws|, bitpos, width) && bitpos % W + width > W && |val| == W
    requires p == bitpos / W && q == p + 1 && |ws'| == |ws| && |ws'[p]| == W && |ws'[q]| == W
    requires forall j :: 0 <= j < |ws| && j != p && j != q ==> ws'[j] == ws[j]
    requires forall i :: 0 <= i < W ==> ws'[p][i] == if bitpos % W <= i then val[i - bitpos % W] else ws[p][i]
    requires forall i :: 0 <= i < W ==> ws'[q][i] == if i < bitpos % W + width - W then val[i + W - bitpos % W] else ws[q][i]
    ensures AllWords(ws') && Flat(ws') == Overwrite(Flat(ws), bitpos, width, val)
  {
    hide Flat;
    forall i | 0 <= i < W * |ws| ensures Flat(ws')[i] == Overwrite(Flat(ws), bitpos, width, val)[i] {
      FlatAt(ws, i / W, i % W);
      FlatAt(ws', i / W, i % W);
    }
  }

  function LowMask(width: nat): (r: Bits)
    requires width <= W
    ensures |r| == W && forall i :: 0 <= i < W ==> (r[i] <==> i < width)
  {
    if width < W then Not(Shl(Ones(W), width)) else Ones(W)
  }

  /** Read the field at bit `bitpos`, word by word. */
  function GetUint(base: seq<Bits>, bitpos: nat, width: nat): Bits
    requires AllWords(base) && InBounds(|base|, bitpos, width)
  {
    var p, offset := bitpos / W, bitpos % W;
    var low := Shr(base[p], offset);
    if offset + width <= W then And(LowMask(width), low)
    else And(LowMask(width), Or(low, Shl(base[p+1], W - offset)))
  }

  /** The field [bitpos, bitpos + width) of `mem`, zero-extended to a word. */
  function Field(mem: Bits, bitpos: nat, width: nat): (r: Bits)
    requires width <= W && bitpos + width <= |mem|
    ensures |r| == W && forall i :: 0 <= i < W ==> (r[i] <==> i < width && mem[bitpos + i])
  {
    seq(W, i requires 0 <= i < W => i < width && mem[bitpos + i])
  }

  /** Reading gives exactly the bits of the field. */
  lemma GetReadsField(base: seq<Bits>, bitpos: nat, width: nat)
    requires AllWords(base) && InBounds(|base|, bitpos, width)
    ensures GetUint(base, bitpos, width) == Field(Flat(base), bitpos, width)
  {
    hide Flat, Field, And, Or, Shl, Shr, LowMask;
    WordOf(|base|, bitpos, width);
    if bitpos % W + width <= W {
      InsideWord(base, bitpos, width, bitpos / W, bitpos % W);
    } else {
      AcrossWords(base, bitpos, width, bitpos / W, bitpos % W);
    }
  }

  lemma WordOf(n: nat, bitpos: nat, width: nat)
    requires InBounds(n, bitpos, width)
    ensures bitpos == W * (bitpos / W) + bitpos % W
    ensures bitpos % W + width > W ==> bitpos / W + 1 < n
  {
  }

  lemma InsideWord(base: seq<Bits>, bitpos: nat, width: nat, p: nat, offset: nat)
    requires AllWords(base) && p < |base| && bitpos == W * p + offset && offset + width <= W && offset < W
    ensures And(LowMask(width), Shr(base[p], offset)) == Field(Flat(base), bitpos, width)
  {
    hide Flat;
    var r, f := And(LowMask(width), Shr(base[p], offset)), Field(Flat(base), bitpos, width);
    forall i | 0 <= i < W ensures r[i] == f[i] {
      if i < width { FlatAt(base, p, offset + i); }
    }
  }

  lemma AcrossWords(base: seq<Bits>, bitpos: nat, width: nat, p: nat, offset: nat)
    requires AllWords(base) && p + 1 < |base| && bitpos == W * p + offset && offset + width > W && offset < W && width <= W
    ensures And(LowMask(width), Or(Shr(base[p], offset), Shl(base[p+1], W - offset))) == Field(Flat(base), bitpos, width)
  {
    hide Flat;
    var r, f := And(LowMask(width), Or(Shr(base[p], offset), Shl(base[p+1], W - offset))), Field(Flat(base), bitpos, width);
    forall i | 0 <= i < W ensures r[i] == f[i] {
      if i < width {
        if offset + i < W { FlatAt(base, p, offset + i); } else { FlatAt(base, p + 1, offset + i - W); }
      }
    }
  }

  /** Round trip: after a store the field reads back as the value stored, and every
      field disjoint from it reads as before. */
  lemma SetThenGet(mem: Bits, bitpos: nat, width: nat, val: Bits, at: nat, w: nat)
    requires width <= W && bitpos + width <= |mem| && |val| == W && forall i :: width <= i < W ==> !val[i]
    requires w <= W && at + w <= |mem|
    ensures Field(Overwrite(mem, bitpos, width, val), bitpos, width) == val
    ensures at + w <= bitpos || bitpos + width <= at ==> Field(Overwrite(mem, bitpos, width, val), at, w) == Field(mem, at, w)
  {
    var mem' := Overwrite(mem, bitpos, width, val);
    var f := Field(mem', bitpos, width);
    forall i | 0 <= i < W ensures f[i] == val[i] {
      if i < width { assert mem'[bitpos + i] == val[i]; }
    }
    if at + w <= bitpos || bitpos + width <= at {
      assert Field(mem', at, w) == Field(mem, at, w);
    }
  }

  // ---------------------------------------------------------- byte-addressed reads

  /** Little-endian unaligned load of the eight bytes at `byteIdx`. */
  function LoadBytes(mem: Bits, byteIdx: nat): (r: Bits)
    requires 8 * byteIdx + W <= |mem|
    ensures |r| == W && forall i :: 0 <= i < W ==> r[i] == mem[8 * byteIdx + i]
  {
    mem[8 * byteIdx..8 * byteIdx + W]
  }

  /** The reader used when an entry never straddles nine bytes. */
  function FastGet(mem: Bits, bits: nat, idx: nat): Bits
    requires bits <= W && 8 * (bits * idx / 8) + W <= |mem|
  {
    FastGetAt(mem, bits, bits * idx)
  }

  function FastGetAt(mem: Bits, bits: nat, at: nat): Bits
    requires bits <= W && 8 * (at / 8) + W <= |mem|
  {
    And(Shr(LoadBytes(mem, at / 8), at % 8), LowMask(bits))
  }

  /** An entry of this width never straddles nine bytes, wherever it lies. */
  ghost predicate NeverNineBytes(bits: nat)
  {
    forall idx: nat :: EightBytes(bits, idx)
  }

  ghost predicate EightBytes(bits: nat, idx: nat)
  {
    bits * idx % 8 + bits <= W
  }

  /** Exactly which widths are safe for the fast reader: all up to 58, and beyond that 60 and 64. */
  lemma SafeWidths(bits: nat)
    requires bits <= W
    ensures NeverNineBytes(bits) <==> bits <= 58 || bits == 60 || bits == 64
  {
    if bits <= 57 {
      forall idx: nat ensures EightBytes(bits, idx) { var at := bits * idx; }
    } else if bits == 58 || bits == 60 || bits == 64 {
      forall idx: nat ensures EightBytes(bits, idx) { EvenRemainder(bits, idx); }
    } else {
      var idx: nat := if bits == 59 then 5 else if bits == 61 then 3 else 1;
      assert !EightBytes(bits, idx);
    }
  }

  lemma EvenRemainder(bits: nat, idx: nat)
    requires bits == 58 || bits == 60 || bits == 64
    ensures bits * idx % 8 + bits <= W
  {
    if bits == 58 { assert bits * idx == 58 * idx; Rem58(idx); }
    else if bits == 60 { assert bits * idx == 60 * idx; Rem60(idx); }
    else { assert bits * idx == 64 * idx; }
  }

  lemma Rem58(idx: nat)
    ensures 58 * idx % 8 <= 6
  {
    var y := 29 * idx;
    Remainder(58 * idx, y / 4, 2 * (y % 4));
  }

  lemma Rem60(idx: nat)
    ensures 60 * idx % 8 <= 4
  {
    var y := 15 * idx;
    Remainder(60 * idx, y / 2, 4 * (y % 2));
  }

  lemma Remainder(x: nat, q: nat, r: nat)
    requires x == 8 * q + r && r < 8
    ensures x % 8 == r
  {
  }

  /** Within its width the fast reader agrees with the word-addressed one. */
  lemma FastGetReadsField(mem: Bits, bits: nat, idx: nat)
    requires bits <= W && 8 * (bits * idx / 8) + W <= |mem| && bits * idx % 8 + bits <= W
    ensures bits * idx + bits <= |mem| && FastGet(mem, bits, idx) == Field(mem, bits * idx, bits)
  {
    hide FastGetAt, Field;
    FastGetAtRight(mem, bits, bits * idx);
  }

  lemma FastGetAtRight(mem: Bits, bits: nat, at: nat)
    requires bits <= W && 8 * (at / 8) + W <= |mem| && at % 8 + bits <= W
    ensures at + bits <= |mem| && FastGetAt(mem, bits, at) == Field(mem, at, bits)
  {
    var r, f := FastGetAt(mem, bits, at), Field(mem, at, bits);
    var load := LoadBytes(mem, at / 8);
    forall i | 0 <= i < W ensures r[i] == f[i] {
      if i < bits { assert load[i + at % 8] == mem[at + i]; }
    }
  }

  /** Where an entry straddles nine bytes, the fast reader loses its top bit: memory of ones shows it. */
  lemma FastGetWrong(bits: nat, idx: nat)
    requires bits <= W && bits * idx % 8 + bits > W
    ensures var mem := Ones(bits * idx + W); Readable(mem, bits, idx) && FastGet(mem, bits, idx) != Field(mem, bits * idx, bits)
  {
    hide FastGetAt, Field;
    TopBitLost(bits, bits * idx);
  }

  lemma TopBitLost(bits: nat, at: nat)
    requires bits <= W && at % 8 + bits > W
    ensures 8 * (at / 8) + W <= at + W && FastGetAt(Ones(at + W), bits, at) != Field(Ones(at + W), at, bits)
  {
    var mem := Ones(at + W);
    assert !FastGetAt(mem, bits, at)[bits - 1] && Field(mem, at, bits)[bits - 1];
  }

  /** The entry and the eight bytes that the fast reader loads are inside the memory. */
  ghost predicate Readable(mem: Bits, bits: nat, idx: nat)
  {
    bits * idx + bits <= |mem| && 8 * (bits * idx / 8) + W <= |mem|
  }

  /** The fast reader is right for this entry, whatever the memory holds. */
  ghost predicate FastGetRight(bits: nat, idx: nat)
    requires bits <= W
  {
    forall mem: Bits :: Readable(mem, bits, idx) ==> FastGet(mem, bits, idx) == Field(mem, bits * idx, bits)
  }

  lemma FastGetExact(bits: nat, idx: nat)
    requires bits <= W
    ensures FastGetRight(bits, idx) <==> EightBytes(bits, idx)
  {
    if bits * idx % 8 + bits <= W {
      forall mem: Bits | Readable(mem, bits, idx) ensures FastGet(mem, bits, idx) == Field(mem, bits * idx, bits) { FastGetReadsField(mem, bits, idx); }
    } else {
      FastGetWrong(bits, idx);
    }
  }

  /** The widths for which the fast reader is right everywhere: all up to 58, and 60 and 64. */
  lemma FastGetWidths(bits: nat)
    requires bits <= W
    ensures (forall idx: nat :: FastGetRight(bits, idx)) <==> bits <= 58 || bits == 60 || bits == 64
  {
    hide FastGetRight, EightBytes;
    SafeWidths(bits);
    forall idx: nat ensures FastGetRight(bits, idx) <==> EightBytes(bits, idx) { FastGetExact(bits, idx); }
  }

  // ----------------------------------------------------------------- numbers

  ghost function Pow2(n: nat): (r: nat)
    ensures r > 0
  {
    if n == 0 then 1 else 2 * Pow2(n - 1)
  }

  function ToBits(v: nat, n: nat): (r: Bits)
    ensures |r| == n
  {
    if n == 0 then [] else [v % 2 == 1] + ToBits(v / 2, n - 1)
  }

  function FromBits(b: Bits): nat
  {
    if |b| == 0 then 0 else (if b[0] then 1 else 0) + 2 * FromBits(b[1..])
  }

  lemma {:induction false} NumberRoundTrip(v: nat, n: nat)
    requires v < Pow2(n)
    ensures FromBits(ToBits(v, n)) == v
  {
    if n > 0 {
      NumberRoundTrip(v / 2, n - 1);
      assert ToBits(v, n)[1..] == ToBits(v / 2, n - 1);
    }
  }

  /** A number below 2^k has no bit at or above k. */
  lemma {:induction false} HighBitsClear(v: nat, k: nat, n: nat)
    requires v < Pow2(k)
    ensures forall i :: k <= i < n ==> !ToBits(v, n)[i]
    decreases n
  {
    if n > 0 {
      if k > 0 { HighBitsClear(v / 2, k - 1, n - 1); }
      else { HighBitsClear(0, 0, n - 1); }
    }
  }

  lemma {:induction false} Pow2Grows(a: nat, b: nat)
    requires a <= b
    ensures Pow2(a) <= Pow2(b)
  {
    if a < b { Pow2Grows(a, b - 1); }
  }

  /** Number of bits needed to write `value`. */
  method ComputeUintBits(value: nat) returns (bits: nat)
    ensures value < Pow2(bits)
    ensures bits > 0 ==> Pow2(bits - 1) <= value
  {
    var v := value;
    bits := 0;
    while v > 0
      invariant Bracket(v, Pow2(bits), value)
      invariant v == 0 && bits > 0 ==> Pow2(bits - 1) <= value
    {
      Halving(v, Pow2(bits), value);
      bits := bits + 1;
      v := v / 2;
    }
  }

  /** `v` is `value` divided by `p`, rounded down. */
  ghost predicate Bracket(v: nat, p: nat, value: nat)
  {
    v * p <= value < v * p + p
  }

  lemma Halving(v: nat, p: nat, value: nat)
    requires v > 0 && Bracket(v, p, value)
    ensures Bracket(v / 2, 2 * p, value) && p <= value
  {
    var h := v / 2;
    if v == 2 * h {
      assert v * p == h * (2 * p);
    } else {
      assert v * p == h * (2 * p) + p by { assert v == 2 * h + 1; }
    }
    MulLe(1, v, p);
  }

  lemma MulLe(a: nat, b: nat, c: nat)
    requires a <= b
    ensures a * c <= b * c
  {
    assert b * c == a * c + (b - a) * c;
  }

  // ------------------------------------------------------------------ the vector

  /** Bytes behind a vector: what is used, seven more so that the last entry can be
      loaded as a whole word, rounded up to a multiple of 16. */
  function ComputeMemSize(bits: nat, num: nat): nat
  {
    MemOfBits(bits * num)
  }

  function MemOfBits(used: nat): nat
  {
    ((used + 7) / 8 + 7 + 15) / 16 * 16
  }

  /** A multiple of 16 bytes that holds the bits used and seven bytes more. */
  ghost predicate Suffices(used: nat, mem: nat)
  {
    mem % 16 == 0 && mem >= 7 && used <= 8 * (mem - 7)
  }

  /** The size computed is the least such number. */
  lemma LeastMemory(bits: nat, num: nat)
    ensures Suffices(bits * num, ComputeMemSize(bits, num))
    ensures forall mem: nat :: Suffices(bits * num, mem) ==> ComputeMemSize(bits, num) <= mem
  {
    hide MemOfBits, Suffices;
    forall mem: nat | Suffices(bits * num, mem) ensures ComputeMemSize(bits, num) <= mem { LeastMemOfBits(bits * num, mem); }
    MemSuffices(bits * num);
  }

  lemma MemSuffices(used: nat)
    ensures Suffices(used, MemOfBits(used))
  {
    SixteenTimes((used + 7) / 8 + 22);
  }

  lemma LeastMemOfBits(used: nat, mem: nat)
    requires Suffices(used, mem)
    ensures MemOfBits(used) <= mem
  {
    var bytes, k := (used + 7) / 8, mem / 16;
    assert mem == 16 * k && bytes <= mem - 7;
    SixteenTimes(bytes + 22);
  }

  lemma SixteenTimes(x: nat)
    ensures x / 16 * 16 % 16 == 0 && x - 15 <= x / 16 * 16 <= x
  {
  }

  lemma WholeWords(bits: nat, num: nat)
    ensures 8 * (ComputeMemSize(bits, num) / 8) == ComputeMemSize(bits, num)
  {
    var used := bits * num;
    assert MemOfBits(used) == 8 * (2 * (((used + 7) / 8 + 7 + 15) / 16));
  }

  lemma MemOfMore(a: nat, b: nat)
    requires a <= b
    ensures MemOfBits(a) <= MemOfBits(b)
  {
  }

  lemma MemCovers(used: nat)
    ensures used + 56 <= 8 * MemOfBits(used) && MemOfBits(used) >= 16
  {
  }

  lemma EntryOrder(bits: nat, i: nat, j: nat)
    requires i < j
    ensures bits * i + bits <= bits * j
  {
    MulLe(i + 1, j, bits);
  }

  /** Both readers stay inside the memory computed for the vector. */
  lemma EntryInBounds(bits: nat, size: nat, idx: nat, words: nat)
    requires bits <= W && idx < size && ComputeMemSize(bits, size) <= 8 * words
    ensures InBounds(words, bits * idx, bits)
    ensures 8 * (bits * idx / 8) + W <= W * words
  {
    EntryOrder(bits, idx, size);
    hide MemOfBits;
    MemCovers(bits * size);
    LoadCovered(bits * idx, bits, bits * size, words);
  }

  lemma LoadCovered(at: nat, bits: nat, used: nat, words: nat)
    requires bits <= W && at + bits <= used && used + 56 <= W * words && words >= 2 && (bits > 0 || at == 0)
    ensures InBounds(words, at, bits) && 8 * (at / 8) + W <= W * words
  {
    assert W * words == 64 * words && at / W == at / 64;
    LoadEnds(at, used, words);
  }

  lemma LoadEnds(at: nat, used: nat, words: nat)
    requires at <= used && used + 56 <= 64 * words && words >= 2 && (at < used || at == 0)
    ensures at / 64 < words && 8 * (at / 8) + 64 <= 64 * words
  {
    if at > 0 {
      Below8(at, 8 * words - 7);
      Below64(at, words);
    }
  }

  lemma Below8(at: nat, n: int)
    requires at < 8 * n
    ensures at / 8 < n
  {
  }

  lemma Below64(at: nat, n: nat)
    requires at < 64 * n
    ensures at / 64 < n
  {
  }

  lemma EntryFits(bits: nat, size: nat, idx: nat, words: seq<Bits>)
    requires bits <= W && idx < size && ComputeMemSize(bits, size) <= 8 * |words| && AllWords(words)
    ensures bits * idx + bits <= |Flat(words)|
  {
    hide ComputeMemSize, Flat;
    EntryInBounds(bits, size, idx, |words|);
  }

  /** Storing entry `idx` changes that entry and no other. */
  lemma WireAfter(mem: Bits, bits: nat, idx: nat, val: nat, j: nat)
    requires bits <= W && bits * idx + bits <= |mem| && bits * j + bits <= |mem| && val < Pow2(bits)
    ensures FromBits(Field(Overwrite(mem, bits * idx, bits, ToBits(val, W)), bits * j, bits))
         == if j == idx then val else FromBits(Field(mem, bits * j, bits))
  {
    hide *;
    if j < idx { EntryOrder(bits, j, idx); }
    if j > idx { EntryOrder(bits, idx, j); }
    FieldAfter(mem, bits, bits * idx, val, bits * j, j == idx);
  }

  lemma FieldAfter(mem: Bits, bits: nat, at: nat, val: nat, other: nat, same: bool)
    requires bits <= W && at + bits <= |mem| && other + bits <= |mem| && val < Pow2(bits)
    requires if same then at == other else at + bits <= other || other + bits <= at
    ensures FromBits(Field(Overwrite(mem, at, bits, ToBits(val, W)), other, bits)) == if same then val else FromBits(Field(mem, other, bits))
  {
    hide Field, Overwrite, FromBits, ToBits;
    HighBitsClear(val, bits, W);
    SetThenGet(mem, at, bits, ToBits(val, W), other, bits);
    if same {
      Pow2Grows(bits, W);
      NumberRoundTrip(val, W);
    }
  }

  class UintVecMin0 {
    var data: array<Bits>
    var bits: nat
    var size: nat

    ghost predicate Valid()
      reads this, data
    {
      && bits <= W && AllWords(data[..])
      && (size > 0 ==> ComputeMemSize(bits, size) <= 8 * data.Length)
    }

    /** The number stored at index `idx`. */
    ghost function Value(idx: nat): nat
      requires Valid() && idx < size
      reads this, data
    {
      EntryFits(bits, size, idx, data[..]);
      FromBits(Field(Flat(data[..]), bits * idx, bits))
    }

    constructor ()
      ensures Valid() && size == 0 && fresh(data)
    {
      data := new Bits[0];
      bits, size := 0, 0;
    }

    method ResizeWithUintBits(num: nat, width: nat)
      requires width <= W
      modifies this
      ensures Valid() && bits == width && size == num && fresh(data)
      ensures 8 * data.Length == if num == 0 then 0 else ComputeMemSize(width, num)
      ensures forall k :: 0 <= k < data.Length ==> data[k] == Zeros(W)
    {
      hide ComputeMemSize;
      WholeWords(width, num);
      var n := if num > 0 then ComputeMemSize(width, num) / 8 else 0;
      data := new Bits[n](_ => Zeros(W));
      bits, size := width, num;
    }

    /** Change the number of entries; memory beyond the old end is zeroed. */
    method Resize(num: nat)
      requires Valid()
      modifies this
      ensures Valid() && size == num && bits == old(bits) && fresh(data)
      ensures 8 * data.Length == if num == 0 then 0 else ComputeMemSize(bits, num)
      ensures var n := if data.Length < old(data.Length) then data.Length else old(data.Length);
              data[..n] == old(data[..n]) && forall k :: n <= k < data.Length ==> data[k] == Zeros(W)
    {
      hide ComputeMemSize;
      WholeWords(bits, num);
      var n := if num > 0 then ComputeMemSize(bits, num) / 8 else 0;
      var d := data[..];
      assert AllWords(d);
      data := new Bits[n](i requires 0 <= i => if i < |d| then d[i] else Zeros(W));
      size := num;
      forall i | 0 <= i < n ensures |data[i]| == W {
        assert data[i] == if i < |d| then d[i] else Zeros(W);
      }
    }

    method SetWire(idx: nat, val: nat)
      requires Valid() && idx < size && val < Pow2(bits)
      modifies data
      ensures Valid() && Value(idx) == val
      ensures forall j :: 0 <= j < size && j != idx ==> Value(j) == old(Value(j))
    {
      hide ComputeMemSize, Flat, Field, Overwrite, FromBits, ToBits;
      EntryInBounds(bits, size, idx, data.Length);
      HighBitsClear(val, bits, W);
      ghost var mem := Flat(data[..]);
      SetUint(data, bits * idx, bits, ToBits(val, W));
      forall j | 0 <= j < size
        ensures Value(j) == if j == idx then val else old(Value(j))
      {
        EntryInBounds(bits, size, j, data.Length);
        WireAfter(mem, bits, idx, val, j);
      }
    }

    /** The byte-addressed reader, for widths up to 58. */
    method Get(idx: nat) returns (v: nat)
      requires Valid() && idx < size && bits <= 58
      ensures v == Value(idx)
    {
      EntryInBounds(bits, size, idx, data.Length);
      SafeWidths(bits);
      assert EightBytes(bits, idx);
      FastGetReadsField(Flat(data[..]), bits, idx);
      v := FromBits(FastGet(Flat(data[..]), bits, idx));
    }

    /** The word-addressed reader, for every width. */
    method GetBig(idx: nat) returns (v: nat)
      requires Valid() && idx < size
      ensures v == Value(idx)
    {
      EntryInBounds(bits, size, idx, data.Length);
      GetReadsField(data[..], bits * idx, bits);
      v := FromBits(GetUint(data[..], bits * idx, bits));
    }

    /** Pack `src` as offsets from its minimum, in the fewest bits that hold them all. */
    method BuildFrom(src: seq<int>) returns (minVal: int)
      requires forall i, j :: 0 <= i < |src| && 0 <= j < |src| ==> src[i] - src[j] < Pow2(W)
      modifies this, data
      ensures Valid() && size == |src|
      ensures forall i :: 0 <= i < |src| ==> Value(i) + minVal == src[i]
      ensures |src| > 0 ==> minVal in src
      ensures bits > 0 ==> exists i :: 0 <= i < |src| && Pow2(bits - 1) <= src[i] - minVal
    {
      if |src| == 0 {
        data := new Bits[0];
        bits, size := 0, 0;
        return 0;
      }
      var maxVal;
      minVal, maxVal := MinMax(src);
      var width := ComputeUintBits(maxVal - minVal);
      if width > W { Pow2Grows(W, width - 1); }
      ResizeWithUintBits(|src|, width);
      Fill(src, minVal);
    }

    method Fill(src: seq<int>, minVal: int)
      requires Valid() && size == |src| && forall i :: 0 <= i < |src| ==> 0 <= src[i] - minVal < Pow2(bits)
      modifies data
      ensures Valid() && forall i :: 0 <= i < |src| ==> Value(i) + minVal == src[i]
    {
      hide ComputeMemSize, Field, Flat, FromBits;
      var i := 0;
      while i < |src|
        invariant 0 <= i <= |src| && Valid()
        invariant forall k :: 0 <= k < i ==> Value(k) + minVal == src[k]
      {
        SetWire(i, src[i] - minVal);
        i := i + 1;
      }
    }
  }

  method MinMax(src: seq<int>) returns (lo: int, hi: int)
    requires |src| > 0
    ensures lo in src && hi in src && forall k :: 0 <= k < |src| ==> lo <= src[k] <= hi
  {
    lo, hi := src[0], src[0];
    var i := 1;
    while i < |src|
      invariant 1 <= i <= |src| && lo in src && hi in src
      invariant forall k :: 0 <= k < i ==> lo <= src[k] <= hi
    {
      if hi < src[i] { hi := src[i]; }
      if lo > src[i] { lo := src[i]; }
      i := i + 1;
    }
  }

  // ---------------------------------------------------------- the streaming builder

  const FlushSize: nat := 128

  /** Entry `i` of a vector of this width, read from the raw memory `mem`, is `v`. */
  ghost predicate Decodes(mem: Bits, width: nat, i: nat, v: nat)
  {
    width <= W && width * i + width <= |mem| && FromBits(Field(mem, width * i, width)) == v
  }

  ghost predicate DecodesAll(mem: Bits, width: nat, vals: seq<nat>)
  {
    forall i :: 0 <= i < |vals| ==> Decodes(mem, width, i, vals[i])
  }

  /** Memory that decodes to `b` placed behind memory of whole entries that decodes to `a`. */
  lemma DecodeConcat(mem: Bits, width: nat, a: seq<nat>, tail: Bits, b: seq<nat>)
    requires width <= W && |mem| == width * |a| && DecodesAll(mem, width, a) && DecodesAll(tail, width, b)
    ensures DecodesAll(mem + tail, width, a + b)
  {
    var all := mem + tail;
    forall i | 0 <= i < |a + b| ensures Decodes(all, width, i, (a + b)[i]) {
      if i < |a| {
        assert Decodes(mem, width, i, a[i]);
        assert Field(all, width * i, width) == Field(mem, width * i, width);
      } else {
        var j := i - |a|;
        assert Decodes(tail, width, j, b[j]);
        assert width * i == |mem| + width * j;
        assert Field(all, width * i, width) == Field(tail, width * j, width);
      }
    }
  }

  lemma DecodePrefix(mem: Bits, width: nat, vals: seq<nat>, n: nat)
    requires DecodesAll(mem, width, vals) && n <= |mem| && width * |vals| <= n
    ensures DecodesAll(mem[..n], width, vals)
  {
    forall i | 0 <= i < |vals| ensures Decodes(mem[..n], width, i, vals[i]) {
      assert Decodes(mem, width, i, vals[i]);
      EntryOrder(width, i, |vals|);
      assert Field(mem[..n], width * i, width) == Field(mem, width * i, width);
    }
  }

  /** Whole blocks of 128 entries fill a multiple of 16 bytes, so sizes add up. */
  lemma SizeOfBlocks(width: nat, blocks: nat, rest: nat)
    ensures ComputeMemSize(width, FlushSize * blocks + rest) == 16 * (width * blocks) + ComputeMemSize(width, rest)
  {
    hide MemOfBits;
    Distributed(width, blocks, rest);
    MemShifted(width * blocks, width * rest);
  }

  lemma Distributed(width: nat, blocks: nat, rest: nat)
    ensures width * (FlushSize * blocks + rest) == 128 * (width * blocks) + width * rest
  {
    assert width * (FlushSize * blocks) == FlushSize * (width * blocks);
  }

  lemma MemShifted(q: nat, r: nat)
    ensures MemOfBits(128 * q + r) == 16 * q + MemOfBits(r)
  {
    assert (128 * q + r + 7) / 8 == 16 * q + (r + 7) / 8;
    SixteenOut(q, (r + 7) / 8 + 22);
  }

  lemma SixteenOut(q: nat, x: nat)
    ensures (16 * q + x) / 16 == q + x / 16
  {
  }

  /** The finished memory can be read with the fast reader at every index. */
  lemma FastReadable(mem: Bits, width: nat, vals: seq<nat>, i: nat)
    requires DecodesAll(mem, width, vals) && i < |vals| && width <= 58
    requires |mem| == 8 * ComputeMemSize(width, |vals|)
    ensures 8 * (width * i / 8) + W <= |mem| && FromBits(FastGet(mem, width, i)) == vals[i]
  {
    hide *;
    FastFits(width, |vals|, i);
    FastGetReadsField(mem, width, i);
    DecodesAt(mem, width, vals, i);
  }

  lemma DecodesAt(mem: Bits, width: nat, vals: seq<nat>, i: nat)
    requires DecodesAll(mem, width, vals) && i < |vals|
    ensures width <= W && width * i + width <= |mem| && FromBits(Field(mem, width * i, width)) == vals[i]
  {
    hide Field, FromBits;
    assert Decodes(mem, width, i, vals[i]);
  }

  lemma FastFits(width: nat, num: nat, i: nat)
    requires width <= 58 && i < num
    ensures 8 * (width * i / 8) + W <= 8 * ComputeMemSize(width, num) && width * i % 8 + width <= W
  {
    SafeWidths(width);
    assert EightBytes(width, i);
    WholeWords(width, num);
    hide ComputeMemSize;
    EntryInBounds(width, num, i, ComputeMemSize(width, num) / 8);
  }

  lemma FullBuffer(width: nat)
    ensures width * FlushSize <= 8 * ComputeMemSize(width, FlushSize)
  {
    hide MemOfBits;
    MemCovers(width * FlushSize);
  }

  lemma NoneDecodes(mem: Bits, width: nat)
    ensures DecodesAll(mem, width, [])
  {
  }

  /** The first bits of a buffer that holds all values from `at` on go behind what was written. */
  lemma BlockDecodes(buf: Bits, written: Bits, width: nat, vals: seq<nat>, at: nat, out: Bits)
    requires width <= W && |vals| == at + FlushSize && |written| == width * at && width * FlushSize <= |buf|
    requires DecodesAll(written, width, vals[..at]) && DecodesAll(buf, width, vals[at..]) && out == buf[..width * FlushSize]
    ensures |written + out| == width * (at + FlushSize) && DecodesAll(written + out, width, vals)
  {
    hide DecodesAll;
    DecodePrefix(buf, width, vals[at..], width * FlushSize);
    DecodeConcat(written, width, vals[..at], out, vals[at..]);
    assert vals == vals[..at] + vals[at..];
    Sums(width, at, FlushSize);
  }

  /** The same for the words that remain of a buffer that is cut to the values from `at` on. */
  lemma TailDecodes(words: seq<Bits>, buf: seq<Bits>, written: Bits, width: nat, vals: seq<nat>, at: nat)
    requires width <= W && at <= |vals| && |written| == width * at && AllWords(buf) && words <= buf
    requires 8 * |words| == ComputeMemSize(width, |vals| - at)
    requires DecodesAll(written, width, vals[..at]) && DecodesAll(Flat(buf), width, vals[at..])
    ensures AllWords(words) && DecodesAll(written + Flat(words), width, vals)
  {
    hide DecodesAll, Flat, MemOfBits;
    FlatPrefix(words, buf);
    MemCovers(width * (|vals| - at));
    assert W * |words| == 64 * |words| && width * |vals[at..]| == width * (|vals| - at);
    DecodePrefix(Flat(buf), width, vals[at..], W * |words|);
    DecodeConcat(written, width, vals[..at], Flat(words), vals[at..]);
    assert vals == vals[..at] + vals[at..];
  }

  lemma Sums(width: nat, a: nat, b: nat)
    ensures width * (a + b) == width * a + width * b
  {
  }

  class UintVecMin0Builder {
    const width: nat
    const buffer: UintVecMin0
    var count: nat
    var flushCount: nat
    var outputSize: nat
    /** What has been handed to the writer, bit by bit. */
    var written: Bits
    ghost var pushed: seq<nat>
    ghost var blocks: nat

    ghost predicate Valid()
      reads this, buffer, buffer.data
    {
      && buffer.Valid() && buffer.bits == width && buffer.size == FlushSize
      && 8 * buffer.data.Length == ComputeMemSize(width, FlushSize)
      && count < FlushSize && flushCount == FlushSize * blocks && |pushed| == flushCount + count
      && |written| == 8 * outputSize == width * flushCount
      && DecodesAll(written, width, pushed[..flushCount])
      && DecodesAll(Flat(buffer.data[..]), width, pushed[flushCount..])
    }

    constructor (width: nat)
      requires width <= W
      ensures Valid() && pushed == [] && this.width == width && fresh(buffer) && fresh(buffer.data)
    {
      this.width := width;
      var b := new UintVecMin0();
      b.ResizeWithUintBits(FlushSize, width);
      buffer := b;
      count, flushCount, outputSize, written, pushed, blocks := 0, 0, 0, [], [], 0;
    }

    method PushBack(value: nat)
      requires Valid() && value < Pow2(width)
      modifies this, buffer.data
      ensures Valid() && pushed == old(pushed) + [value]
    {
      Store(value, pushed[flushCount..]);
      count := count + 1;
      ghost var pushed' := pushed + [value];
      assert pushed'[flushCount..] == pushed[flushCount..] + [value];
      assert pushed'[..flushCount] == pushed[..flushCount];
      pushed := pushed';
      if count == FlushSize {
        Flush();
      }
    }

    /** Hand the full buffer to the writer. */
    method Flush()
      requires buffer.Valid() && buffer.bits == width && buffer.size == FlushSize
      requires 8 * buffer.data.Length == ComputeMemSize(width, FlushSize)
      requires count == FlushSize && flushCount == FlushSize * blocks && |pushed| == flushCount + count
      requires |written| == 8 * outputSize == width * flushCount
      requires DecodesAll(written, width, pushed[..flushCount]) && DecodesAll(Flat(buffer.data[..]), width, pushed[flushCount..])
      modifies this
      ensures Valid() && pushed == old(pushed)
    {
      hide ComputeMemSize, DecodesAll, Flat;
      var byteCount := width * FlushSize / 8;
      assert 8 * byteCount == width * FlushSize <= W * buffer.data.Length by { FullBuffer(width); }
      var out := Flat(buffer.data[..])[..8 * byteCount];
      BlockDecodes(Flat(buffer.data[..]), written, width, pushed, flushCount, out);
      NoneDecodes(Flat(buffer.data[..]), width);
      assert pushed[..|pushed|] == pushed && pushed[|pushed|..] == [];
      written, flushCount, outputSize, count, blocks := written + out, flushCount + FlushSize, outputSize + byteCount, 0, blocks + 1;
    }

    /** Put `value` behind the entries the buffer already holds. */
    method Store(value: nat, ghost tail: seq<nat>)
      requires buffer.Valid() && buffer.bits == width && buffer.size == FlushSize && count < FlushSize
      requires value < Pow2(width) && |tail| == count && DecodesAll(Flat(buffer.data[..]), width, tail)
      modifies buffer.data
      ensures buffer.Valid() && DecodesAll(Flat(buffer.data[..]), width, tail + [value])
    {
      forall i | 0 <= i < count ensures buffer.Value(i) == tail[i] {
        assert Decodes(Flat(buffer.data[..]), width, i, tail[i]);
      }
      buffer.SetWire(count, value);
      forall i | 0 <= i <= count ensures Decodes(Flat(buffer.data[..]), width, i, (tail + [value])[i]) {
        EntryInBounds(width, FlushSize, i, buffer.data.Length);
        assert buffer.Value(i) == (tail + [value])[i];
      }
    }

    /** Write the tail. The total size is that of a vector built in one piece, and the
        memory written decodes at every index to the value pushed there. */
    method Finish() returns (size: nat, memSize: nat)
      requires Valid()
      modifies this, buffer
      ensures size == |pushed| && pushed == old(pushed)
      ensures memSize == outputSize == ComputeMemSize(width, |pushed|) && |written| == 8 * memSize
      ensures DecodesAll(written, width, pushed)
    {
      hide ComputeMemSize, DecodesAll, Flat;
      SizeOfBlocks(width, blocks, count);
      assert width * flushCount == 128 * (width * blocks);
      if count > 0 {
        WriteTail();
      } else {
        WritePadding();
      }
      size, memSize := flushCount + count, outputSize;
    }

    /** Shrink the buffer to its used entries and write it whole. */
    method WriteTail()
      requires Valid() && count > 0
      modifies this`written, this`outputSize, buffer
      ensures outputSize == old(outputSize) + ComputeMemSize(width, count)
      ensures |written| == old(|written|) + 8 * ComputeMemSize(width, count)
      ensures DecodesAll(written, width, pushed)
    {
      hide Flat, ComputeMemSize, DecodesAll;
      SmallerSize(width, count, FlushSize);
      buffer.Resize(count);
      buffer.Resize(buffer.size);
      var n := 8 * buffer.data.Length;
      TailDecodes(buffer.data[..], old(buffer.data[..]), written, width, pushed, flushCount);
      written, outputSize := written + Flat(buffer.data[..]), outputSize + n;
    }

    /** With nothing left to write, the bytes a whole-word load may touch. */
    method WritePadding()
      requires Valid() && count == 0
      modifies this`written, this`outputSize
      ensures outputSize == old(outputSize) + ComputeMemSize(width, 0)
      ensures |written| == old(|written|) + 8 * ComputeMemSize(width, 0)
      ensures DecodesAll(written, width, pushed)
    {
      var remain := ComputeMemSize(width, 0);
      outputSize := outputSize + remain;
      var zeros: Bits := [];
      while remain > 0
        invariant |zeros| + 8 * remain == 8 * ComputeMemSize(width, 0)
      {
        zeros := zeros + Zeros(8);
        remain := remain - 1;
      }
      assert pushed == pushed[..flushCount] + [];
      DecodeConcat(written, width, pushed[..flushCount], zeros, []);
      written := written + zeros;
    }
  }

  lemma FlatPrefix(a: seq<Bits>, b: seq<Bits>)
    requires AllWords(b) && a <= b
    ensures AllWords(a) && Flat(a) == Flat(b)[..W * |a|]
  {
    forall i | 0 <= i < |a| ensures |a[i]| == W { assert a[i] == b[i]; }
  }

  lemma SmallerSize(width: nat, a: nat, b: nat)
    requires a <= b
    ensures ComputeMemSize(width, a) <= ComputeMemSize(width, b)
  {
    MulLe(a, b, width);
    hide MemOfBits;
    MemOfMore(width * a, width * b);
  }
}
