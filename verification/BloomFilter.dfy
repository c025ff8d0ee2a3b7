/** The bloom filters of BEP 33: combining them bit by bit, and counting their zero bits. */
module BloomFilter {

  type Filter = seq<bv8>

  const FILTER_LENGTH: nat := 256

  function Empty(): (f: Filter)
    ensures |f| == FILTER_LENGTH && forall i :: 0 <= i < |f| ==> f[i] == 0
  {
    seq(FILTER_LENGTH, _ => 0)
  }

  function Shorter(a: nat, b: nat): nat { if a <= b then a else b }

  /** The bits of either filter, as far as both reach. */
  function Or(a: Filter, b: Filter): (f: Filter)
    ensures |f| == Shorter(|a|, |b|)
    ensures forall i :: 0 <= i < |f| ==> f[i] == a[i] | b[i]
  {
    seq(Shorter(|a|, |b|), i requires 0 <= i < Shorter(|a|, |b|) => a[i] | b[i])
  }

  method CombineBloomfilters(bf1: Filter, bf2: Filter) returns (combined: Filter)
    ensures combined == Or(bf1, bf2)
  {
    var finalLength := Shorter(|bf1|, |bf2|);
    var final := new bv8[finalLength];
    for i := 0 to finalLength
      invariant forall k :: 0 <= k < i ==> final[k] == bf1[k] | bf2[k]
    {
      final[i] := bf1[i] | bf2[i];
    }
    combined := final[..];
  }

  // ---------------------------------------------------------------- the union of many filters

  function Union(start: Filter, fs: seq<Filter>): Filter {
    if fs == [] then start else Or(Union(start, fs[..|fs| - 1]), fs[|fs| - 1])
  }

  /** Every bit of `a`, up to the length of `b`, is in `b`, and `b` is not longer. */
  predicate Within(a: Filter, b: Filter) {
    |b| <= |a| && forall i :: 0 <= i < |b| ==> a[i] | b[i] == b[i]
  }

  lemma Absorbs(x: bv8, y: bv8, z: bv8)
    ensures x | x == x
    ensures x | y == y && y | z == z ==> x | z == z
    ensures x | y == y && y | x == x ==> x == y
    ensures x | z == z && y | z == z <==> (x | y) | z == z
  {
  }

  lemma OrIsLeast(a: Filter, b: Filter, c: Filter)
    ensures Within(a, Or(a, b)) && Within(b, Or(a, b))
    ensures Within(Or(a, b), c) <==> Within(a, c) && Within(b, c)
  {
    var o := Or(a, b);
    forall i | 0 <= i < |o|
      ensures a[i] | o[i] == o[i] && b[i] | o[i] == o[i]
    {
      Absorbs(a[i], b[i], o[i]);
    }
    if |c| <= |o| {
      forall i | 0 <= i < |c|
        ensures a[i] | c[i] == c[i] && b[i] | c[i] == c[i] <==> o[i] | c[i] == c[i]
      {
        Absorbs(a[i], b[i], c[i]);
      }
    }
  }

  lemma {:induction false} UnionIsLeast(start: Filter, fs: seq<Filter>, c: Filter)
    ensures Within(Union(start, fs), c) <==> Within(start, c) && forall k :: 0 <= k < |fs| ==> Within(fs[k], c)
    decreases |fs|
  {
    if fs != [] {
      var (init, last) := (fs[..|fs| - 1], fs[|fs| - 1]);
      UnionIsLeast(start, init, c);
      OrIsLeast(Union(start, init), last, c);
      assert (forall k :: 0 <= k < |fs| ==> Within(fs[k], c)) <==>
             (forall k :: 0 <= k < |init| ==> Within(init[k], c)) && Within(last, c) by {
        assert forall k :: 0 <= k < |init| ==> init[k] == fs[k];
      }
    }
  }

  lemma WithinItself(a: Filter)
    ensures Within(a, a)
  {
    forall i | 0 <= i < |a|
      ensures a[i] | a[i] == a[i]
    {
      Absorbs(a[i], a[i], a[i]);
    }
  }

  lemma WithinBoth(a: Filter, b: Filter)
    requires Within(a, b) && Within(b, a)
    ensures a == b
  {
    forall i | 0 <= i < |a|
      ensures a[i] == b[i]
    {
      Absorbs(a[i], b[i], a[i]);
    }
  }

  /** The union depends only on which filters were combined, not on their order or on how often each came. */
  lemma UnionIgnoresOrder(start: Filter, fs: seq<Filter>, gs: seq<Filter>)
    requires forall f :: f in fs <==> f in gs
    ensures Union(start, fs) == Union(start, gs)
  {
    var (u, v) := (Union(start, fs), Union(start, gs));
    WithinItself(u);
    WithinItself(v);
    UnionIsLeast(start, fs, u);
    UnionIsLeast(start, gs, v);
    assert forall k :: 0 <= k < |gs| ==> gs[k] in fs;
    assert forall k :: 0 <= k < |fs| ==> fs[k] in gs;
    UnionIsLeast(start, gs, u);
    UnionIsLeast(start, fs, v);
    WithinBoth(u, v);
  }

  // ---------------------------------------------------------------- zero bits

  function Bit(b: bv8, mask: bv8): int { if b & mask == 0 then 0 else 1 }

  /** The mask of bit `k` of a byte. */
  function Mask(k: nat): bv8
    requires k < 8
  {
    [1, 2, 4, 8, 16, 32, 64, 128][k]
  }

  /** The eight bits of a byte, the highest first. */
  function BitsOf(b: bv8): (bits: seq<int>)
    ensures |bits| == 8 && forall i :: 0 <= i < 8 ==> bits[i] == Bit(b, Mask(7 - i))
  {
    seq(8, i requires 0 <= i < 8 => Bit(b, Mask(7 - i)))
  }

  function Zeros(bits: seq<int>): nat {
    if bits == [] then 0 else Zeros(bits[..|bits| - 1]) + if bits[|bits| - 1] == 0 then 1 else 0
  }

  function ZerosOf(b: bv8): nat { Zeros(BitsOf(b)) }

  function ZeroBits(f: Filter): nat {
    if f == [] then 0 else ZeroBits(f[..|f| - 1]) + ZerosOf(f[|f| - 1])
  }

  lemma {:induction false} ZerosConcat(a: seq<int>, b: seq<int>)
    ensures Zeros(a + b) == Zeros(a) + Zeros(b)
    decreases |b|
  {
    if b == [] {
      assert a + b == a;
    } else {
      assert (a + b)[..|a + b| - 1] == a + b[..|b| - 1];
      ZerosConcat(a, b[..|b| - 1]);
    }
  }

  /** The counting part of get_size_from_bloomfilter: spell out all bits, then count the zeros among them. */
  method CountZeros(bf: Filter) returns (totalZeros: nat)
    ensures totalZeros == ZeroBits(bf)
  {
    var bits: seq<int> := [];
    for i := 0 to |bf|
      invariant Zeros(bits) == ZeroBits(bf[..i])
    {
      ZerosConcat(bits, BitsOf(bf[i]));
      assert bf[..i + 1][..i] == bf[..i];
      bits := bits + BitsOf(bf[i]);
    }
    assert bf[..|bf|] == bf;
    totalZeros := 0;
    for k := 0 to |bits|
      invariant totalZeros == Zeros(bits[..k])
    {
      assert bits[..k + 1][..k] == bits[..k];
      if bits[k] == 0 {
        totalZeros := totalZeros + 1;
      }
    }
    assert bits[..|bits|] == bits;
  }

  lemma OtherBit(b: bv8, mask: bv8, other: bv8)
    requires mask & other == 0
    ensures Bit(b | mask, other) == Bit(b, other)
  {
    assert (b | mask) & other == (b & other) | (mask & other);
  }

  lemma OwnBit(b: bv8, mask: bv8)
    requires mask != 0
    ensures Bit(b | mask, mask) == 1
  {
    assert (b | mask) & mask == mask;
  }

  lemma {:induction false} OneFewer(a: seq<int>, b: seq<int>, i: nat)
    requires i < |a| == |b| && a[i] == 0 && b[i] == 1
    requires forall k :: 0 <= k < |a| && k != i ==> b[k] == a[k]
    ensures Zeros(b) + 1 == Zeros(a)
    decreases |a|
  {
    if i < |a| - 1 {
      OneFewer(a[..|a| - 1], b[..|b| - 1], i);
    } else {
      assert a[..i] == b[..i];
    }
  }

  lemma ZerosOfNone()
    ensures ZerosOf(0) == 8
  {
    var zeros := [0, 0, 0, 0, 0, 0, 0, 0];
    assert BitsOf(0) == zeros;
    NoneSet(zeros);
  }

  lemma {:induction false} NoneSet(bits: seq<int>)
    requires forall i :: 0 <= i < |bits| ==> bits[i] == 0
    ensures Zeros(bits) == |bits|
    decreases |bits|
  {
    if bits != [] {
      NoneSet(bits[..|bits| - 1]);
    }
  }

  /** Setting a bit of a byte that was not set takes away one zero. */
  lemma SettingTakesZero(b: bv8, k: nat)
    requires k < 8 && b & Mask(k) == 0
    ensures ZerosOf(b | Mask(k)) + 1 == ZerosOf(b)
  {
    forall i | 0 <= i < 8
      ensures BitsOf(b | Mask(k))[i] == if i == 7 - k then 1 else BitsOf(b)[i]
    {
      BitAfter(b, k, 7 - i);
    }
    OneFewer(BitsOf(b), BitsOf(b | Mask(k)), 7 - k);
  }

  lemma BitAfter(b: bv8, k: nat, i: nat)
    requires k < 8 && i < 8
    ensures Bit(b | Mask(k), Mask(i)) == if i == k then 1 else Bit(b, Mask(i))
  {
    MasksApart(k, i);
    if i == k {
      OwnBit(b, Mask(k));
    } else {
      OtherBit(b, Mask(k), Mask(i));
    }
  }

  lemma MasksApart(k: nat, i: nat)
    requires k < 8 && i < 8
    ensures Mask(k) != 0 && (k != i ==> Mask(k) & Mask(i) == 0)
  {
    assert 1 as bv8 & 2 == 0 && 1 as bv8 & 4 == 0 && 1 as bv8 & 8 == 0;
  }

  lemma {:induction false} ZerosChanged(f: Filter, i: nat, b: bv8)
    requires i < |f|
    ensures ZeroBits(f[i := b]) == ZeroBits(f) - ZerosOf(f[i]) + ZerosOf(b)
    decreases |f|
  {
    var n := |f| - 1;
    if i < n {
      assert f[i := b][..n] == f[..n][i := b];
      ZerosChanged(f[..n], i, b);
    } else {
      assert f[i := b][..n] == f[..n];
    }
  }

  /** Setting any bit of a filter that was not set takes away one zero. */
  lemma SetBitTakesZero(f: Filter, i: nat, k: nat)
    requires i < |f| && k < 8 && f[i] & Mask(k) == 0
    ensures ZeroBits(f[i := f[i] | Mask(k)]) + 1 == ZeroBits(f)
  {
    SettingTakesZero(f[i], k);
    ZerosChanged(f, i, f[i] | Mask(k));
  }

  /** The filter of a new lookup: every bit is zero. */
  lemma {:induction false} AllZeros(f: Filter)
    requires forall i :: 0 <= i < |f| ==> f[i] == 0
    ensures ZeroBits(f) == 8 * |f|
    decreases |f|
  {
    if f != [] {
      AllZeros(f[..|f| - 1]);
      ZerosOfNone();
    }
  }

  lemma {:induction false} ZerosBelow(a: seq<int>, b: seq<int>)
    requires |a| == |b| && forall i :: 0 <= i < |a| ==> a[i] == 0 ==> b[i] == 0
    ensures Zeros(a) <= Zeros(b)
    decreases |a|
  {
    if a != [] {
      ZerosBelow(a[..|a| - 1], b[..|b| - 1]);
    }
  }

  lemma BitKept(a: bv8, b: bv8, mask: bv8)
    ensures Bit(a | b, mask) == 0 ==> Bit(a, mask) == 0
  {
  }

  lemma OrKeepsOnes(a: bv8, b: bv8)
    ensures ZerosOf(a | b) <= ZerosOf(a)
  {
    var o := a | b;
    forall i | 0 <= i < 8
      ensures BitsOf(o)[i] == 0 ==> BitsOf(a)[i] == 0
    {
      BitKept(a, b, Mask(7 - i));
    }
    ZerosBelow(BitsOf(o), BitsOf(a));
  }

  lemma {:induction false} ZerosOfPrefix(f: Filter, n: nat)
    requires n <= |f|
    ensures ZeroBits(f[..n]) <= ZeroBits(f)
    decreases |f|
  {
    if n < |f| {
      ZerosOfPrefix(f[..|f| - 1], n);
      assert f[..|f| - 1][..n] == f[..n];
    } else {
      assert f[..n] == f;
    }
  }

  lemma {:induction false} ZerosWithin(f: Filter, g: Filter)
    requires |g| == |f| && forall i :: 0 <= i < |f| ==> ZerosOf(g[i]) <= ZerosOf(f[i])
    ensures ZeroBits(g) <= ZeroBits(f)
    decreases |f|
  {
    if f != [] {
      ZerosWithin(f[..|f| - 1], g[..|f| - 1]);
    }
  }

  /** Combining never adds zero bits, whatever the length of the other filter. */
  lemma CombiningAddsNoZeros(a: Filter, b: Filter)
    ensures ZeroBits(Or(a, b)) <= ZeroBits(a)
  {
    var n := |Or(a, b)|;
    forall i | 0 <= i < n
      ensures ZerosOf(Or(a, b)[i]) <= ZerosOf(a[..n][i])
    {
      OrKeepsOnes(a[i], b[i]);
    }
    ZerosWithin(a[..n], Or(a, b));
    ZerosOfPrefix(a, n);
  }

  /** A bit of the filter: that of byte `i` under the mask, unset behind the end. */
  predicate IsSet(f: Filter, i: nat, mask: bv8) {
    i < |f| && f[i] & mask != 0
  }

  lemma OwnMask(x: bv8)
    ensures x & x == x
  {
  }

  lemma OrKeepsBit(x: bv8, y: bv8, mask: bv8)
    requires x & mask != 0
    ensures (x | y) & mask != 0
  {
  }

  /** No bit that was set is lost exactly when the other filter reaches to the last byte that is not zero. */
  lemma BitsAreKeptIff(a: Filter, b: Filter)
    ensures (forall i: nat, mask: bv8 :: IsSet(a, i, mask) ==> IsSet(Or(a, b), i, mask)) <==>
            forall i :: |b| <= i < |a| ==> a[i] == 0
  {
    if i: nat :| |b| <= i < |a| && a[i] != 0 {
      OwnMask(a[i]);
      assert IsSet(a, i, a[i]) && !IsSet(Or(a, b), i, a[i]);
    } else {
      forall i: nat, mask: bv8 | IsSet(a, i, mask)
        ensures IsSet(Or(a, b), i, mask)
      {
        assert i < |b|;
        OrKeepsBit(a[i], b[i], mask);
      }
    }
  }

  /** A filter of one byte cuts the second byte off, and with it the bit that was set there. */
  lemma ShortFilterLosesBit()
    ensures IsSet([0, 1], 1, 1) && !IsSet(Or([0, 1], [0]), 1, 1)
  {
  }

  /** Once an empty filter has been combined nothing is left, and no zero bit: the size reads as the largest, 6000. */
  lemma {:induction false} EmptyFilterErasesAll(start: Filter, fs: seq<Filter>)
    requires [] in fs
    ensures Union(start, fs) == [] && ZeroBits(Union(start, fs)) == 0
    decreases |fs|
  {
    var n := |fs| - 1;
    if fs[n] != [] {
      assert fs == fs[..n] + [fs[n]];
      EmptyFilterErasesAll(start, fs[..n]);
    }
  }
}
