/** Bytes, and the big-endian unsigned integers of Python's struct module. */
module Binary {

  newtype Byte = b: int | 0 <= b < 256

  type Bytes = seq<Byte>

  /** The number of different integers that fit in `width` bytes. */
  function Range(width: nat): (r: nat)
    ensures r > 0
  {
    if width == 0 then 1 else 256 * Range(width - 1)
  }

  /** The last `width` bytes of the big-endian representation of `n`. */
  function BigEndian(n: nat, width: nat): (bs: Bytes)
    ensures |bs| == width
  {
    if width == 0 then [] else BigEndian(n / 256, width - 1) + [(n % 256) as Byte]
  }

  function FromBigEndian(bs: Bytes): nat {
    FromFirst(bs, |bs|)
  }

  /** The integer that the first `n` bytes make. */
  function FromFirst(bs: Bytes, n: nat): nat
    requires n <= |bs|
  {
    if n == 0 then 0 else 256 * FromFirst(bs, n - 1) + bs[n - 1] as int
  }

  lemma {:induction false} FromFirstOfPrefix(bs: Bytes, more: Bytes, n: nat)
    requires n <= |bs|
    ensures FromFirst(bs + more, n) == FromFirst(bs, n)
  {
    if n > 0 {
      FromFirstOfPrefix(bs, more, n - 1);
    }
  }

  lemma {:induction false} FromFirstInRange(bs: Bytes, n: nat)
    requires n <= |bs|
    ensures FromFirst(bs, n) < Range(n)
  {
    if n > 0 {
      FromFirstInRange(bs, n - 1);
    }
  }

  lemma FromBigEndianInRange(bs: Bytes)
    ensures FromBigEndian(bs) < Range(|bs|)
  {
    FromFirstInRange(bs, |bs|);
  }

  /** Python's `data[lo:hi]` for non-negative bounds, which never fails. */
  function Slice(data: Bytes, lo: nat, hi: nat): (s: Bytes)
    ensures |s| <= |data|
  {
    var last := if hi < |data| then hi else |data|;
    if lo < last then data[lo..last] else []
  }

  function Zeros(n: nat): (bs: Bytes)
    ensures |bs| == n
  {
    seq(n, _ => 0)
  }

  /** What is written is what is read. */
  lemma {:induction false} BigEndianRoundTrip(n: nat, width: nat)
    requires n < Range(width)
    ensures FromBigEndian(BigEndian(n, width)) == n
  {
    if width > 0 {
      BigEndianRoundTrip(n / 256, width - 1);
      FromFirstOfPrefix(BigEndian(n / 256, width - 1), [(n % 256) as Byte], width - 1);
    }
  }

  /** Equally long encodings of the same integer are the same bytes. */
  lemma {:induction false} BigEndianOfRead(bs: Bytes)
    ensures BigEndian(FromBigEndian(bs), |bs|) == bs
  {
    if bs != [] {
      var (rest, last) := (bs[..|bs| - 1], bs[|bs| - 1]);
      BigEndianOfRead(rest);
      assert bs == rest + [last];
      FromFirstOfPrefix(rest, [last], |rest|);
    }
  }

  /** The order of the bytes: those in front count more, by the range of those behind them. */
  lemma {:induction false} FirstCountsMost(front: Bytes, back: Bytes)
    ensures FromBigEndian(front + back) == FromBigEndian(front) * Range(|back|) + FromBigEndian(back)
    ensures |back| == 1 ==> FromBigEndian(back) == back[0] as int
    decreases |back|
  {
    if back == [] {
      assert front + back == front;
    } else {
      var (rest, last) := (back[..|back| - 1], back[|back| - 1]);
      FirstCountsMost(front, rest);
      FromLast(front + rest, last);
      FromLast(rest, last);
      assert front + back == front + rest + [last] && back == rest + [last];
      Scaled(FromBigEndian(front), Range(|rest|), FromBigEndian(rest));
    }
  }

  lemma FromLast(bs: Bytes, last: Byte)
    ensures FromBigEndian(bs + [last]) == 256 * FromBigEndian(bs) + last as int
  {
    FromFirstOfPrefix(bs, [last], |bs|);
  }

  lemma Scaled(a: nat, b: nat, c: nat)
    ensures 256 * (a * b + c) == a * (256 * b) + 256 * c
  {
  }

  function Concat(xs: seq<Bytes>): Bytes {
    if xs == [] then [] else xs[0] + Concat(xs[1..])
  }

  lemma {:induction false} ConcatConcat(a: seq<Bytes>, b: seq<Bytes>)
    ensures Concat(a + b) == Concat(a) + Concat(b)
  {
    if a == [] {
      assert a + b == b;
    } else {
      assert (a + b)[1..] == a[1..] + b;
      ConcatConcat(a[1..], b);
    }
  }

  lemma ConcatAppend(xs: seq<Bytes>, x: Bytes)
    ensures Concat(xs + [x]) == Concat(xs) + x
  {
    ConcatConcat(xs, [x]);
    assert Concat([x]) == x + Concat([x][1..]);
  }
}
