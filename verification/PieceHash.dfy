/** The BEP 52 hash of a piece: block hashes, padded with zero hashes, joined pairwise until one is left. */
module PieceHash {
  import opened Binary
  import opened Outcomes

  const BLOCK_SIZE: nat := 16384

  /** The digest of a block, the digest of two digests joined, and the digest that stands for a missing block. */
  datatype Hasher<!D> = Hasher(block: Bytes -> D, join: (D, D) -> D, zero: D)

  predicate PowerOfTwo(n: nat) {
    n == 1 || (n > 1 && n % 2 == 0 && PowerOfTwo(n / 2))
  }

  // ---------------------------------------------------------------- two ways to the root

  /** One round of the loop: neighbours are joined, and an odd one at the end is dropped. */
  function Paired<D>(h: Hasher<D>, hashes: seq<D>): (r: seq<D>)
    ensures |r| == |hashes| / 2
  {
    if |hashes| < 2 then [] else [h.join(hashes[0], hashes[1])] + Paired(h, hashes[2..])
  }

  /** The rounds; no hashes at all end in an IndexError. */
  function Rounds<D>(h: Hasher<D>, hashes: seq<D>): Option<D>
    decreases |hashes|
  {
    if hashes == [] then None else if |hashes| == 1 then Some(hashes[0]) else Rounds(h, Paired(h, hashes))
  }

  /** The root of the perfect binary tree over these leaves. */
  function MerkleRoot<D>(h: Hasher<D>, leaves: seq<D>): D
    requires PowerOfTwo(|leaves|)
  {
    if |leaves| == 1 then leaves[0]
    else
      var half := |leaves| / 2;
      h.join(MerkleRoot(h, leaves[..half]), MerkleRoot(h, leaves[half..]))
  }

  /** One round: zip over two copies of the same iterator. */
  method PairUp<D>(h: Hasher<D>, hashes: seq<D>) returns (next: seq<D>)
    ensures next == Paired(h, hashes)
  {
    next := [];
    var i := 0;
    assert hashes[0..] == hashes;
    while i + 1 < |hashes|
      invariant 0 <= i <= |hashes|
      invariant next + Paired(h, hashes[i..]) == Paired(h, hashes)
    {
      assert hashes[i..][2..] == hashes[i + 2..];
      next := next + [h.join(hashes[i], hashes[i + 1])];
      i := i + 2;
    }
  }

  method PairingLoop<D>(h: Hasher<D>, leaves: seq<D>) returns (root: Option<D>)
    ensures root == Rounds(h, leaves)
  {
    var hashes := leaves;
    while |hashes| > 1
      invariant Rounds(h, hashes) == Rounds(h, leaves)
      decreases |hashes|
    {
      hashes := PairUp(h, hashes);
    }
    root := if |hashes| == 0 then None else Some(hashes[0]);
  }

  lemma {:induction false} PairedConcat<D>(h: Hasher<D>, a: seq<D>, b: seq<D>)
    requires |a| % 2 == 0
    ensures Paired(h, a + b) == Paired(h, a) + Paired(h, b)
  {
    if a == [] {
      assert a + b == b;
    } else {
      assert (a + b)[2..] == a[2..] + b;
      PairedConcat(h, a[2..], b);
    }
  }

  lemma {:induction false} RootOfPaired<D>(h: Hasher<D>, leaves: seq<D>)
    requires PowerOfTwo(|leaves|) && |leaves| > 1
    ensures PowerOfTwo(|Paired(h, leaves)|)
    ensures MerkleRoot(h, Paired(h, leaves)) == MerkleRoot(h, leaves)
    decreases |leaves|
  {
    var half := |leaves| / 2;
    var (l, r) := (leaves[..half], leaves[half..]);
    if half == 1 {
      assert Paired(h, leaves) == [h.join(leaves[0], leaves[1])];
    } else {
      assert leaves == l + r;
      PairedConcat(h, l, r);
      RootOfPaired(h, l);
      RootOfPaired(h, r);
      var p := Paired(h, leaves);
      assert p[..|p| / 2] == Paired(h, l) && p[|p| / 2..] == Paired(h, r);
    }
  }

  /** For a power of two of leaves, the loop ends with the root of the perfect tree. */
  lemma {:induction false} RoundsAreMerkleRoot<D>(h: Hasher<D>, leaves: seq<D>)
    requires PowerOfTwo(|leaves|)
    ensures Rounds(h, leaves) == Some(MerkleRoot(h, leaves))
    decreases |leaves|
  {
    if |leaves| > 1 {
      RootOfPaired(h, leaves);
      RoundsAreMerkleRoot(h, Paired(h, leaves));
    }
  }

  // ---------------------------------------------------------------- what the root determines

  ghost predicate Injective<D(!new)>(h: Hasher<D>) {
    forall a: D, b: D, c: D, d: D {:trigger h.join(a, b), h.join(c, d)} :: h.join(a, b) == h.join(c, d) ==> a == c && b == d
  }

  /** Without collisions, equal roots of equally many leaves mean equal leaves. */
  lemma {:induction false} RootDeterminesLeaves<D(!new)>(h: Hasher<D>, a: seq<D>, b: seq<D>)
    requires Injective(h) && |a| == |b| && PowerOfTwo(|a|)
    requires MerkleRoot(h, a) == MerkleRoot(h, b)
    ensures a == b
    decreases |a|
  {
    if |a| > 1 {
      var half := |a| / 2;
      RootDeterminesLeaves(h, a[..half], b[..half]);
      RootDeterminesLeaves(h, a[half..], b[half..]);
      assert a == a[..half] + a[half..] && b == b[..half] + b[half..];
    }
  }

  // ---------------------------------------------------------------- roots of roots

  function Flat<D>(groups: seq<seq<D>>): seq<D> {
    if groups == [] then [] else groups[0] + Flat(groups[1..])
  }

  predicate Uniform<D>(groups: seq<seq<D>>, size: nat) {
    PowerOfTwo(size) && forall i :: 0 <= i < |groups| ==> |groups[i]| == size
  }

  function Roots<D>(h: Hasher<D>, groups: seq<seq<D>>, size: nat): (rs: seq<D>)
    requires Uniform(groups, size)
    ensures |rs| == |groups|
    ensures forall i :: 0 <= i < |rs| ==> rs[i] == MerkleRoot(h, groups[i])
  {
    seq(|groups|, i requires 0 <= i < |groups| => MerkleRoot(h, groups[i]))
  }

  lemma {:induction false} FlatConcat<D>(a: seq<seq<D>>, b: seq<seq<D>>)
    ensures Flat(a + b) == Flat(a) + Flat(b)
  {
    if a == [] {
      assert a + b == b;
    } else {
      assert (a + b)[1..] == a[1..] + b;
      FlatConcat(a[1..], b);
    }
  }

  lemma {:induction false} FlatLength<D>(groups: seq<seq<D>>, size: nat)
    requires Uniform(groups, size)
    ensures |Flat(groups)| == |groups| * size
  {
    if groups != [] {
      FlatLength(groups[1..], size);
    }
  }

  lemma {:induction false} PowersMultiply(m: nat, n: nat)
    requires PowerOfTwo(m) && PowerOfTwo(n)
    ensures PowerOfTwo(m * n)
  {
    if m > 1 {
      PowersMultiply(m / 2, n);
      assert m * n == 2 * (m / 2 * n);
      assert m * n / 2 == m / 2 * n;
    }
  }

  /** The root over the blocks of several pieces is the root over the hashes of the pieces. */
  lemma {:induction false} RootOfPieces<D>(h: Hasher<D>, pieces: seq<seq<D>>, size: nat)
    requires Uniform(pieces, size) && PowerOfTwo(|pieces|)
    ensures PowerOfTwo(|Flat(pieces)|)
    ensures MerkleRoot(h, Flat(pieces)) == MerkleRoot(h, Roots(h, pieces, size))
    decreases |pieces|
  {
    FlatLength(pieces, size);
    PowersMultiply(|pieces|, size);
    if |pieces| == 1 {
      assert Flat(pieces) == pieces[0] + Flat(pieces[1..]);
      assert Flat(pieces) == pieces[0];
    } else {
      var half := |pieces| / 2;
      var (l, r) := (pieces[..half], pieces[half..]);
      RootOfPieces(h, l, size);
      RootOfPieces(h, r, size);
      FlatHalves(pieces, size);
      RootHalves(h, pieces, size);
    }
  }

  lemma FlatHalves<D>(pieces: seq<seq<D>>, size: nat)
    requires Uniform(pieces, size) && |pieces| % 2 == 0 && |pieces| > 1 && size > 0
    ensures var (half, flat) := (|pieces| / 2, Flat(pieces));
            && |flat| > 1
            && flat[..|flat| / 2] == Flat(pieces[..half]) && flat[|flat| / 2..] == Flat(pieces[half..])
  {
    var half := |pieces| / 2;
    FlatSplit(pieces, half, size);
  }

  lemma FlatSplit<D>(pieces: seq<seq<D>>, half: nat, size: nat)
    requires Uniform(pieces, size) && |pieces| == half + half && half > 0 && size > 0
    ensures var flat := Flat(pieces);
            |flat| > 1 && flat[..|flat| / 2] == Flat(pieces[..half]) && flat[|flat| / 2..] == Flat(pieces[half..])
  {
    assert pieces == pieces[..half] + pieces[half..];
    FlatJoin(pieces[..half], pieces[half..], size);
  }

  lemma FlatJoin<D>(l: seq<seq<D>>, r: seq<seq<D>>, size: nat)
    requires Uniform(l, size) && Uniform(r, size) && |l| == |r| > 0 && size > 0
    ensures var flat := Flat(l + r);
            |flat| > 1 && flat[..|flat| / 2] == Flat(l) && flat[|flat| / 2..] == Flat(r)
  {
    FlatConcat(l, r);
    FlatsMatch(l, r, size);
    Halves(Flat(l), Flat(r));
  }

  lemma FlatsMatch<D>(l: seq<seq<D>>, r: seq<seq<D>>, size: nat)
    requires Uniform(l, size) && Uniform(r, size) && |l| == |r| > 0 && size > 0
    ensures |Flat(l)| == |Flat(r)| > 0
  {
    FlatLength(l, size);
    FlatLength(r, size);
    Positive(|l|, size);
  }

  lemma Positive(m: nat, n: nat)
    requires m > 0 && n > 0
    ensures m * n > 0
  {
  }

  lemma Halves<D>(l: seq<D>, r: seq<D>)
    requires |l| == |r|
    ensures (l + r)[..|l + r| / 2] == l && (l + r)[|l + r| / 2..] == r
  {
  }

  lemma RootHalves<D>(h: Hasher<D>, pieces: seq<seq<D>>, size: nat)
    requires Uniform(pieces, size) && |pieces| % 2 == 0 && size > 0
    ensures var half := |pieces| / 2;
            && Roots(h, pieces, size)[..half] == Roots(h, pieces[..half], size)
            && Roots(h, pieces, size)[half..] == Roots(h, pieces[half..], size)
  {
  }

  // ---------------------------------------------------------------- the pieces of a file

  /** Where a file's pieces begin, its size, and the piece length of the torrent. */
  datatype FileLayout = FileLayout(startPiece: nat, size: nat, pieceLength: nat)

  function CeilDiv(a: nat, b: nat): nat
    requires b > 0
  {
    a / b + if a % b > 0 then 1 else 0
  }

  /** _get_piece_range_from_file_idx, as the piece behind the last one. */
  function PieceEnd(f: FileLayout): nat
    requires f.pieceLength > 0
  {
    f.startPiece + CeilDiv(f.size, f.pieceLength)
  }

  predicate InRange(f: FileLayout, piece: nat)
    requires f.pieceLength > 0
  {
    f.startPiece <= piece < PieceEnd(f)
  }

  /** The bytes of the file in a piece. */
  function TrueLength(f: FileLayout, piece: nat): nat
    requires f.pieceLength > 0 && InRange(f, piece)
  {
    var begin := (piece - f.startPiece) * f.pieceLength;
    if begin + f.pieceLength <= f.size then f.pieceLength else if begin <= f.size then f.size - begin else 0
  }

  /** Every piece of the range holds at least one byte, and only the last can be short. */
  lemma PieceLengths(f: FileLayout, piece: nat)
    requires f.pieceLength > 0 && InRange(f, piece)
    ensures TrueLength(f, piece) > 0
    ensures piece < PieceEnd(f) - 1 ==> TrueLength(f, piece) == f.pieceLength
    ensures piece == PieceEnd(f) - 1 ==>
      TrueLength(f, piece) == if f.size % f.pieceLength == 0 then f.pieceLength else f.size % f.pieceLength
  {
    var (k, n, q) := (piece - f.startPiece, f.pieceLength, f.size / f.pieceLength);
    assert f.size == q * n + f.size % n;
    if k < q {
      assert (k + 1) * n <= q * n;
      assert k * n + n == (k + 1) * n;
    } else {
      assert k == q;
    }
  }

  // ---------------------------------------------------------------- get_v2_piece_hash

  function BlockHashes<D>(h: Hasher<D>, data: Bytes, blocks: nat): (hs: seq<D>)
    ensures |hs| == blocks
    ensures forall i :: 0 <= i < blocks ==> hs[i] == h.block(Slice(data, i * BLOCK_SIZE, (i + 1) * BLOCK_SIZE))
  {
    seq(blocks, i requires 0 <= i < blocks => h.block(Slice(data, i * BLOCK_SIZE, (i + 1) * BLOCK_SIZE)))
  }

  /** The hashes of these blocks, with zero hashes up to the number of blocks of a whole piece. */
  function Leaves<D>(h: Hasher<D>, data: Bytes, blocks: nat, maxBlocks: nat): (ls: seq<D>)
    ensures |ls| == if blocks <= maxBlocks then maxBlocks else blocks
  {
    BlockHashes(h, data, blocks) + seq(if blocks <= maxBlocks then maxBlocks - blocks else 0, _ => h.zero)
  }

  function PieceLeaves<D>(h: Hasher<D>, f: FileLayout, piece: nat, buffer: Bytes): seq<D>
    requires f.pieceLength > 0 && InRange(f, piece)
  {
    var maxBlocks := |buffer| / BLOCK_SIZE;
    if piece == PieceEnd(f) - 1 then
      var remainder := f.size % f.pieceLength;
      Leaves(h, Slice(buffer, 0, remainder), CeilDiv(remainder, BLOCK_SIZE), maxBlocks)
    else Leaves(h, buffer, maxBlocks, maxBlocks)
  }

  lemma BlocksRoundUp(n: nat, blocks: nat)
    requires blocks == n / BLOCK_SIZE + if n / BLOCK_SIZE * BLOCK_SIZE < n then 1 else 0
    ensures blocks == CeilDiv(n, BLOCK_SIZE)
  {
  }

  method GetV2PieceHash<D>(h: Hasher<D>, f: FileLayout, piece: nat, buffer: Bytes) returns (r: Option<D>)
    requires f.pieceLength > 0 && InRange(f, piece)
    ensures r == Rounds(h, PieceLeaves(h, f, piece, buffer))
  {
    var maxBlocks := |buffer| / BLOCK_SIZE;
    var pieceBuffer := buffer;
    var actualBlocks := maxBlocks;
    if piece == PieceEnd(f) - 1 {
      var lenRemainder := f.size % f.pieceLength;
      pieceBuffer := Slice(buffer, 0, lenRemainder);
      actualBlocks := lenRemainder / BLOCK_SIZE;
      if actualBlocks * BLOCK_SIZE < lenRemainder {
        actualBlocks := actualBlocks + 1;
      }
      BlocksRoundUp(lenRemainder, actualBlocks);
    }
    var hashes := Leaves(h, pieceBuffer, actualBlocks, maxBlocks);
    r := PairingLoop(h, hashes);
  }

  /** The digest of one block of these bytes, and the zero digest for a block behind their end. */
  function BlockDigest<D>(h: Hasher<D>, data: Bytes, k: nat): D {
    if k * BLOCK_SIZE >= |data| then h.zero
    else if (k + 1) * BLOCK_SIZE <= |data| then h.block(data[k * BLOCK_SIZE..(k + 1) * BLOCK_SIZE])
    else h.block(data[k * BLOCK_SIZE..])
  }

  /** The tree of BEP 52 over `count` blocks from block `k` on: its left half stands for the earlier blocks. */
  function BlockRoot<D>(h: Hasher<D>, data: Bytes, k: nat, count: nat): D
    requires PowerOfTwo(count)
    decreases count
  {
    if count == 1 then BlockDigest(h, data, k)
    else h.join(BlockRoot(h, data, k, count / 2), BlockRoot(h, data, k + count / 2, count / 2))
  }

  /** What BEP 52 asks for: the tree over the bytes of the file in the piece, as wide as a whole piece. */
  function ExpectedHash<D>(h: Hasher<D>, f: FileLayout, piece: nat, buffer: Bytes): D
    requires f.pieceLength > 0 && InRange(f, piece) && TrueLength(f, piece) <= |buffer|
    requires f.pieceLength % BLOCK_SIZE == 0 && PowerOfTwo(f.pieceLength / BLOCK_SIZE)
  {
    BlockRoot(h, buffer[..TrueLength(f, piece)], 0, f.pieceLength / BLOCK_SIZE)
  }

  lemma LeafIsDigest<D>(h: Hasher<D>, data: Bytes, maxBlocks: nat, i: nat)
    requires i < maxBlocks && CeilDiv(|data|, BLOCK_SIZE) <= maxBlocks
    ensures Leaves(h, data, CeilDiv(|data|, BLOCK_SIZE), maxBlocks)[i] == BlockDigest(h, data, i)
  {
    var blocks := CeilDiv(|data|, BLOCK_SIZE);
    LastBlock(|data|, i);
    if i < blocks {
      assert Leaves(h, data, blocks, maxBlocks)[i] == BlockHashes(h, data, blocks)[i];
      SliceIsBlock(data, i * BLOCK_SIZE, (i + 1) * BLOCK_SIZE);
    }
  }

  lemma SliceIsBlock(data: Bytes, lo: nat, hi: nat)
    requires lo < |data| && lo < hi
    ensures Slice(data, lo, hi) == if hi <= |data| then data[lo..hi] else data[lo..]
  {
  }

  lemma LastBlock(n: nat, i: nat)
    ensures i < CeilDiv(n, BLOCK_SIZE) <==> i * BLOCK_SIZE < n
  {
  }

  lemma {:induction false} RootOfLeaves<D>(h: Hasher<D>, data: Bytes, leaves: seq<D>, k: nat, count: nat)
    requires PowerOfTwo(count) && k + count <= |leaves|
    requires forall i :: 0 <= i < |leaves| ==> leaves[i] == BlockDigest(h, data, i)
    ensures MerkleRoot(h, leaves[k..k + count]) == BlockRoot(h, data, k, count)
    decreases count
  {
    if count > 1 {
      var (part, half) := (leaves[k..k + count], count / 2);
      assert part[..half] == leaves[k..k + half] && part[half..] == leaves[k + half..k + half + half];
      RootOfLeaves(h, data, leaves, k, half);
      RootOfLeaves(h, data, leaves, k + half, half);
    }
  }

  /** The tree over the digests of all blocks, with zero digests up to the width of a piece, is that tree. */
  lemma ExpectedIsRootOfLeaves<D>(h: Hasher<D>, f: FileLayout, piece: nat, buffer: Bytes)
    requires f.pieceLength > 0 && InRange(f, piece) && TrueLength(f, piece) <= |buffer|
    requires f.pieceLength % BLOCK_SIZE == 0 && PowerOfTwo(f.pieceLength / BLOCK_SIZE)
    ensures var n := TrueLength(f, piece);
            && CeilDiv(n, BLOCK_SIZE) <= f.pieceLength / BLOCK_SIZE
            && ExpectedHash(h, f, piece, buffer) ==
               MerkleRoot(h, Leaves(h, buffer[..n], CeilDiv(n, BLOCK_SIZE), f.pieceLength / BLOCK_SIZE))
  {
    var (n, width) := (TrueLength(f, piece), f.pieceLength / BLOCK_SIZE);
    PieceLengths(f, piece);
    BlocksFit(n, f.pieceLength);
    var leaves := Leaves(h, buffer[..n], CeilDiv(n, BLOCK_SIZE), width);
    forall i | 0 <= i < |leaves|
      ensures leaves[i] == BlockDigest(h, buffer[..n], i)
    {
      LeafIsDigest(h, buffer[..n], width, i);
    }
    RootOfLeaves(h, buffer[..n], leaves, 0, width);
    assert leaves[0..0 + width] == leaves;
  }

  /** Hashing never gives the padding value for a block, and has no collisions among joined digests. */
  ghost predicate Distinguishes<D(!new)>(h: Hasher<D>) {
    Injective(h) && forall data: Bytes :: h.block(data) != h.zero
  }

  lemma LeavesOfPiece<D>(h: Hasher<D>, f: FileLayout, piece: nat, buffer: Bytes)
    requires f.pieceLength > 0 && InRange(f, piece) && f.pieceLength == |buffer| && f.pieceLength % BLOCK_SIZE == 0
    requires piece < PieceEnd(f) - 1 || f.size % f.pieceLength != 0
    ensures TrueLength(f, piece) <= |buffer|
    ensures PieceLeaves(h, f, piece, buffer) ==
            Leaves(h, buffer[..TrueLength(f, piece)], CeilDiv(TrueLength(f, piece), BLOCK_SIZE), |buffer| / BLOCK_SIZE)
  {
    PieceLengths(f, piece);
    var n := TrueLength(f, piece);
    assert Slice(buffer, 0, n) == buffer[..n];
    assert buffer[..|buffer|] == buffer;
  }

  /**
   * The hash is that of BEP 52 for every piece but one kind: the last piece of a file that fills it exactly,
   * where no block at all is counted.
   */
  lemma PieceHashIsExpectedIff<D(!new)>(h: Hasher<D>, f: FileLayout, piece: nat, buffer: Bytes)
    requires f.pieceLength > 0 && InRange(f, piece)
    requires f.pieceLength == |buffer| && f.pieceLength % BLOCK_SIZE == 0 && PowerOfTwo(f.pieceLength / BLOCK_SIZE)
    requires Distinguishes(h)
    ensures TrueLength(f, piece) <= |buffer|
    ensures Rounds(h, PieceLeaves(h, f, piece, buffer)) == Some(ExpectedHash(h, f, piece, buffer)) <==>
            piece < PieceEnd(f) - 1 || f.size % f.pieceLength != 0
  {
    var n := TrueLength(f, piece);
    PieceLengths(f, piece);
    var maxBlocks := f.pieceLength / BLOCK_SIZE;
    BlocksFit(n, f.pieceLength);
    ExpectedIsRootOfLeaves(h, f, piece, buffer);
    var expected := Leaves(h, buffer[..n], CeilDiv(n, BLOCK_SIZE), maxBlocks);
    if piece < PieceEnd(f) - 1 || f.size % f.pieceLength != 0 {
      LeavesOfPiece(h, f, piece, buffer);
      RoundsAreMerkleRoot(h, expected);
    } else {
      var leaves := PieceLeaves(h, f, piece, buffer);
      assert leaves[0] == h.zero;
      assert expected[0] != h.zero;
      RoundsAreMerkleRoot(h, leaves);
      if MerkleRoot(h, leaves) == MerkleRoot(h, expected) {
        RootDeterminesLeaves(h, leaves, expected);
      }
    }
  }

  // ---------------------------------------------------------------- a buffer shorter than a piece

  /** The largest power of two that is not above n. */
  function LargestPower(n: nat): (p: nat)
    requires n > 0
    ensures PowerOfTwo(p) && p <= n
  {
    if n == 1 then 1 else 2 * LargestPower(n / 2)
  }

  lemma PairedPrefix<D>(h: Hasher<D>, leaves: seq<D>, m: nat)
    requires 2 * m <= |leaves|
    ensures Paired(h, leaves)[..m] == Paired(h, leaves[..2 * m])
  {
    var (front, back) := (leaves[..2 * m], leaves[2 * m..]);
    TwoParts(leaves, 2 * m);
    PairedConcat(h, front, back);
    assert |Paired(h, front)| == m;
  }

  lemma TwoParts<D>(s: seq<D>, k: nat)
    requires k <= |s|
    ensures s == s[..k] + s[k..]
  {
  }

  /** For any number of leaves, the loop ends with the root over the largest power of two of them. */
  lemma {:induction false} RoundsDropTail<D>(h: Hasher<D>, leaves: seq<D>)
    requires leaves != []
    ensures Rounds(h, leaves) == Some(MerkleRoot(h, leaves[..LargestPower(|leaves|)]))
    decreases |leaves|
  {
    var n := |leaves|;
    if n == 1 {
      assert leaves[..1] == leaves;
    } else {
      var m := LargestPower(n / 2);
      RoundsDropTail(h, Paired(h, leaves));
      PairedPrefix(h, leaves, m);
      RootOfPaired(h, leaves[..2 * m]);
    }
  }

  /** Joined digests are told apart from those of blocks and of missing blocks. */
  ghost predicate JoinsApart<D(!new)>(h: Hasher<D>) {
    && (forall a: D, b: D :: h.join(a, b) != h.zero)
    && (forall a: D, b: D, data: Bytes {:trigger h.join(a, b), h.block(data)} :: h.join(a, b) != h.block(data))
  }

  /** Digests that remember what they were made of. */
  datatype Tree = Missing | Block(data: Bytes) | Join(left: Tree, right: Tree)

  const TREES := Hasher(data => Block(data), (a, b) => Join(a, b), Missing)

  /** Such digests collide nowhere, so the conditions on hashers can be met. */
  lemma TreesNeverCollide()
    ensures Distinguishes(TREES) && JoinsApart(TREES)
  {
  }

  ghost predicate NoJoin<D(!new)>(h: Hasher<D>, x: D) {
    forall a: D, b: D :: h.join(a, b) != x
  }

  /** Trees of different heights have different roots. */
  lemma {:induction false} HeightsDiffer<D(!new)>(h: Hasher<D>, a: seq<D>, b: seq<D>)
    requires Injective(h) && forall i :: 0 <= i < |a| ==> NoJoin(h, a[i])
    requires PowerOfTwo(|a|) && PowerOfTwo(|b|) && |a| < |b|
    ensures MerkleRoot(h, a) != MerkleRoot(h, b)
    decreases |a|
  {
    if |a| == 1 {
      assert NoJoin(h, a[0]);
    } else {
      HeightsDiffer(h, a[..|a| / 2], b[..|b| / 2]);
    }
  }

  lemma LeavesAreNoJoins<D(!new)>(h: Hasher<D>, data: Bytes, blocks: nat, maxBlocks: nat)
    requires JoinsApart(h)
    ensures forall i :: 0 <= i < |Leaves(h, data, blocks, maxBlocks)| ==> NoJoin(h, Leaves(h, data, blocks, maxBlocks)[i])
  {
    var leaves := Leaves(h, data, blocks, maxBlocks);
    forall i | 0 <= i < |leaves|
      ensures NoJoin(h, leaves[i])
    {
      assert i < blocks ==> leaves[i] == BlockHashes(h, data, blocks)[i];
    }
  }

  /**
   * For the last piece of a file in a buffer that is shorter than a piece, the padding goes only as far as the
   * buffer: the hash is that of BEP 52 exactly when the bytes of the file reach into the last block of the piece.
   */
  lemma ShortBufferIsExpectedIff<D(!new)>(h: Hasher<D>, f: FileLayout, piece: nat, buffer: Bytes)
    requires f.pieceLength > 0 && InRange(f, piece)
    requires TrueLength(f, piece) <= |buffer| < f.pieceLength
    requires f.pieceLength % BLOCK_SIZE == 0 && PowerOfTwo(f.pieceLength / BLOCK_SIZE)
    requires Injective(h) && JoinsApart(h)
    ensures Rounds(h, PieceLeaves(h, f, piece, buffer)) == Some(ExpectedHash(h, f, piece, buffer)) <==>
            CeilDiv(TrueLength(f, piece), BLOCK_SIZE) == f.pieceLength / BLOCK_SIZE
  {
    PieceLengths(f, piece);
    var (n, whole) := (TrueLength(f, piece), f.pieceLength / BLOCK_SIZE);
    var (blocks, reach) := (CeilDiv(n, BLOCK_SIZE), |buffer| / BLOCK_SIZE);
    assert Slice(buffer, 0, n) == buffer[..n];
    var leaves := Leaves(h, buffer[..n], blocks, reach);
    var expected := Leaves(h, buffer[..n], blocks, whole);
    BlocksFit(n, f.pieceLength);
    BufferEndsEarly(|buffer|, f.pieceLength);
    ExpectedIsRootOfLeaves(h, f, piece, buffer);
    assert PieceLeaves(h, f, piece, buffer) == leaves && ExpectedHash(h, f, piece, buffer) == MerkleRoot(h, expected);
    if blocks == whole {
      assert leaves == expected;
      RoundsAreMerkleRoot(h, leaves);
    } else {
      RoundsDropTail(h, leaves);
      LeavesAreNoJoins(h, buffer[..n], blocks, reach);
      HeightsDiffer(h, leaves[..LargestPower(|leaves|)], expected);
    }
  }

  /** One byte in a torrent with pieces of two blocks: the digest of the missing block is left out. */
  lemma OneByteIsNotPadded<D>(h: Hasher<D>)
    ensures var f := FileLayout(0, 1, 2 * BLOCK_SIZE);
            && Rounds(h, PieceLeaves(h, f, 0, [7])) == Some(h.block([7]))
            && ExpectedHash(h, f, 0, [7]) == h.join(h.block([7]), h.zero)
  {
    var f := FileLayout(0, 1, 2 * BLOCK_SIZE);
    var data: Bytes := [7];
    assert data[..1] == data && Slice(data, 0, 1) == data && Slice(data, 0, BLOCK_SIZE) == data;
    assert PieceLeaves(h, f, 0, data) == [h.block(data)];
    assert Leaves(h, data, 1, 2) == [h.block(data), h.zero];
    assert TrueLength(f, 0) == 1 && CeilDiv(1, BLOCK_SIZE) == 1 && f.pieceLength / BLOCK_SIZE == 2;
    ExpectedIsRootOfLeaves(h, f, 0, data);
    assert ExpectedHash(h, f, 0, data) == MerkleRoot(h, [h.block(data), h.zero]);
    RootOfTwo(h, h.block(data), h.zero);
  }

  lemma RootOfTwo<D>(h: Hasher<D>, a: D, b: D)
    ensures MerkleRoot(h, [a, b]) == h.join(a, b)
  {
    assert [a, b][..1] == [a] && [a, b][1..] == [b];
  }

  lemma BufferEndsEarly(length: nat, pieceLength: nat)
    requires length < pieceLength && pieceLength % BLOCK_SIZE == 0
    ensures length / BLOCK_SIZE < pieceLength / BLOCK_SIZE
  {
  }

  /** A file of one full block in one full piece: the hash is the padding value, whatever the block holds. */
  lemma FullLastPieceHashesToZero<D>(h: Hasher<D>, block: Bytes)
    requires |block| == BLOCK_SIZE
    ensures var f := FileLayout(0, BLOCK_SIZE, BLOCK_SIZE);
            Rounds(h, PieceLeaves(h, f, 0, block)) == Some(h.zero) && ExpectedHash(h, f, 0, block) == h.block(block)
  {
    var f := FileLayout(0, BLOCK_SIZE, BLOCK_SIZE);
    assert PieceLeaves(h, f, 0, block) == [h.zero];
    assert block[..TrueLength(f, 0)] == block && Slice(block, 0, BLOCK_SIZE) == block;
    assert Leaves(h, block, 1, 1) == [h.block(block)];
    ExpectedIsRootOfLeaves(h, f, 0, block);
  }

  lemma BlocksFit(n: nat, pieceLength: nat)
    requires 0 < n <= pieceLength && pieceLength % BLOCK_SIZE == 0
    ensures 0 < CeilDiv(n, BLOCK_SIZE) <= pieceLength / BLOCK_SIZE
  {
  }
}
