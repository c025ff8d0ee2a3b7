/** Streaming a byte range of a file whose pieces are still coming in. */
module Streaming {
  import opened Binary

  // ---------------------------------------------------------------- bytes and pieces

  /** A file of a torrent: where it begins in the torrent's bytes, what it contains, and the piece length. */
  datatype File = File(offset: nat, data: Bytes, pieceLength: nat) {

    function Size(): nat { |data| }

    /** map_file; an empty file has its last byte before its first. */
    function PieceOf(b: int): int
      requires pieceLength > 0
    {
      (offset + b) / pieceLength
    }
  }

  function Max(a: int, b: int): int { if a >= b then a else b }

  function Min(a: int, b: int): int { if a <= b then a else b }

  /** bytes_to_pieces, as the first piece and the one behind the last; `known` is the length of the bit field. */
  function PiecesOf(f: File, known: nat, begin: int, end: int): (int, int)
    requires f.pieceLength > 0
  {
    var lastPiece := Min(f.PieceOf(f.Size() - 1), known - 1);
    (Max(f.PieceOf(Max(begin, 0)), f.PieceOf(0)), Min(f.PieceOf(Min(end, f.Size() - 1)), lastPiece) + 1)
  }

  /** What pieces_complete comes to: true, false, or an IndexError. */
  datatype Poll = Complete | NotYet | Raises

  /** The pieces are looked up one after another, until one is missing or lies behind the end of the bit field. */
  function PollFrom(have: seq<bool>, lo: int, hi: int): Poll
    requires lo >= 0
    decreases hi - lo
  {
    if lo >= hi then Complete
    else if lo >= |have| then Raises
    else if have[lo] then PollFrom(have, lo + 1, hi)
    else NotYet
  }

  predicate Shown(have: seq<bool>, p: nat) { p < |have| && have[p] }

  /** What each of the three means for the bit field. */
  lemma {:induction false} PollMeans(have: seq<bool>, lo: nat, hi: int)
    ensures PollFrom(have, lo, hi) == Complete <==> forall p: nat :: lo <= p < hi ==> Shown(have, p)
    ensures PollFrom(have, lo, hi) == Raises <==>
            lo < hi && |have| < hi && forall p: nat :: lo <= p < |have| ==> Shown(have, p)
    decreases hi - lo
  {
    if lo < hi && lo < |have| && have[lo] {
      PollMeans(have, lo + 1, hi);
      assert Shown(have, lo);
    } else if lo < hi {
      assert !Shown(have, lo);
    }
  }

  lemma ListedIsShown(have: seq<bool>, lo: nat, hi: int, p: nat)
    requires PollFrom(have, lo, hi) == Complete && lo <= p < hi
    ensures Shown(have, p)
  {
    PollMeans(have, lo, hi);
  }

  /** The first piece asked for is no piece before the torrent's first. */
  lemma FirstIsNatural(f: File, known: nat, begin: int, end: int)
    requires f.pieceLength > 0
    ensures PiecesOf(f, known, begin, end).0 >= 0
  {
    PieceIsNatural(f.offset, f.pieceLength);
  }

  /** pieces_complete for the list that a read at this position made when the bit field had length `known`. */
  function PollAt(f: File, known: nat, have: seq<bool>, position: nat): Poll
    requires f.pieceLength > 0
  {
    var (lo, hi) := PiecesOf(f, known, position, position + f.pieceLength);
    FirstIsNatural(f, known, position, position + f.pieceLength);
    PollFrom(have, lo, hi)
  }

  /** The list is made from this bit field, and is complete in it. */
  predicate ReadyAt(f: File, have: seq<bool>, position: nat)
    requires f.pieceLength > 0
  {
    PollAt(f, |have|, have, position) == Complete
  }

  /** The byte lies in a piece that is known to be complete. */
  predicate Available(f: File, have: seq<bool>, b: nat)
    requires f.pieceLength > 0
  {
    0 <= f.PieceOf(b) < |have| && have[f.PieceOf(b)]
  }

  /** Where a read at this position ends: a piece length further, or at the end of the file. */
  function ReadEnd(f: File, position: nat): nat
  {
    if position >= f.Size() then position else Min(position + f.pieceLength, f.Size())
  }

  lemma PieceOfIsMonotone(f: File, a: int, b: int)
    requires f.pieceLength > 0 && a <= b
    ensures f.PieceOf(a) <= f.PieceOf(b)
  {
    QuotientIsMonotone(f.offset + a, f.offset + b, f.pieceLength);
  }

  lemma QuotientIsMonotone(x: int, y: int, n: nat)
    requires n > 0 && x <= y
    ensures x / n <= y / n
  {
    var (p, q) := (x / n, y / n);
    if p > q {
      ProductsGrow(q + 1, p, n);
      assert false;
    }
  }

  lemma ProductsGrow(a: int, b: int, n: nat)
    requires a <= b
    ensures a * n <= b * n
  {
    assert (b - a) * n >= 0;
  }

  /** These are the bytes of the file from this position on. */
  predicate Stretch(f: File, position: nat, bytes: Bytes) {
    position + |bytes| <= f.Size() && bytes == f.data[position..position + |bytes|]
  }

  /** Two neighbouring stretches make one. */
  lemma Adjoin(f: File, position: nat, left: Bytes, right: Bytes)
    requires Stretch(f, position, left) && Stretch(f, position + |left|, right)
    ensures Stretch(f, position, left + right)
  {
  }

  /** The pieces asked for at a position take in the piece of every byte of the read that the bit field reaches. */
  lemma AskedFor(f: File, known: nat, position: nat, b: nat)
    requires f.pieceLength > 0 && position <= b < ReadEnd(f, position) && f.PieceOf(b) < known
    ensures var (lo, hi) := PiecesOf(f, known, position, position + f.pieceLength); lo <= f.PieceOf(b) < hi
    ensures f.PieceOf(b) >= 0
  {
    var end := Min(position + f.pieceLength, f.Size() - 1);
    PieceOfIsMonotone(f, position, b);
    PieceOfIsMonotone(f, 0, b);
    PieceOfIsMonotone(f, b, end);
    PieceOfIsMonotone(f, end, f.Size() - 1);
    PieceIsNatural(f.offset + b, f.pieceLength);
  }

  /** And no piece is asked for without need: each holds a byte of the read, or the byte just behind it. */
  lemma AskedForHolds(f: File, known: nat, position: nat, p: int) returns (b: nat)
    requires f.pieceLength > 0 && position < f.Size()
    requires var (lo, hi) := PiecesOf(f, known, position, position + f.pieceLength); lo <= p < hi
    ensures position <= b <= ReadEnd(f, position) && b < f.Size() && f.PieceOf(b) == p < known
  {
    var end := Min(position + f.pieceLength, f.Size() - 1);
    PieceOfIsMonotone(f, 0, position);
    if f.PieceOf(position) == p {
      b := position;
    } else {
      FirstOfPiece(f.offset + position, p, f.offset + end, f.pieceLength);
      b := p * f.pieceLength - f.offset;
      QuotientOfProduct(p, f.pieceLength);
    }
  }

  lemma FirstOfPiece(x: nat, p: int, y: nat, n: nat)
    requires n > 0 && x / n < p <= y / n
    ensures x < p * n <= y
  {
    ProductsGrow(x / n + 1, p, n);
    ProductsGrow(p, y / n, n);
  }

  lemma QuotientOfProduct(p: int, n: nat)
    requires n > 0
    ensures p * n / n == p
  {
    var x := p * n;
    QuotientIs(x, p, n);
  }

  lemma QuotientIs(x: int, p: int, n: nat)
    requires n > 0 && p * n <= x < p * n + n
    ensures x / n == p
  {
    var q := x / n;
    if q < p {
      ProductsGrow(q + 1, p, n);
      assert false;
    } else if q > p {
      ProductsGrow(p + 1, q, n);
      assert false;
    }
  }

  lemma PieceIsNatural(x: nat, n: nat)
    requires n > 0
    ensures x / n >= 0
  {
  }

  /**
   * Once the pieces asked for are complete, all bytes of the read lie in complete pieces exactly when the bit
   * field reaches the piece of the last of them: a shorter one makes the test pass too early.
   */
  lemma ReadIsSafeIff(f: File, have: seq<bool>, position: nat)
    requires f.pieceLength > 0 && position < f.Size()
    requires ReadyAt(f, have, position)
    ensures (forall b: nat :: position <= b < ReadEnd(f, position) ==> Available(f, have, b)) <==>
            f.PieceOf(ReadEnd(f, position) - 1) < |have|
  {
    var last := ReadEnd(f, position) - 1;
    if f.PieceOf(last) < |have| {
      forall b: nat | position <= b <= last
        ensures Available(f, have, b)
      {
        PieceOfIsMonotone(f, b, last);
        CompleteShows(f, |have|, have, position, b);
      }
    } else {
      assert position <= last && !Available(f, have, last);
    }
  }

  /** Where the list is complete, it shows every byte of the read whose piece the list could reach. */
  lemma CompleteShows(f: File, known: nat, have: seq<bool>, position: nat, b: nat)
    requires f.pieceLength > 0 && PollAt(f, known, have, position) == Complete
    requires position <= b < ReadEnd(f, position) && f.PieceOf(b) < known
    ensures Available(f, have, b)
  {
    var (lo, hi) := PiecesOf(f, known, position, position + f.pieceLength);
    FirstIsNatural(f, known, position, position + f.pieceLength);
    AskedFor(f, known, position, b);
    ListedIsShown(have, lo, hi, f.PieceOf(b));
  }

  /** A bit field that is still empty: a read is let through although no piece is known to be complete. */
  lemma EmptyFieldReadsEarly()
    ensures var f := File(0, [7], 1); ReadyAt(f, [], 0) && !Available(f, [], 0)
  {
  }

  // ---------------------------------------------------------------- the requested range

  /**
   * http_range of the request: no range, a start that counts from the end when negative, or a start and a
   * stop behind it.
   */
  datatype HttpRange = Whole | From(start: int) | Between(start: int, stop: int)

  datatype Plan = NotSatisfiable | Serve(start: nat, todo: nat)

  predicate WellFormed(range: HttpRange) {
    range.Between? ==> 0 <= range.start < range.stop
  }

  /** The range arithmetic of prepare. */
  method PlanRange(range: HttpRange, fileSize: nat) returns (plan: Plan)
    requires WellFormed(range)
    ensures plan == Planned(range, fileSize)
  {
    if range.Whole? {
      return Serve(0, fileSize);
    }
    var start: int := range.start;
    if start < 0 {
      start := start + fileSize;
      start := Max(start, 0);
    }
    var stop := Min(if range.Between? then range.stop else fileSize, fileSize);
    var todo := stop - start;
    if start >= fileSize {
      return NotSatisfiable;
    }
    plan := Serve(start, todo);
  }

  /** The bytes a range names, by position: a suffix of at most n bytes, or what lies between its ends. */
  predicate Named(range: HttpRange, fileSize: nat, b: nat) {
    && b < fileSize
    && match range
       case Whole => true
       case From(start) => if start < 0 then b >= fileSize + start else b >= start
       case Between(start, stop) => start <= b < stop
  }

  function Planned(range: HttpRange, fileSize: nat): Plan
    requires WellFormed(range)
  {
    match range
    case Whole => Serve(0, fileSize)
    case From(start) =>
      var first := if start < 0 then Max(fileSize + start, 0) else start;
      if first >= fileSize then NotSatisfiable else Serve(first, fileSize - first)
    case Between(start, stop) =>
      if start >= fileSize then NotSatisfiable else Serve(start, Min(stop, fileSize) - start)
  }

  /** What is served is what the range names; a request is refused only if it names nothing. */
  lemma PlanIsRange(range: HttpRange, fileSize: nat, b: nat)
    requires WellFormed(range)
    ensures var plan := Planned(range, fileSize);
            && (plan.Serve? ==> plan.start + plan.todo <= fileSize && (plan.todo == 0 ==> plan.start == fileSize))
            && (Named(range, fileSize, b) <==> plan.Serve? && plan.start <= b < plan.start + plan.todo)
  {
  }

  // ---------------------------------------------------------------- reading

  /**
   * What a call of read() meets: whether the reader's cursor is still registered with the stream, the length of
   * the bit field from which the list of its pieces is made, and the bit fields it sees while it waits for them.
   */
  datatype Encounter = Encounter(registered: bool, known: nat, polls: seq<seq<bool>>)

  datatype ReadResult = Data(bytes: Bytes) | StillWaiting | Raised

  /** What waiting for the pieces comes to, from the i-th bit field on. */
  function WaitFrom(f: File, e: Encounter, position: nat, i: nat): Poll
    requires f.pieceLength > 0 && i <= |e.polls|
    decreases |e.polls| - i
  {
    if i == |e.polls| then NotYet
    else
      var poll := PollAt(f, e.known, e.polls[i], position);
      if poll == NotYet then WaitFrom(f, e, position, i + 1) else poll
  }

  /** One of these bit fields, from the i-th on, is the first to be decided for the list, and ends before it does. */
  predicate RunsOut(f: File, e: Encounter, position: nat, i: nat)
    requires f.pieceLength > 0
  {
    exists k :: i <= k < |e.polls| && PollAt(f, e.known, e.polls[k], position) == Raises
      && forall j :: i <= j < k ==> PollAt(f, e.known, e.polls[j], position) == NotYet
  }

  /** Waiting raises an IndexError exactly then. */
  lemma {:induction false} WaitRaisesIff(f: File, e: Encounter, position: nat, i: nat)
    requires f.pieceLength > 0 && i <= |e.polls|
    ensures WaitFrom(f, e, position, i) == Raises <==> RunsOut(f, e, position, i)
    decreases |e.polls| - i
  {
    if i < |e.polls| && PollAt(f, e.known, e.polls[i], position) == NotYet {
      WaitRaisesIff(f, e, position, i + 1);
      RunsOutLater(f, e, position, i);
    } else if RunsOut(f, e, position, i) {
      var k :| i <= k < |e.polls| && PollAt(f, e.known, e.polls[k], position) == Raises
        && forall j :: i <= j < k ==> PollAt(f, e.known, e.polls[j], position) == NotYet;
      assert k == i;
    }
  }

  lemma RunsOutLater(f: File, e: Encounter, position: nat, i: nat)
    requires f.pieceLength > 0 && i < |e.polls| && PollAt(f, e.known, e.polls[i], position) == NotYet
    ensures RunsOut(f, e, position, i) <==> RunsOut(f, e, position, i + 1)
  {
    if RunsOut(f, e, position, i + 1) {
      var k :| i + 1 <= k < |e.polls| && PollAt(f, e.known, e.polls[k], position) == Raises
        && forall j :: i + 1 <= j < k ==> PollAt(f, e.known, e.polls[j], position) == NotYet;
      assert forall j :: i <= j < k ==> PollAt(f, e.known, e.polls[j], position) == NotYet;
    }
  }

  /** No bit field is shorter than the one the list was made from. */
  predicate KeepsLength(e: Encounter) {
    forall i :: 0 <= i < |e.polls| ==> e.known <= |e.polls[i]|
  }

  lemma LongFieldNeverRaises(f: File, known: nat, have: seq<bool>, position: nat)
    requires f.pieceLength > 0 && known <= |have|
    ensures PollAt(f, known, have, position) != Raises
  {
    var (lo, hi) := PiecesOf(f, known, position, position + f.pieceLength);
    FirstIsNatural(f, known, position, position + f.pieceLength);
    PollMeans(have, lo, hi);
  }

  /** Then waiting raises nothing. */
  lemma {:induction false} KeptLengthNeverRaises(f: File, e: Encounter, position: nat, i: nat)
    requires f.pieceLength > 0 && i <= |e.polls| && KeepsLength(e)
    ensures WaitFrom(f, e, position, i) != Raises
    decreases |e.polls| - i
  {
    if i < |e.polls| {
      LongFieldNeverRaises(f, e.known, e.polls[i], position);
      KeptLengthNeverRaises(f, e, position, i + 1);
    }
  }

  /** A bit field that becomes shorter while a read waits: the lookup runs behind its end. */
  lemma ShrinkingFieldRaises()
    ensures var (f, e) := (File(0, [7], 1), Encounter(true, 1, [[false], []]));
            !KeepsLength(e) && WaitFrom(f, e, 0, 0) == Raises
  {
    var (f, e) := (File(0, [7], 1), Encounter(true, 1, [[false], []]));
    assert PiecesOf(f, 1, 0, 1) == (0, 1);
    assert PollAt(f, 1, [false], 0) == NotYet && PollAt(f, 1, [], 0) == Raises;
    assert WaitFrom(f, e, 0, 1) == Raises;
  }

  /** The bit field from which the list is made covers the file. */
  predicate Covers(f: File, e: Encounter)
    requires f.pieceLength > 0
  {
    f.PieceOf(f.Size() - 1) < e.known
  }

  /** One of these bit fields knows the byte's piece as complete. */
  predicate SeenIn(f: File, polls: seq<seq<bool>>, b: nat)
    requires f.pieceLength > 0
  {
    exists j :: 0 <= j < |polls| && Available(f, polls[j], b)
  }

  /** The byte's piece was seen complete, unless the list could not reach it. */
  predicate Vouched(f: File, e: Encounter, b: nat)
    requires f.pieceLength > 0
  {
    f.PieceOf(b) < e.known ==> SeenIn(f, e.polls, b)
  }

  lemma CoveredIsSeen(f: File, e: Encounter, b: nat)
    requires f.pieceLength > 0 && Covers(f, e) && b < f.Size() && Vouched(f, e, b)
    ensures SeenIn(f, e.polls, b)
  {
    PieceOfIsMonotone(f, b, f.Size() - 1);
  }

  /** The byte's piece was seen complete in one of the first `count` encounters. */
  predicate Seen(f: File, encounters: seq<Encounter>, count: nat, b: nat)
    requires f.pieceLength > 0 && count <= |encounters|
  {
    exists k :: 0 <= k < count && SeenIn(f, encounters[k].polls, b)
  }

  predicate AllSeen(f: File, encounters: seq<Encounter>, count: nat, lo: nat, hi: nat)
    requires f.pieceLength > 0 && count <= |encounters|
  {
    forall b: nat :: lo <= b < hi ==> Seen(f, encounters, count, b)
  }

  /** Likewise for a byte that was vouched for in one of them. */
  predicate Passed(f: File, encounters: seq<Encounter>, count: nat, b: nat)
    requires f.pieceLength > 0 && count <= |encounters|
  {
    exists k :: 0 <= k < count && Vouched(f, encounters[k], b)
  }

  predicate AllPassed(f: File, encounters: seq<Encounter>, count: nat, lo: nat, hi: nat)
    requires f.pieceLength > 0 && count <= |encounters|
  {
    forall b: nat :: lo <= b < hi ==> Passed(f, encounters, count, b)
  }

  /** What one more encounter vouches for is added. */
  lemma PassedGrows(f: File, encounters: seq<Encounter>, count: nat, more: nat, lo: nat, mid: nat, hi: nat)
    requires f.pieceLength > 0 && more == count + 1 <= |encounters|
    requires AllPassed(f, encounters, count, lo, mid)
    requires forall b: nat :: mid <= b < hi ==> Vouched(f, encounters[count], b)
    ensures AllPassed(f, encounters, more, lo, hi)
  {
    forall b: nat | lo <= b < hi
      ensures Passed(f, encounters, more, b)
    {
      if b < mid {
        assert Passed(f, encounters, count, b);
      } else {
        assert Vouched(f, encounters[count], b);
      }
    }
  }

  /** Where every bit field covers the file, every byte that passed was seen complete. */
  lemma PassedIsSeen(f: File, encounters: seq<Encounter>, count: nat, lo: nat, hi: nat)
    requires f.pieceLength > 0 && count <= |encounters| && hi <= f.Size()
    requires AllCover(f, encounters) && AllPassed(f, encounters, count, lo, hi)
    ensures AllSeen(f, encounters, count, lo, hi)
  {
    forall b: nat | lo <= b < hi
      ensures Seen(f, encounters, count, b)
    {
      assert Passed(f, encounters, count, b);
      var k :| 0 <= k < count && Vouched(f, encounters[k], b);
      CoveredIsSeen(f, encounters[k], b);
    }
  }

  /** A read that is let through is vouched for by the bit field that let it through. */
  lemma CompleteVouches(f: File, e: Encounter, i: nat, position: nat, b: nat)
    requires f.pieceLength > 0 && i < |e.polls| && PollAt(f, e.known, e.polls[i], position) == Complete
    requires position <= b < ReadEnd(f, position)
    ensures Vouched(f, e, b)
  {
    if f.PieceOf(b) < e.known {
      CompleteShows(f, e.known, e.polls[i], position, b);
    }
  }

  class StreamReader {
    const startOffset: nat
    var seekOffset: nat

    constructor (startOffset: nat)
      ensures this.startOffset == startOffset && seekOffset == startOffset
    {
      this.startOffset, seekOffset := startOffset, startOffset;
    }

    /** read(): nothing for a superseded reader; else wait for the pieces, then read on from the position. */
    method Read(f: File, e: Encounter) returns (r: ReadResult)
      requires f.pieceLength > 0 && seekOffset <= f.Size()
      modifies this
      ensures !e.registered ==> r == Data([])
      ensures e.registered ==> var wait := WaitFrom(f, e, old(seekOffset), 0);
        (r.Data? <==> wait == Complete) && (r.StillWaiting? <==> wait == NotYet) && (r.Raised? <==> wait == Raises)
      ensures seekOffset == if e.registered && r.Data? then ReadEnd(f, old(seekOffset)) else old(seekOffset)
      ensures e.registered && r.Data? ==>
        && r.bytes == f.data[old(seekOffset)..seekOffset]
        && (forall b: nat :: old(seekOffset) <= b < seekOffset ==> Vouched(f, e, b))
        && (Covers(f, e) ==> forall b: nat :: old(seekOffset) <= b < seekOffset ==> SeenIn(f, e.polls, b))
    {
      if !e.registered {
        return Data([]);
      }
      var i := 0;
      while i < |e.polls| && PollAt(f, e.known, e.polls[i], seekOffset) == NotYet
        invariant 0 <= i <= |e.polls|
        invariant WaitFrom(f, e, seekOffset, 0) == WaitFrom(f, e, seekOffset, i)
      {
        i := i + 1;
      }
      if i == |e.polls| {
        return StillWaiting;
      }
      if PollAt(f, e.known, e.polls[i], seekOffset) == Raises {
        return Raised;
      }
      var end := ReadEnd(f, seekOffset);
      forall b: nat | seekOffset <= b < end
        ensures Vouched(f, e, b)
        ensures Covers(f, e) ==> SeenIn(f, e.polls, b)
      {
        CompleteVouches(f, e, i, seekOffset, b);
        if Covers(f, e) {
          CoveredIsSeen(f, e, b);
        }
      }
      r := Data(f.data[seekOffset..end]);
      seekOffset := end;
    }
  }

  // ---------------------------------------------------------------- the write loop

  /** How serving ended: the loop was left, it broke off, or the history of encounters ends while it goes on. */
  datatype Outcome = Closed | Broken | Open

  /** No read found its reader superseded by another one. */
  predicate AllRegistered(encounters: seq<Encounter>) {
    forall i :: 0 <= i < |encounters| ==> encounters[i].registered
  }

  predicate AllCover(f: File, encounters: seq<Encounter>)
    requires f.pieceLength > 0
  {
    forall i :: 0 <= i < |encounters| ==> Covers(f, encounters[i])
  }

  predicate AllKeepLength(encounters: seq<Encounter>) {
    forall i :: 0 <= i < |encounters| ==> KeepsLength(encounters[i])
  }

  /** One read of the loop of prepare: how it ended, how much it brought, and the part of it that is written. */
  method ReadPart(reader: StreamReader, f: File, e: Encounter, left: nat)
      returns (poll: Poll, read: nat, part: Bytes)
    requires f.pieceLength > 0 && reader.seekOffset + left <= f.Size()
    modifies reader
    ensures poll == if e.registered then WaitFrom(f, e, old(reader.seekOffset), 0) else Complete
    ensures poll != Complete ==> reader.seekOffset == old(reader.seekOffset)
    ensures poll == Complete ==>
      && reader.seekOffset == old(reader.seekOffset) + read <= f.Size()
      && |part| == Min(read, left)
      && Stretch(f, old(reader.seekOffset), part)
      && (forall b: nat :: old(reader.seekOffset) <= b < old(reader.seekOffset) + |part| ==> Vouched(f, e, b))
      && (e.registered && read == 0 ==> left == 0)
  {
    var r := reader.Read(f, e);
    match r
    case StillWaiting => return NotYet, 0, [];
    case Raised => return Raises, 0, [];
    case Data(bytes) =>
      poll, read := Complete, |bytes|;
      part := if read <= left then bytes else bytes[..left];
  }

  /**
   * The loop of prepare, for any history of encounters. What is written is always a beginning of the range, made
   * of bytes that were vouched for, and so of complete pieces where the bit fields cover the file; a closed
   * response that no other reader superseded is all of it; it breaks off exactly where waiting raises, which needs
   * a bit field that becomes shorter; and all reads but the last bring something, so that the loop ends whatever
   * the history.
   */
  method ServeRange(f: File, start: nat, todo: nat, encounters: seq<Encounter>)
      returns (outcome: Outcome, written: Bytes, count: nat)
    requires f.pieceLength > 0
    requires start + todo <= f.Size() && (todo == 0 ==> start == f.Size())
    ensures count <= |encounters|
    ensures |written| <= todo && Stretch(f, start, written)
    ensures AllPassed(f, encounters, count, start, start + |written|)
    ensures AllCover(f, encounters) ==> AllSeen(f, encounters, count, start, start + |written|)
    ensures outcome.Closed? && AllRegistered(encounters[..count]) ==> |written| == todo
    ensures !outcome.Closed? ==> |written| < todo || todo == 0
    ensures outcome.Broken? ==>
      && count < |encounters| && encounters[count].registered
      && WaitFrom(f, encounters[count], start + |written|, 0) == Raises
    ensures outcome.Open? && count < |encounters| ==>
      encounters[count].registered && WaitFrom(f, encounters[count], start + |written|, 0) == NotYet
    ensures AllKeepLength(encounters) ==> !outcome.Broken?
    ensures count <= todo + 1
  {
    var reader := new StreamReader(start);
    written := [];
    count := 0;
    outcome := Open;
    var left: nat := todo;
    while count < |encounters|
      invariant fresh(reader) && outcome == Open
      invariant count <= |encounters| && left == todo - |written|
      invariant reader.seekOffset == start + |written| <= f.Size()
      invariant Stretch(f, start, written)
      invariant AllPassed(f, encounters, count, start, start + |written|)
      invariant todo > 0 ==> left > 0
      invariant count <= |written|
    {
      ghost var position := reader.seekOffset;
      var poll, read, part := ReadPart(reader, f, encounters[count], left);
      if poll == NotYet {
        break;
      }
      if poll == Raises {
        outcome := Broken;
        break;
      }
      PassedGrows(f, encounters, count, count + 1, start, position, position + |part|);
      Adjoin(f, start, written, part);
      count := count + 1;
      written := written + part;
      if read == 0 || left <= read {
        outcome := Closed;
        break;
      }
      left := left - read;
    }
    if AllCover(f, encounters) {
      PassedIsSeen(f, encounters, count, start, start + |written|);
    }
    if AllKeepLength(encounters) && count < |encounters| {
      KeptLengthNeverRaises(f, encounters[count], start + |written|, 0);
    }
  }

  /**
   * A request from its range to its last byte: what is written are the first of the bytes that the range names,
   * in order, each vouched for by a bit field, and all of them when the response is closed by a reader
   * that was never superseded; with bit fields that never become shorter it does not break off.
   */
  method Prepare(f: File, range: HttpRange, encounters: seq<Encounter>)
      returns (plan: Plan, outcome: Outcome, written: Bytes, count: nat)
    requires f.pieceLength > 0 && WellFormed(range)
    ensures plan.NotSatisfiable? ==> written == [] && forall b: nat :: !Named(range, f.Size(), b)
    ensures plan.Serve? ==> plan.start + |written| <= f.Size()
    ensures plan.Serve? ==> written == f.data[plan.start..plan.start + |written|]
    ensures plan.Serve? ==> forall b: nat :: plan.start <= b < plan.start + |written| ==> Named(range, f.Size(), b)
    ensures count <= |encounters|
    ensures plan.Serve? ==> AllPassed(f, encounters, count, plan.start, plan.start + |written|)
    ensures plan.Serve? && AllCover(f, encounters) ==>
              AllSeen(f, encounters, count, plan.start, plan.start + |written|)
    ensures plan.Serve? && outcome.Closed? && AllRegistered(encounters[..count]) ==>
              forall b: nat :: Named(range, f.Size(), b) ==> plan.start <= b < plan.start + |written|
    ensures outcome.Broken? ==> plan.Serve? && !AllKeepLength(encounters)
  {
    plan := PlanRange(range, f.Size());
    forall b: nat {
      PlanIsRange(range, f.Size(), b);
    }
    if plan.NotSatisfiable? {
      return plan, Closed, [], 0;
    }
    PlanIsRange(range, f.Size(), plan.start);
    outcome, written, count := ServeRange(f, plan.start, plan.todo, encounters);
  }
}
