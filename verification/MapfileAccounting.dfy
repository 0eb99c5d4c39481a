/** Integrity checking and byte accounting of mapfiles, and what a merge does to them. */
module MapfileAccounting {
  import opened Basics
  import opened MapfileMerge
  import opened MapfileAlgebra

  // ---------- validate_integrity ----------

  datatype Issue =
    | NonPositiveSize(index: nat, size: int)
    | Overlap(index: nat, pos: int, lastEnd: int)
    | Gap(index: nat, pos: int, lastEnd: int)

  function PreviousEnd(bs: seq<Block>, i: nat): int
    requires i < |bs|
  {
    if i == 0 then 0 else bs[i - 1].End()
  }

  /** The complaints about one block; a gap in front of the first block is not one. */
  function IssuesOf(bs: seq<Block>, i: nat): seq<Issue>
    requires i < |bs|
  {
    var b, lastEnd := bs[i], PreviousEnd(bs, i);
    (if b.size <= 0 then [NonPositiveSize(i, b.size)] else [])
    + (if b.pos < lastEnd then [Overlap(i, b.pos, lastEnd)]
       else if b.pos > lastEnd && i > 0 then [Gap(i, b.pos, lastEnd)]
       else [])
  }

  function IssuesUpTo(bs: seq<Block>, n: nat): seq<Issue>
    requires n <= |bs|
  {
    if n == 0 then [] else IssuesUpTo(bs, n - 1) + IssuesOf(bs, n - 1)
  }

  /** Positive blocks, each starting where its predecessor ends, the first at a non-negative offset. */
  predicate Clean(bs: seq<Block>) {
    && (bs != [] ==> 0 <= bs[0].pos)
    && (forall i :: 0 <= i < |bs| ==> bs[i].size > 0)
    && (forall i :: 0 < i < |bs| ==> bs[i].pos == bs[i - 1].End())
  }

  predicate Tiles(bs: seq<Block>, lo: int, hi: int) {
    Clean(bs) && if bs == [] then lo == hi else bs[0].pos == lo && bs[|bs| - 1].End() == hi
  }

  method ValidateIntegrity(m: Mapfile) returns (issues: seq<Issue>)
    ensures issues == IssuesUpTo(m.blocks, |m.blocks|)
    ensures issues == [] <==> Clean(m.blocks)
  {
    issues := [];
    if m.blocks == [] {
      return;
    }
    var lastEnd := 0;
    for i := 0 to |m.blocks|
      invariant lastEnd == if i == 0 then 0 else m.blocks[i - 1].End()
      invariant issues == IssuesUpTo(m.blocks, i)
    {
      var b := m.blocks[i];
      var found: seq<Issue> := [];
      if b.size <= 0 {
        found := found + [NonPositiveSize(i, b.size)];
      }
      if b.pos < lastEnd {
        found := found + [Overlap(i, b.pos, lastEnd)];
      } else if b.pos > lastEnd && i > 0 {
        found := found + [Gap(i, b.pos, lastEnd)];
      }
      issues := issues + found;
      lastEnd := b.End();
    }
    NoIssuesIffClean(m.blocks, |m.blocks|);
    assert m.blocks[..|m.blocks|] == m.blocks;
  }

  lemma {:induction false} NoIssuesIffClean(bs: seq<Block>, n: nat)
    requires n <= |bs|
    ensures IssuesUpTo(bs, n) == [] <==> Clean(bs[..n])
    decreases n
  {
    if n > 0 {
      NoIssuesIffClean(bs, n - 1);
      CleanSnoc(bs, n - 1);
    }
  }

  lemma CleanSnoc(bs: seq<Block>, i: nat)
    requires i < |bs|
    ensures Clean(bs[..i + 1]) <==> Clean(bs[..i]) && IssuesOf(bs, i) == []
  {
    var shorter, longer := bs[..i], bs[..i + 1];
    assert longer[i] == bs[i] && forall k :: 0 <= k < i ==> longer[k] == shorter[k] == bs[k];
  }

  lemma {:induction false} IssuesAre(bs: seq<Block>, n: nat, x: Issue)
    requires n <= |bs|
    ensures x in IssuesUpTo(bs, n) <==> exists i: nat :: i < n && x in IssuesOf(bs, i)
    decreases n
  {
    if n > 0 { IssuesAre(bs, n - 1, x); }
  }

  /** Which issues are reported, for every block list: sizes that are not positive, blocks that start before the
      previous one ends (the first one: before 0), and blocks but the first that start behind that end. */
  lemma IssuesMean(bs: seq<Block>, i: nat)
    requires i < |bs|
    ensures var end := if i == 0 then 0 else bs[i - 1].pos + bs[i - 1].size;
      var issues := IssuesUpTo(bs, |bs|);
      && (NonPositiveSize(i, bs[i].size) in issues <==> bs[i].size <= 0)
      && (Overlap(i, bs[i].pos, end) in issues <==> bs[i].pos < end)
      && (Gap(i, bs[i].pos, end) in issues <==> i > 0 && bs[i].pos > end)
  {
    var end := PreviousEnd(bs, i);
    hide IssuesOf, IssuesUpTo;
    ReportedOf(bs, i, NonPositiveSize(i, bs[i].size));
    ReportedOf(bs, i, Overlap(i, bs[i].pos, end));
    ReportedOf(bs, i, Gap(i, bs[i].pos, end));
    IssuesOfMean(bs, i);
  }

  lemma IssuesOfMean(bs: seq<Block>, i: nat)
    requires i < |bs|
    ensures var end := PreviousEnd(bs, i);
      && (NonPositiveSize(i, bs[i].size) in IssuesOf(bs, i) <==> bs[i].size <= 0)
      && (Overlap(i, bs[i].pos, end) in IssuesOf(bs, i) <==> bs[i].pos < end)
      && (Gap(i, bs[i].pos, end) in IssuesOf(bs, i) <==> i > 0 && bs[i].pos > end)
  {}

  /** Every issue names its block, so one about block `i` comes from there. */
  lemma ReportedOf(bs: seq<Block>, i: nat, x: Issue)
    requires i < |bs| && x.index == i
    ensures x in IssuesUpTo(bs, |bs|) <==> x in IssuesOf(bs, i)
  {
    IssuesAre(bs, |bs|, x);
    hide IssuesUpTo;
    forall j: nat | j < |bs| && x in IssuesOf(bs, j) ensures j == i {
      assert forall y <- IssuesOf(bs, j) :: y.index == j;
    }
  }

  lemma CanonicalIsClean(bs: seq<Block>, lo: int, hi: int)
    requires Canonical(bs, lo, hi) && 0 <= lo
    ensures Tiles(bs, lo, hi)
  {}

  /** The integrity check has nothing to say about a merge. */
  lemma MergeIsClean(a: Mapfile, b: Mapfile)
    requires NonNegative(a.blocks) && NonNegative(b.blocks)
    ensures Tiles(Merged(a, b).blocks, 0, Max(TotalSize(a.blocks), TotalSize(b.blocks)))
  {
    MergeIsPointwiseWinner(a, b);
    CanonicalIsClean(Merged(a, b).blocks, 0, Max(TotalSize(a.blocks), TotalSize(b.blocks)));
  }

  // ---------- create_initial ----------

  /** Cuts [0, totalSize) into untried blocks of `blockSize`, the last one possibly shorter. */
  method CreateInitial(totalSize: int, blockSize: int) returns (m: Mapfile)
    requires totalSize > 0 ==> blockSize > 0
    ensures m == Mapfile(0, NonTried, 1, m.blocks)
    ensures Tiles(m.blocks, 0, Max(totalSize, 0))
    ensures forall b <- m.blocks :: b.status == NonTried
    ensures forall i :: 0 <= i < |m.blocks| - 1 ==> m.blocks[i].size == blockSize
    ensures m.blocks != [] ==> m.blocks[|m.blocks| - 1].size <= blockSize
  {
    if totalSize <= 0 {
      return EMPTY_MAPFILE;
    }
    var blocks: seq<Block> := [];
    var pos := 0;
    while pos < totalSize
      invariant pos <= totalSize && Tiles(blocks, 0, pos)
      invariant forall b <- blocks :: b.status == NonTried && b.size <= blockSize
      invariant forall i :: 0 <= i < |blocks| ==> blocks[i].size == blockSize || (pos == totalSize && i == |blocks| - 1)
    {
      var size := if blockSize <= totalSize - pos then blockSize else totalSize - pos;
      blocks := blocks + [Block(pos, size, NonTried)];
      pos := pos + size;
    }
    assert blocks[|blocks| - 1] in blocks;
    return Mapfile(0, NonTried, 1, blocks);
  }

  // ---------- Byte counts ----------

  function SumOfSizes(bs: seq<Block>): int {
    if bs == [] then 0 else bs[0].size + SumOfSizes(bs[1..])
  }

  function CountedBytes(bs: seq<Block>): int {
    BytesOf(bs, NonTried) + BytesOf(bs, NonTrimmed) + BytesOf(bs, NonScraped)
    + BytesOf(bs, BadSector) + BytesOf(bs, Finished)
  }

  lemma {:induction false} CountsArePartition(bs: seq<Block>)
    ensures CountedBytes(bs) == SumOfSizes(bs)
  {
    if bs != [] { CountsArePartition(bs[1..]); }
  }

  lemma {:induction false} TilesExtent(bs: seq<Block>, lo: int, hi: int)
    requires Tiles(bs, lo, hi)
    ensures SumOfSizes(bs) == hi - lo && lo <= hi && NonNegative(bs)
    ensures bs != [] ==> TotalSize(bs) == hi && 0 <= lo < hi
    decreases |bs|
  {
    if |bs| == 1 {
      assert bs[1..] == [];
    } else if |bs| > 1 {
      TilesExtent(bs[1..], bs[0].End(), hi);
      assert forall b <- bs :: b == bs[0] || b in bs[1..];
    }
  }

  /** A mapfile the integrity check accepts accounts for every byte behind its first block's position. */
  lemma CleanCountsEveryByte(bs: seq<Block>)
    requires Clean(bs) && bs != []
    ensures CountedBytes(bs) == TotalSize(bs) - bs[0].pos
  {
    CountsArePartition(bs);
    TilesExtent(bs, bs[0].pos, bs[|bs| - 1].End());
  }

  // ---------- Byte counts as sets of offsets ----------

  predicate Covers(b: Block, o: int) { b.pos <= o < b.End() }

  ghost predicate NonOverlapping(bs: seq<Block>) {
    forall i, j, o :: 0 <= i < j < |bs| && Covers(bs[i], o) ==> !Covers(bs[j], o)
  }

  function Interval(lo: int, hi: int): (r: set<int>)
    ensures forall o :: o in r <==> lo <= o < hi
    ensures lo <= hi ==> |r| == hi - lo
    decreases hi - lo
  {
    if hi <= lo then {} else Interval(lo, hi - 1) + {hi - 1}
  }

  /** The offsets that some block of status `s` covers. */
  function Offsets(bs: seq<Block>, s: Status): set<int> {
    if bs == [] then {}
    else (if bs[0].status == s then Interval(bs[0].pos, bs[0].End()) else {}) + Offsets(bs[1..], s)
  }

  lemma {:induction false} OffsetsCovered(bs: seq<Block>, s: Status, o: int)
    ensures o in Offsets(bs, s) <==> exists b <- bs :: b.status == s && Covers(b, o)
  {
    if bs != [] {
      OffsetsCovered(bs[1..], s, o);
      if b :| b in bs && b.status == s && Covers(b, o) {
        assert b == bs[0] || b in bs[1..];
      }
      if b :| b in bs[1..] && b.status == s && Covers(b, o) {
        assert b in bs;
      }
    }
  }

  lemma NonOverlappingTail(bs: seq<Block>)
    requires NonOverlapping(bs) && bs != []
    ensures NonOverlapping(bs[1..])
    ensures forall b <- bs[1..], o :: Covers(bs[0], o) ==> !Covers(b, o)
  {
    forall i, j, o | 0 <= i < j < |bs[1..]| && Covers(bs[1..][i], o) ensures !Covers(bs[1..][j], o) {
      assert Covers(bs[i + 1], o);
    }
    forall b, o | b in bs[1..] && Covers(bs[0], o) ensures !Covers(b, o) {
      var j :| 0 <= j < |bs[1..]| && bs[1..][j] == b;
      assert bs[j + 1] == b;
    }
  }

  /** The blocks of status `s` are pairwise disjoint, whatever the others do. */
  ghost predicate DisjointIn(bs: seq<Block>, s: Status) {
    forall i, j, o :: 0 <= i < j < |bs| && bs[i].status == s && bs[j].status == s && Covers(bs[i], o) ==>
      !Covers(bs[j], o)
  }

  lemma TailIsDisjoint(bs: seq<Block>, s: Status)
    requires bs != [] && DisjointIn(bs, s)
    ensures DisjointIn(bs[1..], s) && (bs[0].status == s ==> Interval(bs[0].pos, bs[0].End()) !! Offsets(bs[1..], s))
  {
    var tail := bs[1..];
    forall i, j, o | 0 <= i < j < |tail| && tail[i].status == s && tail[j].status == s && Covers(tail[i], o)
      ensures !Covers(tail[j], o)
    {
      assert Covers(bs[i + 1], o);
    }
    forall o | o in Interval(bs[0].pos, bs[0].End()) && bs[0].status == s ensures o !in Offsets(tail, s) {
      OffsetsCovered(tail, s, o);
      hide Offsets;
      forall c <- tail ensures !(c.status == s && Covers(c, o)) {
        var j :| 0 <= j < |tail| && tail[j] == c;
        assert Covers(bs[0], o) && bs[j + 1] == c;
      }
    }
  }

  lemma DisjointFromTail(bs: seq<Block>, s: Status)
    requires bs != [] && DisjointIn(bs[1..], s)
    requires bs[0].status == s ==> Interval(bs[0].pos, bs[0].End()) !! Offsets(bs[1..], s)
    ensures DisjointIn(bs, s)
  {
    hide Offsets;
    var tail := bs[1..];
    forall i, j, o | 0 <= i < j < |bs| && bs[i].status == s && bs[j].status == s && Covers(bs[i], o)
      ensures !Covers(bs[j], o)
    {
      if i == 0 {
        OffsetsCovered(tail, s, o);
        assert o in Interval(bs[0].pos, bs[0].End()) && bs[j] in tail;
      } else {
        assert Covers(tail[i - 1], o) && tail[j - 1] == bs[j];
      }
    }
  }

  lemma DisjointInTail(bs: seq<Block>, s: Status)
    requires bs != []
    ensures DisjointIn(bs, s) <==>
      DisjointIn(bs[1..], s) && (bs[0].status == s ==> Interval(bs[0].pos, bs[0].End()) !! Offsets(bs[1..], s))
  {
    hide DisjointIn, Offsets, Interval;
    if DisjointIn(bs, s) { TailIsDisjoint(bs, s); }
    if DisjointIn(bs[1..], s) && (bs[0].status == s ==> Interval(bs[0].pos, bs[0].End()) !! Offsets(bs[1..], s)) {
      DisjointFromTail(bs, s);
    }
  }

  lemma UnionSize(x: set<int>, y: set<int>)
    ensures |x + y| <= |x| + |y|
    ensures |x + y| == |x| + |y| <==> x !! y
  {
    assert x + y == x + (y - x) && y == (y - x) + x * y;
    assert |x + y| == |x| + |y - x| && |y| == |y - x| + |x * y|;
  }

  /** A byte count never falls below the number of offsets its blocks cover, and equals it exactly when the blocks
      of that status are pairwise disjoint; overlaps between different statuses do not matter. */
  lemma {:induction false} BytesAreOffsetsIff(bs: seq<Block>, s: Status)
    requires NonNegative(bs)
    ensures |Offsets(bs, s)| <= BytesOf(bs, s)
    ensures |Offsets(bs, s)| == BytesOf(bs, s) <==> DisjointIn(bs, s)
  {
    if bs != [] {
      forall b <- bs[1..] ensures b in bs {}
      assert bs[0] in bs;
      BytesAreOffsetsIff(bs[1..], s);
      DisjointInTail(bs, s);
      UnionSize(Interval(bs[0].pos, bs[0].End()), Offsets(bs[1..], s));
    }
  }

  /** In particular, without any overlaps byte counts are numbers of offsets. */
  lemma BytesAreOffsets(bs: seq<Block>, s: Status)
    requires NonNegative(bs) && NonOverlapping(bs)
    ensures BytesOf(bs, s) == |Offsets(bs, s)|
  {
    assert DisjointIn(bs, s);
    BytesAreOffsetsIff(bs, s);
  }

  /** Without overlaps, covering is what `StatusAt` reports, for every status but the default one. */
  lemma {:induction false} OffsetsAreStatus(bs: seq<Block>, s: Status, o: int)
    requires NonOverlapping(bs) && s != NonTried
    ensures o in Offsets(bs, s) <==> StatusAt(bs, o) == s
  {
    if bs != [] {
      NonOverlappingTail(bs);
      OffsetsAreStatus(bs[1..], s, o);
      if Covers(bs[0], o) {
        OffsetsCovered(bs[1..], s, o);
      }
    }
  }

  lemma {:induction false} CanonicalStarts(bs: seq<Block>, lo: int, hi: int, i: nat, j: nat)
    requires Canonical(bs, lo, hi) && i < j < |bs|
    ensures bs[i].End() <= bs[j].pos
    decreases j
  {
    if i + 1 < j { CanonicalStarts(bs, lo, hi, i, j - 1); }
  }

  lemma CanonicalDoesNotOverlap(bs: seq<Block>, lo: int, hi: int)
    requires Canonical(bs, lo, hi)
    ensures NonOverlapping(bs)
  {
    forall i, j, o | 0 <= i < j < |bs| && Covers(bs[i], o) ensures !Covers(bs[j], o) {
      CanonicalStarts(bs, lo, hi, i, j);
    }
  }

  /** In a tiling the blocks of a status cover exactly the offsets of the range with that status. */
  lemma {:induction false} CanonicalOffsets(bs: seq<Block>, lo: int, hi: int, s: Status, o: int)
    requires Canonical(bs, lo, hi)
    ensures lo <= hi && (o in Offsets(bs, s) <==> lo <= o < hi && StatusAt(bs, o) == s)
  {
    if bs != [] { CanonicalOffsets(bs[1..], bs[0].End(), hi, s, o); }
  }

  /** The offsets of [0, hi) that a map gives this status. */
  function WithStatus(bs: seq<Block>, s: Status, hi: int): set<int> {
    set o | 0 <= o < hi && StatusAt(bs, o) == s
  }

  /** The offsets whose winner has this status. */
  function Winning(a: seq<Block>, b: seq<Block>, s: Status): set<int> {
    set o | 0 <= o < Max(TotalSize(a), TotalSize(b)) && Winner(StatusAt(a, o), StatusAt(b, o)) == s
  }

  lemma WinningBytes(m: seq<Block>, a: seq<Block>, b: seq<Block>, s: Status)
    requires IsMergeOf(m, a, b)
    ensures BytesOf(m, s) == |Winning(a, b, s)|
  {
    var tot := Max(TotalSize(a), TotalSize(b));
    CanonicalDoesNotOverlap(m, 0, tot);
    BytesAreOffsets(m, s);
    forall o ensures o in Offsets(m, s) <==> o in Winning(a, b, s) {
      CanonicalOffsets(m, 0, tot, s, o);
    }
    assert Offsets(m, s) == Winning(a, b, s);
  }

  /** Each byte count of a merge is the number of offsets whose winner has that status, whatever overlaps and gaps
      its arguments have. */
  lemma MergedBytes(a: Mapfile, b: Mapfile, s: Status)
    requires NonNegative(a.blocks) && NonNegative(b.blocks)
    ensures BytesOf(Merged(a, b).blocks, s) == |Winning(a.blocks, b.blocks, s)|
  {
    MergeIsPointwiseWinner(a, b);
    WinningBytes(Merged(a, b).blocks, a.blocks, b.blocks, s);
  }

  /** So the merge counts a byte as rescued exactly when either pass rescued it, and as bad exactly when some pass
      found it bad and none rescued it. */
  lemma MergedRescuedBytes(a: Mapfile, b: Mapfile)
    requires NonNegative(a.blocks) && NonNegative(b.blocks)
    ensures var tot := Max(TotalSize(a.blocks), TotalSize(b.blocks));
      var rescued := WithStatus(a.blocks, Finished, tot) + WithStatus(b.blocks, Finished, tot);
      var bad := WithStatus(a.blocks, BadSector, tot) + WithStatus(b.blocks, BadSector, tot);
      && BytesOf(Merged(a, b).blocks, Finished) == |rescued|
      && BytesOf(Merged(a, b).blocks, BadSector) == |bad - rescued|
  {
    MergedBytes(a, b, Finished);
    MergedBytes(a, b, BadSector);
    WinnersAre(a.blocks, b.blocks);
  }

  lemma WinnersAre(a: seq<Block>, b: seq<Block>)
    ensures var tot := Max(TotalSize(a), TotalSize(b));
      var rescued := WithStatus(a, Finished, tot) + WithStatus(b, Finished, tot);
      && Winning(a, b, Finished) == rescued
      && Winning(a, b, BadSector) == WithStatus(a, BadSector, tot) + WithStatus(b, BadSector, tot) - rescued
  {}

  // ---------- Completeness ----------

  predicate Settled(s: Status) { s == Finished || s == BadSector }

  lemma {:induction false} NoBytesOf(bs: seq<Block>, s: Status)
    requires NonNegative(bs)
    ensures 0 <= BytesOf(bs, s)
    ensures BytesOf(bs, s) == 0 <==> forall b <- bs :: b.status == s ==> b.size == 0
  {
    if bs != [] {
      forall b <- bs[1..] ensures b in bs {}
      NoBytesOf(bs[1..], s);
      assert bs[0] in bs && forall b <- bs :: b == bs[0] || b in bs[1..];
    }
  }

  /** `is_complete` means that no non-empty block is left to try, trim or scrape. */
  lemma CompleteBlocks(bs: seq<Block>)
    requires NonNegative(bs)
    ensures IsComplete(bs) <==> forall b <- bs :: Settled(b.status) || b.size == 0
  {
    NoBytesOf(bs, NonTried);
    NoBytesOf(bs, NonTrimmed);
    NoBytesOf(bs, NonScraped);
  }

  /** Nothing of the map is left to read: every block with extent is rescued or known bad. */
  predicate NothingLeft(bs: seq<Block>) {
    forall b <- bs :: b.size > 0 ==> b.status == Finished || b.status == BadSector
  }

  /** What a merge of maps with extent records besides its blocks. */
  lemma MergedHeaderMeans(a: Mapfile, b: Mapfile)
    requires NonNegative(a.blocks) && NonNegative(b.blocks) && TotalSize(Merged(a, b).blocks) > 0
    ensures var m := Merged(a, b);
      && m.currentPos >= a.currentPos && m.currentPos >= b.currentPos && m.currentPos in {a.currentPos, b.currentPos}
      && m.currentPass >= a.currentPass && m.currentPass >= b.currentPass
      && m.currentPass in {a.currentPass, b.currentPass}
      && m.currentStatus == if NothingLeft(a.blocks) || NothingLeft(b.blocks) then Finished else NonTried
  {
    MergedHeader(a, b);
    CompleteBlocks(a.blocks);
    CompleteBlocks(b.blocks);
  }

  ghost predicate AllSettled(bs: seq<Block>, tot: int) {
    forall o :: 0 <= o < tot ==> Settled(StatusAt(bs, o))
  }

  predicate SettledByEither(a: seq<Block>, b: seq<Block>, o: int) {
    Settled(StatusAt(a, o)) || Settled(StatusAt(b, o))
  }

  lemma CanonicalCompleteness(m: seq<Block>, tot: int)
    requires Canonical(m, 0, tot) && NonNegative(m)
    ensures IsComplete(m) <==> AllSettled(m, tot)
  {
    CompleteBlocks(m);
    if IsComplete(m) {
      forall o | 0 <= o < tot ensures Settled(StatusAt(m, o)) {
        var i := BlockCovering(m, 0, tot, o);
        StatusInCanonical(m, 0, tot, i, o);
        assert m[i] in m;
      }
    }
    if AllSettled(m, tot) {
      forall c <- m ensures Settled(c.status) {
        var i :| 0 <= i < |m| && m[i] == c;
        StatusInCanonical(m, 0, tot, i, c.pos);
        assert 0 <= c.pos < tot && Settled(StatusAt(m, c.pos));
      }
    }
  }

  /** A merge is complete exactly when every offset of the medium is settled by one of its arguments. */
  lemma MergeCompleteness(a: Mapfile, b: Mapfile)
    requires NonNegative(a.blocks) && NonNegative(b.blocks)
    ensures IsComplete(Merged(a, b).blocks) <==>
      forall o :: 0 <= o < Max(TotalSize(a.blocks), TotalSize(b.blocks))
            ==> SettledByEither(a.blocks, b.blocks, o)
  {
    MergeIsPointwiseWinner(a, b);
    WinnerSettled(Merged(a, b).blocks, a.blocks, b.blocks);
  }

  lemma WinnerSettled(m: seq<Block>, a: seq<Block>, b: seq<Block>)
    requires IsMergeOf(m, a, b)
    ensures IsComplete(m) <==> forall o :: 0 <= o < Max(TotalSize(a), TotalSize(b)) ==> SettledByEither(a, b, o)
  {
    var tot := TotalSize(m);
    CanonicalCompleteness(m, tot);
    if AllSettled(m, tot) {
      forall o | 0 <= o < tot ensures SettledByEither(a, b, o) {
        assert Settled(StatusAt(m, o));
      }
    } else {
      var o :| 0 <= o < tot && !Settled(StatusAt(m, o));
      assert !SettledByEither(a, b, o);
    }
  }

  lemma {:induction false} TilingStatus(bs: seq<Block>, lo: int, hi: int, o: int) returns (b: Block)
    requires Tiles(bs, lo, hi) && lo <= o < hi
    ensures b in bs && StatusAt(bs, o) == b.status
    decreases |bs|
  {
    b := bs[0];
    if bs[0].End() <= o {
      b := TilingStatus(bs[1..], bs[0].End(), hi, o);
    }
  }

  /** When both maps tile the same medium and one is complete, so is the merge. */
  lemma CompleteTilingCompletesMerge(a: Mapfile, b: Mapfile, tot: int)
    requires Tiles(a.blocks, 0, tot) && Tiles(b.blocks, 0, tot)
    requires IsComplete(a.blocks) || IsComplete(b.blocks)
    ensures IsComplete(Merged(a, b).blocks)
  {
    TilesExtent(a.blocks, 0, tot);
    TilesExtent(b.blocks, 0, tot);
    MergeCompleteness(a, b);
    var c := if IsComplete(a.blocks) then a.blocks else b.blocks;
    CompleteBlocks(c);
    forall o | 0 <= o < tot ensures Settled(StatusAt(c, o)) {
      var d := TilingStatus(c, 0, tot, o);
    }
  }

  /** Is every offset of the merged medium settled by one of the two maps? */
  ghost predicate SettledTogether(a: seq<Block>, b: seq<Block>) {
    forall o :: 0 <= o < Max(TotalSize(a), TotalSize(b)) ==> SettledByEither(a, b, o)
  }

  /** The blocks of a merge associate; its `current_status` does so exactly when both bracketings find a complete
      argument, or neither does: `Finished` is written as soon as either argument is complete. */
  lemma StatusAssociatesIff(a: Mapfile, b: Mapfile, c: Mapfile)
    requires NonNegative(a.blocks) && NonNegative(b.blocks) && NonNegative(c.blocks)
    requires Max(TotalSize(a.blocks), Max(TotalSize(b.blocks), TotalSize(c.blocks))) > 0
    ensures Merged(Merged(a, b), c).currentStatus == Merged(a, Merged(b, c)).currentStatus <==>
      (SettledTogether(a.blocks, b.blocks) || IsComplete(c.blocks) <==>
        IsComplete(a.blocks) || SettledTogether(b.blocks, c.blocks))
  {
    HeadersOfBracketings(a, b, c);
    MergeCompleteness(a, b);
    MergeCompleteness(b, c);
  }

  /** Without any extent both bracketings are the fresh map. */
  lemma EmptyMergesAreFresh(a: Mapfile, b: Mapfile, c: Mapfile)
    requires NonNegative(a.blocks) && NonNegative(b.blocks) && NonNegative(c.blocks)
    requires Max(TotalSize(a.blocks), Max(TotalSize(b.blocks), TotalSize(c.blocks))) == 0
    ensures Merged(Merged(a, b), c) == EMPTY_MAPFILE == Merged(a, Merged(b, c))
  {
    HeadersOfBracketings(a, b, c);
  }

  /** The status a merge records says whether the merged map is complete exactly when the map has extent and one
      argument is already complete as soon as the two settle everything together. */
  lemma StatusTellsCompletenessIff(a: Mapfile, b: Mapfile)
    requires NonNegative(a.blocks) && NonNegative(b.blocks)
    ensures (Merged(a, b).currentStatus == Finished <==> IsComplete(Merged(a, b).blocks)) <==>
      && Max(TotalSize(a.blocks), TotalSize(b.blocks)) > 0
      && (IsComplete(a.blocks) || IsComplete(b.blocks) <==> SettledTogether(a.blocks, b.blocks))
  {
    MergedHeader(a, b);
    MergeCompleteness(a, b);
    TotalSizeIsMaximum(a.blocks);
  }

  /** A map without blocks counts as complete, so merging it into any map with extent records `Finished`. */
  lemma EmptyMapMarksFinished(a: Mapfile)
    requires NonNegative(a.blocks) && TotalSize(a.blocks) > 0
    ensures Merged(a, EMPTY_MAPFILE).currentStatus == Finished
    ensures IsComplete(Merged(a, EMPTY_MAPFILE).blocks) <==> SettledTogether(a.blocks, [])
  {
    MergedHeader(a, EMPTY_MAPFILE);
    MergeCompleteness(a, EMPTY_MAPFILE);
  }

  /** A triple for which it does not: one rescued byte, and twice a map of two untried ones. */
  lemma MergedStatusDoesNotAssociate() returns (a: Mapfile, b: Mapfile, c: Mapfile)
    ensures NonNegative(a.blocks) && NonNegative(b.blocks) && NonNegative(c.blocks)
    ensures Merged(a, Merged(b, c)).currentStatus == Finished
    ensures Merged(Merged(a, b), c).currentStatus == NonTried
  {
    a, b := OneRescuedOfTwo();
    c := b;
    MergeIsPointwiseWinner(a, b);
    MergeIsPointwiseWinner(b, c);
    FirstIsFinished(a, Merged(b, c));
    BothUnfinished(Merged(a, b), c);
  }

  lemma SingleBlock(bs: seq<Block>, size: nat, s: Status)
    requires bs == [Block(0, size, s)] && size > 0
    ensures NonNegative(bs) && TotalSize(bs) == size
    ensures IsComplete(bs) <==> Settled(s)
  {
    assert bs[1..] == [];
    assert forall t :: BytesOf(bs, t) == if t == s then size else 0;
  }

  lemma OneRescuedOfTwo() returns (a: Mapfile, b: Mapfile)
    ensures NonNegative(a.blocks) && NonNegative(b.blocks) && TotalSize(a.blocks) == 1
    ensures IsComplete(a.blocks) && !IsComplete(b.blocks) && !IsComplete(Merged(a, b).blocks)
  {
    a := Mapfile(0, NonTried, 1, [Block(0, 1, Finished)]);
    b := Mapfile(0, NonTried, 1, [Block(0, 2, NonTried)]);
    SingleBlock(a.blocks, 1, Finished);
    SingleBlock(b.blocks, 2, NonTried);
    MergeIsPointwiseWinner(a, b);
    SecondByteUntried(Merged(a, b).blocks, a.blocks, b.blocks);
  }

  lemma SecondByteUntried(m: seq<Block>, a: seq<Block>, b: seq<Block>)
    requires IsMergeOf(m, a, b) && a == [Block(0, 1, Finished)] && b == [Block(0, 2, NonTried)]
    ensures !IsComplete(m)
  {
    WinnerSettled(m, a, b);
    assert a[1..] == [] && b[1..] == [];
    assert StatusAt(a, 1) == NonTried && StatusAt(b, 1) == NonTried;
    assert !SettledByEither(a, b, 1);
  }

  lemma FirstIsFinished(a: Mapfile, b: Mapfile)
    requires IsComplete(a.blocks) && Max(TotalSize(a.blocks), TotalSize(b.blocks)) != 0
    ensures Merged(a, b).currentStatus == Finished
  {}

  lemma BothUnfinished(a: Mapfile, b: Mapfile)
    requires !IsComplete(a.blocks) && !IsComplete(b.blocks)
    ensures Merged(a, b).currentStatus == NonTried
  {}

  /** A map whose raw count exceeds the merged one: the medium has 1 rescued byte, not 2. */
  lemma OverlapsAreCountedTwice() returns (a: Mapfile)
    ensures NonNegative(a.blocks) && !NonOverlapping(a.blocks)
    ensures BytesOf(a.blocks, Finished) == 2 && BytesOf(Merged(a, a).blocks, Finished) == 1
  {
    a := Mapfile(0, NonTried, 1, [Block(0, 1, Finished), Block(0, 1, Finished)]);
    assert Covers(a.blocks[0], 0) && Covers(a.blocks[1], 0);
    MergeIsPointwiseWinner(a, a);
    OneByteOnce(Merged(a, a).blocks, a.blocks);
  }

  lemma OneByteOnce(m: seq<Block>, twice: seq<Block>)
    requires IsMergeOf(m, twice, twice) && twice == [Block(0, 1, Finished), Block(0, 1, Finished)]
    ensures m == [Block(0, 1, Finished)]
  {
    assert StatusAt(twice, 0) == Finished && TotalSize(twice[1..]) == 1 && TotalSize(twice) == 1;
    forall o | 0 <= o < 1 ensures StatusAt(m, o) == StatusAt([Block(0, 1, Finished)], o) {}
    CanonicalUnique(m, [Block(0, 1, Finished)], 0, 1);
  }
}
