/** The ddrescue mapfile of `damaged_media.py`: blocks, block statuses and the multi-pass merge.

    A mapfile denotes a status for every offset of a medium: the status of the first block that
    covers the offset, or `NonTried` where no block does.  `Merge` computes the union of two such
    denotations by sweeping over the sorted split points of both block lists.  Its specification,
    `Encode`, walks the medium one offset at a time instead; the two agree on every input.
 */
module MapfileMerge {
  import opened Basics
  import opened SortedSets

  datatype Status = NonTried | NonTrimmed | NonScraped | BadSector | Finished

  function Priority(s: Status): nat {
    match s
    case Finished => 5
    case BadSector => 4
    case NonScraped => 3
    case NonTrimmed => 2
    case NonTried => 1
  }

  /** The status that survives a merge; the left one on a tie. */
  function Winner(s: Status, t: Status): Status {
    if Priority(s) >= Priority(t) then s else t
  }

  datatype Block = Block(pos: int, size: int, status: Status) {
    function End(): int { pos + size }
  }

  datatype Mapfile = Mapfile(currentPos: int, currentStatus: Status, currentPass: int, blocks: seq<Block>)

  const EMPTY_MAPFILE := Mapfile(0, NonTried, 1, [])

  /** The largest block end, 0 for a mapfile without blocks. */
  function TotalSize(bs: seq<Block>): int {
    if |bs| == 0 then 0
    else if |bs| == 1 then bs[0].End()
    else Max(bs[0].End(), TotalSize(bs[1..]))
  }

  function BytesOf(bs: seq<Block>, s: Status): int {
    if bs == [] then 0 else (if bs[0].status == s then bs[0].size else 0) + BytesOf(bs[1..], s)
  }

  predicate IsComplete(bs: seq<Block>) {
    BytesOf(bs, NonTried) == 0 && BytesOf(bs, NonTrimmed) == 0 && BytesOf(bs, NonScraped) == 0
  }

  /** The status a block list gives to an offset: the first covering block decides. */
  function StatusAt(bs: seq<Block>, o: int): Status {
    if bs == [] then NonTried
    else if bs[0].pos <= o < bs[0].End() then bs[0].status
    else StatusAt(bs[1..], o)
  }

  predicate NonNegative(bs: seq<Block>) {
    forall b <- bs :: 0 <= b.pos && 0 <= b.size
  }

  /** `bs` tiles [lo, hi) with positive blocks and no two equal neighbours. */
  predicate Canonical(bs: seq<Block>, lo: int, hi: int) {
    && (bs == [] ==> lo == hi)
    && (bs != [] ==> bs[0].pos == lo && bs[|bs| - 1].End() == hi)
    && (forall i :: 0 <= i < |bs| ==> bs[i].size > 0)
    && (forall i :: 0 < i < |bs| ==> bs[i - 1].End() == bs[i].pos && bs[i - 1].status != bs[i].status)
  }

  // ---------- Split points ----------

  function Bounds(bs: seq<Block>): set<int> {
    (set b <- bs :: b.pos) + (set b <- bs :: b.End())
  }

  function SplitPoints(a: seq<Block>, b: seq<Block>): set<int> {
    {0, Max(TotalSize(a), TotalSize(b))} + Bounds(a) + Bounds(b)
  }

  // ---------- The offset-by-offset reference encoding ----------

  /** Appends [p, p + size) with status `s`, growing the last block when it continues it. */
  function Extend(bs: seq<Block>, p: int, size: int, s: Status): seq<Block> {
    if bs != [] && bs[|bs| - 1].status == s && bs[|bs| - 1].End() == p
    then bs[..|bs| - 1] + [bs[|bs| - 1].(size := bs[|bs| - 1].size + size)]
    else bs + [Block(p, size, s)]
  }

  /** The run-length form of `f` on [lo, hi), built one offset at a time. */
  ghost function Encode(f: int -> Status, lo: int, hi: int): seq<Block>
    decreases hi - lo
  {
    if hi <= lo then [] else Extend(Encode(f, lo, hi - 1), hi - 1, 1, f(hi - 1))
  }

  ghost function MergedAt(a: seq<Block>, b: seq<Block>): int -> Status {
    o => Winner(StatusAt(a, o), StatusAt(b, o))
  }

  /** What `Merge` returns: the run-length form of the pointwise winner between the outermost split points. */
  ghost function Merged(a: Mapfile, b: Mapfile): Mapfile {
    if Max(TotalSize(a.blocks), TotalSize(b.blocks)) == 0 then EMPTY_MAPFILE else
      Mapfile(
        Max(a.currentPos, b.currentPos),
        if IsComplete(a.blocks) || IsComplete(b.blocks) then Finished else NonTried,
        Max(a.currentPass, b.currentPass),
        MergedBlocks(a.blocks, b.blocks))
  }

  /** The run-length form of the winner, between the outermost split points. */
  ghost function MergedBlocks(a: seq<Block>, b: seq<Block>): seq<Block> {
    var points := Sorted(SplitPoints(a, b));
    assert 0 in points;
    Encode(MergedAt(a, b), points[0], points[|points| - 1])
  }

  lemma ConstantBetweenPoints(bs: seq<Block>, p: int, q: int, o: int)
    requires p <= o < q
    requires forall x <- Bounds(bs) :: x <= p || q <= x
    ensures StatusAt(bs, o) == StatusAt(bs, p)
  {
    if bs != [] {
      assert bs[0].pos in Bounds(bs) && bs[0].End() in Bounds(bs);
      forall x <- Bounds(bs[1..]) ensures x in Bounds(bs) {}
      ConstantBetweenPoints(bs[1..], p, q, o);
    }
  }

  lemma ExtendTwice(bs: seq<Block>, p: int, size: nat, s: Status)
    requires size > 0
    ensures Extend(Extend(bs, p, size, s), p + size, 1, s) == Extend(bs, p, size + 1, s)
  {
    var once := Extend(bs, p, size, s);
    if bs != [] && bs[|bs| - 1].status == s && bs[|bs| - 1].End() == p {
      assert once[..|once| - 1] == bs[..|bs| - 1];
    } else {
      assert once[..|once| - 1] == bs;
    }
  }

  lemma EncodeSnoc(f: int -> Status, lo: int, q: int)
    requires lo < q
    ensures Encode(f, lo, q) == Extend(Encode(f, lo, q - 1), q - 1, 1, f(q - 1))
  {}

  lemma {:induction false} EncodeRun(f: int -> Status, lo: int, p: int, q: int)
    requires lo <= p < q
    requires forall o :: p <= o < q ==> f(o) == f(p)
    ensures Encode(f, lo, q) == Extend(Encode(f, lo, p), p, q - p, f(p))
    decreases q - p
  {
    hide Encode, Extend;
    EncodeSnoc(f, lo, q);
    if p + 1 < q {
      EncodeRun(f, lo, p, q - 1);
      ExtendTwice(Encode(f, lo, p), p, q - 1 - p, f(p));
    }
  }

  lemma BoundsSnoc(bs: seq<Block>, i: nat)
    requires i < |bs|
    ensures Bounds(bs[..i + 1]) == Bounds(bs[..i]) + {bs[i].pos, bs[i].End()}
  {
    assert bs[..i + 1] == bs[..i] + [bs[i]];
    assert forall b :: b in bs[..i + 1] <==> b in bs[..i] || b == bs[i];
  }

  lemma NothingBetween(points: set<int>, sorted: seq<int>, i: nat)
    requires sorted == Sorted(points) && i + 1 < |sorted|
    ensures forall x <- points :: x <= sorted[i] || sorted[i + 1] <= x
  {
    forall x <- points ensures x <= sorted[i] || sorted[i + 1] <= x {
      var k :| 0 <= k < |sorted| && sorted[k] == x;
    }
  }

  /** One step of the sweep: between neighbouring split points p and q the winner does not change. */
  lemma SweepStep(a: seq<Block>, b: seq<Block>, lo: int, p: int, q: int)
    requires lo <= p < q
    requires forall x <- SplitPoints(a, b) :: x <= p || q <= x
    ensures Encode(MergedAt(a, b), lo, q)
         == Extend(Encode(MergedAt(a, b), lo, p), p, q - p, Winner(StatusAt(a, p), StatusAt(b, p)))
  {
    var f := MergedAt(a, b);
    assert forall x <- Bounds(a) + Bounds(b) :: x in SplitPoints(a, b);
    forall o | p <= o < q ensures f(o) == f(p) {
      ConstantBetweenPoints(a, p, q, o);
      ConstantBetweenPoints(b, p, q, o);
    }
    EncodeRun(f, lo, p, q);
  }

  method AddBounds(points: set<int>, bs: seq<Block>) returns (r: set<int>)
    ensures r == points + Bounds(bs)
  {
    r := points;
    for i := 0 to |bs|
      invariant r == points + Bounds(bs[..i])
    {
      BoundsSnoc(bs, i);
      r := r + {bs[i].pos, bs[i].End()};
    }
    assert bs[..|bs|] == bs;
  }

  method Merge(a: Mapfile, b: Mapfile) returns (m: Mapfile)
    ensures m == Merged(a, b)
  {
    var tot := Max(TotalSize(a.blocks), TotalSize(b.blocks));
    if tot == 0 {
      return EMPTY_MAPFILE;
    }
    var points := AddBounds({0, tot}, a.blocks);
    points := AddBounds(points, b.blocks);
    assert points == SplitPoints(a.blocks, b.blocks);
    var sortedPoints := Sorted(points);
    assert 0 in sortedPoints;
    ghost var (f, lo) := (MergedAt(a.blocks, b.blocks), sortedPoints[0]);
    var newBlocks: seq<Block> := [];
    for i := 0 to |sortedPoints| - 1
      invariant newBlocks == Encode(f, lo, sortedPoints[i])
    {
      var p1, p2 := sortedPoints[i], sortedPoints[i + 1];
      var winner := Winner(StatusAt(a.blocks, p1), StatusAt(b.blocks, p1));
      NothingBetween(points, sortedPoints, i);
      SweepStep(a.blocks, b.blocks, lo, p1, p2);
      newBlocks := Extend(newBlocks, p1, p2 - p1, winner);
    }
    return Mapfile(
        Max(a.currentPos, b.currentPos),
        if IsComplete(a.blocks) || IsComplete(b.blocks) then Finished else NonTried,
        Max(a.currentPass, b.currentPass),
        newBlocks);
  }

  // ---------- Encode is the inverse of StatusAt on canonical lists ----------

  lemma EmptyIsCanonical(lo: int)
    ensures Canonical([], lo, lo)
  {}

  lemma ExtendCanonical(bs: seq<Block>, lo: int, hi: int, s: Status)
    requires Canonical(bs, lo, hi)
    ensures var r := Extend(bs, hi, 1, s);
            Canonical(r, lo, hi + 1) && r != [] && r[|r| - 1].status == s
  {
    var r, last := Extend(bs, hi, 1, s), |bs| - 1;
    if bs != [] && bs[last].status == s {
      assert forall i :: 0 <= i < last ==> r[i] == bs[i];
    } else {
      assert forall i :: 0 <= i < |bs| ==> r[i] == bs[i];
    }
  }

  lemma {:induction false} EncodeCanonical(f: int -> Status, lo: int, hi: int)
    ensures Canonical(Encode(f, lo, hi), lo, if lo < hi then hi else lo)
    ensures lo < hi ==> Encode(f, lo, hi) != [] && Encode(f, lo, hi)[|Encode(f, lo, hi)| - 1].status == f(hi - 1)
    decreases hi - lo
  {
    EmptyIsCanonical(lo);
    hide Canonical, Extend;
    if lo < hi {
      EncodeCanonical(f, lo, hi - 1);
      ExtendCanonical(Encode(f, lo, hi - 1), lo, hi - 1, f(hi - 1));
    }
  }

  lemma {:induction false} StatusInCanonical(bs: seq<Block>, lo: int, hi: int, i: nat, o: int)
    requires Canonical(bs, lo, hi) && i < |bs| && bs[i].pos <= o < bs[i].End()
    ensures lo <= bs[i].pos && bs[i].End() <= hi && StatusAt(bs, o) == bs[i].status
    decreases |bs|
  {
    if i == 0 {
      if |bs| > 1 { StatusInCanonical(bs[1..], bs[1].pos, hi, 0, bs[1].pos); }
    } else {
      StatusInCanonical(bs[1..], bs[1].pos, hi, i - 1, o);
    }
  }

  lemma StatusOutsideCanonical(bs: seq<Block>, lo: int, hi: int, o: int)
    requires Canonical(bs, lo, hi) && !(lo <= o < hi)
    ensures lo <= hi && StatusAt(bs, o) == NonTried
  {
    if bs != [] {
      StatusInCanonical(bs, lo, hi, 0, bs[0].pos);
      if |bs| > 1 {
        StatusOutsideCanonical(bs[1..], bs[1].pos, hi, o);
      }
    }
  }

  lemma ExtendKeeps(bs: seq<Block>, p: int, size: nat, s: Status, i: nat)
    requires i < |bs|
    ensures i < |Extend(bs, p, size, s)|
    ensures Extend(bs, p, size, s)[i].pos == bs[i].pos && Extend(bs, p, size, s)[i].status == bs[i].status
    ensures bs[i].End() <= Extend(bs, p, size, s)[i].End()
  {}

  /** Extending a canonical list keeps the statuses it had and adds the new one. */
  lemma ExtendedStatus(bs: seq<Block>, lo: int, p: int, s: Status, o: int)
    requires lo <= o <= p && Canonical(bs, lo, p) && Canonical(Extend(bs, p, 1, s), lo, p + 1)
    ensures StatusAt(Extend(bs, p, 1, s), o) == if o == p then s else StatusAt(bs, o)
  {
    var more := Extend(bs, p, 1, s);
    if o == p {
      StatusInCanonical(more, lo, p + 1, |more| - 1, o);
    } else {
      var i := BlockCovering(bs, lo, p, o);
      StatusInCanonical(bs, lo, p, i, o);
      ExtendKeeps(bs, p, 1, s, i);
      StatusInCanonical(more, lo, p + 1, i, o);
    }
  }

  lemma {:induction false} EncodeStatus(f: int -> Status, lo: int, hi: int, o: int)
    requires lo <= o < hi
    ensures StatusAt(Encode(f, lo, hi), o) == f(o)
    decreases hi - lo
  {
    hide Canonical, Encode, Extend, StatusAt;
    EncodeSnoc(f, lo, hi);
    EncodeCanonical(f, lo, hi);
    EncodeCanonical(f, lo, hi - 1);
    ExtendedStatus(Encode(f, lo, hi - 1), lo, hi - 1, f(hi - 1), o);
    if o < hi - 1 { EncodeStatus(f, lo, hi - 1, o); }
  }

  lemma {:induction false} BlockCovering(bs: seq<Block>, lo: int, hi: int, o: int) returns (i: nat)
    requires Canonical(bs, lo, hi) && lo <= o < hi
    ensures i < |bs| && bs[i].pos <= o < bs[i].End()
    decreases |bs|
  {
    if o < bs[0].End() {
      i := 0;
    } else {
      i := BlockCovering(bs[1..], bs[0].End(), hi, o);
      i := i + 1;
    }
  }

  /** `Encode` depends on `f` only through its values. */
  lemma {:induction false} EncodeExtensional(f: int -> Status, g: int -> Status, lo: int, hi: int)
    requires forall o :: lo <= o < hi ==> f(o) == g(o)
    ensures Encode(f, lo, hi) == Encode(g, lo, hi)
    decreases hi - lo
  {
    if lo < hi {
      EncodeExtensional(f, g, lo, hi - 1);
    }
  }

  /** Two canonical lists over the same range with the same denotation are the same list. */
  lemma {:induction false} CanonicalUnique(bs: seq<Block>, cs: seq<Block>, lo: int, hi: int)
    requires Canonical(bs, lo, hi) && Canonical(cs, lo, hi)
    requires forall o :: lo <= o < hi ==> StatusAt(bs, o) == StatusAt(cs, o)
    ensures bs == cs
    decreases |bs|
  {
    if bs == [] {
      if cs != [] { StatusInCanonical(cs, lo, hi, 0, lo); }
    } else {
      StatusInCanonical(bs, lo, hi, 0, lo);
      if cs == [] { assert false; }
      StatusInCanonical(cs, lo, hi, 0, lo);
      HeadNotShorter(bs, cs, lo, hi);
      HeadNotShorter(cs, bs, lo, hi);
      var mid := bs[0].End();
      forall o | mid <= o < hi ensures StatusAt(bs[1..], o) == StatusAt(cs[1..], o) {
        assert StatusAt(bs, o) == StatusAt(cs, o);
      }
      CanonicalUnique(bs[1..], cs[1..], mid, hi);
    }
  }

  lemma HeadNotShorter(bs: seq<Block>, cs: seq<Block>, lo: int, hi: int)
    requires Canonical(bs, lo, hi) && Canonical(cs, lo, hi) && bs != [] && cs != []
    requires forall o :: lo <= o < hi ==> StatusAt(bs, o) == StatusAt(cs, o)
    ensures cs[0].size <= bs[0].size
  {
    StatusInCanonical(cs, lo, hi, 0, lo);
    StatusInCanonical(bs, lo, hi, 0, lo);
    if bs[0].size < cs[0].size {
      var o := bs[0].End();
      StatusInCanonical(cs, lo, hi, 0, o);
      assert |bs| > 1;
      StatusInCanonical(bs, lo, hi, 1, o);
      assert false;
    }
  }
}
