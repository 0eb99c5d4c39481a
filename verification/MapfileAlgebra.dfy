/** The laws of `Merge` on mapfiles whose positions and sizes are non-negative.

    Everything follows from two facts: merging denotes the pointwise winner, and a canonical block
    list is determined by its range and denotation.
 */
module MapfileAlgebra {
  import opened Basics
  import opened MapfileMerge
  import opened SortedSets

  lemma {:induction false} TotalSizeIsMaximum(bs: seq<Block>)
    requires NonNegative(bs)
    ensures 0 <= TotalSize(bs)
    ensures forall b <- bs :: b.End() <= TotalSize(bs)
    ensures bs != [] ==> exists b <- bs :: b.End() == TotalSize(bs)
  {
    if |bs| > 1 {
      forall b <- bs[1..] ensures b in bs {}
      TotalSizeIsMaximum(bs[1..]);
      assert bs[0] in bs;
      forall b <- bs ensures b.End() <= TotalSize(bs) { assert b == bs[0] || b in bs[1..]; }
      var c :| c in bs[1..] && c.End() == TotalSize(bs[1..]);
      assert c in bs;
    } else if |bs| == 1 {
      assert bs[0] in bs;
    }
  }

  lemma {:induction false} UncoveredIsNonTried(bs: seq<Block>, o: int)
    requires forall b <- bs :: !(b.pos <= o < b.End())
    ensures StatusAt(bs, o) == NonTried
  {
    if bs != [] {
      assert bs[0] in bs;
      UncoveredIsNonTried(bs[1..], o);
    }
  }

  lemma NonTriedOutside(bs: seq<Block>, o: int)
    requires NonNegative(bs) && !(0 <= o < TotalSize(bs))
    ensures StatusAt(bs, o) == NonTried
  {
    TotalSizeIsMaximum(bs);
    UncoveredIsNonTried(bs, o);
  }

  lemma SortedEnds(points: set<int>, lo: int, hi: int)
    requires lo in points && hi in points && forall x <- points :: lo <= x <= hi
    ensures var r := Sorted(points); r != [] && r[0] == lo && r[|r| - 1] == hi
  {
    var r := Sorted(points);
    assert lo in r && hi in r;
    assert r[0] in points && r[|r| - 1] in points;
  }

  /** The outermost split points of non-negative mapfiles are 0 and the larger total size. */
  lemma SplitPointsSpan(a: seq<Block>, b: seq<Block>)
    requires NonNegative(a) && NonNegative(b)
    ensures var points := Sorted(SplitPoints(a, b));
            points != [] && points[0] == 0 && points[|points| - 1] == Max(TotalSize(a), TotalSize(b))
  {
    TotalSizeIsMaximum(a);
    TotalSizeIsMaximum(b);
    var tot := Max(TotalSize(a), TotalSize(b));
    BoundsWithin(a, tot);
    BoundsWithin(b, tot);
    SortedEnds(SplitPoints(a, b), 0, tot);
  }

  lemma BoundsWithin(bs: seq<Block>, tot: int)
    requires NonNegative(bs) && forall b <- bs :: b.End() <= tot
    ensures forall x <- Bounds(bs) :: 0 <= x <= tot
  {
    forall x <- Bounds(bs) ensures 0 <= x <= tot {
      if x in (set b <- bs :: b.pos) {
        var b :| b in bs && b.pos == x;
      } else {
        assert x in (set b <- bs :: b.End());
        var b :| b in bs && b.End() == x;
      }
    }
  }

  lemma MergedEncodesWinner(a: Mapfile, b: Mapfile)
    requires NonNegative(a.blocks) && NonNegative(b.blocks)
    ensures Merged(a, b).blocks
         == Encode(MergedAt(a.blocks, b.blocks), 0, Max(TotalSize(a.blocks), TotalSize(b.blocks)))
  {
    if Max(TotalSize(a.blocks), TotalSize(b.blocks)) != 0 {
      SweepEncodesWinner(a.blocks, b.blocks);
      assert Merged(a, b).blocks == MergedBlocks(a.blocks, b.blocks);
    }
  }

  lemma SweepEncodesWinner(a: seq<Block>, b: seq<Block>)
    requires NonNegative(a) && NonNegative(b)
    ensures MergedBlocks(a, b) == Encode(MergedAt(a, b), 0, Max(TotalSize(a), TotalSize(b)))
  {
    SplitPointsSpan(a, b);
  }

  lemma {:induction false} CanonicalRange(bs: seq<Block>, lo: int, hi: int)
    requires Canonical(bs, lo, hi) && 0 <= lo
    ensures lo <= hi && NonNegative(bs) && (forall b <- bs :: b.End() <= hi)
    ensures bs != [] ==> TotalSize(bs) == hi
    decreases |bs|
  {
    if |bs| == 1 {
      assert forall b <- bs :: b == bs[0];
    } else if |bs| > 1 {
      CanonicalRange(bs[1..], bs[0].End(), hi);
      assert bs[1] in bs[1..];
      assert forall b <- bs :: b == bs[0] || b in bs[1..];
    }
  }

  lemma MergedStatus(a: Mapfile, b: Mapfile, o: int)
    requires NonNegative(a.blocks) && NonNegative(b.blocks)
    ensures StatusAt(Merged(a, b).blocks, o) == Winner(StatusAt(a.blocks, o), StatusAt(b.blocks, o))
  {
    var f, tot := MergedAt(a.blocks, b.blocks), Max(TotalSize(a.blocks), TotalSize(b.blocks));
    MergedEncodesWinner(a, b);
    if 0 <= o < tot {
      EncodeStatus(f, 0, tot, o);
    } else {
      TotalSizeIsMaximum(a.blocks);
      NonTriedOutside(a.blocks, o);
      NonTriedOutside(b.blocks, o);
      EncodeCanonical(f, 0, tot);
      StatusOutsideCanonical(Encode(f, 0, tot), 0, tot, o);
    }
  }

  /** Where blocks overlap the first one in the list decides. */
  lemma {:induction false} FirstBlockDecides(bs: seq<Block>, o: int, i: nat)
    requires i < |bs| && bs[i].pos <= o < bs[i].End() && forall j :: 0 <= j < i ==> !(bs[j].pos <= o < bs[j].End())
    ensures StatusAt(bs, o) == bs[i].status
  {
    if i > 0 { FirstBlockDecides(bs[1..], o, i - 1); }
  }

  /** The stages of a rescue in their order: an offset of a merge has a stage when one argument has it there and
      neither is further, and is untried when both are. */
  lemma MergedStages(a: Mapfile, b: Mapfile, o: int)
    requires NonNegative(a.blocks) && NonNegative(b.blocks)
    ensures var m, x, y := StatusAt(Merged(a, b).blocks, o), StatusAt(a.blocks, o), StatusAt(b.blocks, o);
      && (m == Finished <==> x == Finished || y == Finished)
      && (m == BadSector <==> (x == BadSector || y == BadSector) && x != Finished && y != Finished)
      && (m == NonScraped <==>
            (x == NonScraped || y == NonScraped) && x !in {Finished, BadSector} && y !in {Finished, BadSector})
      && (m == NonTrimmed <==> (x == NonTrimmed || y == NonTrimmed) && x in {NonTrimmed, NonTried}
                               && y in {NonTrimmed, NonTried})
      && (m == NonTried <==> x == NonTried && y == NonTried)
  {
    MergedStatus(a, b, o);
  }

  /** `m` tiles [0, tot) canonically and gives every offset the higher-priority status of `a` and `b`. */
  ghost predicate IsMergeOf(m: seq<Block>, a: seq<Block>, b: seq<Block>) {
    && Canonical(m, 0, Max(TotalSize(a), TotalSize(b)))
    && TotalSize(m) == Max(TotalSize(a), TotalSize(b))
    && NonNegative(m)
    && forall o :: StatusAt(m, o) == Winner(StatusAt(a, o), StatusAt(b, o))
  }

  lemma MergeIsPointwiseWinner(a: Mapfile, b: Mapfile)
    requires NonNegative(a.blocks) && NonNegative(b.blocks)
    ensures IsMergeOf(Merged(a, b).blocks, a.blocks, b.blocks)
  {
    var tot := Max(TotalSize(a.blocks), TotalSize(b.blocks));
    TotalSizeIsMaximum(a.blocks);
    TotalSizeIsMaximum(b.blocks);
    MergedEncodesWinner(a, b);
    EncodeCanonical(MergedAt(a.blocks, b.blocks), 0, tot);
    CanonicalRange(Merged(a, b).blocks, 0, tot);
    forall o ensures StatusAt(Merged(a, b).blocks, o) == Winner(StatusAt(a.blocks, o), StatusAt(b.blocks, o)) {
      MergedStatus(a, b, o);
    }
  }

  ghost predicate SameMerge(a: Mapfile, b: Mapfile, c: Mapfile, d: Mapfile) {
    && Max(TotalSize(a.blocks), TotalSize(b.blocks)) == Max(TotalSize(c.blocks), TotalSize(d.blocks))
    && forall o :: Winner(StatusAt(a.blocks, o), StatusAt(b.blocks, o))
                == Winner(StatusAt(c.blocks, o), StatusAt(d.blocks, o))
  }

  /** The block list of a merge depends only on the total size and the pointwise winner. */
  lemma MergeDetermined(a: Mapfile, b: Mapfile, c: Mapfile, d: Mapfile)
    requires NonNegative(a.blocks) && NonNegative(b.blocks) && NonNegative(c.blocks) && NonNegative(d.blocks)
    requires SameMerge(a, b, c, d)
    ensures Merged(a, b).blocks == Merged(c, d).blocks
  {
    MergeIsPointwiseWinner(a, b);
    MergeIsPointwiseWinner(c, d);
    CanonicalUnique(Merged(a, b).blocks, Merged(c, d).blocks, 0, Max(TotalSize(a.blocks), TotalSize(b.blocks)));
  }

  lemma MergeCommutes(a: Mapfile, b: Mapfile)
    requires NonNegative(a.blocks) && NonNegative(b.blocks)
    ensures Merged(a, b) == Merged(b, a)
  {
    MergeDetermined(a, b, b, a);
  }

  lemma MergeAssociates(a: Mapfile, b: Mapfile, c: Mapfile)
    requires NonNegative(a.blocks) && NonNegative(b.blocks) && NonNegative(c.blocks)
    ensures Merged(Merged(a, b), c).blocks == Merged(a, Merged(b, c)).blocks
  {
    MergeIsPointwiseWinner(a, b);
    MergeIsPointwiseWinner(b, c);
    MergeDetermined(Merged(a, b), c, a, Merged(b, c));
  }

  /** The larger number, or that of a fresh map when neither side has extent. */
  function Larger(start: int, extent: int, x: int, y: int): int { if extent == 0 then start else Max(x, y) }

  /** What `m`, a merge of `a` and `b`, carries besides its blocks. */
  predicate HeaderOf(m: Mapfile, a: Mapfile, b: Mapfile) {
    var tot := Max(TotalSize(a.blocks), TotalSize(b.blocks));
    && TotalSize(m.blocks) == tot
    && m.currentPos == Larger(0, tot, a.currentPos, b.currentPos)
    && m.currentPass == Larger(1, tot, a.currentPass, b.currentPass)
    && (tot != 0 ==> m.currentStatus == if IsComplete(a.blocks) || IsComplete(b.blocks) then Finished else NonTried)
    && (tot == 0 ==> m == EMPTY_MAPFILE)
  }

  lemma MergedHeader(a: Mapfile, b: Mapfile)
    requires NonNegative(a.blocks) && NonNegative(b.blocks)
    ensures NonNegative(Merged(a, b).blocks) && HeaderOf(Merged(a, b), a, b)
  {
    MergeIsPointwiseWinner(a, b);
  }

  /** `x` and `y` leave no trace beside `z` when a fresh map's number stands for them. */
  predicate Absorbed(start: int, x: int, y: int, z: int) {
    x <= Max(start, z) && y <= Max(start, z) && start <= Max(x, Max(y, z))
  }

  /** The two bracketings of three numbers agree exactly when no inner pair without extent loses one that counts. */
  predicate Bracketable(start: int, ta: int, tb: int, tc: int, x: int, y: int, z: int) {
    (ta == tb == 0 < tc ==> Absorbed(start, x, y, z)) && (tb == tc == 0 < ta ==> Absorbed(start, z, y, x))
  }

  lemma BracketsAgreeIff(start: int, ta: nat, tb: nat, tc: nat, x: int, y: int, z: int)
    ensures Larger(start, Max(Max(ta, tb), tc), Larger(start, Max(ta, tb), x, y), z)
         == Larger(start, Max(ta, Max(tb, tc)), x, Larger(start, Max(tb, tc), y, z))
       <==> Bracketable(start, ta, tb, tc, x, y, z)
  {}

  /** The position associates exactly when no inner merge of two maps without extent forgets one that counts. */
  lemma PositionAssociatesIff(a: Mapfile, b: Mapfile, c: Mapfile)
    requires NonNegative(a.blocks) && NonNegative(b.blocks) && NonNegative(c.blocks)
    ensures Merged(Merged(a, b), c).currentPos == Merged(a, Merged(b, c)).currentPos <==>
      Bracketable(0, TotalSize(a.blocks), TotalSize(b.blocks), TotalSize(c.blocks),
                  a.currentPos, b.currentPos, c.currentPos)
  {
    HeadersOfBracketings(a, b, c);
    BracketsAgreeIff(0, TotalSize(a.blocks), TotalSize(b.blocks), TotalSize(c.blocks),
                     a.currentPos, b.currentPos, c.currentPos);
  }

  /** The same for the pass, which starts at 1 in a fresh map. */
  lemma PassAssociatesIff(a: Mapfile, b: Mapfile, c: Mapfile)
    requires NonNegative(a.blocks) && NonNegative(b.blocks) && NonNegative(c.blocks)
    ensures Merged(Merged(a, b), c).currentPass == Merged(a, Merged(b, c)).currentPass <==>
      Bracketable(1, TotalSize(a.blocks), TotalSize(b.blocks), TotalSize(c.blocks),
                  a.currentPass, b.currentPass, c.currentPass)
  {
    HeadersOfBracketings(a, b, c);
    BracketsAgreeIff(1, TotalSize(a.blocks), TotalSize(b.blocks), TotalSize(c.blocks),
                     a.currentPass, b.currentPass, c.currentPass);
  }

  lemma HeadersOfBracketings(a: Mapfile, b: Mapfile, c: Mapfile)
    requires NonNegative(a.blocks) && NonNegative(b.blocks) && NonNegative(c.blocks)
    ensures HeaderOf(Merged(Merged(a, b), c), Merged(a, b), c) && HeaderOf(Merged(a, b), a, b)
    ensures HeaderOf(Merged(a, Merged(b, c)), a, Merged(b, c)) && HeaderOf(Merged(b, c), b, c)
    ensures TotalSize(a.blocks) >= 0 && TotalSize(b.blocks) >= 0 && TotalSize(c.blocks) >= 0
  {
    MergedHeader(a, b);
    MergedHeader(b, c);
    MergedHeader(Merged(a, b), c);
    MergedHeader(a, Merged(b, c));
    TotalSizeIsMaximum(a.blocks);
    TotalSizeIsMaximum(b.blocks);
    TotalSizeIsMaximum(c.blocks);
  }

  /** Merging two maps without extent gives a fresh one: what positions they had recorded is forgotten, so from
      there on the bracketing shows. */
  lemma EmptyMergeForgetsPosition(a: Mapfile, b: Mapfile, c: Mapfile)
    requires NonNegative(a.blocks) && NonNegative(b.blocks) && NonNegative(c.blocks)
    requires TotalSize(a.blocks) == TotalSize(b.blocks) == 0 < TotalSize(c.blocks)
    requires a.currentPos > c.currentPos >= 0 && a.currentPos > b.currentPos
    ensures Merged(Merged(a, b), c).currentPos < Merged(a, Merged(b, c)).currentPos
  {
    HeadersOfBracketings(a, b, c);
  }

  /** A mapfile that is already canonical over its medium. */
  ghost predicate IsCanonicalMap(m: Mapfile) {
    Canonical(m.blocks, 0, TotalSize(m.blocks))
  }

  /** Merging a mapfile with itself keeps its denotation and makes it canonical. */
  lemma SelfMergeCanonises(a: Mapfile)
    requires NonNegative(a.blocks)
    ensures IsCanonicalMap(Merged(a, a))
    ensures forall o :: StatusAt(Merged(a, a).blocks, o) == StatusAt(a.blocks, o)
  {
    MergeIsPointwiseWinner(a, a);
  }

  /** The canonical mapfiles are exactly the fixed points of self-merging. */
  lemma CanonicalIffFixedPoint(a: Mapfile)
    requires NonNegative(a.blocks)
    ensures IsCanonicalMap(a) <==> Merged(a, a).blocks == a.blocks
  {
    MergeIsPointwiseWinner(a, a);
    if IsCanonicalMap(a) {
      CanonicalUnique(Merged(a, a).blocks, a.blocks, 0, TotalSize(a.blocks));
    }
  }

  /** Merging in an older map again changes nothing. */
  lemma MergeAbsorbs(a: Mapfile, b: Mapfile)
    requires NonNegative(a.blocks) && NonNegative(b.blocks)
    ensures Merged(Merged(a, b), a).blocks == Merged(a, b).blocks
    ensures Merged(Merged(a, b), b).blocks == Merged(a, b).blocks
  {
    MergeIsPointwiseWinner(a, b);
    MergeDetermined(Merged(a, b), a, a, b);
    MergeDetermined(Merged(a, b), b, a, b);
  }
}
