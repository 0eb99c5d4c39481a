/** The mutable `FragmentGraph`: adding chunks, building the edges, and selecting the best paths. */
module FragmentEngine {
  import opened Basics
  import opened Sorting
  import opened FragmentEdges
  import opened FragmentSearch

  // ---------- Selecting the best recorded paths ----------

  function ByScore(): Scored -> real { (s: Scored) => s.score }

  /** The first path is appended before the bound is checked, so a bound below 1 acts as 1. */
  function Limit(maxPaths: int): nat { if maxPaths < 1 then 1 else maxPaths }

  /** `best` are the `Limit(maxPaths)` highest-scoring maximal paths, best first. */
  ghost predicate AreBestPaths(g: Graph, maxLength: int, starts: seq<int>, maxPaths: int, best: seq<seq<int>>) {
    && Distinct(best)
    && (forall p <- best :: IsMaximalPath(g, maxLength, starts, p))
    && (forall i, j :: 0 <= i < j < |best| ==> PathScore(g, best[i]) >= PathScore(g, best[j]))
    && |best| <= Limit(maxPaths)
    && (forall q :: IsMaximalPath(g, maxLength, starts, q) && q !in best ==>
          |best| == Limit(maxPaths) && forall p <- best :: PathScore(g, p) >= PathScore(g, q))
  }

  method SelectBest(found: seq<Scored>, maxPaths: int) returns (best: seq<seq<int>>)
    requires Distinct(PathsOf(found))
    ensures var sorted := PathsOf(SortDescending(found, ByScore()));
            best == sorted[..Min(Limit(maxPaths), |sorted|)]
  {
    var sorted := SortDescending(found, ByScore());
    SortedPathsStayDistinct(found, sorted);
    best := [];
    var seen: set<seq<int>> := {};
    for i := 0 to |sorted|
      invariant best == PathsOf(sorted)[..i] && i <= Limit(maxPaths)
      invariant i < Limit(maxPaths)
      invariant seen == set p <- best
    {
      var p := sorted[i].path;
      assert PathsOf(sorted)[i] == p && p !in PathsOf(sorted)[..i];
      if p !in seen {
        seen := seen + {p};
        best := best + [p];
        if |best| >= maxPaths {
          return;
        }
      }
    }
  }

  lemma SortedPathsStayDistinct(found: seq<Scored>, sorted: seq<Scored>)
    requires Distinct(PathsOf(found)) && sorted == SortDescending(found, ByScore())
    ensures |sorted| == |found| && Distinct(PathsOf(sorted))
    ensures forall s :: s in sorted <==> s in found
  {
    SortIsPermutation(found, ByScore());
    PermutedPathsStayDistinct(found, sorted);
  }

  lemma PermutedPathsStayDistinct(found: seq<Scored>, sorted: seq<Scored>)
    requires Distinct(PathsOf(found)) && multiset(sorted) == multiset(found)
    ensures Distinct(PathsOf(sorted))
    ensures forall s :: s in sorted <==> s in found
  {
    forall i, j | 0 <= i < j < |found| ensures found[i] != found[j] {
      assert PathsOf(found)[i] != PathsOf(found)[j];
    }
    PermutationOfDistinct(found, sorted);
    forall s ensures s in sorted <==> s in found {
      assert s in multiset(sorted) <==> s in multiset(found);
    }
    forall i, j | 0 <= i < j < |sorted| ensures sorted[i].path != sorted[j].path {
      EqualPathsAreOne(found, sorted[i], sorted[j]);
    }
  }

  lemma EqualPathsAreOne(found: seq<Scored>, s: Scored, t: Scored)
    requires Distinct(PathsOf(found)) && s in found && t in found && s != t
    ensures s.path != t.path
  {
    var a :| 0 <= a < |found| && found[a] == s;
    var b :| 0 <= b < |found| && found[b] == t;
    assert PathsOf(found)[a] == s.path && PathsOf(found)[b] == t.path;
  }

  /** The sorted paths: exactly the maximal ones, without repetition, best score first. */
  ghost predicate RankedPaths(g: Graph, maxLength: int, starts: seq<int>, paths: seq<seq<int>>) {
    && Distinct(paths)
    && (forall q :: q in paths <==> IsMaximalPath(g, maxLength, starts, q))
    && (forall i, j :: 0 <= i < j < |paths| ==> PathScore(g, paths[i]) >= PathScore(g, paths[j]))
  }

  lemma SortedPathsAreRanked(g: Graph, maxLength: int, starts: seq<int>)
    requires WellFormed(g) && Distinct(starts) && AllChunks(g, starts)
    ensures RankedPaths(g, maxLength, starts, PathsOf(SortDescending(ExploreStarts(g, maxLength, starts), ByScore())))
  {
    var found := ExploreStarts(g, maxLength, starts);
    var sorted := SortDescending(found, ByScore());
    ExploreStartsIsExact(g, maxLength, starts);
    SortedPathsStayDistinct(found, sorted);
    SortIsDescending(found, ByScore());
    SamePaths(found, sorted);
    forall i, j | 0 <= i < j < |sorted| ensures PathScore(g, sorted[i].path) >= PathScore(g, sorted[j].path) {
      assert sorted[i] in found && sorted[j] in found;
      assert ByScore()(sorted[i]) >= ByScore()(sorted[j]);
    }
  }

  lemma SamePaths(found: seq<Scored>, sorted: seq<Scored>)
    requires forall s :: s in sorted <==> s in found
    ensures forall q :: q in PathsOf(sorted) <==> q in PathsOf(found)
  {
    forall q ensures q in PathsOf(sorted) <==> q in PathsOf(found) {
      if q in PathsOf(sorted) { PathComesFrom(sorted, found, q); }
      if q in PathsOf(found) { PathComesFrom(found, sorted, q); }
    }
  }

  lemma PathComesFrom(a: seq<Scored>, b: seq<Scored>, q: seq<int>)
    requires q in PathsOf(a) && forall s :: s in a ==> s in b
    ensures q in PathsOf(b)
  {
    var i :| 0 <= i < |a| && PathsOf(a)[i] == q;
    assert a[i] in b;
    var j :| 0 <= j < |b| && b[j] == a[i];
    assert PathsOf(b)[j] == q;
  }

  lemma PrefixElements<T>(s: seq<T>, k: nat)
    requires k <= |s|
    ensures forall i :: 0 <= i < k ==> s[i] in s[..k]
  {
    forall i | 0 <= i < k ensures s[i] in s[..k] {
      assert s[..k][i] == s[i];
    }
  }

  lemma PrefixIsBest(g: Graph, maxLength: int, starts: seq<int>, maxPaths: int, paths: seq<seq<int>>)
    requires RankedPaths(g, maxLength, starts, paths)
    ensures AreBestPaths(g, maxLength, starts, maxPaths, paths[..Min(Limit(maxPaths), |paths|)])
  {
    var k := Min(Limit(maxPaths), |paths|);
    forall q | IsMaximalPath(g, maxLength, starts, q) && q !in paths[..k]
      ensures k == Limit(maxPaths) && forall p <- paths[..k] :: PathScore(g, p) >= PathScore(g, q)
    {
      var b :| 0 <= b < |paths| && paths[b] == q;
      PrefixElements(paths, k);
    }
  }

  // ---------- Where headers and footers may stand ----------

  /** Edges made by `BuildGraph` never lead to a pure header. */
  ghost predicate NoEdgeIntoHeader(g: Graph) {
    forall id :: forall e <- Successors(g, id) :: e.dst in g.chunks && !PureHeader(g.chunks[e.dst])
  }

  lemma PathSteps(g: Graph, maxLength: int, starts: seq<int>, q: seq<int>, i: nat)
    requires IsMaximalPath(g, maxLength, starts, q) && 0 < i < |q|
    ensures Extensible(g, maxLength, q[..i]) && IsEdge(g, q[i - 1], q[i]) && q[i] !in q[..i]
  {
    var id :| id in starts && MaximalExtension(g, maxLength, [id], q);
  }

  /** On a built graph a pure header stands only first and a footer only last, no chunk is repeated, and
      only a start on its own may exceed the length bound. */
  lemma HeadersFirstFootersLast(g: Graph, maxLength: int, starts: seq<int>, q: seq<int>)
    requires NoEdgeIntoHeader(g) && IsMaximalPath(g, maxLength, starts, q)
    ensures forall i :: 0 < i < |q| ==> q[i] in g.chunks && !PureHeader(g.chunks[q[i]])
    ensures forall i :: 0 <= i < |q| - 1 ==> q[i] in g.chunks && !g.chunks[q[i]].isFooter
    ensures Distinct(q)
    ensures |q| > 1 ==> |q| <= maxLength
  {
    forall i | 0 < i < |q| ensures q[i] in g.chunks && !PureHeader(g.chunks[q[i]]) {
      PathSteps(g, maxLength, starts, q, i);
      var e :| e in Successors(g, q[i - 1]) && e.dst == q[i];
    }
    forall i | 0 <= i < |q| - 1 ensures q[i] in g.chunks && !g.chunks[q[i]].isFooter {
      PathSteps(g, maxLength, starts, q, i + 1);
      assert Last(q[..i + 1]) == q[i];
    }
    if |q| > 1 {
      PathSteps(g, maxLength, starts, q, |q| - 1);
    }
    forall i, j | 0 <= i < j < |q| ensures q[i] != q[j] {
      PathSteps(g, maxLength, starts, q, j);
      assert q[..j][i] == q[i];
    }
  }

  // ---------- The mutable graph ----------

  predicate AllIn(order: seq<int>, chunks: map<int, Chunk>) {
    forall i :: 0 <= i < |order| ==> order[i] in chunks
  }

  function ChunkList(order: seq<int>, chunks: map<int, Chunk>): (r: seq<Chunk>)
    requires AllIn(order, chunks)
    ensures |r| == |order| && forall i :: 0 <= i < |r| ==> r[i] == chunks[order[i]]
  {
    seq(|order|, i requires 0 <= i < |order| => chunks[order[i]])
  }

  function HeaderIds(order: seq<int>, chunks: map<int, Chunk>): seq<int>
    requires AllIn(order, chunks)
  {
    if order == [] then [] else
      (if chunks[order[0]].isHeader then [order[0]] else []) + HeaderIds(order[1..], chunks)
  }

  /** The header chunks in insertion order, or the first chunk when there is no header. */
  function Starts(order: seq<int>, chunks: map<int, Chunk>): seq<int>
    requires AllIn(order, chunks)
  {
    var headers := HeaderIds(order, chunks);
    if headers != [] then headers else if order != [] then [order[0]] else []
  }

  lemma {:induction false} HeaderIdsAre(order: seq<int>, chunks: map<int, Chunk>)
    requires AllIn(order, chunks)
    ensures forall id :: id in HeaderIds(order, chunks) <==>
      exists i :: 0 <= i < |order| && order[i] == id && chunks[id].isHeader
    ensures Distinct(order) ==> Distinct(HeaderIds(order, chunks))
  {
    if order != [] {
      HeaderIdsAre(order[1..], chunks);
      assert forall id :: id in order <==> id == order[0] || id in order[1..];
      if Distinct(order) {
        assert order[0] !in order[1..];
        if chunks[order[0]].isHeader {
          DistinctConcat([order[0]], HeaderIds(order[1..], chunks));
        }
      }
    }
  }

  lemma StartsAre(order: seq<int>, chunks: map<int, Chunk>)
    requires Distinct(order) && AllIn(order, chunks)
    ensures var starts := Starts(order, chunks);
      Distinct(starts) && AllIn(starts, chunks) && (starts == [] <==> order == [])
  {
    HeaderIdsAre(order, chunks);
    var headers := HeaderIds(order, chunks);
    forall i | 0 <= i < |headers| ensures headers[i] in chunks {
      assert headers[i] in headers;
      var j :| 0 <= j < |order| && order[j] == headers[i];
    }
  }

  /** The search starts from exactly the headers, or from the first chunk when there is none. */
  lemma StartsMean(order: seq<int>, chunks: map<int, Chunk>, id: int)
    requires AllIn(order, chunks)
    ensures if exists h <- order :: chunks[h].isHeader
            then id in Starts(order, chunks) <==> id in order && chunks[id].isHeader
            else Starts(order, chunks) == if order == [] then [] else [order[0]]
  {
    HeaderIdsAre(order, chunks);
    var headers := HeaderIds(order, chunks);
    forall h | h in order ensures h in headers <==> chunks[h].isHeader {
      var i :| 0 <= i < |order| && order[i] == h;
    }
    forall h | h in headers ensures h in order && chunks[h].isHeader {
      var i :| 0 <= i < |order| && order[i] == h && chunks[h].isHeader;
      assert order[i] in order;
    }
    assert id in headers <==> id in order && chunks[id].isHeader;
    assert headers != [] ==> headers[0] in headers;
    if exists h <- order :: chunks[h].isHeader {
      var h :| h in order && chunks[h].isHeader;
      assert h in headers;
      assert headers != [];
    }
  }

  /** The adjacency lists after the first `n` chunks of `list` have been processed. */
  ghost predicate BuiltUpTo(sc: Scoring, fileType: FileType, maxEdges: int, list: seq<Chunk>, n: nat,
                            adjacency: map<int, seq<Edge>>)
    requires n <= |list|
  {
    && (forall i :: 0 <= i < |list| ==> list[i].id in adjacency)
    && (forall id :: id in adjacency ==> exists i :: 0 <= i < |list| && list[i].id == id)
    && (forall i :: 0 <= i < n ==> adjacency[list[i].id] == Outgoing(sc, fileType, maxEdges, list[i], list))
    && (forall i :: n <= i < |list| ==> adjacency[list[i].id] == [])
  }

  lemma BuiltStep(sc: Scoring, fileType: FileType, maxEdges: int, list: seq<Chunk>, n: nat,
                  adjacency: map<int, seq<Edge>>)
    requires n < |list| && DistinctIds(list) && BuiltUpTo(sc, fileType, maxEdges, list, n, adjacency)
    ensures list[n].id in adjacency
    ensures BuiltUpTo(sc, fileType, maxEdges, list, n + 1,
                      adjacency[list[n].id := Outgoing(sc, fileType, maxEdges, list[n], list)])
    ensures PureFooter(list[n]) ==> BuiltUpTo(sc, fileType, maxEdges, list, n + 1, adjacency)
  {
    if PureFooter(list[n]) { FooterHasNoEdges(sc, fileType, maxEdges, list[n], list); }
    hide Outgoing, PureFooter;
    var next := adjacency[list[n].id := Outgoing(sc, fileType, maxEdges, list[n], list)];
    forall i | 0 <= i < |list| ensures i != n ==> next[list[i].id] == adjacency[list[i].id] {
      if i != n { assert list[i].id != list[n].id; }
    }
    forall id | id in next ensures exists i :: 0 <= i < |list| && list[i].id == id {
      if id == list[n].id { assert 0 <= n < |list|; }
    }
  }

  lemma FooterHasNoEdges(sc: Scoring, fileType: FileType, maxEdges: int, src: Chunk, list: seq<Chunk>)
    requires PureFooter(src)
    ensures Outgoing(sc, fileType, maxEdges, src, list) == []
  {}

  /** The graph `BuildGraph` leaves behind. */
  ghost predicate IsBuilt(g: Graph, sc: Scoring, fileType: FileType, maxEdges: int, list: seq<Chunk>) {
    && BuiltUpTo(sc, fileType, maxEdges, list, |list|, g.adjacency)
    && forall i :: 0 <= i < |list| ==> list[i].id in g.chunks && g.chunks[list[i].id] == list[i]
  }

  lemma BuiltSuccessors(g: Graph, sc: Scoring, fileType: FileType, maxEdges: int, list: seq<Chunk>, id: int)
    requires IsBuilt(g, sc, fileType, maxEdges, list) && DistinctIds(list)
    ensures DistinctTargets(Successors(g, id))
    ensures maxEdges >= 0 ==> |Successors(g, id)| <= maxEdges
    ensures forall e <- Successors(g, id) ::
              id in g.chunks && e.dst in g.chunks && e.dst != id
              && !PureFooter(g.chunks[id]) && !PureHeader(g.chunks[e.dst])
              && Seam(sc, g.chunks[id], g.chunks[e.dst]) >= sc.minContinuity
  {
    if id in g.adjacency {
      var i :| 0 <= i < |list| && list[i].id == id;
      var c := list[i];
      OutgoingAreBestSuccessors(sc, fileType, maxEdges, c, list);
      forall e <- Successors(g, id)
        ensures e.dst in g.chunks && e.dst != id && !PureFooter(c) && !PureHeader(g.chunks[e.dst])
        ensures Seam(sc, c, g.chunks[e.dst]) >= sc.minContinuity
      {
        var d :| d in list && Compatible(sc, c, d) && e == MakeEdge(sc, fileType, c, d);
        var j :| 0 <= j < |list| && list[j] == d;
      }
    }
  }

  // ---------- What an edge says, in the terms of its chunks ----------

  /** Every edge of a built graph: the seam is judged on the last and first 256 bytes, a target that does not start
      behind its source loses 0.1, and one off the sector grid 0.06. */
  lemma EdgeMeans(g: Graph, sc: Scoring, fileType: FileType, maxEdges: int, list: seq<Chunk>, id: int, e: Edge)
    requires IsBuilt(g, sc, fileType, maxEdges, list) && DistinctIds(list) && e in Successors(g, id)
    ensures id in g.chunks && e.dst in g.chunks && e.src == id
    ensures var s, d := g.chunks[id], g.chunks[e.dst];
      var seam := sc.seamScore(if |s.data| > 256 then s.data[|s.data| - 256..] else s.data,
                               if |d.data| > 256 then d.data[..256] else d.data);
      && e.seam == sc.round4(seam)
      && e.weight == sc.round4(0.6 * seam + (if d.offset >= s.offset + |s.data| then 0.2 else 0.1)
                               + (if d.offset % 512 == 0 then 0.2 else 0.14))
      && e.distance == d.offset - s.offset - |s.data| && (e.aligned <==> d.offset % 512 == 0)
      && (fileType == Jpeg ==> (e.formatOk <==> !(|d.data| >= 2 && d.data[0] == 0xFF && d.data[1] == 0xD8)))
      && (fileType == Png ==> (e.formatOk <==> !(|d.data| >= 4 && d.data[..4] == [0x89, 0x50, 0x4E, 0x47])))
      && (fileType == Raw ==> e.formatOk)
  {
    var c := BuiltSource(g, sc, fileType, maxEdges, list, id, e);
    hide IsBuilt, DistinctIds, Compatible, Successors;
    SeamIs(sc, g.chunks[id], c);
    hide Seam;
  }

  lemma SeamIs(sc: Scoring, s: Chunk, d: Chunk)
    ensures Seam(sc, s, d) == sc.seamScore(if |s.data| > 256 then s.data[|s.data| - 256..] else s.data,
                                           if |d.data| > 256 then d.data[..256] else d.data)
  {
    if |s.data| == 256 { assert s.data[0..] == s.data; }
    if |d.data| == 256 { assert d.data[..256] == d.data; }
  }

  lemma BuiltSource(g: Graph, sc: Scoring, fileType: FileType, maxEdges: int, list: seq<Chunk>, id: int, e: Edge)
    returns (c: Chunk)
    requires IsBuilt(g, sc, fileType, maxEdges, list) && DistinctIds(list) && e in Successors(g, id)
    ensures id in g.chunks && g.chunks[id].id == id && e.dst in g.chunks && c == g.chunks[e.dst]
    ensures c in list && Compatible(sc, g.chunks[id], c) && e == MakeEdge(sc, fileType, g.chunks[id], c)
  {
    var i :| 0 <= i < |list| && list[i].id == id;
    OutgoingAreBestSuccessors(sc, fileType, maxEdges, list[i], list);
    c :| c in list && Compatible(sc, list[i], c) && e == MakeEdge(sc, fileType, list[i], c);
    var j :| 0 <= j < |list| && list[j] == c;
  }

  ghost predicate OrderPreserving(round: real -> real) { forall x, y :: x <= y ==> round(x) <= round(y) }

  /** Between edges of one chunk with equal seams and equal alignment, one that leads forward never weighs less; with
      equal seams and equal direction, one that leads to an aligned chunk never weighs less. */
  lemma ForwardAndAlignedWin(g: Graph, sc: Scoring, fileType: FileType, maxEdges: int, list: seq<Chunk>, id: int,
                             e: Edge, f: Edge)
    requires IsBuilt(g, sc, fileType, maxEdges, list) && DistinctIds(list) && OrderPreserving(sc.round4)
    requires e in Successors(g, id) && f in Successors(g, id)
    requires id in g.chunks && e.dst in g.chunks && f.dst in g.chunks
    requires Seam(sc, g.chunks[id], g.chunks[e.dst]) == Seam(sc, g.chunks[id], g.chunks[f.dst])
    ensures e.aligned == f.aligned && e.distance >= 0 ==> e.weight >= f.weight
    ensures (e.distance >= 0 <==> f.distance >= 0) && e.aligned ==> e.weight >= f.weight
  {
    EdgeMeans(g, sc, fileType, maxEdges, list, id, e);
    EdgeMeans(g, sc, fileType, maxEdges, list, id, f);
    SeamIs(sc, g.chunks[id], g.chunks[e.dst]);
    SeamIs(sc, g.chunks[id], g.chunks[f.dst]);
    hide IsBuilt, DistinctIds, Successors, Seam;
  }

  /** And no edge is missing: a chunk that may follow another is its successor unless as many at least as good ones
      are. */
  lemma NoEdgeIsMissing(g: Graph, sc: Scoring, fileType: FileType, maxEdges: nat, list: seq<Chunk>, s: Chunk, d: Chunk)
    requires IsBuilt(g, sc, fileType, maxEdges, list) && DistinctIds(list) && s in list && d in list && s.id != d.id
    requires (s.isHeader || !s.isFooter) && (!d.isHeader || d.isFooter) && Seam(sc, s, d) >= sc.minContinuity
    ensures var weight := sc.round4(0.6 * Seam(sc, s, d) + (if d.offset >= s.offset + |s.data| then 0.2 else 0.1)
                                    + (if d.offset % 512 == 0 then 0.2 else 0.14));
      || (exists e <- Successors(g, s.id) :: e.dst == d.id)
      || (|Successors(g, s.id)| == maxEdges && forall kept <- Successors(g, s.id) :: kept.weight >= weight)
  {
    var i :| 0 <= i < |list| && list[i] == s;
    OutgoingAreBestSuccessors(sc, fileType, maxEdges, s, list);
    LeftOutOnlyWhenFull(sc, fileType, maxEdges, s, list, d);
    assert MakeEdge(sc, fileType, s, d).dst == d.id;
    hide Outgoing, Seam, DistinctIds;
  }

  /** A built graph is well formed, and no edge of it leads to a pure header or leaves a pure footer. */
  lemma BuiltGraph(g: Graph, sc: Scoring, fileType: FileType, maxEdges: int, list: seq<Chunk>)
    requires IsBuilt(g, sc, fileType, maxEdges, list) && DistinctIds(list)
    ensures WellFormed(g) && NoEdgeIntoHeader(g)
  {
    forall id
      ensures DistinctTargets(Successors(g, id))
      ensures forall e <- Successors(g, id) :: e.dst in g.chunks && !PureHeader(g.chunks[e.dst])
    {
      BuiltSuccessors(g, sc, fileType, maxEdges, list, id);
    }
  }

  lemma {:induction false} ScoredTargetsSnoc(sc: Scoring, fileType: FileType, src: Chunk, chunks: seq<Chunk>, c: Chunk)
    ensures ScoredTargets(sc, fileType, src, chunks + [c]) == ScoredTargets(sc, fileType, src, chunks)
              + if Compatible(sc, src, c) then [MakeEdge(sc, fileType, src, c)] else []
  {
    if chunks == [] {
      assert chunks + [c] == [c] && [c][1..] == [];
    } else {
      assert (chunks + [c])[1..] == chunks[1..] + [c];
      ScoredTargetsSnoc(sc, fileType, src, chunks[1..], c);
    }
  }

  method ScoreTargets(sc: Scoring, fileType: FileType, src: Chunk, list: seq<Chunk>) returns (scored: seq<Edge>)
    ensures scored == ScoredTargets(sc, fileType, src, list)
  {
    scored := [];
    for j := 0 to |list|
      invariant scored == ScoredTargets(sc, fileType, src, list[..j])
    {
      var dst := list[j];
      assert list[..j + 1] == list[..j] + [dst];
      ScoredTargetsSnoc(sc, fileType, src, list[..j], dst);
      if src.id == dst.id || PureHeader(dst) || Seam(sc, src, dst) < sc.minContinuity {
        continue;
      }
      scored := scored + [MakeEdge(sc, fileType, src, dst)];
    }
    assert list[..|list|] == list;
  }

  lemma {:induction false} AllEdgesSnoc(sc: Scoring, fileType: FileType, maxEdges: int, sources: seq<Chunk>,
                                        src: Chunk, chunks: seq<Chunk>)
    ensures AllEdges(sc, fileType, maxEdges, sources + [src], chunks)
         == AllEdges(sc, fileType, maxEdges, sources, chunks) + Outgoing(sc, fileType, maxEdges, src, chunks)
  {
    if sources == [] {
      assert sources + [src] == [src] && [src][1..] == [];
    } else {
      assert (sources + [src])[1..] == sources[1..] + [src];
      AllEdgesSnoc(sc, fileType, maxEdges, sources[1..], src, chunks);
    }
  }

  lemma ListIsDistinct(order: seq<int>, chunks: map<int, Chunk>)
    requires AllIn(order, chunks) && Distinct(order)
    requires forall id :: id in chunks ==> id in order && chunks[id].id == id
    ensures var list := ChunkList(order, chunks);
      && DistinctIds(list)
      && (forall i :: 0 <= i < |list| ==> list[i].id in chunks && chunks[list[i].id] == list[i])
      && (forall id :: id in chunks ==> exists i :: 0 <= i < |list| && list[i].id == id)
  {
    var list := ChunkList(order, chunks);
    forall i | 0 <= i < |list| ensures list[i].id == order[i] {
      assert order[i] in chunks;
    }
    forall id | id in chunks ensures exists i :: 0 <= i < |list| && list[i].id == id {
      var i :| 0 <= i < |order| && order[i] == id;
      assert list[i].id == id;
    }
  }

  lemma NoEdges(sc: Scoring, fileType: FileType, maxEdges: int, chunks: seq<Chunk>)
    ensures AllEdges(sc, fileType, maxEdges, [], chunks) == []
  {}

  /** The edge-building loop: one pass over the sources, one over the targets of each. */
  method BuildLists(sc: Scoring, fileType: FileType, maxEdges: int, list: seq<Chunk>, initial: map<int, seq<Edge>>)
    returns (edges: seq<Edge>, adjacency: map<int, seq<Edge>>)
    requires DistinctIds(list) && BuiltUpTo(sc, fileType, maxEdges, list, 0, initial)
    ensures BuiltUpTo(sc, fileType, maxEdges, list, |list|, adjacency) && adjacency.Keys == initial.Keys
    ensures edges == AllEdges(sc, fileType, maxEdges, list, list)
  {
    hide DistinctIds, BuiltUpTo, AllEdges, Outgoing, PureFooter;
    edges, adjacency := [], initial;
    NoEdges(sc, fileType, maxEdges, list);
    for i := 0 to |list|
      invariant BuiltUpTo(sc, fileType, maxEdges, list, i, adjacency) && adjacency.Keys == initial.Keys
      invariant edges == AllEdges(sc, fileType, maxEdges, list[..i], list)
    {
      var src := list[i];
      AllEdgesSnoc(sc, fileType, maxEdges, list[..i], src, list);
      assert list[..i + 1] == list[..i] + [src];
      BuiltStep(sc, fileType, maxEdges, list, i, adjacency);
      if PureFooter(src) {
        FooterHasNoEdges(sc, fileType, maxEdges, src, list);
        continue;
      }
      var kept := KeepBest(sc, fileType, maxEdges, src, list);
      edges := edges + kept;
      adjacency := adjacency[src.id := kept];
    }
    assert list[..|list|] == list;
  }

  method KeepBest(sc: Scoring, fileType: FileType, maxEdges: int, src: Chunk, list: seq<Chunk>)
    returns (kept: seq<Edge>)
    requires !PureFooter(src)
    ensures kept == Outgoing(sc, fileType, maxEdges, src, list)
  {
    var scored := ScoreTargets(sc, fileType, src, list);
    kept := Take(SortDescending(scored, ByWeight()), maxEdges);
  }

  /** Before the first chunk every adjacency list is empty. */
  lemma NothingBuilt(sc: Scoring, fileType: FileType, maxEdges: int, order: seq<int>, chunks: map<int, Chunk>,
                     initial: map<int, seq<Edge>>)
    requires AllIn(order, chunks) && Distinct(order)
    requires forall id :: id in chunks ==> id in order && chunks[id].id == id
    requires initial == map id | id in chunks :: []
    ensures BuiltUpTo(sc, fileType, maxEdges, ChunkList(order, chunks), 0, initial)
  {
    var list := ChunkList(order, chunks);
    forall i | 0 <= i < |list| ensures list[i].id in chunks {
      assert list[i] == chunks[order[i]] && chunks[order[i]].id == order[i];
    }
    forall id | id in initial ensures exists i :: 0 <= i < |list| && list[i].id == id {
      var i :| 0 <= i < |order| && order[i] == id;
      assert list[i] == chunks[id];
    }
  }

  /** Behind the last chunk the graph is built. */
  lemma FullyBuilt(sc: Scoring, fileType: FileType, maxEdges: int, order: seq<int>, chunks: map<int, Chunk>,
                   adjacency: map<int, seq<Edge>>)
    requires AllIn(order, chunks) && Distinct(order) && adjacency.Keys == chunks.Keys
    requires forall id :: id in chunks ==> id in order && chunks[id].id == id
    requires BuiltUpTo(sc, fileType, maxEdges, ChunkList(order, chunks), |ChunkList(order, chunks)|, adjacency)
    ensures IsBuilt(Graph(chunks, adjacency), sc, fileType, maxEdges, ChunkList(order, chunks))
  {
    ListIsDistinct(order, chunks);
    hide ChunkList, Distinct, AllIn;
  }

  method BuildFrom(sc: Scoring, fileType: FileType, maxEdges: int, order: seq<int>, chunks: map<int, Chunk>)
    returns (edges: seq<Edge>, adjacency: map<int, seq<Edge>>)
    requires AllIn(order, chunks) && Distinct(order)
    requires forall id :: id in chunks ==> id in order && chunks[id].id == id
    ensures IsBuilt(Graph(chunks, adjacency), sc, fileType, maxEdges, ChunkList(order, chunks))
    ensures WellFormed(Graph(chunks, adjacency)) && adjacency.Keys == chunks.Keys
    ensures edges == AllEdges(sc, fileType, maxEdges, ChunkList(order, chunks), ChunkList(order, chunks))
  {
    hide AllEdges, DistinctIds, WellFormed, BuiltUpTo, IsBuilt, Distinct;
    var list := ChunkList(order, chunks);
    var initial: map<int, seq<Edge>> := map id | id in chunks :: [];
    ListIsDistinct(order, chunks);
    NothingBuilt(sc, fileType, maxEdges, order, chunks, initial);
    edges, adjacency := BuildLists(sc, fileType, maxEdges, list, initial);
    FullyBuilt(sc, fileType, maxEdges, order, chunks, adjacency);
    BuiltGraph(Graph(chunks, adjacency), sc, fileType, maxEdges, list);
  }

  /** The search over all start chunks, and the selection. */
  method BestPaths(g: Graph, starts: seq<int>, maxPaths: int, maxLength: int) returns (best: seq<seq<int>>)
    requires WellFormed(g) && AllChunks(g, starts) && Distinct(starts)
    ensures AreBestPaths(g, maxLength, starts, maxPaths, best)
    ensures var sorted := PathsOf(SortDescending(ExploreStarts(g, maxLength, starts), ByScore()));
            best == sorted[..Min(Limit(maxPaths), |sorted|)]
  {
    var allPaths: seq<Scored> := [];
    for i := 0 to |starts|
      invariant AllChunks(g, starts[..i])
      invariant allPaths == ExploreStarts(g, maxLength, starts[..i])
    {
      assert starts[..i + 1][..i] == starts[..i] && starts[..i + 1][i] == starts[i];
      var found := SearchFrom(g, maxLength, starts[i]);
      allPaths := allPaths + found;
    }
    assert starts[..|starts|] == starts;
    ExploreStartsIsExact(g, maxLength, starts);
    best := SelectBest(allPaths, maxPaths);
    SortedPathsAreRanked(g, maxLength, starts);
    PrefixIsBest(g, maxLength, starts, maxPaths, PathsOf(SortDescending(allPaths, ByScore())));
  }

  // ---------- Building, then searching ----------

  /** A path that may be read as one file: no chunk twice, a pure header only first, a footer only last, and every
      chunk continuing the one before it. */
  ghost predicate IsReconstruction(chunks: map<int, Chunk>, sc: Scoring, q: seq<int>) {
    && q != [] && Distinct(q) && AllIn(q, chunks)
    && (forall i :: 0 < i < |q| ==> !PureHeader(chunks[q[i]]))
    && (forall i :: 0 <= i < |q| - 1 ==> !chunks[q[i]].isFooter)
    && (forall i :: 0 < i < |q| ==> Seam(sc, chunks[q[i - 1]], chunks[q[i]]) >= sc.minContinuity)
  }

  ghost predicate HasHeader(order: seq<int>, chunks: map<int, Chunk>)
    requires AllIn(order, chunks)
  {
    exists i :: 0 <= i < |order| && chunks[order[i]].isHeader
  }

  lemma StartIsHeader(order: seq<int>, chunks: map<int, Chunk>, id: int)
    requires AllIn(order, chunks) && id in Starts(order, chunks)
    ensures id in chunks && (HasHeader(order, chunks) ==> chunks[id].isHeader)
  {
    HeaderIdsAre(order, chunks);
    if HasHeader(order, chunks) {
      var i :| 0 <= i < |order| && chunks[order[i]].isHeader;
      var id := order[i];
      assert exists j :: 0 <= j < |order| && order[j] == id && chunks[id].isHeader;
    }
  }

  lemma MaximalPathStarts(g: Graph, maxLength: int, starts: seq<int>, q: seq<int>)
    requires IsMaximalPath(g, maxLength, starts, q)
    ensures q != [] && q[0] in starts
  {
    var id :| id in starts && MaximalExtension(g, maxLength, [id], q);
  }

  lemma BuiltPath(g: Graph, sc: Scoring, fileType: FileType, maxEdges: int, list: seq<Chunk>, maxLength: int,
                  starts: seq<int>, q: seq<int>)
    requires IsBuilt(g, sc, fileType, maxEdges, list) && DistinctIds(list)
    requires AllChunks(g, starts) && IsMaximalPath(g, maxLength, starts, q)
    ensures IsReconstruction(g.chunks, sc, q) && (|q| > 1 ==> |q| <= maxLength)
  {
    BuiltGraph(g, sc, fileType, maxEdges, list);
    HeadersFirstFootersLast(g, maxLength, starts, q);
    MaximalPathStarts(g, maxLength, starts, q);
    forall i | 0 < i < |q| ensures Seam(sc, g.chunks[q[i - 1]], g.chunks[q[i]]) >= sc.minContinuity {
      PathSteps(g, maxLength, starts, q, i);
      BuiltSuccessors(g, sc, fileType, maxEdges, list, q[i - 1]);
    }
  }

  /** `build_graph` and then `find_best_paths`: every path returned is a reconstruction of bounded length, and it
      starts with a header whenever there is one. */
  lemma FoundPathsAreReconstructions(order: seq<int>, chunks: map<int, Chunk>, adjacency: map<int, seq<Edge>>,
                                     sc: Scoring, fileType: FileType, maxEdges: int, maxPaths: int, maxLength: int,
                                     best: seq<seq<int>>)
    requires AllIn(order, chunks) && Distinct(order)
    requires forall id :: id in chunks ==> id in order && chunks[id].id == id
    requires IsBuilt(Graph(chunks, adjacency), sc, fileType, maxEdges, ChunkList(order, chunks))
    requires AreBestPaths(Graph(chunks, adjacency), maxLength, Starts(order, chunks), maxPaths, best)
    ensures forall q <- best ::
      && IsReconstruction(chunks, sc, q)
      && (|q| > 1 ==> |q| <= maxLength)
      && (HasHeader(order, chunks) ==> chunks[q[0]].isHeader)
  {
    var g, starts := Graph(chunks, adjacency), Starts(order, chunks);
    ListIsDistinct(order, chunks);
    StartsAre(order, chunks);
    forall q <- best
      ensures IsReconstruction(chunks, sc, q) && (|q| > 1 ==> |q| <= maxLength)
      ensures HasHeader(order, chunks) ==> chunks[q[0]].isHeader
    {
      BuiltPath(g, sc, fileType, maxEdges, ChunkList(order, chunks), maxLength, starts, q);
      MaximalPathStarts(g, maxLength, starts, q);
      StartIsHeader(order, chunks, q[0]);
    }
  }

  class FragmentGraph {
    const maxNodes: int
    const maxEdgesPerNode: int
    const scoring: Scoring
    /** The dictionary of chunks: its keys in insertion order, and its values. */
    var order: seq<int>
    var chunks: map<int, Chunk>
    var edges: seq<Edge>
    var adjacency: map<int, seq<Edge>>

    ghost predicate Valid()
      reads this
    {
      && Distinct(order) && AllIn(order, chunks) && (forall id :: id in chunks ==> id in order)
      && adjacency.Keys == chunks.Keys
      && (forall id <- chunks :: chunks[id].id == id)
      && WellFormed(Graph(chunks, adjacency))
    }

    constructor (maxNodes: int, maxEdgesPerNode: int, scoring: Scoring)
      ensures Valid() && chunks == map[] && order == [] && edges == [] && adjacency == map[]
      ensures this.maxNodes == maxNodes && this.maxEdgesPerNode == maxEdgesPerNode && this.scoring == scoring
    {
      this.maxNodes, this.maxEdgesPerNode, this.scoring := maxNodes, maxEdgesPerNode, scoring;
      order, chunks, edges, adjacency := [], map[], [], map[];
    }

    /** The capacity check comes first, so a full graph refuses even a chunk it already holds. */
    method AddChunk(chunk: Chunk) returns (added: bool)
      requires Valid()
      modifies this
      ensures Valid() && edges == old(edges)
      ensures added == (|old(chunks)| < maxNodes)
      ensures added ==> chunks == old(chunks)[chunk.id := chunk]
      ensures added ==> order == if chunk.id in old(chunks) then old(order) else old(order) + [chunk.id]
      ensures added ==>
        adjacency == if chunk.id in old(adjacency) then old(adjacency) else old(adjacency)[chunk.id := []]
      ensures !added ==> chunks == old(chunks) && order == old(order) && adjacency == old(adjacency)
    {
      if |chunks| >= maxNodes {
        return false;
      }
      if chunk.id !in chunks {
        order := order + [chunk.id];
      }
      chunks := chunks[chunk.id := chunk];
      if chunk.id !in adjacency {
        adjacency := adjacency[chunk.id := []];
      }
      assert WellFormed(Graph(chunks, adjacency)) by {
        forall id ensures DistinctTargets(Successors(Graph(chunks, adjacency), id))
                       && forall e <- Successors(Graph(chunks, adjacency), id) :: e.dst in chunks {
          assert Successors(Graph(chunks, adjacency), id) == Successors(old(Graph(chunks, adjacency)), id);
        }
      }
      return true;
    }

    method BuildGraph(fileType: FileType) returns (edgeCount: nat)
      requires Valid()
      modifies this`edges, this`adjacency
      ensures Valid()
      ensures IsBuilt(Graph(chunks, adjacency), scoring, fileType, maxEdgesPerNode, ChunkList(order, chunks))
      ensures edges == AllEdges(scoring, fileType, maxEdgesPerNode, ChunkList(order, chunks), ChunkList(order, chunks))
      ensures edgeCount == |edges|
    {
      hide IsBuilt, AllEdges;
      edges, adjacency := BuildFrom(scoring, fileType, maxEdgesPerNode, order, chunks);
      edgeCount := |edges|;
    }

    method FindBestPaths(maxPaths: int, maxLength: int) returns (best: seq<seq<int>>)
      requires Valid()
      ensures var g, starts := Graph(chunks, adjacency), Starts(order, chunks);
              && WellFormed(g) && AllChunks(g, starts)
              && AreBestPaths(g, maxLength, starts, maxPaths, best)
              && var sorted := PathsOf(SortDescending(ExploreStarts(g, maxLength, starts), ByScore()));
                 best == sorted[..Min(Limit(maxPaths), |sorted|)]
    {
      StartsAre(order, chunks);
      best := BestPaths(Graph(chunks, adjacency), Starts(order, chunks), maxPaths, maxLength);
    }
  }
}
