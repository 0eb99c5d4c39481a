/** The bounded compatibility graph of `fragment_engine.py`: edge construction and the explicit-stack
    search for the highest-scoring fragment orders.

    Weights are reals.  The seam continuity score is a parameter, and so is the rounding of a weight to
    four decimals; every theorem holds for all of them.
 */
module FragmentEdges {
  import opened Basics
  import opened Sorting

  datatype Chunk = Chunk(id: int, offset: int, data: Bytes, isHeader: bool, isFooter: bool)

  datatype Edge = Edge(src: int, dst: int, weight: real, distance: int, seam: real, formatOk: bool, aligned: bool)

  /** The scoring half of the configuration. */
  datatype Scoring = Scoring(minContinuity: real, seamScore: (Bytes, Bytes) -> real, round4: real -> real)

  predicate PureFooter(c: Chunk) { c.isFooter && !c.isHeader }

  predicate PureHeader(c: Chunk) { c.isHeader && !c.isFooter }

  // ---------- Edge construction ----------

  function LastBytes<T>(s: seq<T>, n: nat): seq<T> { if |s| <= n then s else s[|s| - n..] }

  function FirstBytes<T>(s: seq<T>, n: nat): seq<T> { if |s| <= n then s else s[..n] }

  function Seam(sc: Scoring, src: Chunk, dst: Chunk): real {
    sc.seamScore(LastBytes(src.data, 256), FirstBytes(dst.data, 256))
  }

  datatype FileType = Jpeg | Png | Raw

  /** Recorded on the edge as evidence; it does not exclude the edge. */
  predicate FormatOk(fileType: FileType, dst: Chunk) {
    match fileType
    case Jpeg => !([0xff, 0xd8] <= dst.data)
    case Png => !([0x89, 0x50, 0x4e, 0x47] <= dst.data)
    case Raw => true
  }

  function MakeEdge(sc: Scoring, fileType: FileType, src: Chunk, dst: Chunk): Edge {
    var seam := Seam(sc, src, dst);
    var distance := dst.offset - (src.offset + |src.data|);
    var aligned := dst.offset % 512 == 0;
    var weight := 0.60 * seam + 0.20 * (if distance >= 0 then 1.0 else 0.5) + 0.20 * (if aligned then 1.0 else 0.7);
    Edge(src.id, dst.id, sc.round4(weight), distance, sc.round4(seam), FormatOk(fileType, dst), aligned)
  }

  /** May `dst` follow `src` at all? */
  predicate Compatible(sc: Scoring, src: Chunk, dst: Chunk) {
    src.id != dst.id && !PureHeader(dst) && Seam(sc, src, dst) >= sc.minContinuity
  }

  function ScoredTargets(sc: Scoring, fileType: FileType, src: Chunk, chunks: seq<Chunk>): seq<Edge> {
    if chunks == [] then []
    else (if Compatible(sc, src, chunks[0]) then [MakeEdge(sc, fileType, src, chunks[0])] else [])
         + ScoredTargets(sc, fileType, src, chunks[1..])
  }

  /** Python's `s[:n]`: a negative bound counts from the end. */
  function Take<T>(s: seq<T>, n: int): seq<T> {
    if n >= |s| then s else if n >= 0 then s[..n] else if -n <= |s| then s[..|s| + n] else []
  }

  function ByWeight(): Edge -> real { (e: Edge) => e.weight }

  /** The outgoing edges of `src`: its best `maxEdges` compatible successors. */
  function Outgoing(sc: Scoring, fileType: FileType, maxEdges: int, src: Chunk, chunks: seq<Chunk>): seq<Edge> {
    if PureFooter(src) then []
    else Take(SortDescending(ScoredTargets(sc, fileType, src, chunks), ByWeight()), maxEdges)
  }

  function AllEdges(sc: Scoring, fileType: FileType, maxEdges: int, sources: seq<Chunk>,
                    chunks: seq<Chunk>): seq<Edge> {
    if sources == [] then []
    else Outgoing(sc, fileType, maxEdges, sources[0], chunks)
         + AllEdges(sc, fileType, maxEdges, sources[1..], chunks)
  }

  ghost predicate DistinctIds(chunks: seq<Chunk>) {
    forall i, j :: 0 <= i < j < |chunks| ==> chunks[i].id != chunks[j].id
  }

  ghost predicate DistinctTargets(edges: seq<Edge>) {
    forall i, j :: 0 <= i < j < |edges| ==> edges[i].dst != edges[j].dst
  }

  lemma {:induction false} ScoredTargetsAre(sc: Scoring, fileType: FileType, src: Chunk, chunks: seq<Chunk>)
    ensures forall e :: e in ScoredTargets(sc, fileType, src, chunks)
                   <==> exists c <- chunks :: Compatible(sc, src, c) && e == MakeEdge(sc, fileType, src, c)
    ensures DistinctIds(chunks) ==> DistinctTargets(ScoredTargets(sc, fileType, src, chunks))
  {
    if chunks != [] {
      var rest := ScoredTargets(sc, fileType, src, chunks[1..]);
      ScoredTargetsAre(sc, fileType, src, chunks[1..]);
      assert forall c :: c in chunks <==> c == chunks[0] || c in chunks[1..];
      if DistinctIds(chunks) {
        forall c <- chunks[1..] ensures c.id != chunks[0].id {
          var i :| 0 <= i < |chunks[1..]| && chunks[1..][i] == c;
          assert chunks[i + 1] == c;
        }
        forall e <- rest ensures e.dst != chunks[0].id {
          var c :| c in chunks[1..] && Compatible(sc, src, c) && e == MakeEdge(sc, fileType, src, c);
        }
      }
    }
  }

  lemma TakeIsPrefix<T>(s: seq<T>, n: int)
    ensures Take(s, n) <= s && (n >= 0 ==> |Take(s, n)| <= n)
  {}

  lemma DistinctTargetsPrefix(s: seq<Edge>, t: seq<Edge>)
    requires t <= s && DistinctTargets(s)
    ensures DistinctTargets(t)
  {}

  lemma {:induction false} TargetsDistinctAfterSort(s: seq<Edge>, t: seq<Edge>)
    requires DistinctTargets(s) && multiset(s) == multiset(t)
    ensures DistinctTargets(t)
  {
    PermutationOfDistinct(s, t);
    forall i, j | 0 <= i < j < |t| ensures t[i].dst != t[j].dst {
      assert t[i] in multiset(s) && t[j] in multiset(s);
      var a :| 0 <= a < |s| && s[a] == t[i];
      var b :| 0 <= b < |s| && s[b] == t[j];
      assert t[i] != t[j] && a != b;
      if a < b { assert s[a].dst != s[b].dst; } else { assert s[b].dst != s[a].dst; }
    }
  }

  /** What an adjacency list holds: edges of `src` to distinct compatible chunks, at most `maxEdges` of them,
      in non-increasing weight order, and no compatible chunk left out outweighs one that was kept. */
  lemma OutgoingAreBestSuccessors(sc: Scoring, fileType: FileType, maxEdges: int, src: Chunk, chunks: seq<Chunk>)
    requires DistinctIds(chunks)
    ensures var out := Outgoing(sc, fileType, maxEdges, src, chunks);
      && DistinctTargets(out)
      && (maxEdges >= 0 ==> |out| <= maxEdges)
      && (forall i, j :: 0 <= i < j < |out| ==> out[i].weight >= out[j].weight)
      && (forall e <- out :: !PureFooter(src)
            && exists c <- chunks :: Compatible(sc, src, c) && e == MakeEdge(sc, fileType, src, c))
      && (!PureFooter(src) ==> forall c <- chunks | Compatible(sc, src, c) ::
            var e := MakeEdge(sc, fileType, src, c); e in out || forall kept <- out :: kept.weight >= e.weight)
  {
    if !PureFooter(src) {
      var all := ScoredTargets(sc, fileType, src, chunks);
      var sorted := SortDescending(all, ByWeight());
      var out := Outgoing(sc, fileType, maxEdges, src, chunks);
      ScoredTargetsAre(sc, fileType, src, chunks);
      SortIsPermutation(all, ByWeight());
      SortIsDescending(all, ByWeight());
      TargetsDistinctAfterSort(all, sorted);
      TakeIsPrefix(sorted, maxEdges);
      DistinctTargetsPrefix(sorted, out);
      forall i, j | 0 <= i < j < |sorted| ensures sorted[i].weight >= sorted[j].weight {
        assert ByWeight()(sorted[i]) >= ByWeight()(sorted[j]);
      }
      forall e <- out ensures e in all {
        assert e in sorted && e in multiset(sorted);
      }
      forall c <- chunks | Compatible(sc, src, c)
        ensures var e := MakeEdge(sc, fileType, src, c); e in out || forall kept <- out :: kept.weight >= e.weight
      {
        BestWereKept(all, sorted, out, MakeEdge(sc, fileType, src, c));
      }
    }
  }

  /** A successor is only left out when the list is full. */
  lemma LeftOutOnlyWhenFull(sc: Scoring, fileType: FileType, maxEdges: nat, src: Chunk, chunks: seq<Chunk>, c: Chunk)
    requires !PureFooter(src) && c in chunks && Compatible(sc, src, c)
    ensures var out := Outgoing(sc, fileType, maxEdges, src, chunks);
      MakeEdge(sc, fileType, src, c) in out || |out| == maxEdges
  {
    hide MakeEdge, Compatible;
    var all, e := ScoredTargets(sc, fileType, src, chunks), MakeEdge(sc, fileType, src, c);
    ScoredTargetsAre(sc, fileType, src, chunks);
    SortIsPermutation(all, ByWeight());
    assert e in all;
    assert e in multiset(all);
    assert e in SortDescending(all, ByWeight());
  }

  /** How many successors are kept: at most the limit, and a negative limit drops that many of the worst. */
  lemma KeptCount(sc: Scoring, fileType: FileType, maxEdges: int, src: Chunk, chunks: seq<Chunk>)
    requires !PureFooter(src)
    ensures var all, out := |ScoredTargets(sc, fileType, src, chunks)|, Outgoing(sc, fileType, maxEdges, src, chunks);
      |out| == if maxEdges >= 0 then (if maxEdges < all then maxEdges else all)
               else if all + maxEdges > 0 then all + maxEdges else 0
  {
    hide ScoredTargets;
    SortIsPermutation(ScoredTargets(sc, fileType, src, chunks), ByWeight());
  }

  lemma BestWereKept(all: seq<Edge>, sorted: seq<Edge>, out: seq<Edge>, e: Edge)
    requires e in all && multiset(all) == multiset(sorted) && out <= sorted
    requires forall i, j :: 0 <= i < j < |sorted| ==> sorted[i].weight >= sorted[j].weight
    ensures e in out || forall kept <- out :: kept.weight >= e.weight
  {
    assert e in multiset(sorted);
    var k :| 0 <= k < |sorted| && sorted[k] == e;
    if k < |out| { assert out[k] == e; }
  }

  // ---------- The searched graph, as a value ----------

  datatype Graph = Graph(chunks: map<int, Chunk>, adjacency: map<int, seq<Edge>>)

  function Successors(g: Graph, id: int): seq<Edge> {
    if id in g.adjacency then g.adjacency[id] else []
  }

  /** Every edge leads to a chunk, and no list has two edges to the same one. */
  ghost predicate WellFormed(g: Graph) {
    forall id :: DistinctTargets(Successors(g, id)) && forall e <- Successors(g, id) :: e.dst in g.chunks
  }

  function Unvisited(edges: seq<Edge>, visited: set<int>): seq<Edge> {
    if edges == [] then []
    else (if edges[0].dst !in visited then [edges[0]] else []) + Unvisited(edges[1..], visited)
  }

  datatype Scored = Scored(score: real, path: seq<int>)

  /** One entry of the search stack. */
  datatype Entry = Entry(path: seq<int>, score: real, visited: set<int>)

  function Last(p: seq<int>): int
    requires p != []
  {
    p[|p| - 1]
  }

  ghost predicate ValidEntry(g: Graph, e: Entry) {
    && e.path != [] && Last(e.path) in g.chunks
    && e.visited == (set x <- e.path) && e.visited <= g.chunks.Keys
  }

  /** Does the search record the path instead of extending it? */
  predicate Stops(g: Graph, maxLength: int, e: Entry)
    requires e.path != [] && Last(e.path) in g.chunks
  {
    g.chunks[Last(e.path)].isFooter || |e.path| >= maxLength
    || Unvisited(Successors(g, Last(e.path)), e.visited) == []
  }

  function Next(e: Entry, edge: Edge): Entry {
    Entry(e.path + [edge.dst], e.score * edge.weight, e.visited + {edge.dst})
  }

  lemma {:induction false} UnvisitedAre(edges: seq<Edge>, visited: set<int>)
    ensures forall e :: e in Unvisited(edges, visited) <==> e in edges && e.dst !in visited
    ensures DistinctTargets(edges) ==> DistinctTargets(Unvisited(edges, visited))
  {
    if edges != [] {
      UnvisitedAre(edges[1..], visited);
      assert forall e :: e in edges <==> e == edges[0] || e in edges[1..];
      if DistinctTargets(edges) {
        forall e <- Unvisited(edges[1..], visited) ensures e.dst != edges[0].dst {
          var i :| 0 <= i < |edges[1..]| && edges[1..][i] == e;
          assert edges[i + 1] == e;
        }
      }
    }
  }

  lemma NextIsValid(g: Graph, e: Entry, edge: Edge)
    requires WellFormed(g) && ValidEntry(g, e)
    requires edge in Unvisited(Successors(g, Last(e.path)), e.visited)
    ensures ValidEntry(g, Next(e, edge))
    ensures |g.chunks.Keys - Next(e, edge).visited| < |g.chunks.Keys - e.visited|
  {
    UnvisitedAre(Successors(g, Last(e.path)), e.visited);
    assert g.chunks.Keys - e.visited == (g.chunks.Keys - Next(e, edge).visited) + {edge.dst};
    assert forall x :: x in Next(e, edge).path <==> x in e.path || x == edge.dst;
  }
}
