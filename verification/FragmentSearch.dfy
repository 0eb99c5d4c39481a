/** `find_best_paths`: the explicit-stack search, the recursive enumeration it refines, and what that
    enumeration contains. */
module FragmentSearch {
  import opened Sorting
  import opened FragmentEdges

  // ---------- The recursive enumeration ----------

  /** The paths the search records below one stack entry, in the order it records them. */
  ghost function Explore(g: Graph, maxLength: int, e: Entry): seq<Scored>
    requires WellFormed(g) && ValidEntry(g, e)
    decreases |g.chunks.Keys - e.visited|, 1, 0
  {
    if Stops(g, maxLength, e) then [Scored(e.score, e.path)]
    else ExploreAll(g, maxLength, e, Unvisited(Successors(g, Last(e.path)), e.visited))
  }

  /** The last edge is pushed last, so it is explored first. */
  ghost function ExploreAll(g: Graph, maxLength: int, e: Entry, out: seq<Edge>): seq<Scored>
    requires WellFormed(g) && ValidEntry(g, e)
    requires forall edge <- out :: edge in Unvisited(Successors(g, Last(e.path)), e.visited)
    decreases |g.chunks.Keys - e.visited|, 0, |out|
  {
    if out == [] then [] else
      var edge := out[|out| - 1];
      NextIsValid(g, e, edge);
      Explore(g, maxLength, Next(e, edge)) + ExploreAll(g, maxLength, e, out[..|out| - 1])
  }

  /** The number of stack entries the search pops below one entry: its termination measure. */
  ghost function Visits(g: Graph, maxLength: int, e: Entry): nat
    requires WellFormed(g) && ValidEntry(g, e)
    decreases |g.chunks.Keys - e.visited|, 1, 0
  {
    if Stops(g, maxLength, e) then 1
    else 1 + VisitsAll(g, maxLength, e, Unvisited(Successors(g, Last(e.path)), e.visited))
  }

  ghost function VisitsAll(g: Graph, maxLength: int, e: Entry, out: seq<Edge>): nat
    requires WellFormed(g) && ValidEntry(g, e)
    requires forall edge <- out :: edge in Unvisited(Successors(g, Last(e.path)), e.visited)
    decreases |g.chunks.Keys - e.visited|, 0, |out|
  {
    if out == [] then 0 else
      var edge := out[|out| - 1];
      NextIsValid(g, e, edge);
      Visits(g, maxLength, Next(e, edge)) + VisitsAll(g, maxLength, e, out[..|out| - 1])
  }

  ghost predicate ValidStack(g: Graph, stack: seq<Entry>) {
    forall e <- stack :: ValidEntry(g, e)
  }

  ghost function Pending(g: Graph, maxLength: int, stack: seq<Entry>): seq<Scored>
    requires WellFormed(g) && ValidStack(g, stack)
  {
    if stack == [] then []
    else Explore(g, maxLength, stack[|stack| - 1]) + Pending(g, maxLength, stack[..|stack| - 1])
  }

  ghost function PendingVisits(g: Graph, maxLength: int, stack: seq<Entry>): nat
    requires WellFormed(g) && ValidStack(g, stack)
  {
    if stack == [] then 0
    else Visits(g, maxLength, stack[|stack| - 1]) + PendingVisits(g, maxLength, stack[..|stack| - 1])
  }

  /** One push: the stack now owes the pushed entry's subtree first. */
  lemma PushOwes(g: Graph, maxLength: int, stack: seq<Entry>, e: Entry)
    requires WellFormed(g) && ValidStack(g, stack) && ValidEntry(g, e)
    ensures ValidStack(g, stack + [e])
    ensures Pending(g, maxLength, stack + [e]) == Explore(g, maxLength, e) + Pending(g, maxLength, stack)
    ensures PendingVisits(g, maxLength, stack + [e]) == Visits(g, maxLength, e) + PendingVisits(g, maxLength, stack)
  {
    var s := stack + [e];
    assert s[|s| - 1] == e && s[..|s| - 1] == stack;
  }

  method PushSuccessors(g: Graph, maxLength: int, stack: seq<Entry>, e: Entry, out: seq<Edge>)
    returns (pushed: seq<Entry>)
    requires WellFormed(g) && ValidStack(g, stack) && ValidEntry(g, e)
    requires out == Unvisited(Successors(g, Last(e.path)), e.visited)
    ensures ValidStack(g, pushed)
    ensures Pending(g, maxLength, pushed) == ExploreAll(g, maxLength, e, out) + Pending(g, maxLength, stack)
    ensures PendingVisits(g, maxLength, pushed) == VisitsAll(g, maxLength, e, out) + PendingVisits(g, maxLength, stack)
  {
    hide Pending, PendingVisits, Explore, Visits;
    pushed := stack;
    for i := 0 to |out|
      invariant ValidStack(g, pushed)
      invariant Pending(g, maxLength, pushed) == ExploreAll(g, maxLength, e, out[..i]) + Pending(g, maxLength, stack)
      invariant PendingVisits(g, maxLength, pushed)
             == VisitsAll(g, maxLength, e, out[..i]) + PendingVisits(g, maxLength, stack)
    {
      NextIsValid(g, e, out[i]);
      PushOwes(g, maxLength, pushed, Next(e, out[i]));
      OneMoreSuccessor(g, maxLength, e, out, i, Pending(g, maxLength, stack));
      pushed := pushed + [Next(e, out[i])];
    }
    assert out[..|out|] == out;
  }

  lemma OneMoreSuccessor(g: Graph, maxLength: int, e: Entry, out: seq<Edge>, i: nat, rest: seq<Scored>)
    requires WellFormed(g) && ValidEntry(g, e) && i < |out|
    requires forall edge <- out :: edge in Unvisited(Successors(g, Last(e.path)), e.visited)
    ensures ValidEntry(g, Next(e, out[i]))
    ensures ExploreAll(g, maxLength, e, out[..i + 1]) + rest
         == Explore(g, maxLength, Next(e, out[i])) + (ExploreAll(g, maxLength, e, out[..i]) + rest)
    ensures VisitsAll(g, maxLength, e, out[..i + 1])
         == Visits(g, maxLength, Next(e, out[i])) + VisitsAll(g, maxLength, e, out[..i])
  {
    hide Next, Explore, Visits, WellFormed, ValidEntry;
    NextIsValid(g, e, out[i]);
    var prefix := out[..i + 1];
    assert prefix[..i] == out[..i] && prefix[i] == out[i] && |prefix| == i + 1;
  }

  function Start(id: int): Entry { Entry([id], 1.0, {id}) }

  lemma StartIsValid(g: Graph, id: int)
    requires id in g.chunks
    ensures ValidEntry(g, Start(id))
  {}

  lemma NothingPending(g: Graph, maxLength: int)
    requires WellFormed(g)
    ensures ValidStack(g, []) && Pending(g, maxLength, []) == []
  {}

  /** One pop. */
  lemma PopOwes(g: Graph, maxLength: int, stack: seq<Entry>)
    requires WellFormed(g) && ValidStack(g, stack) && stack != []
    ensures var e, rest := stack[|stack| - 1], stack[..|stack| - 1];
      && ValidEntry(g, e) && ValidStack(g, rest)
      && Pending(g, maxLength, stack) == Explore(g, maxLength, e) + Pending(g, maxLength, rest)
      && PendingVisits(g, maxLength, stack) == Visits(g, maxLength, e) + PendingVisits(g, maxLength, rest)
  {}

  /** What the popped entry adds. */
  lemma EntryExplores(g: Graph, maxLength: int, e: Entry)
    requires WellFormed(g) && ValidEntry(g, e)
    ensures var out := Unvisited(Successors(g, Last(e.path)), e.visited);
      if g.chunks[Last(e.path)].isFooter || |e.path| >= maxLength || out == []
      then Explore(g, maxLength, e) == [Scored(e.score, e.path)] && Visits(g, maxLength, e) == 1
      else Explore(g, maxLength, e) == ExploreAll(g, maxLength, e, out)
           && Visits(g, maxLength, e) == 1 + VisitsAll(g, maxLength, e, out)
  {}

  predicate IsLeaf(g: Graph, maxLength: int, e: Entry)
    requires WellFormed(g) && ValidEntry(g, e)
  {
    g.chunks[Last(e.path)].isFooter || |e.path| >= maxLength || Unvisited(Successors(g, Last(e.path)), e.visited) == []
  }

  /** One round of the loop: the popped entry is recorded, or its successors are owed next. */
  lemma PopExplores(g: Graph, maxLength: int, stack: seq<Entry>, found: seq<Scored>)
    requires WellFormed(g) && ValidStack(g, stack) && stack != []
    ensures var e, rest := stack[|stack| - 1], stack[..|stack| - 1];
      && ValidEntry(g, e) && ValidStack(g, rest)
      && var out := Unvisited(Successors(g, Last(e.path)), e.visited);
         if IsLeaf(g, maxLength, e)
         then found + Pending(g, maxLength, stack) == found + [Scored(e.score, e.path)] + Pending(g, maxLength, rest)
              && PendingVisits(g, maxLength, rest) < PendingVisits(g, maxLength, stack)
         else Pending(g, maxLength, stack) == ExploreAll(g, maxLength, e, out) + Pending(g, maxLength, rest)
              && VisitsAll(g, maxLength, e, out) + PendingVisits(g, maxLength, rest)
                 < PendingVisits(g, maxLength, stack)
  {
    hide Pending, PendingVisits, Explore, ExploreAll, Visits, VisitsAll, WellFormed, ValidStack, Unvisited;
    PopOwes(g, maxLength, stack);
    EntryExplores(g, maxLength, stack[|stack| - 1]);
  }

  /** The stack loop for one start chunk. */
  method SearchFrom(g: Graph, maxLength: int, start: int) returns (found: seq<Scored>)
    requires WellFormed(g) && start in g.chunks
    ensures ValidEntry(g, Start(start)) && found == Explore(g, maxLength, Start(start))
  {
    StartIsValid(g, start);
    var stack: seq<Entry> := [Start(start)];
    found := [];
    PushOwes(g, maxLength, [], Start(start));
    assert [] + [Start(start)] == stack;
    NothingPending(g, maxLength);
    hide Pending, PendingVisits, Explore, ExploreAll, Visits, VisitsAll, WellFormed, ValidStack, ValidEntry, Unvisited;
    while stack != []
      invariant ValidStack(g, stack)
      invariant found + Pending(g, maxLength, stack) == Explore(g, maxLength, Start(start))
      decreases PendingVisits(g, maxLength, stack)
    {
      PopExplores(g, maxLength, stack, found);
      var e := stack[|stack| - 1];
      stack := stack[..|stack| - 1];
      if g.chunks[Last(e.path)].isFooter || |e.path| >= maxLength {
        found := found + [Scored(e.score, e.path)];
      } else {
        var out := Unvisited(Successors(g, Last(e.path)), e.visited);
        if out == [] {
          found := found + [Scored(e.score, e.path)];
        } else {
          stack := PushSuccessors(g, maxLength, stack, e, out);
        }
      }
    }
  }

  // ---------- What the enumeration contains ----------

  predicate IsEdge(g: Graph, from: int, to: int) {
    exists e <- Successors(g, from) :: e.dst == to
  }

  /** May a path standing at `p` still be extended? */
  ghost predicate Extensible(g: Graph, maxLength: int, p: seq<int>)
    requires p != []
  {
    && Last(p) in g.chunks && !g.chunks[Last(p)].isFooter && |p| < maxLength
    && exists to :: IsEdge(g, Last(p), to) && to !in p
  }

  /** `q` continues `p` along edges to new chunks as long as that is possible, and no further. */
  ghost predicate MaximalExtension(g: Graph, maxLength: int, p: seq<int>, q: seq<int>)
    requires p != []
  {
    && p <= q
    && (forall i :: |p| <= i < |q| ==>
          Extensible(g, maxLength, q[..i]) && IsEdge(g, q[i - 1], q[i]) && q[i] !in q[..i])
    && !Extensible(g, maxLength, q)
  }

  lemma StopsIffNotExtensible(g: Graph, maxLength: int, e: Entry)
    requires WellFormed(g) && ValidEntry(g, e)
    ensures Stops(g, maxLength, e) <==> !Extensible(g, maxLength, e.path)
  {
    var last := Last(e.path);
    UnvisitedAre(Successors(g, last), e.visited);
    var out := Unvisited(Successors(g, last), e.visited);
    if out != [] {
      assert out[0] in out;
      assert IsEdge(g, last, out[0].dst) && out[0].dst !in e.path;
    }
    if Extensible(g, maxLength, e.path) {
      var to :| IsEdge(g, last, to) && to !in e.path;
      var edge :| edge in Successors(g, last) && edge.dst == to;
      assert edge in out;
    }
  }

  /** A maximal extension of an extensible path goes through exactly one of its successors. */
  lemma ExtensionStep(g: Graph, maxLength: int, p: seq<int>, to: int, q: seq<int>)
    requires p != [] && Extensible(g, maxLength, p) && IsEdge(g, Last(p), to) && to !in p
    ensures MaximalExtension(g, maxLength, p + [to], q)
       <==> MaximalExtension(g, maxLength, p, q) && |q| > |p| && q[|p|] == to
  {
    var n := |p|;
    if MaximalExtension(g, maxLength, p + [to], q) {
      assert q[..n] == p && q[n] == to;
      assert p + [to] <= q;
      forall i | n <= i < |q|
        ensures Extensible(g, maxLength, q[..i]) && IsEdge(g, q[i - 1], q[i]) && q[i] !in q[..i] {
        if i == n { assert q[n - 1] == Last(p); }
      }
    }
    if MaximalExtension(g, maxLength, p, q) && |q| > n && q[n] == to {
      assert p + [to] <= q;
    }
  }

  lemma ExtensionHead(g: Graph, maxLength: int, p: seq<int>, q: seq<int>)
    requires p != [] && MaximalExtension(g, maxLength, p, q)
    ensures |q| > |p| ==> Extensible(g, maxLength, p) && IsEdge(g, q[|p| - 1], q[|p|]) && q[|p|] !in p
    ensures |q| <= |p| ==> q == p && !Extensible(g, maxLength, p)
  {
    assert q[..|p|] == p;
  }

  ghost function PathsOf(found: seq<Scored>): seq<seq<int>> {
    seq(|found|, i requires 0 <= i < |found| => found[i].path)
  }

  lemma PathsOfConcat(a: seq<Scored>, b: seq<Scored>)
    ensures PathsOf(a + b) == PathsOf(a) + PathsOf(b)
  {}

  /** The enumeration records exactly the maximal extensions of its entry's path. */
  lemma {:induction false} ExploreIsExact(g: Graph, maxLength: int, e: Entry, q: seq<int>)
    requires WellFormed(g) && ValidEntry(g, e)
    ensures q in PathsOf(Explore(g, maxLength, e)) <==> MaximalExtension(g, maxLength, e.path, q)
    decreases |g.chunks.Keys - e.visited|, 1, 0
  {
    StopsIffNotExtensible(g, maxLength, e);
    if Stops(g, maxLength, e) {
      var only := [Scored(e.score, e.path)];
      assert PathsOf(only) == [e.path];
      if MaximalExtension(g, maxLength, e.path, q) {
        ExtensionHead(g, maxLength, e.path, q);
      }
    } else {
      var out := Unvisited(Successors(g, Last(e.path)), e.visited);
      ExploreAllIsExact(g, maxLength, e, out, q);
      UnvisitedAre(Successors(g, Last(e.path)), e.visited);
      if MaximalExtension(g, maxLength, e.path, q) {
        ExtensionHead(g, maxLength, e.path, q);
        var n := |e.path|;
        var edge :| edge in Successors(g, q[n - 1]) && edge.dst == q[n];
        assert edge in out;
      }
    }
  }

  lemma {:induction false} ExploreAllIsExact(g: Graph, maxLength: int, e: Entry, out: seq<Edge>, q: seq<int>)
    requires WellFormed(g) && ValidEntry(g, e) && !Stops(g, maxLength, e)
    requires forall edge <- out :: edge in Unvisited(Successors(g, Last(e.path)), e.visited)
    ensures q in PathsOf(ExploreAll(g, maxLength, e, out))
       <==> MaximalExtension(g, maxLength, e.path, q) && |q| > |e.path| && exists edge <- out :: edge.dst == q[|e.path|]
    decreases |g.chunks.Keys - e.visited|, 0, |out|
  {
    if out != [] {
      var shorter, edge := out[..|out| - 1], out[|out| - 1];
      assert forall x :: x in out <==> x in shorter || x == edge;
      NextIsValid(g, e, edge);
      UnvisitedAre(Successors(g, Last(e.path)), e.visited);
      StopsIffNotExtensible(g, maxLength, e);
      assert IsEdge(g, Last(e.path), edge.dst) && edge.dst !in e.path;
      ExtensionStep(g, maxLength, e.path, edge.dst, q);
      ExploreIsExact(g, maxLength, Next(e, edge), q);
      ExploreAllIsExact(g, maxLength, e, shorter, q);
      PathsOfConcat(Explore(g, maxLength, Next(e, edge)), ExploreAll(g, maxLength, e, shorter));
    }
  }

  /** ... each of them once. */
  lemma {:induction false} ExploreIsDistinct(g: Graph, maxLength: int, e: Entry)
    requires WellFormed(g) && ValidEntry(g, e)
    ensures Distinct(PathsOf(Explore(g, maxLength, e)))
    decreases |g.chunks.Keys - e.visited|, 1, 0
  {
    if !Stops(g, maxLength, e) {
      UnvisitedAre(Successors(g, Last(e.path)), e.visited);
      ExploreAllIsDistinct(g, maxLength, e, Unvisited(Successors(g, Last(e.path)), e.visited));
    }
  }

  lemma {:induction false} ExploreAllIsDistinct(g: Graph, maxLength: int, e: Entry, out: seq<Edge>)
    requires WellFormed(g) && ValidEntry(g, e) && !Stops(g, maxLength, e) && DistinctTargets(out)
    requires forall edge <- out :: edge in Unvisited(Successors(g, Last(e.path)), e.visited)
    ensures Distinct(PathsOf(ExploreAll(g, maxLength, e, out)))
    decreases |g.chunks.Keys - e.visited|, 0, |out|
  {
    if out != [] {
      var shorter, edge := out[..|out| - 1], out[|out| - 1];
      NextIsValid(g, e, edge);
      ExploreIsDistinct(g, maxLength, Next(e, edge));
      ExploreAllIsDistinct(g, maxLength, e, shorter);
      var first, rest := Explore(g, maxLength, Next(e, edge)), ExploreAll(g, maxLength, e, shorter);
      PathsOfConcat(first, rest);
      forall q | q in PathsOf(first) ensures q !in PathsOf(rest) {
        ExploreIsExact(g, maxLength, Next(e, edge), q);
        ExploreAllIsExact(g, maxLength, e, shorter, q);
        assert q[|e.path|] == edge.dst;
      }
      DistinctConcat(PathsOf(first), PathsOf(rest));
    }
  }

  lemma DistinctConcat<T>(a: seq<T>, b: seq<T>)
    requires Distinct(a) && Distinct(b) && forall x <- a :: x !in b
    ensures Distinct(a + b)
  {
    forall i, j | 0 <= i < j < |a + b| ensures (a + b)[i] != (a + b)[j] {
      if i < |a| <= j { assert a[i] in a && b[j - |a|] in b; }
    }
  }

  // ---------- Scores ----------

  /** The product of the edge weights along a path; the search multiplies from the left. */
  ghost function PathScore(g: Graph, p: seq<int>): real {
    if |p| <= 1 then 1.0 else PathScore(g, p[..|p| - 1]) * WeightOf(g, p[|p| - 2], p[|p| - 1])
  }

  function WeightIn(edges: seq<Edge>, to: int): real {
    if edges == [] then 0.0 else if edges[0].dst == to then edges[0].weight else WeightIn(edges[1..], to)
  }

  function WeightOf(g: Graph, from: int, to: int): real { WeightIn(Successors(g, from), to) }

  lemma {:induction false} WeightOfEdge(edges: seq<Edge>, e: Edge)
    requires DistinctTargets(edges) && e in edges
    ensures WeightIn(edges, e.dst) == e.weight
  {
    var i :| 0 <= i < |edges| && edges[i] == e;
    if i > 0 {
      assert edges[0].dst != edges[i].dst && edges[1..][i - 1] == e;
      WeightOfEdge(edges[1..], e);
    }
  }

  function Scaled(score: real, weight: real): real { score * weight }

  lemma NextIs(e: Entry, edge: Edge)
    ensures Next(e, edge).path == e.path + [edge.dst] && Next(e, edge).score == Scaled(e.score, edge.weight)
  {}

  lemma WeightOfNext(g: Graph, e: Entry, edge: Edge)
    requires WellFormed(g) && ValidEntry(g, e) && edge in Unvisited(Successors(g, Last(e.path)), e.visited)
    ensures WeightOf(g, Last(e.path), edge.dst) == edge.weight
  {
    hide Unvisited, DistinctTargets;
    UnvisitedAre(Successors(g, Last(e.path)), e.visited);
    WeightOfEdge(Successors(g, Last(e.path)), edge);
  }

  lemma NextScore(g: Graph, e: Entry, edge: Edge)
    requires WellFormed(g) && ValidEntry(g, e) && e.score == PathScore(g, e.path)
    requires edge in Unvisited(Successors(g, Last(e.path)), e.visited)
    ensures Next(e, edge).score == PathScore(g, Next(e, edge).path)
  {
    assert e.path != [];
    hide PathScore, Unvisited, WellFormed, ValidEntry, WeightOf, Next, Scaled;
    NextIs(e, edge);
    WeightOfNext(g, e, edge);
    LongerScore(g, e.path, edge.dst, e.score, edge.weight);
  }

  lemma LongerScore(g: Graph, path: seq<int>, dst: int, score: real, weight: real)
    requires path != [] && score == PathScore(g, path) && weight == WeightOf(g, Last(path), dst)
    ensures PathScore(g, path + [dst]) == Scaled(score, weight)
  {
    hide WeightOf;
    var p := path + [dst];
    assert p[..|p| - 1] == path;
  }

  lemma {:induction false} ScoresAreProducts(g: Graph, maxLength: int, e: Entry, s: Scored)
    requires WellFormed(g) && ValidEntry(g, e) && e.score == PathScore(g, e.path)
    requires s in Explore(g, maxLength, e)
    ensures s.score == PathScore(g, s.path)
    decreases |g.chunks.Keys - e.visited|, 1, 0
  {
    if !Stops(g, maxLength, e) {
      ScoresAreProductsAll(g, maxLength, e, Unvisited(Successors(g, Last(e.path)), e.visited), s);
    }
  }

  lemma {:induction false} ScoresAreProductsAll(g: Graph, maxLength: int, e: Entry, out: seq<Edge>, s: Scored)
    requires WellFormed(g) && ValidEntry(g, e) && e.score == PathScore(g, e.path)
    requires forall edge <- out :: edge in Unvisited(Successors(g, Last(e.path)), e.visited)
    requires s in ExploreAll(g, maxLength, e, out)
    ensures s.score == PathScore(g, s.path)
    decreases |g.chunks.Keys - e.visited|, 0, |out|
  {
    var shorter, edge := out[..|out| - 1], out[|out| - 1];
    NextIsValid(g, e, edge);
    NextScore(g, e, edge);
    var next := Next(e, edge);
    if s in Explore(g, maxLength, next) {
      ScoresAreProducts(g, maxLength, next, s);
    } else {
      ScoresAreProductsAll(g, maxLength, e, shorter, s);
    }
  }

  // ---------- All starts, sorting and selection ----------

  ghost predicate AllChunks(g: Graph, ids: seq<int>) {
    forall i :: 0 <= i < |ids| ==> ids[i] in g.chunks
  }

  ghost function ExploreStarts(g: Graph, maxLength: int, starts: seq<int>): seq<Scored>
    requires WellFormed(g) && AllChunks(g, starts)
  {
    if starts == [] then [] else
      var last := |starts| - 1;
      ExploreStarts(g, maxLength, starts[..last]) + Explore(g, maxLength, Start(starts[last]))
  }

  ghost predicate IsMaximalPath(g: Graph, maxLength: int, starts: seq<int>, q: seq<int>) {
    exists id <- starts :: MaximalExtension(g, maxLength, [id], q)
  }

  /** Over all start chunks: every maximal simple path, once, with its score. */
  lemma {:induction false} ExploreStartsIsExact(g: Graph, maxLength: int, starts: seq<int>)
    requires WellFormed(g) && Distinct(starts) && AllChunks(g, starts)
    ensures var found := ExploreStarts(g, maxLength, starts);
      && (forall q :: q in PathsOf(found) <==> IsMaximalPath(g, maxLength, starts, q))
      && Distinct(PathsOf(found))
      && (forall s <- found :: s.score == PathScore(g, s.path))
  {
    if starts != [] {
      var last := |starts| - 1;
      var fewer, id := starts[..last], starts[last];
      assert forall x :: x in starts <==> x in fewer || x == id;
      assert id !in fewer;
      var first, rest := ExploreStarts(g, maxLength, fewer), Explore(g, maxLength, Start(id));
      ExploreStartsIsExact(g, maxLength, fewer);
      ExploreIsDistinct(g, maxLength, Start(id));
      PathsOfConcat(first, rest);
      forall q ensures q in PathsOf(rest) <==> MaximalExtension(g, maxLength, [id], q) {
        ExploreIsExact(g, maxLength, Start(id), q);
      }
      forall q <- PathsOf(first) ensures q !in PathsOf(rest) {
        var other :| other in fewer && MaximalExtension(g, maxLength, [other], q);
        assert q[0] == other;
      }
      DistinctConcat(PathsOf(first), PathsOf(rest));
      forall s <- rest ensures s.score == PathScore(g, s.path) {
        ScoresAreProducts(g, maxLength, Start(id), s);
      }
    }
  }
}
