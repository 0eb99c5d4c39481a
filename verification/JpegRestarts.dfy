/** `JpegRstStreamReassembler` of `fragment_engine.py`: JPEG fragments ordered by restart markers and, failing
    that, by seam continuity. */
module JpegRestarts {
  import opened Basics
  import opened FragmentEdges
  import opened Jpeg

  /** The score of the seam between two boundary samples, a parameter. */
  type Seam = (Octets, Octets) -> real

  function RestartsIn(fragment: Octets): seq<nat> { Parsed(fragment).restarts }

  /** The first fragment that starts an image, or the first of all. */
  function HeaderFrom(fragments: seq<Octets>, i: nat): nat
    decreases |fragments| - i
  {
    if i >= |fragments| then 0 else if SOI <= fragments[i] then i else HeaderFrom(fragments, i + 1)
  }

  predicate Aligned(fragment: Octets, expected: nat) {
    RestartsIn(fragment) != [] && RestartsIn(fragment)[0] == expected
  }

  /** The first place in `remaining` whose fragment starts with the expected restart, or its length. */
  function AlignedAt(fragments: seq<Octets>, remaining: seq<nat>, expected: nat, k: nat): (r: nat)
    requires k <= |remaining| && InBounds(fragments, remaining)
    ensures k <= r <= |remaining| && (r < |remaining| ==> Aligned(fragments[remaining[r]], expected))
    ensures forall j :: k <= j < r ==> !Aligned(fragments[remaining[j]], expected)
    decreases |remaining| - k
  {
    if k == |remaining| || Aligned(fragments[remaining[k]], expected) then k
    else AlignedAt(fragments, remaining, expected, k + 1)
  }

  predicate InBounds(fragments: seq<Octets>, order: seq<nat>) {
    forall j :: 0 <= j < |order| ==> order[j] < |fragments|
  }

  function SeamScore(seam: Seam, left: Octets, right: Octets): real {
    seam(LastBytes(left, 256), FirstBytes(right, 256))
  }

  /** The first place with the highest seam score. */
  function BestSeam(fragments: seq<Octets>, seam: Seam, last: Octets, remaining: seq<nat>): (r: nat)
    requires remaining != [] && InBounds(fragments, remaining)
    ensures r < |remaining|
    ensures forall j :: 0 <= j < |remaining| ==>
              SeamScore(seam, last, fragments[remaining[j]]) <= SeamScore(seam, last, fragments[remaining[r]])
    ensures forall j :: 0 <= j < r ==>
              SeamScore(seam, last, fragments[remaining[j]]) < SeamScore(seam, last, fragments[remaining[r]])
  {
    var end := |remaining| - 1;
    if end == 0 then 0
    else
      var best := BestSeam(fragments, seam, last, remaining[..end]);
      if SeamScore(seam, last, fragments[remaining[end]]) > SeamScore(seam, last, fragments[remaining[best]])
      then end else best
  }

  function AfterLast(restarts: seq<nat>): nat
    requires restarts != []
  {
    (restarts[|restarts| - 1] + 1) % 8
  }

  /** The order in which the fragments in `remaining` follow `last`. */
  function Stitch(fragments: seq<Octets>, seam: Seam, last: Octets, expected: nat, remaining: seq<nat>): seq<nat>
    requires InBounds(fragments, remaining)
    decreases |remaining|
  {
    if remaining == [] then []
    else
      var k := AlignedAt(fragments, remaining, expected, 0);
      if k < |remaining| then
        var f := fragments[remaining[k]];
        [remaining[k]] + Stitch(fragments, seam, f, AfterLast(RestartsIn(f)), Without(remaining, k))
      else
        var b := BestSeam(fragments, seam, last, remaining);
        [remaining[b]] + Stitch(fragments, seam, fragments[remaining[b]], expected, Without(remaining, b))
  }

  function Indices(n: nat): seq<nat> { seq(n, i => i) }

  function Stitched(fragments: seq<Octets>, seam: Seam): seq<nat>
    requires fragments != []
  {
    HeaderInBounds(fragments, 0);
    [HeaderFrom(fragments, 0)] + BehindHeader(fragments, seam, HeaderFrom(fragments, 0))
  }

  /** The order of the other fragments behind the header. */
  function BehindHeader(fragments: seq<Octets>, seam: Seam, header: nat): seq<nat>
    requires header < |fragments|
  {
    var own := RestartsIn(fragments[header]);
    Stitch(fragments, seam, fragments[header], if own == [] then 0 else AfterLast(own),
           Without(Indices(|fragments|), header))
  }

  lemma {:induction false} HeaderInBounds(fragments: seq<Octets>, i: nat)
    requires fragments != []
    ensures HeaderFrom(fragments, i) < |fragments|
    decreases |fragments| - i
  {
    if i < |fragments| && !(SOI <= fragments[i]) { HeaderInBounds(fragments, i + 1); }
  }

  function Join(fragments: seq<Octets>, order: seq<nat>): Octets
    requires InBounds(fragments, order)
  {
    if order == [] then [] else Join(fragments, order[..|order| - 1]) + fragments[order[|order| - 1]]
  }

  // ---------- What the order means ----------

  predicate StartsWithMarker(fragment: Octets) { |fragment| >= 2 && fragment[0] == 0xFF && fragment[1] == 0xD8 }

  lemma {:induction false} HeaderFromMeans(fragments: seq<Octets>, i: nat)
    ensures var h := HeaderFrom(fragments, i);
      if exists j :: i <= j < |fragments| && StartsWithMarker(fragments[j])
      then i <= h < |fragments| && StartsWithMarker(fragments[h])
           && forall j :: i <= j < h ==> !StartsWithMarker(fragments[j])
      else h == 0
    decreases |fragments| - i
  {
    if i < |fragments| {
      assert SOI <= fragments[i] <==> StartsWithMarker(fragments[i]);
      if !(SOI <= fragments[i]) { HeaderFromMeans(fragments, i + 1); }
    }
  }

  /** The order starts with the earliest fragment that begins with `FF D8`, or with the first fragment when none
      does. */
  lemma FirstOfOrder(fragments: seq<Octets>, seam: Seam)
    requires fragments != []
    ensures var order := Stitched(fragments, seam);
      && order[0] < |fragments|
      && if exists j :: 0 <= j < |fragments| && StartsWithMarker(fragments[j])
         then StartsWithMarker(fragments[order[0]]) && forall j :: 0 <= j < order[0] ==> !StartsWithMarker(fragments[j])
         else order[0] == 0
  {
    HeaderInBounds(fragments, 0);
    HeaderFromMeans(fragments, 0);
    hide HeaderFrom;
  }

  /** The restart number that continues a fragment, or `before` when it has none. */
  function Following(restarts: seq<nat>, before: nat): nat {
    if |restarts| > 0 then (restarts[|restarts| - 1] + 1) % 8 else before
  }

  /** Behind its first fragment the order goes on with the others, looking for restart 0 or for what follows the first
      fragment's last restart. */
  lemma RestOfOrder(fragments: seq<Octets>, seam: Seam)
    requires fragments != []
    ensures var order := Stitched(fragments, seam); var h := order[0];
      && h < |fragments| && InBounds(fragments, Without(Indices(|fragments|), h))
      && order[1..] == Stitch(fragments, seam, fragments[h], Following(Parsed(fragments[h]).restarts, 0),
                              Without(Indices(|fragments|), h))
  {
    HeaderInBounds(fragments, 0);
    StitchedIs(fragments, seam);
    BehindHeaderIs(fragments, seam, HeaderFrom(fragments, 0));
    hide Stitched, BehindHeader, Stitch, HeaderFrom, Indices, Without, Following;
  }

  lemma StitchedIs(fragments: seq<Octets>, seam: Seam)
    requires fragments != []
    ensures HeaderFrom(fragments, 0) < |fragments|
    ensures Stitched(fragments, seam) ==
      [HeaderFrom(fragments, 0)] + BehindHeader(fragments, seam, HeaderFrom(fragments, 0))
  {
    hide BehindHeader, HeaderFrom;
    HeaderInBounds(fragments, 0);
  }

  lemma BehindHeaderIs(fragments: seq<Octets>, seam: Seam, h: nat)
    requires h < |fragments|
    ensures InBounds(fragments, Without(Indices(|fragments|), h))
    ensures BehindHeader(fragments, seam, h) ==
      Stitch(fragments, seam, fragments[h], Following(Parsed(fragments[h]).restarts, 0),
             Without(Indices(|fragments|), h))
  {
    hide Stitch, Parsed;
  }

  predicate Continues(fragment: Octets, expected: nat) {
    |Parsed(fragment).restarts| > 0 && Parsed(fragment).restarts[0] == expected
  }

  /** What the seam between two fragments is judged on. */
  function SeamBetween(seam: Seam, left: Octets, right: Octets): real {
    seam(if |left| > 256 then left[|left| - 256..] else left, if |right| > 256 then right[..256] else right)
  }

  lemma SeamScoreIs(seam: Seam, left: Octets, right: Octets)
    ensures SeamScore(seam, left, right) == SeamBetween(seam, left, right)
  {
    if |left| == 256 { assert left[0..] == left; }
    if |right| == 256 { assert right[..256] == right; }
  }

  ghost predicate NoneContinues(fragments: seq<Octets>, remaining: seq<nat>, expected: nat)
    requires InBounds(fragments, remaining)
  {
    forall j :: 0 <= j < |remaining| ==> !Continues(fragments[remaining[j]], expected)
  }

  ghost predicate FirstContinues(fragments: seq<Octets>, remaining: seq<nat>, expected: nat, k: nat)
    requires InBounds(fragments, remaining) && k < |remaining|
  {
    && Continues(fragments[remaining[k]], expected)
    && forall j :: 0 <= j < k ==> !Continues(fragments[remaining[j]], expected)
  }

  ghost predicate FirstBestSeam(fragments: seq<Octets>, seam: Seam, last: Octets, remaining: seq<nat>, k: nat)
    requires InBounds(fragments, remaining) && k < |remaining|
  {
    && (forall j :: 0 <= j < |remaining| ==>
          SeamBetween(seam, last, fragments[remaining[j]]) <= SeamBetween(seam, last, fragments[remaining[k]]))
    && (forall j :: 0 <= j < k ==>
          SeamBetween(seam, last, fragments[remaining[j]]) < SeamBetween(seam, last, fragments[remaining[k]]))
  }

  lemma BestSeamIsFirst(fragments: seq<Octets>, seam: Seam, last: Octets, remaining: seq<nat>)
    requires InBounds(fragments, remaining) && remaining != []
    ensures FirstBestSeam(fragments, seam, last, remaining, BestSeam(fragments, seam, last, remaining))
  {
    var k := BestSeam(fragments, seam, last, remaining);
    hide SeamBetween, BestSeam;
    forall j | 0 <= j < |remaining|
      ensures SeamScore(seam, last, fragments[remaining[j]]) == SeamBetween(seam, last, fragments[remaining[j]])
    {
      SeamScoreIs(seam, last, fragments[remaining[j]]);
    }
    hide SeamScore;
  }

  lemma AlignedIsFirst(fragments: seq<Octets>, remaining: seq<nat>, expected: nat)
    requires InBounds(fragments, remaining)
    ensures var k := AlignedAt(fragments, remaining, expected, 0);
      if k < |remaining| then FirstContinues(fragments, remaining, expected, k)
      else NoneContinues(fragments, remaining, expected)
  {
    var k := AlignedAt(fragments, remaining, expected, 0);
    hide AlignedAt, Parsed;
    forall j | 0 <= j < |remaining|
      ensures Aligned(fragments[remaining[j]], expected) <==> Continues(fragments[remaining[j]], expected)
    {}
    hide Aligned, Continues;
  }

  /** The next fragment: the first that continues the restart numbers, and then the numbers go on from its last one;
      otherwise the first with the best seam, and the number looked for stays. */
  lemma NextOfOrder(fragments: seq<Octets>, seam: Seam, last: Octets, expected: nat, remaining: seq<nat>)
    returns (k: nat)
    requires InBounds(fragments, remaining) && remaining != []
    ensures k < |remaining| && InBounds(fragments, Without(remaining, k))
    ensures || FirstContinues(fragments, remaining, expected, k)
            || (NoneContinues(fragments, remaining, expected) && FirstBestSeam(fragments, seam, last, remaining, k))
    ensures var f := fragments[remaining[k]];
      Stitch(fragments, seam, last, expected, remaining) ==
        [remaining[k]] + Stitch(fragments, seam, f,
                                if Continues(f, expected) then Following(Parsed(f).restarts, 0) else expected,
                                Without(remaining, k))
  {
    hide FirstContinues, NoneContinues, FirstBestSeam, Parsed, AlignedAt, BestSeam;
    k := AlignedAt(fragments, remaining, expected, 0);
    AlignedIsFirst(fragments, remaining, expected);
    if k < |remaining| {
      ContinuesAt(fragments, remaining, expected, k);
    } else {
      k := BestSeam(fragments, seam, last, remaining);
      BestSeamIsFirst(fragments, seam, last, remaining);
      ContinuesNot(fragments, remaining, expected, k);
    }
    hide Continues;
  }

  lemma ContinuesAt(fragments: seq<Octets>, remaining: seq<nat>, expected: nat, k: nat)
    requires InBounds(fragments, remaining) && k < |remaining| && FirstContinues(fragments, remaining, expected, k)
    ensures Continues(fragments[remaining[k]], expected)
  {}

  lemma ContinuesNot(fragments: seq<Octets>, remaining: seq<nat>, expected: nat, k: nat)
    requires InBounds(fragments, remaining) && k < |remaining| && NoneContinues(fragments, remaining, expected)
    ensures !Continues(fragments[remaining[k]], expected)
  {}

  /** Fragments are joined one behind the other. */
  lemma JoinAppends(fragments: seq<Octets>, order: seq<nat>, i: nat)
    requires InBounds(fragments, order) && i < |fragments|
    ensures InBounds(fragments, order + [i]) && Join(fragments, order + [i]) == Join(fragments, order) + fragments[i]
  {
    assert (order + [i])[..|order|] == order;
  }

  // ---------- reassemble_rst_fragments ----------

  method FindAligned(fragments: seq<Octets>, remaining: seq<nat>, expected: nat) returns (k: nat)
    requires InBounds(fragments, remaining)
    ensures k == AlignedAt(fragments, remaining, expected, 0)
  {
    k := 0;
    while k < |remaining| && !Aligned(fragments[remaining[k]], expected)
      invariant k <= |remaining|
      invariant AlignedAt(fragments, remaining, expected, k) == AlignedAt(fragments, remaining, expected, 0)
    {
      k := k + 1;
    }
  }

  method FindBestSeam(fragments: seq<Octets>, seam: Seam, last: Octets, remaining: seq<nat>) returns (best: nat)
    requires remaining != [] && InBounds(fragments, remaining)
    requires forall a, b :: seam(a, b) >= 0.0
    ensures best == BestSeam(fragments, seam, last, remaining)
  {
    var bestSeam := -1.0;
    best := 0;
    for i := 0 to |remaining|
      invariant i > 0 ==> best == BestSeam(fragments, seam, last, remaining[..i])
      invariant i > 0 ==> bestSeam == SeamScore(seam, last, fragments[remaining[best]])
      invariant i == 0 ==> bestSeam == -1.0
    {
      assert i > 0 ==> remaining[..i + 1][..i] == remaining[..i];
      var score := SeamScore(seam, last, fragments[remaining[i]]);
      if score > bestSeam {
        bestSeam, best := score, i;
      }
    }
    assert remaining[..|remaining|] == remaining;
  }

  method ReassembleRstFragments(fragments: seq<Octets>, seam: Seam)
    returns (assembled: Octets, isValid: bool, restarts: seq<nat>)
    requires forall a, b :: seam(a, b) >= 0.0
    ensures fragments == [] ==> assembled == [] && !isValid && restarts == []
    ensures fragments != [] ==> InBounds(fragments, Stitched(fragments, seam))
    ensures fragments != [] ==> assembled == Join(fragments, Stitched(fragments, seam))
    ensures fragments != [] ==> isValid == (Accepted(assembled) && Parsed(assembled).hasEoi)
    ensures fragments != [] ==> restarts == Parsed(assembled).restarts
  {
    if fragments == [] {
      return [], false, [];
    }
    HeaderInBounds(fragments, 0);
    var header := HeaderFrom(fragments, 0);
    var own := RestartsIn(fragments[header]);
    var rest := StitchRemaining(fragments, seam, fragments[header], if own == [] then 0 else AfterLast(own),
                                Without(Indices(|fragments|), header));
    assembled := JoinAll(fragments, [header] + rest);
    isValid := Accepted(assembled) && Parsed(assembled).hasEoi;
    restarts := Parsed(assembled).restarts;
  }

  /** Taking fragment `remaining[k]` into the order. */
  lemma OneTaken(fragments: seq<Octets>, order: seq<nat>, remaining: seq<nat>, k: nat)
    requires InBounds(fragments, order) && InBounds(fragments, remaining) && k < |remaining|
    ensures |Without(remaining, k)| == |remaining| - 1 && InBounds(fragments, Without(remaining, k))
    ensures remaining[k] < |fragments| && InBounds(fragments, order + [remaining[k]])
  {}

  method StitchRemaining(fragments: seq<Octets>, seam: Seam, header: Octets, expected0: nat, remaining0: seq<nat>)
    returns (order: seq<nat>)
    requires InBounds(fragments, remaining0) && forall a, b :: seam(a, b) >= 0.0
    ensures order == Stitch(fragments, seam, header, expected0, remaining0) && InBounds(fragments, order)
  {
    hide AfterLast, RestartsIn, Without;
    order := [];
    var last, expected: nat, remaining := header, expected0, remaining0;
    while remaining != []
      invariant InBounds(fragments, remaining) && InBounds(fragments, order)
      invariant order + Stitch(fragments, seam, last, expected, remaining)
             == Stitch(fragments, seam, header, expected0, remaining0)
      decreases |remaining|
    {
      var k := FindAligned(fragments, remaining, expected);
      var next: nat := expected;
      if k < |remaining| {
        next := AfterLast(RestartsIn(fragments[remaining[k]]));
      } else {
        k := FindBestSeam(fragments, seam, last, remaining);
      }
      OneTaken(fragments, order, remaining, k);
      Prepending(order, remaining[k], Stitch(fragments, seam, fragments[remaining[k]], next, Without(remaining, k)));
      order := order + [remaining[k]];
      last, expected, remaining := fragments[remaining[k]], next, Without(remaining, k);
    }
  }

  lemma Prepending<T>(a: seq<T>, x: T, b: seq<T>)
    ensures a + ([x] + b) == a + [x] + b
  {}

  method JoinAll(fragments: seq<Octets>, order: seq<nat>) returns (joined: Octets)
    requires InBounds(fragments, order)
    ensures joined == Join(fragments, order)
  {
    joined := [];
    for i := 0 to |order|
      invariant joined == Join(fragments, order[..i])
    {
      assert order[..i + 1][..i] == order[..i];
      joined := joined + fragments[order[i]];
    }
    assert order[..|order|] == order;
  }

  // ---------- Every fragment is used once, and no byte is lost ----------

  lemma {:induction false} StitchIsPermutation(fragments: seq<Octets>, seam: Seam, last: Octets, expected: nat,
                                               remaining: seq<nat>)
    requires InBounds(fragments, remaining)
    ensures multiset(Stitch(fragments, seam, last, expected, remaining)) == multiset(remaining)
    decreases |remaining|
  {
    if remaining != [] {
      var k := AlignedAt(fragments, remaining, expected, 0);
      if k < |remaining| {
        var f := fragments[remaining[k]];
        StitchIsPermutation(fragments, seam, f, AfterLast(RestartsIn(f)), Without(remaining, k));
        WithoutMultiset(remaining, k);
      } else {
        var b := BestSeam(fragments, seam, last, remaining);
        StitchIsPermutation(fragments, seam, fragments[remaining[b]], expected, Without(remaining, b));
        WithoutMultiset(remaining, b);
      }
    }
  }

  lemma SamePlaces(fragments: seq<Octets>, s: seq<nat>, t: seq<nat>)
    requires multiset(s) == multiset(t) && InBounds(fragments, t)
    ensures InBounds(fragments, s)
  {
    forall j | 0 <= j < |s| ensures s[j] < |fragments| {
      assert s[j] in multiset(t);
      assert s[j] in t;
    }
  }

  /** Bytes are conserved by any reordering of the fragments. */
  lemma {:induction false} JoinPermutes(fragments: seq<Octets>, s: seq<nat>, t: seq<nat>)
    requires InBounds(fragments, s) && InBounds(fragments, t) && multiset(s) == multiset(t)
    ensures multiset(Join(fragments, s)) == multiset(Join(fragments, t))
    decreases |s|
  {
    assert |s| == |multiset(s)| == |multiset(t)| == |t|;
    if s != [] {
      var end := |s| - 1;
      assert s == s[..end] + [s[end]];
      assert s[end] in multiset(t);
      var k :| 0 <= k < |t| && t[k] == s[end];
      WithoutMultiset(t, k);
      assert multiset(s) == multiset(s[..end]) + multiset{s[end]};
      SameRest(multiset(s[..end]), multiset(Without(t, k)), s[end]);
      JoinPermutes(fragments, s[..end], Without(t, k));
      JoinWithout(fragments, t, k);
    }
  }

  lemma SameRest<T>(a: multiset<T>, b: multiset<T>, x: T)
    requires a + multiset{x} == multiset{x} + b
    ensures a == b
  {
    assert a == (a + multiset{x}) - multiset{x};
    assert b == (multiset{x} + b) - multiset{x};
  }

  lemma JoinSnoc(fragments: seq<Octets>, s: seq<nat>, i: nat)
    requires InBounds(fragments, s) && i < |fragments|
    ensures InBounds(fragments, s + [i])
    ensures multiset(Join(fragments, s + [i])) == multiset(Join(fragments, s)) + multiset(fragments[i])
  {
    assert (s + [i])[..|s|] == s;
  }

  lemma {:induction false} JoinWithout(fragments: seq<Octets>, t: seq<nat>, k: nat)
    requires InBounds(fragments, t) && k < |t|
    ensures multiset(Join(fragments, t)) == multiset(Join(fragments, Without(t, k))) + multiset(fragments[t[k]])
    decreases |t|
  {
    hide Join;
    var front, last := t[..|t| - 1], t[|t| - 1];
    JoinSnoc(fragments, front, last);
    assert t == front + [last];
    if k < |front| {
      JoinWithout(fragments, front, k);
      JoinSnoc(fragments, Without(front, k), last);
      WithoutFront(t, k);
      Shuffle(multiset(Join(fragments, front)), multiset(Join(fragments, Without(front, k))), multiset(fragments[last]),
              multiset(fragments[t[k]]));
    } else {
      assert Without(t, k) == front;
    }
  }

  lemma Shuffle<T>(a: multiset<T>, b: multiset<T>, l: multiset<T>, x: multiset<T>)
    requires a == b + x
    ensures a + l == (b + l) + x
  {}

  lemma WithoutFront<T>(t: seq<T>, k: nat)
    requires k + 1 < |t|
    ensures Without(t, k) == Without(t[..|t| - 1], k) + [t[|t| - 1]]
  {}

  lemma StitchedIsPermutation(fragments: seq<Octets>, seam: Seam)
    requires fragments != []
    ensures multiset(Stitched(fragments, seam)) == multiset(Indices(|fragments|))
    ensures Stitched(fragments, seam)[0] == HeaderFrom(fragments, 0)
  {
    HeaderInBounds(fragments, 0);
    var h := HeaderFrom(fragments, 0);
    BehindHeaderIsPermutation(fragments, seam, h);
    ConsMultiset(h, BehindHeader(fragments, seam, h));
  }

  lemma BehindHeaderIsPermutation(fragments: seq<Octets>, seam: Seam, header: nat)
    requires header < |fragments|
    ensures multiset{header} + multiset(BehindHeader(fragments, seam, header)) == multiset(Indices(|fragments|))
  {
    var all, own := Indices(|fragments|), RestartsIn(fragments[header]);
    StitchIsPermutation(fragments, seam, fragments[header], if own == [] then 0 else AfterLast(own),
                        Without(all, header));
    WithoutMultiset(all, header);
  }

  lemma ConsMultiset<T>(x: T, s: seq<T>)
    ensures multiset([x] + s) == multiset{x} + multiset(s)
  {}

  /** The stitched order starts with the header, uses every fragment exactly once, and so loses no byte. */
  lemma StitchingConserves(fragments: seq<Octets>, seam: Seam)
    requires fragments != []
    ensures multiset(Stitched(fragments, seam)) == multiset(Indices(|fragments|))
    ensures InBounds(fragments, Stitched(fragments, seam)) && Stitched(fragments, seam)[0] == HeaderFrom(fragments, 0)
    ensures multiset(Join(fragments, Stitched(fragments, seam))) == multiset(Join(fragments, Indices(|fragments|)))
  {
    StitchedIsPermutation(fragments, seam);
    SamePlaces(fragments, Stitched(fragments, seam), Indices(|fragments|));
    JoinPermutes(fragments, Stitched(fragments, seam), Indices(|fragments|));
  }

  // ---------- What restart alignment can do ----------

  /** The marker scanner reports nothing for a fragment that does not itself start an image, whatever restart
      markers it holds. */
  lemma ContinuationHasNoRestarts(fragment: Octets)
    requires !(SOI <= fragment)
    ensures RestartsIn(fragment) == []
  {}

  /** The order by seam continuity alone. */
  function BySeam(fragments: seq<Octets>, seam: Seam, last: Octets, remaining: seq<nat>): seq<nat>
    requires InBounds(fragments, remaining)
    decreases |remaining|
  {
    if remaining == [] then []
    else
      var b := BestSeam(fragments, seam, last, remaining);
      [remaining[b]] + BySeam(fragments, seam, fragments[remaining[b]], Without(remaining, b))
  }

  /** So among continuation fragments the restart markers never decide: the order is the seams' alone. */
  lemma {:induction false} ContinuationsFollowSeamsOnly(fragments: seq<Octets>, seam: Seam, last: Octets,
                                                        expected: nat, remaining: seq<nat>)
    requires InBounds(fragments, remaining)
    requires forall j :: 0 <= j < |remaining| ==> !(SOI <= fragments[remaining[j]])
    ensures Stitch(fragments, seam, last, expected, remaining) == BySeam(fragments, seam, last, remaining)
    decreases |remaining|
  {
    if remaining != [] {
      var k := AlignedAt(fragments, remaining, expected, 0);
      if k < |remaining| {
        ContinuationHasNoRestarts(fragments[remaining[k]]);
      } else {
        var b := BestSeam(fragments, seam, last, remaining);
        ContinuationsFollowSeamsOnly(fragments, seam, fragments[remaining[b]], expected, Without(remaining, b));
      }
    }
  }
}
