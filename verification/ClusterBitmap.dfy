/** The NTFS `$Bitmap` analyzer of `fs_bitmap.py`: allocation queries, statistics, and the extraction of cluster
    runs by scan policy. */
module ClusterBitmap {
  import opened Basics
  import opened Patterns

  datatype Policy = FreeOnly | FreeFirst | FullVolume | Targeted

  datatype Run = Run(start: int, length: int, isAllocated: bool) {
    function End(): int { start + length }
  }

  datatype Analyzer = Analyzer(bitmap: Bytes, totalClusters: int)

  predicate Bit(b: bv8, i: nat)
    requires i < 8
  {
    (b >> i) & 1 == 1
  }

  /** Clusters outside the volume count as free. */
  predicate IsAllocated(a: Analyzer, c: int) {
    0 <= c < a.totalClusters && c / 8 < |a.bitmap| && Bit(a.bitmap[c / 8], c % 8)
  }

  // ---------- The runs of a range, cluster by cluster ----------

  function Extend(runs: seq<Run>, c: int, alloc: bool): seq<Run> {
    var last := |runs| - 1;
    if runs != [] && runs[last].isAllocated == alloc
    then runs[..last] + [runs[last].(length := runs[last].length + 1)]
    else runs + [Run(c, 1, alloc)]
  }

  ghost function RunsOf(a: Analyzer, lo: int, hi: int): seq<Run>
    decreases hi - lo
  {
    if hi <= lo then [] else Extend(RunsOf(a, lo, hi - 1), hi - 1, IsAllocated(a, hi - 1))
  }

  function Select(runs: seq<Run>, alloc: bool): seq<Run> {
    if runs == [] then [] else
      var last := |runs| - 1;
      Select(runs[..last], alloc) + if runs[last].isAllocated == alloc then [runs[last]] else []
  }

  /** `runs` cut [lo, hi) into non-empty runs that alternate between free and allocated. */
  predicate Alternating(runs: seq<Run>, lo: int, hi: int) {
    && (runs == [] ==> lo == hi)
    && (runs != [] ==> runs[0].start == lo && runs[|runs| - 1].End() == hi)
    && (forall i :: 0 <= i < |runs| ==> runs[i].length > 0)
    && (forall i :: 0 < i < |runs| ==>
         runs[i - 1].End() == runs[i].start && runs[i - 1].isAllocated != runs[i].isAllocated)
  }

  ghost predicate Uniform(a: Analyzer, r: Run) {
    forall c :: r.start <= c < r.End() ==> IsAllocated(a, c) == r.isAllocated
  }

  lemma LongerAlternates(runs: seq<Run>, lo: int, hi: int)
    requires runs != [] && Alternating(runs, lo, hi)
    ensures var last := |runs| - 1;
      Alternating(runs[..last] + [runs[last].(length := runs[last].length + 1)], lo, hi + 1)
  {
    var last := |runs| - 1;
    var r := runs[..last] + [runs[last].(length := runs[last].length + 1)];
    assert forall i :: 0 <= i < last ==> r[i] == runs[i];
  }

  lemma MoreAlternates(runs: seq<Run>, run: Run, lo: int, hi: int)
    requires Alternating(runs, lo, hi) && run.start == hi && run.length == 1
    requires runs != [] ==> runs[|runs| - 1].isAllocated != run.isAllocated
    ensures Alternating(runs + [run], lo, hi + 1)
  {
    assert forall i :: 0 <= i < |runs| ==> (runs + [run])[i] == runs[i];
  }

  lemma ExtendAlternates(runs: seq<Run>, lo: int, hi: int, alloc: bool)
    requires Alternating(runs, lo, hi)
    ensures Alternating(Extend(runs, hi, alloc), lo, hi + 1)
  {
    if runs != [] && runs[|runs| - 1].isAllocated == alloc {
      LongerAlternates(runs, lo, hi);
    } else {
      MoreAlternates(runs, Run(hi, 1, alloc), lo, hi);
    }
  }

  lemma ExtendUniform(a: Analyzer, runs: seq<Run>, lo: int, hi: int)
    requires Alternating(runs, lo, hi) && forall i :: 0 <= i < |runs| ==> Uniform(a, runs[i])
    ensures var r := Extend(runs, hi, IsAllocated(a, hi)); forall i :: 0 <= i < |r| ==> Uniform(a, r[i])
  {}

  /** The runs are maximal: uniform, contiguous, and never two alike in a row. */
  lemma {:induction false} RunsAreMaximal(a: Analyzer, lo: int, hi: int)
    requires lo <= hi
    ensures Alternating(RunsOf(a, lo, hi), lo, hi)
    ensures forall i :: 0 <= i < |RunsOf(a, lo, hi)| ==> Uniform(a, RunsOf(a, lo, hi)[i])
    decreases hi - lo
  {
    if lo < hi {
      RunsAreMaximal(a, lo, hi - 1);
      ExtendAlternates(RunsOf(a, lo, hi - 1), lo, hi - 1, IsAllocated(a, hi - 1));
      ExtendUniform(a, RunsOf(a, lo, hi - 1), lo, hi - 1);
    }
  }

  // ---------- extract_cluster_runs ----------

  function Limit(a: Analyzer, start: int, clusterLimit: Option<int>): int {
    if clusterLimit.Some? then Min(a.totalClusters, start + clusterLimit.value) else a.totalClusters
  }

  ghost function ExtractedRuns(a: Analyzer, policy: Policy, start: int, clusterLimit: Option<int>): seq<Run> {
    var limit := Limit(a, start, clusterLimit);
    match policy
    case FullVolume => if limit > start then [Run(start, limit - start, false)] else []
    case Targeted => if limit > start then [Run(start, limit - start, false)] else []
    case FreeOnly => Select(RunsOf(a, start, limit), false)
    case FreeFirst => Select(RunsOf(a, start, limit), false) + Select(RunsOf(a, start, limit), true)
  }

  /** The loop's bookkeeping: the finished runs sorted into two lists, and the current one. */
  ghost predicate Tracks(runs: seq<Run>, free: seq<Run>, used: seq<Run>, current: Option<bool>, runStart: int,
                         runLen: int) {
    match current
    case None => runs == [] && free == [] && used == [] && runLen == 0
    case Some(alloc) =>
      && runs != [] && runs[|runs| - 1] == Run(runStart, runLen, alloc) && runLen > 0
      && free == Select(runs[..|runs| - 1], false) && used == Select(runs[..|runs| - 1], true)
  }

  lemma SelectStep(runs: seq<Run>, r: Run)
    ensures (runs + [r])[..|runs|] == runs
    ensures forall b :: Select(runs + [r], b) == Select(runs, b) + if r.isAllocated == b then [r] else []
  {
    assert (runs + [r])[..|runs|] == runs;
  }

  method ExtractClusterRuns(a: Analyzer, policy: Policy, start: int, clusterLimit: Option<int>) returns (runs: seq<Run>)
    ensures runs == ExtractedRuns(a, policy, start, clusterLimit)
  {
    var limit := Limit(a, start, clusterLimit);
    if policy == FullVolume || policy == Targeted {
      return if limit > start then [Run(start, limit - start, false)] else [];
    }
    var free, used := GroupRuns(a, start, limit);
    return if policy == FreeOnly then free else free + used;
  }

  method GroupRuns(a: Analyzer, start: int, limit: int) returns (free: seq<Run>, used: seq<Run>)
    ensures free == Select(RunsOf(a, start, limit), false)
    ensures used == Select(RunsOf(a, start, limit), true)
  {
    hide Tracks, Extend, Select, IsAllocated;
    free, used := [], [];
    NothingTracked(start);
    var current: Option<bool> := None;
    var runStart, runLen := start, 0;
    var c := start;
    ghost var runs := [];
    while c < limit
      invariant c <= limit || c == start
      invariant runs == RunsOf(a, start, c) && Tracks(runs, free, used, current, runStart, runLen)
    {
      var alloc := IsAllocated(a, c);
      TracksExtends(runs, free, used, current, runStart, runLen, c, alloc);
      if current == None {
        current, runStart, runLen := Some(alloc), c, 1;
      } else if alloc == current.value {
        runLen := runLen + 1;
      } else {
        var r := Run(runStart, runLen, current.value);
        if current.value { used := used + [r]; } else { free := free + [r]; }
        current, runStart, runLen := Some(alloc), c, 1;
      }
      runs := Extend(runs, c, alloc);
      c := c + 1;
    }
    assert limit <= start ==> runs == [];
    TracksAll(runs, free, used, current, runStart, runLen);
    if runLen > 0 && current != None {
      var r := Run(runStart, runLen, current.value);
      if current.value { used := used + [r]; } else { free := free + [r]; }
    }
  }

  lemma NothingTracked(start: int)
    ensures Tracks([], [], [], None, start, 0)
  {}

  /** Putting the current run into its list. */
  lemma TracksAll(runs: seq<Run>, free: seq<Run>, used: seq<Run>, current: Option<bool>, runStart: int, runLen: int)
    requires Tracks(runs, free, used, current, runStart, runLen)
    ensures current.None? ==> Select(runs, false) == free && Select(runs, true) == used
    ensures current.Some? ==>
      && runLen > 0
      && Select(runs, false) == free + (if current.value then [] else [Run(runStart, runLen, current.value)])
      && Select(runs, true) == used + (if current.value then [Run(runStart, runLen, current.value)] else [])
  {
    if current.Some? {
      var front, r := runs[..|runs| - 1], Run(runStart, runLen, current.value);
      SelectStep(front, r);
      assert runs == front + [r];
    }
  }

  lemma TracksExtends(runs: seq<Run>, free: seq<Run>, used: seq<Run>, current: Option<bool>, runStart: int, runLen: int,
                      c: int, alloc: bool)
    requires Tracks(runs, free, used, current, runStart, runLen)
    ensures current.None? ==> Tracks(Extend(runs, c, alloc), free, used, Some(alloc), c, 1)
    ensures current == Some(alloc) ==> Tracks(Extend(runs, c, alloc), free, used, current, runStart, runLen + 1)
    ensures current.Some? && current.value != alloc ==>
      var r := Run(runStart, runLen, current.value);
      Tracks(Extend(runs, c, alloc), if current.value then free else free + [r],
             if current.value then used + [r] else used,
             Some(alloc), c, 1)
  {
    TracksAll(runs, free, used, current, runStart, runLen);
    var next := Extend(runs, c, alloc);
    if current == Some(alloc) {
      assert next[..|next| - 1] == runs[..|runs| - 1];
    } else {
      assert next[..|next| - 1] == runs;
    }
  }

  // ---------- What the extracted runs mean ----------

  predicate Contains(r: Run, c: int) { r.start <= c < r.End() }

  lemma {:induction false} SelectMembers(runs: seq<Run>, b: bool)
    ensures forall r :: r in Select(runs, b) <==> r in runs && r.isAllocated == b
  {
    if runs != [] {
      var last := |runs| - 1;
      SelectMembers(runs[..last], b);
      assert forall r :: r in runs <==> r in runs[..last] || r == runs[last];
    }
  }

  lemma {:induction false} RunContaining(runs: seq<Run>, lo: int, hi: int, c: int) returns (i: nat)
    requires Alternating(runs, lo, hi) && lo <= c < hi
    ensures i < |runs| && Contains(runs[i], c)
    decreases |runs|
  {
    if c < runs[0].End() {
      i := 0;
    } else {
      i := RunContaining(runs[1..], runs[0].End(), hi, c);
      i := i + 1;
    }
  }

  lemma {:induction false} RunsAreOrdered(runs: seq<Run>, lo: int, hi: int, i: nat, j: nat)
    requires Alternating(runs, lo, hi) && i < j < |runs|
    ensures lo <= runs[i].start && runs[j].End() <= hi && runs[i].End() <= runs[j].start
    ensures runs[i].isAllocated == runs[j].isAllocated ==> runs[i].End() < runs[j].start
    decreases |runs|
  {
    if i > 0 {
      RunsAreOrdered(runs[1..], runs[0].End(), hi, i - 1, j - 1);
    } else if j + 1 < |runs| {
      RunsAreOrdered(runs[..|runs| - 1], lo, runs[|runs| - 1].start, i, j);
    } else if j > 1 {
      RunsAreOrdered(runs[..|runs| - 1], lo, runs[|runs| - 1].start, i, j - 1);
    }
  }

  /** Increasing runs with at least one cluster between any two. */
  predicate Separated(runs: seq<Run>) {
    forall i, j :: 0 <= i < j < |runs| ==> runs[i].End() < runs[j].start
  }

  lemma AlternatingFront(runs: seq<Run>, lo: int, hi: int)
    requires Alternating(runs, lo, hi) && runs != []
    ensures Alternating(runs[..|runs| - 1], lo, runs[|runs| - 1].start)
    ensures lo <= runs[|runs| - 1].start < runs[|runs| - 1].End() == hi
  {
    if |runs| > 1 { RunsAreOrdered(runs, lo, hi, 0, |runs| - 1); }
  }

  lemma SeparatedSnoc(runs: seq<Run>, r: Run)
    requires Separated(runs) && forall q <- runs :: q.End() < r.start
    ensures Separated(runs + [r])
  {}

  lemma {:induction false} SelectIsSeparated(runs: seq<Run>, lo: int, hi: int, b: bool)
    requires Alternating(runs, lo, hi)
    ensures Separated(Select(runs, b))
    ensures forall r <- Select(runs, b) :: lo <= r.start && r.End() <= hi
    decreases |runs|
  {
    if runs != [] {
      var last := |runs| - 1;
      AlternatingFront(runs, lo, hi);
      hide Alternating, Separated;
      SelectIsSeparated(runs[..last], lo, runs[last].start, b);
      SelectMembers(runs[..last], b);
      if runs[last].isAllocated == b {
        forall r <- Select(runs[..last], b) ensures r.End() < runs[last].start {
          var i :| 0 <= i < last && runs[i] == r;
          RunsAreOrdered(runs, lo, hi, i, last);
        }
        SeparatedSnoc(Select(runs[..last], b), runs[last]);
      }
    }
  }

  /** A cluster lies in a selected run exactly when it is in the range and has that allocation state. */
  lemma SelectCovers(a: Analyzer, lo: int, hi: int, b: bool, c: int)
    ensures (exists r <- Select(RunsOf(a, lo, hi), b) :: Contains(r, c)) <==> lo <= c < hi && IsAllocated(a, c) == b
  {
    var runs := RunsOf(a, lo, hi);
    SelectMembers(runs, b);
    if lo <= hi {
      RunsAreMaximal(a, lo, hi);
      SelectIsSeparated(runs, lo, hi, b);
    }
    if lo <= c < hi {
      var i := RunContaining(runs, lo, hi, c);
      assert Uniform(a, runs[i]) && runs[i] in runs;
    }
    if exists r <- Select(runs, b) :: Contains(r, c) {
      var r :| r in Select(runs, b) && Contains(r, c);
      var i :| 0 <= i < |runs| && runs[i] == r;
      assert Uniform(a, runs[i]);
    }
  }

  /** FREE_ONLY returns exactly the free clusters of the range, in increasing runs that do not touch; FREE_FIRST
      adds the allocated clusters behind them, so that every cluster of the range is in exactly one run. */
  lemma PoliciesPartition(a: Analyzer, start: int, clusterLimit: Option<int>, c: int)
    ensures var limit := Limit(a, start, clusterLimit);
      var free := ExtractedRuns(a, FreeOnly, start, clusterLimit);
      var first := ExtractedRuns(a, FreeFirst, start, clusterLimit);
      && Separated(free) && free <= first && Separated(first[|free|..])
      && (forall r <- free :: !r.isAllocated) && (forall r <- first[|free|..] :: r.isAllocated)
      && (forall r <- first :: r.length > 0 && Uniform(a, r))
      && ((exists r <- free :: Contains(r, c)) <==> start <= c < limit && !IsAllocated(a, c))
      && ((exists r <- first[|free|..] :: Contains(r, c)) <==> start <= c < limit && IsAllocated(a, c))
  {
    var limit := Limit(a, start, clusterLimit);
    var runs := RunsOf(a, start, limit);
    var free, used := Select(runs, false), Select(runs, true);
    if start <= limit {
      RunsAreMaximal(a, start, limit);
      SelectIsSeparated(runs, start, limit, false);
      SelectIsSeparated(runs, start, limit, true);
    }
    SelectMembers(runs, false);
    SelectMembers(runs, true);
    SelectCovers(a, start, limit, false, c);
    SelectCovers(a, start, limit, true, c);
    assert (free + used)[|free|..] == used;
    forall r: Run | r in free + used ensures r.length > 0 && Uniform(a, r) {
      assert r in runs;
      var i :| 0 <= i < |runs| && runs[i] == r;
    }
  }

  // ---------- Statistics ----------

  function TotalLength(runs: seq<Run>): int {
    if runs == [] then 0 else TotalLength(runs[..|runs| - 1]) + runs[|runs| - 1].length
  }

  datatype Stats = Stats(total: int, inUse: int, free: int, freeRuns: int)

  lemma SelectTotals(runs: seq<Run>, r: Run, b: bool)
    ensures TotalLength(Select(runs + [r], b))
         == TotalLength(Select(runs, b)) + if r.isAllocated == b then r.length else 0
    ensures |Select(runs + [r], b)| == |Select(runs, b)| + if r.isAllocated == b then 1 else 0
  {
    SelectStep(runs, r);
    if r.isAllocated == b {
      TotalStep(Select(runs, b), r);
    } else {
      assert Select(runs, b) + [] == Select(runs, b);
    }
  }

  lemma ExtendCounts(runs: seq<Run>, c: int, alloc: bool, b: bool)
    ensures var r := Extend(runs, c, alloc);
      && TotalLength(Select(r, b)) == TotalLength(Select(runs, b)) + (if alloc == b then 1 else 0)
      && |Select(r, b)| == |Select(runs, b)|
           + (if alloc == b && (runs == [] || runs[|runs| - 1].isAllocated != alloc) then 1 else 0)
      && r != [] && r[|r| - 1].isAllocated == alloc
  {
    if runs != [] && runs[|runs| - 1].isAllocated == alloc {
      var front, last := runs[..|runs| - 1], runs[|runs| - 1];
      assert runs == front + [last];
      SelectTotals(front, last, b);
      SelectTotals(front, last.(length := last.length + 1), b);
    } else {
      SelectTotals(runs, Run(c, 1, alloc), b);
    }
  }

  lemma TotalStep(runs: seq<Run>, r: Run)
    ensures TotalLength(runs + [r]) == TotalLength(runs) + r.length
  {
    assert (runs + [r])[..|runs|] == runs;
  }

  /** The statistics agree with the runs FREE_ONLY extracts from the whole volume. */
  method GetAllocationStats(a: Analyzer) returns (stats: Stats)
    ensures stats.total == a.totalClusters && stats.free == stats.total - stats.inUse
    ensures a.totalClusters >= 0 ==>
      && stats.freeRuns == |ExtractedRuns(a, FreeOnly, 0, None)|
      && stats.free == TotalLength(ExtractedRuns(a, FreeOnly, 0, None))
  {
    var inUse, runs, inFreeRun := 0, 0, false;
    var c := 0;
    ghost var seen := [];
    while c < a.totalClusters
      invariant c == 0 || c <= a.totalClusters
      invariant seen == RunsOf(a, 0, c)
      invariant inUse == TotalLength(Select(seen, true))
      invariant c == inUse + TotalLength(Select(seen, false))
      invariant runs == |Select(seen, false)|
      invariant inFreeRun == (seen != [] && !seen[|seen| - 1].isAllocated)
    {
      var isAlloc := IsAllocated(a, c);
      ExtendCounts(seen, c, isAlloc, true);
      ExtendCounts(seen, c, isAlloc, false);
      seen := Extend(seen, c, isAlloc);
      if isAlloc {
        inUse := inUse + 1;
        if inFreeRun {
          inFreeRun := false;
        }
      } else if !inFreeRun {
        runs := runs + 1;
        inFreeRun := true;
      }
      c := c + 1;
    }
    return Stats(a.totalClusters, inUse, a.totalClusters - inUse, runs);
  }

  // ---------- Bits and ranges in numbers ----------

  function PowerOfTwo(i: nat): (r: nat)
    ensures r > 0
  {
    if i == 0 then 1 else 2 * PowerOfTwo(i - 1)
  }

  function Digit(b: bool): nat { if b then 1 else 0 }

  lemma BitIsDigit(b: bv8)
    ensures b as int == Digit(Bit(b, 0)) + 2 * Digit(Bit(b, 1)) + 4 * Digit(Bit(b, 2)) + 8 * Digit(Bit(b, 3))
                        + 16 * Digit(Bit(b, 4)) + 32 * Digit(Bit(b, 5)) + 64 * Digit(Bit(b, 6))
                        + 128 * Digit(Bit(b, 7))
  {}

  lemma DigitOver(n: nat, p: nat, low: nat, d: nat, high: nat)
    requires low < p && d < 2 && n == low + p * (d + 2 * high)
    ensures n / p % 2 == d
  {
    var q := d + 2 * high;
    assert n == q * p + low;
    UniqueMod(n, p, q, low);
    LastDigit(q, d, high);
  }

  lemma LastDigit(q: nat, d: nat, high: nat)
    requires d < 2 && q == d + 2 * high
    ensures q % 2 == d
  {}

  lemma DigitAt(n: nat, d: seq<nat>, i: nat)
    requires |d| == 8 && i < 8 && forall j :: 0 <= j < 8 ==> d[j] < 2
    requires n == d[0] + 2 * d[1] + 4 * d[2] + 8 * d[3] + 16 * d[4] + 32 * d[5] + 64 * d[6] + 128 * d[7]
    ensures n / PowerOfTwo(i) % 2 == d[i]
  {
    PowersOfTwo();
    hide PowerOfTwo;
    var d3 := d[0] + 2 * d[1] + 4 * d[2];
    var d6 := d3 + 8 * d[3] + 16 * d[4] + 32 * d[5];
    var h3 := d[4] + 2 * d[5] + 4 * d[6] + 8 * d[7];
    match i
    case 0 => DigitOver(n, 1, 0, d[0], d[1] + 2 * d[2] + 4 * d[3] + 8 * h3);
    case 1 => DigitOver(n, 2, d[0], d[1], d[2] + 2 * d[3] + 4 * h3);
    case 2 => DigitOver(n, 4, d[0] + 2 * d[1], d[2], d[3] + 2 * h3);
    case 3 => DigitOver(n, 8, d3, d[3], h3);
    case 4 => DigitOver(n, 16, d3 + 8 * d[3], d[4], d[5] + 2 * d[6] + 4 * d[7]);
    case 5 => DigitOver(n, 32, d3 + 8 * d[3] + 16 * d[4], d[5], d[6] + 2 * d[7]);
    case 6 => DigitOver(n, 64, d6, d[6], d[7]);
    case 7 => DigitOver(n, 128, d6 + 64 * d[6], d[7], 0);
  }

  lemma PowersOfTwo()
    ensures PowerOfTwo(0) == 1 && PowerOfTwo(1) == 2 && PowerOfTwo(2) == 4 && PowerOfTwo(3) == 8
    ensures PowerOfTwo(4) == 16 && PowerOfTwo(5) == 32 && PowerOfTwo(6) == 64 && PowerOfTwo(7) == 128
  {
    assert PowerOfTwo(2) == 4;
    assert PowerOfTwo(4) == 16;
    assert PowerOfTwo(6) == 64;
  }

  /** Cluster `8 * k + i` is allocated exactly when byte `k` divided by the `i`-th power of two is odd, clusters beyond
      the volume or the bitmap never are. */
  lemma AllocatedMeans(a: Analyzer, k: nat, i: nat)
    requires i < 8
    ensures IsAllocated(a, 8 * k + i) <==>
      8 * k + i < a.totalClusters && k < |a.bitmap| && a.bitmap[k] as int / PowerOfTwo(i) % 2 == 1
    ensures forall c :: c < 0 ==> !IsAllocated(a, c)
  {
    assert (8 * k + i) / 8 == k && (8 * k + i) % 8 == i;
    if k < |a.bitmap| {
      BitMeans(a.bitmap[k], i);
    }
  }

  lemma BitMeans(b: bv8, i: nat)
    requires i < 8
    ensures Bit(b, i) <==> b as int / PowerOfTwo(i) % 2 == 1
  {
    hide PowerOfTwo;
    var d := seq(8, j requires 0 <= j < 8 => Digit(Bit(b, j)));
    BitIsDigit(b);
    DigitAt(b as int, d, i);
  }

  /** How far an extraction reaches, and what the policies that look at no bit return. */
  lemma RangesMean(a: Analyzer, start: int, clusterLimit: Option<int>)
    ensures var limit := if clusterLimit.Some? && start + clusterLimit.value < a.totalClusters
                         then start + clusterLimit.value else a.totalClusters;
      && Limit(a, start, clusterLimit) == limit
      && ExtractedRuns(a, FullVolume, start, clusterLimit) == ExtractedRuns(a, Targeted, start, clusterLimit)
           == if start < limit then [Run(start, limit - start, false)] else []
  {}
}
