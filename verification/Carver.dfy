/** The streaming carver of `carver_engine.py`: overlapping windows over a source, a search for every format's
    signatures in each, and the validated byte ranges found there. */
module Carver {
  import opened Basics
  import opened Patterns
  import opened Sorting

  type Size = n: nat | n > 0 witness 1

  datatype Config = Config(windowSize: nat, overlapSize: nat, sectorSize: Size, maxCandidates: int, maxFileSize: nat,
                           maxScanBytes: Option<int>, sectorAlignedOnly: bool, deduplicateByHash: bool)

  datatype Signature = Signature(format: string, bytes: Bytes)

  datatype Verdict = Verdict(isValid: bool, length: int, confidence: real)

  datatype Range = Range(start: int, end: int)

  datatype Artifact = Artifact(format: string, start: nat, length: nat, data: Bytes, digest: int, confidence: real) {
    function End(): nat { start + length }

    function Extent(): Range { Range(start, End()) }
  }

  // ---------- bytes.find ----------

  /** The first place at or behind `pos` where `w` stands in `s`, or -1. */
  function Find(s: Bytes, w: Bytes, pos: nat): (r: int)
    requires pos <= |s|
    ensures r == -1 || pos <= r <= |s| - |w|
    decreases |s| - pos
  {
    if StandsAt(s, pos, w) then pos else if pos == |s| then -1 else Find(s, w, pos + 1)
  }

  lemma {:induction false} FindIsFirst(s: Bytes, w: Bytes, pos: nat)
    requires pos <= |s|
    ensures Find(s, w, pos) != -1 ==> StandsAt(s, Find(s, w, pos), w)
    ensures forall p :: pos <= p && (Find(s, w, pos) == -1 || p < Find(s, w, pos)) ==> !StandsAt(s, p, w)
    decreases |s| - pos
  {
    if !StandsAt(s, pos, w) && pos < |s| { FindIsFirst(s, w, pos + 1); }
  }

  // ---------- One scan ----------

  /** What a scan works on: the bytes, the settings, the registered validators and the hash. */
  datatype Scan = Scan(source: Bytes, config: Config, validate: (string, Bytes) -> Verdict, digest: Bytes -> int) {
    function Total(): int {
      if config.maxScanBytes.Some? then Min(|source|, config.maxScanBytes.value) else |source|
    }

    function Step(): nat { Max(1, config.windowSize - config.overlapSize) }

    /** The bytes a candidate at `g` is validated on. */
    function Buffer(g: nat): Bytes
      requires g <= Total()
    {
      source[g..g + Min(config.maxFileSize, Total() - g)]
    }

    predicate Accepts(format: string, g: nat)
      requires g <= Total()
    {
      var v := validate(format, Buffer(g));
      v.isValid && v.length > 0
    }

    function Found(format: string, g: nat): Artifact
      requires g <= Total() && Accepts(format, g)
    {
      var v := validate(format, Buffer(g));
      var data := Buffer(g)[..Min(v.length, |Buffer(g)|)];
      Artifact(format, g, |data|, data, digest(data), v.confidence)
    }

    predicate Aligned(g: nat) {
      !config.sectorAlignedOnly || Rest(g, config.sectorSize) == 0
    }

    /** A place the carver is meant to look at: the whole signature stands there, on a sector boundary if asked. */
    predicate Candidate(s: Signature, g: int) {
      0 <= g && g + |s.bytes| <= Total() && StandsAt(source, g, s.bytes) && Aligned(g)
    }
  }

  // ---------- What a list of artifacts promises ----------

  /** `a` is what validation found at a place where a registered signature of its format stands. */
  ghost predicate Sound(scan: Scan, signatures: seq<Signature>, a: Artifact) {
    exists s :: s in signatures && scan.Candidate(s, a.start) && scan.Accepts(s.format, a.start)
             && a == scan.Found(s.format, a.start)
  }

  predicate Spans(a: Artifact, g: int) { g == a.start || a.start <= g < a.End() }

  ghost predicate Covered(found: seq<Artifact>, g: int) {
    exists i :: 0 <= i < |found| && Spans(found[i], g)
  }

  /** Some artifact's bytes hold offset `g`. */
  predicate Inside(found: seq<Artifact>, g: int) {
    found != [] && (var last := found[|found| - 1];
                    last.start <= g < last.End() || Inside(found[..|found| - 1], g))
  }

  predicate Known(found: seq<Artifact>, digest: int) {
    found != [] && (found[|found| - 1].digest == digest || Known(found[..|found| - 1], digest))
  }

  /** In discovery order: every artifact is sound, starts outside and differs from what was found before it, and
      the pool holds them. */
  ghost predicate Honest(scan: Scan, signatures: seq<Signature>, found: seq<Artifact>) {
    found != [] ==>
      var front, last := found[..|found| - 1], found[|found| - 1];
      && Honest(scan, signatures, front) && Sound(scan, signatures, last)
      && !Inside(front, last.start) && (scan.config.deduplicateByHash ==> !Known(front, last.digest))
      && |found| <= scan.config.maxCandidates
  }

  lemma {:induction false} InsideIff(found: seq<Artifact>, g: int)
    ensures Inside(found, g) <==> exists i :: 0 <= i < |found| && found[i].start <= g < found[i].End()
  {
    if found != [] {
      var front := found[..|found| - 1];
      InsideIff(front, g);
      assert forall i :: 0 <= i < |front| ==> front[i] == found[i];
    }
  }

  lemma {:induction false} KnownIff(found: seq<Artifact>, digest: int)
    ensures Known(found, digest) <==> exists i :: 0 <= i < |found| && found[i].digest == digest
  {
    if found != [] {
      var front := found[..|found| - 1];
      KnownIff(front, digest);
      assert forall i :: 0 <= i < |front| ==> front[i] == found[i];
    }
  }

  /** What that means for every artifact and every pair of them. */
  lemma {:induction false} HonestMeans(scan: Scan, signatures: seq<Signature>, found: seq<Artifact>, i: nat, j: nat)
    requires Honest(scan, signatures, found) && i <= j < |found|
    ensures Sound(scan, signatures, found[j]) && |found| <= scan.config.maxCandidates
    ensures i < j ==> !(found[i].start <= found[j].start < found[i].End())
    ensures i < j && scan.config.deduplicateByHash ==> found[i].digest != found[j].digest
  {
    hide Sound;
    var n := |found| - 1;
    if j < n {
      HonestMeans(scan, signatures, found[..n], i, j);
    } else {
      InsideIff(found[..n], found[n].start);
      KnownIff(found[..n], found[n].digest);
    }
  }

  // ---------- Why a candidate may be missing ----------

  /** `g` lies in accepted content that was dropped as a copy of an artifact. */
  ghost predicate InCopy(scan: Scan, found: seq<Artifact>, s: Signature, g: int) {
    exists d :: d <= g && scan.Candidate(s, d) && scan.Accepts(s.format, d)
             && Spans(scan.Found(s.format, d), g) && Known(found, scan.Found(s.format, d).digest)
  }

  /** `g` lies in an artifact, or in a copy of one where copies are dropped. */
  ghost predicate Accounted(scan: Scan, found: seq<Artifact>, s: Signature, g: int) {
    Covered(found, g) || (scan.config.deduplicateByHash && InCopy(scan, found, s, g))
  }

  /** The candidate at `g` is accounted for, or was rejected. */
  ghost predicate Settled(scan: Scan, found: seq<Artifact>, s: Signature, g: int)
    requires scan.Candidate(s, g)
  {
    Accounted(scan, found, s, g) || !scan.Accepts(s.format, g)
  }

  /** In the window that starts at `w` the same signature also stands a little to the left, reaching over `g`, and
      the search jumped from there: that candidate is settled. */
  ghost predicate Overlapped(scan: Scan, found: seq<Artifact>, s: Signature, w: int, g: int) {
    exists d :: w <= d < g < d + |s.bytes| && scan.Candidate(s, d) && Settled(scan, found, s, d)
  }

  ghost predicate Explained(scan: Scan, found: seq<Artifact>, s: Signature, w: int, g: int)
    requires scan.Candidate(s, g)
  {
    Settled(scan, found, s, g) || Overlapped(scan, found, s, w, g)
  }

  ghost predicate AllExplained(scan: Scan, found: seq<Artifact>, s: Signature, w: int, lo: int, hi: int) {
    forall g :: lo <= g < hi && scan.Candidate(s, g) ==> Explained(scan, found, s, w, g)
  }

  /** The whole signature fits the window that starts at `w`. */
  predicate InWindow(scan: Scan, w: int, g: int, size: nat) {
    w <= g && g + size <= w + scan.config.windowSize
  }

  ghost predicate WindowDone(scan: Scan, found: seq<Artifact>, s: Signature, w: int, upTo: int) {
    forall g :: scan.Candidate(s, g) && InWindow(scan, w, g, |s.bytes|) && g < upTo ==> Explained(scan, found, s, w, g)
  }

  lemma KnownStays(found: seq<Artifact>, more: seq<Artifact>, digest: int)
    requires Known(found, digest) && found <= more
    ensures Known(more, digest)
  {
    KnownIff(found, digest);
    KnownIff(more, digest);
    var i :| 0 <= i < |found| && found[i].digest == digest;
    assert more[i] == found[i];
  }

  lemma SettledStays(scan: Scan, found: seq<Artifact>, more: seq<Artifact>, s: Signature, g: int)
    requires scan.Candidate(s, g) && Settled(scan, found, s, g) && found <= more
    ensures Settled(scan, more, s, g)
  {
    if Covered(found, g) {
      var i :| 0 <= i < |found| && Spans(found[i], g);
      assert more[i] == found[i];
    } else if InCopy(scan, found, s, g) {
      var d :| d <= g && scan.Candidate(s, d) && scan.Accepts(s.format, d)
            && Spans(scan.Found(s.format, d), g) && Known(found, scan.Found(s.format, d).digest);
      KnownStays(found, more, scan.Found(s.format, d).digest);
    }
  }

  lemma ExplainedGrows(scan: Scan, found: seq<Artifact>, more: seq<Artifact>, s: Signature, w: int, g: int)
    requires scan.Candidate(s, g) && Explained(scan, found, s, w, g) && found <= more
    ensures Explained(scan, more, s, w, g)
  {
    if Settled(scan, found, s, g) {
      SettledStays(scan, found, more, s, g);
    } else {
      var d :| w <= d < g < d + |s.bytes| && scan.Candidate(s, d) && Settled(scan, found, s, d);
      SettledStays(scan, found, more, s, d);
    }
  }

  lemma WindowStaysDone(scan: Scan, found: seq<Artifact>, more: seq<Artifact>, s: Signature, w: int, upTo: int)
    requires WindowDone(scan, found, s, w, upTo) && found <= more
    ensures WindowDone(scan, more, s, w, upTo)
  {
    forall g | scan.Candidate(s, g) && InWindow(scan, w, g, |s.bytes|) && g < upTo
      ensures Explained(scan, more, s, w, g)
    {
      ExplainedGrows(scan, found, more, s, w, g);
    }
  }

  // ---------- The scan, as a function ----------

  /** `chunk` is the window that starts at `w`. */
  ghost predicate IsChunk(scan: Scan, w: nat, chunk: Bytes) {
    w <= scan.Total() && chunk == scan.source[w..w + Min(scan.config.windowSize, scan.Total() - w)]
  }

  function Chunk(scan: Scan, w: nat): (chunk: Bytes)
    requires w <= scan.Total()
    ensures IsChunk(scan, w, chunk)
  {
    scan.source[w..w + Min(scan.config.windowSize, scan.Total() - w)]
  }

  /** What the search has found behind a hit. */
  ghost function Examined(scan: Scan, s: Signature, hit: nat, found: seq<Artifact>): (r: seq<Artifact>)
    requires hit <= scan.Total()
    ensures found <= r
  {
    if !scan.Aligned(hit) || Inside(found, hit) || !scan.Accepts(s.format, hit) then found
    else
      var a := scan.Found(s.format, hit);
      if scan.config.deduplicateByHash && Known(found, a.digest) then found else found + [a]
  }

  /** How far it jumps from there. */
  ghost function Jump(scan: Scan, s: Signature, hit: nat, found: seq<Artifact>): (r: nat)
    requires hit <= scan.Total()
    ensures |s.bytes| > 0 ==> r > 0
  {
    if !scan.Aligned(hit) then 1
    else if Inside(found, hit) || !scan.Accepts(s.format, hit) then |s.bytes|
    else Max(scan.Found(s.format, hit).length, |s.bytes|)
  }

  /** The next hit of a signature in one window, at or behind position `pos`. */
  ghost function NextHit(scan: Scan, s: Signature, w: nat, pos: nat): (r: Option<nat>)
    requires w <= scan.Total()
    ensures r.Some? ==> pos <= r.value <= |Chunk(scan, w)| - |s.bytes| && w + r.value <= scan.Total()
    ensures r.Some? ==> pos < |Chunk(scan, w)|
  {
    var chunk := Chunk(scan, w);
    if pos >= |chunk| || Find(chunk, s.bytes, pos) == -1 then None else Some(Find(chunk, s.bytes, pos))
  }

  /** One signature in one window, from position `pos` on. */
  ghost function Searched(scan: Scan, s: Signature, w: nat, pos: nat, found: seq<Artifact>): seq<Artifact>
    requires w <= scan.Total() && |s.bytes| > 0
    decreases |Chunk(scan, w)| - pos
  {
    var hit := NextHit(scan, s, w, pos);
    if hit.None? || |found| >= scan.config.maxCandidates then found
    else
      Searched(scan, s, w, hit.value + Jump(scan, s, w + hit.value, found), Examined(scan, s, w + hit.value, found))
  }

  predicate AllNonEmpty(signatures: seq<Signature>) { forall s :: s in signatures ==> |s.bytes| > 0 }

  /** The signatures one after the other. */
  ghost function SearchedAll(scan: Scan, signatures: seq<Signature>, w: nat, found: seq<Artifact>): seq<Artifact>
    requires w <= scan.Total() && AllNonEmpty(signatures)
  {
    if signatures == [] then found
    else SearchedAll(scan, signatures[1..], w, Searched(scan, signatures[0], w, 0, found))
  }

  /** The windows from `w` on, with a poll in front of each: the artifacts, and whether a poll stopped the scan. */
  ghost function CarvedFrom(scan: Scan, signatures: seq<Signature>, stop: nat -> bool, round: nat, w: nat,
                            found: seq<Artifact>): (seq<Artifact>, bool)
    requires AllNonEmpty(signatures)
    decreases scan.Total() - w
  {
    if w >= scan.Total() || |found| >= scan.config.maxCandidates then (found, false)
    else if stop(round) then (found, true)
    else if Chunk(scan, w) == [] then (found, false)
    else CarvedFrom(scan, signatures, stop, round + 1, w + scan.Step(), SearchedAll(scan, signatures, w, found))
  }

  function SignatureLength(s: Signature): real { |s.bytes| as real }

  function LongestFirst(registered: seq<Signature>): (r: seq<Signature>)
    ensures multiset(r) == multiset(registered) && forall s :: s in r <==> s in registered
  {
    SortIsPermutation(registered, SignatureLength);
    SameMembers(SortDescending(registered, SignatureLength), registered);
    SortDescending(registered, SignatureLength)
  }

  /** Longer signatures are searched for first, and those of one length in the order they are registered in. */
  lemma LongestFirstMeans(registered: seq<Signature>, length: nat)
    ensures var r := LongestFirst(registered);
      && (forall i, j :: 0 <= i < j < |r| ==> |r[i].bytes| >= |r[j].bytes|)
      && OfLength(r, length) == OfLength(registered, length)
  {
    var r := LongestFirst(registered);
    SortIsDescending(registered, SignatureLength);
    forall i, j | 0 <= i < j < |r| ensures |r[i].bytes| >= |r[j].bytes| {
      assert SignatureLength(r[i]) >= SignatureLength(r[j]);
    }
    SortIsStable(registered, SignatureLength, length as real);
    OfLengthIs(r, length);
    OfLengthIs(registered, length);
  }

  /** The signatures of one length, in order. */
  function OfLength(signatures: seq<Signature>, length: nat): seq<Signature> {
    if signatures == [] then []
    else (if |signatures[0].bytes| == length then [signatures[0]] else []) + OfLength(signatures[1..], length)
  }

  lemma {:induction false} OfLengthIs(signatures: seq<Signature>, length: nat)
    ensures OfLength(signatures, length) == WithKey(signatures, SignatureLength, length as real)
  {
    if signatures != [] { OfLengthIs(signatures[1..], length); }
  }

  lemma SameMembers<T>(a: seq<T>, b: seq<T>)
    requires multiset(a) == multiset(b)
    ensures forall x :: x in a <==> x in b
  {
    forall x ensures x in a <==> x in b {
      assert x in a <==> x in multiset(a);
      assert x in b <==> x in multiset(b);
    }
  }

  /** The artifacts of a scan in discovery order, and whether it was interrupted. */
  ghost function Carved(scan: Scan, registered: seq<Signature>, stop: nat -> bool): (seq<Artifact>, bool)
    requires AllNonEmpty(registered)
  {
    CarvedFrom(scan, LongestFirst(registered), stop, 0, 0, [])
  }

  // ---------- The loops compute it ----------

  /** The ranges and digests seen so far are those of the artifacts. */
  ghost predicate Tracks(found: seq<Artifact>, ranges: set<Range>, digests: set<int>) {
    && ranges == (set a | a in found :: a.Extent())
    && digests == (set a | a in found :: a.digest)
  }

  lemma TracksGrows(found: seq<Artifact>, ranges: set<Range>, digests: set<int>, a: Artifact)
    requires Tracks(found, ranges, digests)
    ensures Tracks(found + [a], ranges + {a.Extent()}, digests + {a.digest})
  {
    forall b | b in found + [a] ensures b in found || b == a {}
    assert a in found + [a];
  }

  lemma InsideIsInRange(found: seq<Artifact>, ranges: set<Range>, digests: set<int>, g: nat)
    requires Tracks(found, ranges, digests)
    ensures Inside(found, g) <==> exists r :: r in ranges && r.start <= g < r.end
  {
    InsideIff(found, g);
    if i :| 0 <= i < |found| && found[i].start <= g < found[i].End() {
      assert found[i].Extent() in ranges;
    }
    if r :| r in ranges && r.start <= g < r.end {
      var a :| a in found && r == a.Extent();
      var i :| 0 <= i < |found| && found[i] == a;
      assert found[i].start <= g < found[i].End();
    }
  }

  lemma KnownIsInDigests(found: seq<Artifact>, ranges: set<Range>, digests: set<int>, digest: int)
    requires Tracks(found, ranges, digests)
    ensures Known(found, digest) <==> digest in digests
  {
    KnownIff(found, digest);
    if digest in digests {
      var a :| a in found && a.digest == digest;
      var i :| 0 <= i < |found| && found[i] == a;
      assert found[i].digest == digest;
    }
  }

  method ExamineHit(scan: Scan, s: Signature, hit: nat, found0: seq<Artifact>, ranges0: set<Range>, digests0: set<int>)
    returns (found: seq<Artifact>, ranges: set<Range>, digests: set<int>, jump: nat)
    requires hit <= scan.Total() && Tracks(found0, ranges0, digests0)
    ensures found == Examined(scan, s, hit, found0) && jump == Jump(scan, s, hit, found0)
    ensures Tracks(found, ranges, digests)
  {
    found, ranges, digests := found0, ranges0, digests0;
    InsideIsInRange(found, ranges, digests, hit);
    if !scan.Aligned(hit) {
      jump := 1;
    } else if exists r :: r in ranges && r.start <= hit < r.end {
      jump := |s.bytes|;
    } else if !scan.Accepts(s.format, hit) {
      jump := |s.bytes|;
    } else {
      var candidate := scan.Found(s.format, hit);
      jump := Max(candidate.length, |s.bytes|);
      KnownIsInDigests(found, ranges, digests, candidate.digest);
      if !(scan.config.deduplicateByHash && candidate.digest in digests) {
        TracksGrows(found, ranges, digests, candidate);
        found := found + [candidate];
        ranges := ranges + {candidate.Extent()};
        digests := digests + {candidate.digest};
      }
    }
  }

  /** The `find` call of the inner loop. */
  method FindNext(scan: Scan, s: Signature, w: nat, chunk: Bytes, pos: nat) returns (idx: int)
    requires IsChunk(scan, w, chunk) && pos < |chunk| && |s.bytes| > 0
    ensures NextHit(scan, s, w, pos) == if idx == -1 then None else Some(idx)
    ensures idx != -1 ==> pos <= idx < |chunk| && w + idx <= scan.Total()
  {
    idx := Find(chunk, s.bytes, pos);
  }

  /** One signature in the window that starts at `w`. */
  method ScanSignature(scan: Scan, s: Signature, w: nat, chunk: Bytes,
                       found0: seq<Artifact>, ranges0: set<Range>, digests0: set<int>)
    returns (found: seq<Artifact>, ranges: set<Range>, digests: set<int>)
    requires |s.bytes| > 0 && IsChunk(scan, w, chunk) && Tracks(found0, ranges0, digests0)
    ensures found == Searched(scan, s, w, 0, found0) && Tracks(found, ranges, digests)
  {
    hide NextHit, Jump, Examined, Tracks;
    found, ranges, digests := found0, ranges0, digests0;
    var pos := 0;
    while pos < |chunk| && |found| < scan.config.maxCandidates
      invariant Tracks(found, ranges, digests)
      invariant Searched(scan, s, w, pos, found) == Searched(scan, s, w, 0, found0)
      decreases |chunk| - pos
    {
      var idx := FindNext(scan, s, w, chunk, pos);
      if idx == -1 {
        return;
      }
      var jump;
      found, ranges, digests, jump := ExamineHit(scan, s, w + idx, found, ranges, digests);
      pos := idx + jump;
    }
  }

  /** Every signature in the window that starts at `w`. */
  method ScanWindow(scan: Scan, signatures: seq<Signature>, w: nat, chunk: Bytes,
                    found0: seq<Artifact>, ranges0: set<Range>, digests0: set<int>)
    returns (found: seq<Artifact>, ranges: set<Range>, digests: set<int>)
    requires AllNonEmpty(signatures) && IsChunk(scan, w, chunk) && Tracks(found0, ranges0, digests0)
    ensures found == SearchedAll(scan, signatures, w, found0) && Tracks(found, ranges, digests)
  {
    hide Searched, Tracks;
    found, ranges, digests := found0, ranges0, digests0;
    for i := 0 to |signatures|
      invariant Tracks(found, ranges, digests)
      invariant SearchedAll(scan, signatures[i..], w, found) == SearchedAll(scan, signatures, w, found0)
    {
      assert signatures[i..][1..] == signatures[i + 1..];
      found, ranges, digests := ScanSignature(scan, signatures[i], w, chunk, found, ranges, digests);
    }
  }

  /** Every window, unless the scan is interrupted or has filled its pool. */
  method ScanWindows(scan: Scan, signatures: seq<Signature>, stop: nat -> bool)
    returns (found: seq<Artifact>, interrupted: bool)
    requires AllNonEmpty(signatures)
    ensures (found, interrupted) == CarvedFrom(scan, signatures, stop, 0, 0, [])
  {
    hide SearchedAll;
    found, interrupted := [], false;
    var ranges: set<Range>, digests: set<int> := {}, {};
    var current: nat, round: nat := 0, 0;
    while current < scan.Total() && |found| < scan.config.maxCandidates
      invariant Tracks(found, ranges, digests)
      invariant CarvedFrom(scan, signatures, stop, round, current, found)
             == CarvedFrom(scan, signatures, stop, 0, 0, [])
      decreases scan.Total() - current
    {
      if stop(round) {
        return found, true;
      }
      var chunk := Chunk(scan, current);
      if chunk == [] {
        return;
      }
      found, ranges, digests := ScanWindow(scan, signatures, current, chunk, found, ranges, digests);
      current, round := current + scan.Step(), round + 1;
    }
  }

  function Confidence(a: Artifact): real { a.confidence }

  method CarveArtifacts(scan: Scan, registered: seq<Signature>, stop: nat -> bool)
    returns (artifacts: seq<Artifact>, interrupted: bool)
    requires AllNonEmpty(registered)
    ensures var (found, stopped) := Carved(scan, registered, stop);
      artifacts == SortDescending(found, Confidence) && interrupted == stopped
    ensures multiset(artifacts) == multiset(Carved(scan, registered, stop).0)
    ensures forall i, j :: 0 <= i < j < |artifacts| ==> artifacts[i].confidence >= artifacts[j].confidence
  {
    var found;
    found, interrupted := ScanWindows(scan, LongestFirst(registered), stop);
    artifacts := SortDescending(found, Confidence);
    SortIsPermutation(found, Confidence);
    SortIsDescending(found, Confidence);
    forall i, j | 0 <= i < j < |artifacts| ensures artifacts[i].confidence >= artifacts[j].confidence {
      assert Confidence(artifacts[i]) >= Confidence(artifacts[j]);
    }
  }

  // ---------- What the scan promises ----------

  lemma ChunkOccurrence(scan: Scan, w: nat, p: nat, b: Bytes)
    requires w <= scan.Total()
    ensures StandsAt(Chunk(scan, w), p, b) <==> StandsAt(scan.source, w + p, b) && p + |b| <= |Chunk(scan, w)|
  {
    var chunk := Chunk(scan, w);
    if p + |b| <= |chunk| { SliceOfSlice(scan.source, w, |chunk|, p, |b|); }
  }

  lemma NextHitIsFirst(scan: Scan, s: Signature, w: nat, pos: nat)
    requires w <= scan.Total() && |s.bytes| > 0
    ensures var hit, chunk := NextHit(scan, s, w, pos), Chunk(scan, w);
      && (hit.Some? ==> StandsAt(chunk, hit.value, s.bytes))
      && (forall p :: pos <= p && (hit.Some? ==> p < hit.value) ==> !StandsAt(chunk, p, s.bytes))
  {
    if pos < |Chunk(scan, w)| { FindIsFirst(Chunk(scan, w), s.bytes, pos); }
  }

  /** Moving the search position from `pos` to `next` when the first hit is at `idx`. */
  lemma SearchMoves(scan: Scan, found: seq<Artifact>, s: Signature, w: nat, pos: nat, idx: nat, next: nat)
    requires w <= scan.Total() && WindowDone(scan, found, s, w, w + pos)
    requires forall p :: pos <= p < idx ==> !StandsAt(Chunk(scan, w), p, s.bytes)
    requires AllExplained(scan, found, s, w, w + idx, w + next)
    ensures WindowDone(scan, found, s, w, w + next)
  {
    forall g | scan.Candidate(s, g) && InWindow(scan, w, g, |s.bytes|) && g < w + next
      ensures Explained(scan, found, s, w, g)
    {
      if w + pos <= g < w + idx {
        ChunkOccurrence(scan, w, g - w, s.bytes);
        assert false;
      }
    }
  }

  lemma SearchEnds(scan: Scan, found: seq<Artifact>, s: Signature, w: nat, pos: nat)
    requires w <= scan.Total() && WindowDone(scan, found, s, w, w + pos)
    requires |s.bytes| > 0 && NextHit(scan, s, w, pos).None?
    ensures WindowDone(scan, found, s, w, w + scan.config.windowSize)
  {
    var end := pos + |Chunk(scan, w)| + scan.config.windowSize;
    NextHitIsFirst(scan, s, w, pos);
    SearchMoves(scan, found, s, w, pos, end, end);
  }

  /** What lies between a hit and the position the search goes on from is explained once the hit's own extent
      is: the rest of the way the signature at the hit reaches over. */
  lemma JumpExplained(scan: Scan, found: seq<Artifact>, s: Signature, w: nat, hit: nat, length: nat)
    requires w <= hit && scan.Candidate(s, hit) && Settled(scan, found, s, hit)
    requires AllExplained(scan, found, s, w, hit + 1, hit + length)
    ensures AllExplained(scan, found, s, w, hit, hit + Max(length, |s.bytes|))
  {
    forall g | hit <= g < hit + Max(length, |s.bytes|) && scan.Candidate(s, g)
      ensures Explained(scan, found, s, w, g)
    {
      if g > hit && g >= hit + length {
        assert Overlapped(scan, found, s, w, g);
      }
    }
  }

  lemma ExtentExplained(scan: Scan, found: seq<Artifact>, s: Signature, w: nat, hit: nat)
    requires w <= hit && scan.Candidate(s, hit) && scan.Accepts(s.format, hit)
    requires scan.Found(s.format, hit) in found
          || (scan.config.deduplicateByHash && Known(found, scan.Found(s.format, hit).digest))
    ensures AllExplained(scan, found, s, w, hit, hit + Max(scan.Found(s.format, hit).length, |s.bytes|))
  {
    var a := scan.Found(s.format, hit);
    forall g | (g == hit || hit <= g < hit + a.length) && scan.Candidate(s, g)
      ensures Settled(scan, found, s, g)
    {
      assert Spans(a, g);
      if a in found {
        var i :| 0 <= i < |found| && found[i] == a;
        assert Covered(found, g);
      } else {
        assert InCopy(scan, found, s, g);
      }
    }
    JumpExplained(scan, found, s, w, hit, a.length);
  }

  lemma HonestGrows(scan: Scan, signatures: seq<Signature>, found: seq<Artifact>, a: Artifact)
    requires Honest(scan, signatures, found) && |found| < scan.config.maxCandidates && Sound(scan, signatures, a)
    requires !Inside(found, a.start)
    requires scan.config.deduplicateByHash ==> !Known(found, a.digest)
    ensures Honest(scan, signatures, found + [a])
  {
    assert (found + [a])[..|found|] == found;
  }

  /** Examining a hit keeps the promises. */
  lemma ExaminedKeeps(scan: Scan, signatures: seq<Signature>, s: Signature, hit: nat, found: seq<Artifact>)
    requires s in signatures && hit + |s.bytes| <= scan.Total() && StandsAt(scan.source, hit, s.bytes)
    requires Honest(scan, signatures, found) && |found| < scan.config.maxCandidates
    ensures Honest(scan, signatures, Examined(scan, s, hit, found))
  {
    if scan.Aligned(hit) && !Inside(found, hit) && scan.Accepts(s.format, hit) {
      var a := scan.Found(s.format, hit);
      assert Sound(scan, signatures, a);
      if !(scan.config.deduplicateByHash && Known(found, a.digest)) {
        HonestGrows(scan, signatures, found, a);
      }
    }
  }

  /** It leaves nothing unexplained up to where the search goes on. */
  lemma ExaminedExplains(scan: Scan, s: Signature, w: nat, hit: nat, found: seq<Artifact>)
    requires |s.bytes| > 0 && w <= hit && hit + |s.bytes| <= scan.Total() && StandsAt(scan.source, hit, s.bytes)
    ensures Jump(scan, s, hit, found) > 0
    ensures AllExplained(scan, Examined(scan, s, hit, found), s, w, hit, hit + Jump(scan, s, hit, found))
  {
    if scan.Aligned(hit) {
      if Inside(found, hit) || !scan.Accepts(s.format, hit) {
        if Inside(found, hit) { InsideIsCovered(found, hit); }
        JumpExplained(scan, found, s, w, hit, 0);
      } else {
        var a := scan.Found(s.format, hit);
        assert a in found + [a];
        ExtentExplained(scan, Examined(scan, s, hit, found), s, w, hit);
      }
    }
  }

  lemma InsideIsCovered(found: seq<Artifact>, g: int)
    requires Inside(found, g)
    ensures Covered(found, g)
  {
    InsideIff(found, g);
    var i :| 0 <= i < |found| && found[i].start <= g < found[i].End();
    assert Spans(found[i], g);
  }

  lemma HitStands(scan: Scan, s: Signature, w: nat, pos: nat)
    requires w <= scan.Total() && |s.bytes| > 0 && NextHit(scan, s, w, pos).Some?
    ensures var hit := w + NextHit(scan, s, w, pos).value;
      hit + |s.bytes| <= scan.Total() && StandsAt(scan.source, hit, s.bytes)
  {
    NextHitIsFirst(scan, s, w, pos);
    ChunkOccurrence(scan, w, NextHit(scan, s, w, pos).value, s.bytes);
  }

  lemma HitIsDone(scan: Scan, s: Signature, w: nat, pos: nat, idx: nat, found: seq<Artifact>)
    requires |s.bytes| > 0 && w <= scan.Total() && WindowDone(scan, found, s, w, w + pos)
    requires NextHit(scan, s, w, pos) == Some(idx) && w + idx <= scan.Total()
    ensures WindowDone(scan, Examined(scan, s, w + idx, found), s, w, w + idx + Jump(scan, s, w + idx, found))
  {
    hide NextHit, Jump, Examined, WindowDone, AllExplained;
    HitStands(scan, s, w, pos);
    NextHitIsFirst(scan, s, w, pos);
    ExaminedExplains(scan, s, w, w + idx, found);
    WindowStaysDone(scan, found, Examined(scan, s, w + idx, found), s, w, w + pos);
    SearchMoves(scan, Examined(scan, s, w + idx, found), s, w, pos, idx, idx + Jump(scan, s, w + idx, found));
  }

  /** What was found stays. */
  lemma {:induction false} SearchedExtends(scan: Scan, s: Signature, w: nat, pos: nat, found: seq<Artifact>)
    requires |s.bytes| > 0 && w <= scan.Total()
    ensures found <= Searched(scan, s, w, pos, found)
    decreases |Chunk(scan, w)| - pos
  {
    hide NextHit, Jump, Chunk, Examined;
    var hit := NextHit(scan, s, w, pos);
    if hit.Some? && |found| < scan.config.maxCandidates {
      SearchedExtends(scan, s, w, hit.value + Jump(scan, s, w + hit.value, found),
                      Examined(scan, s, w + hit.value, found));
    }
  }

  lemma {:induction false} SearchedKeeps(scan: Scan, signatures: seq<Signature>, s: Signature, w: nat, pos: nat,
                                         found: seq<Artifact>)
    requires s in signatures && |s.bytes| > 0 && w <= scan.Total() && Honest(scan, signatures, found)
    ensures Honest(scan, signatures, Searched(scan, s, w, pos, found))
    decreases |Chunk(scan, w)| - pos
  {
    hide NextHit, Jump, Chunk, Examined, Honest;
    var hit := NextHit(scan, s, w, pos);
    if hit.Some? && |found| < scan.config.maxCandidates {
      HitStands(scan, s, w, pos);
      ExaminedKeeps(scan, signatures, s, w + hit.value, found);
      SearchedKeeps(scan, signatures, s, w, hit.value + Jump(scan, s, w + hit.value, found),
                    Examined(scan, s, w + hit.value, found));
    }
  }

  /** The inner loop explains every candidate of its window. */
  lemma {:induction false} SearchedIsDone(scan: Scan, s: Signature, w: nat, pos: nat, found: seq<Artifact>)
    requires |s.bytes| > 0 && w <= scan.Total() && WindowDone(scan, found, s, w, w + pos)
    ensures var r := Searched(scan, s, w, pos, found);
      |r| < scan.config.maxCandidates ==> WindowDone(scan, r, s, w, w + scan.config.windowSize)
    decreases |Chunk(scan, w)| - pos
  {
    hide NextHit, Jump, Chunk, Examined, WindowDone;
    var hit := NextHit(scan, s, w, pos);
    if hit.None? {
      SearchEnds(scan, found, s, w, pos);
    } else if |found| < scan.config.maxCandidates {
      HitIsDone(scan, s, w, pos, hit.value, found);
      SearchedIsDone(scan, s, w, hit.value + Jump(scan, s, w + hit.value, found),
                     Examined(scan, s, w + hit.value, found));
    }
  }

  ghost predicate AllDone(scan: Scan, found: seq<Artifact>, signatures: seq<Signature>, w: int) {
    forall s :: s in signatures ==> WindowDone(scan, found, s, w, w + scan.config.windowSize)
  }

  ghost predicate AllDoneBefore(scan: Scan, found: seq<Artifact>, signatures: seq<Signature>, upTo: int) {
    forall w :: 0 <= w < upTo && w % scan.Step() == 0 ==> AllDone(scan, found, signatures, w)
  }

  lemma AllStaysDone(scan: Scan, found: seq<Artifact>, more: seq<Artifact>, signatures: seq<Signature>, w: int)
    requires AllDone(scan, found, signatures, w) && found <= more
    ensures AllDone(scan, more, signatures, w)
  {
    forall s | s in signatures ensures WindowDone(scan, more, s, w, w + scan.config.windowSize) {
      WindowStaysDone(scan, found, more, s, w, w + scan.config.windowSize);
    }
  }

  lemma {:induction false} SearchedAllKeeps(scan: Scan, signatures: seq<Signature>, rest: seq<Signature>, w: nat,
                                            found: seq<Artifact>)
    requires AllNonEmpty(rest) && (forall s <- rest :: s in signatures) && w <= scan.Total()
    requires Honest(scan, signatures, found)
    ensures Honest(scan, signatures, SearchedAll(scan, rest, w, found))
  {
    if rest != [] {
      assert rest[0] in rest;
      SearchedKeeps(scan, signatures, rest[0], w, 0, found);
      SearchedAllKeeps(scan, signatures, rest[1..], w, Searched(scan, rest[0], w, 0, found));
    }
  }

  /** The loop over all signatures explains the candidates of all of them. */
  lemma {:induction false} SearchedAllIsDone(scan: Scan, signatures: seq<Signature>, w: nat, found: seq<Artifact>)
    requires AllNonEmpty(signatures) && w <= scan.Total()
    ensures var r := SearchedAll(scan, signatures, w, found);
      found <= r && (|r| < scan.config.maxCandidates ==> AllDone(scan, r, signatures, w))
  {
    if signatures != [] {
      var first, more := signatures[0], Searched(scan, signatures[0], w, 0, found);
      assert first in signatures;
      SearchedExtends(scan, first, w, 0, found);
      SearchedIsDone(scan, first, w, 0, found);
      SearchedAllIsDone(scan, signatures[1..], w, more);
      var r := SearchedAll(scan, signatures, w, found);
      if |r| < scan.config.maxCandidates {
        WindowStaysDone(scan, more, r, first, w, w + scan.config.windowSize);
        assert forall s <- signatures :: s == first || s in signatures[1..];
      }
    }
  }

  /** The windows visited are the multiples of the step. */
  lemma NextWindowDone(scan: Scan, found: seq<Artifact>, more: seq<Artifact>, signatures: seq<Signature>, w: nat)
    requires AllDoneBefore(scan, found, signatures, w) && found <= more && AllDone(scan, more, signatures, w)
    requires w % scan.Step() == 0
    ensures AllDoneBefore(scan, more, signatures, w + scan.Step())
  {
    forall v | 0 <= v < w + scan.Step() && v % scan.Step() == 0 ensures AllDone(scan, more, signatures, v) {
      if v < w {
        AllStaysDone(scan, found, more, signatures, v);
      } else {
        MultiplesApart(w, v, scan.Step());
      }
    }
  }

  lemma MultiplesApart(w: nat, v: nat, step: nat)
    requires step > 0 && w % step == 0 && v % step == 0 && w <= v < w + step
    ensures w == v
  {
    UniqueMod(v, step, w / step, v - w);
  }

  lemma {:induction false} CarvedFromKeeps(scan: Scan, signatures: seq<Signature>, stop: nat -> bool, round: nat,
                                           w: nat, found: seq<Artifact>)
    requires AllNonEmpty(signatures) && Honest(scan, signatures, found)
    ensures var (r, interrupted) := CarvedFrom(scan, signatures, stop, round, w, found);
      Honest(scan, signatures, r) && (interrupted ==> exists k :: stop(k))
    decreases scan.Total() - w
  {
    hide SearchedAll, Honest, Chunk;
    if w < scan.Total() && |found| < scan.config.maxCandidates && !stop(round) && Chunk(scan, w) != [] {
      SearchedAllKeeps(scan, signatures, signatures, w, found);
      CarvedFromKeeps(scan, signatures, stop, round + 1, w + scan.Step(), SearchedAll(scan, signatures, w, found));
    }
  }

  lemma {:induction false} CarvedFromIsDone(scan: Scan, signatures: seq<Signature>, stop: nat -> bool, round: nat,
                                            w: nat, found: seq<Artifact>)
    requires AllNonEmpty(signatures) && w % scan.Step() == 0 && scan.config.windowSize > 0
    requires |found| < scan.config.maxCandidates ==> AllDoneBefore(scan, found, signatures, w)
    ensures var (r, interrupted) := CarvedFrom(scan, signatures, stop, round, w, found);
      !interrupted && |r| < scan.config.maxCandidates ==> AllDoneBefore(scan, r, signatures, scan.Total())
    decreases scan.Total() - w
  {
    hide SearchedAll, AllDone, Chunk;
    if w < scan.Total() && |found| < scan.config.maxCandidates && !stop(round) {
      var more := SearchedAll(scan, signatures, w, found);
      SearchedAllIsDone(scan, signatures, w, found);
      if |more| < scan.config.maxCandidates {
        NextWindowDone(scan, found, more, signatures, w);
      }
      ShiftMod(w + scan.Step(), scan.Step());
      CarvedFromIsDone(scan, signatures, stop, round + 1, w + scan.Step(), more);
    }
  }

  /** The promises depend on which signatures there are, not on their order. */
  lemma {:induction false} SameHonest(scan: Scan, sorted: seq<Signature>, registered: seq<Signature>,
                                      found: seq<Artifact>)
    requires (forall s :: s in sorted <==> s in registered) && Honest(scan, sorted, found)
    ensures Honest(scan, registered, found)
  {
    if found != [] { SameHonest(scan, sorted, registered, found[..|found| - 1]); }
  }

  lemma SameDone(scan: Scan, sorted: seq<Signature>, registered: seq<Signature>, found: seq<Artifact>, upTo: int)
    requires (forall s :: s in sorted <==> s in registered) && AllDoneBefore(scan, found, sorted, upTo)
    ensures AllDoneBefore(scan, found, registered, upTo)
  {
    forall w | AllDone(scan, found, sorted, w) ensures AllDone(scan, found, registered, w) {}
  }

  /** Nothing interrupted the scan, and its pool is not full. */
  ghost predicate Completed(scan: Scan, registered: seq<Signature>, stop: nat -> bool)
    requires AllNonEmpty(registered)
  {
    var (found, interrupted) := Carved(scan, registered, stop);
    !interrupted && |found| < scan.config.maxCandidates && scan.config.windowSize > 0
  }

  /** Artifacts are sound, start outside earlier ones and stay within the bound; a completed scan explains every
      candidate of every window. */
  lemma CarvedKeeps(scan: Scan, registered: seq<Signature>, stop: nat -> bool)
    requires AllNonEmpty(registered)
    ensures var (found, interrupted) := Carved(scan, registered, stop);
      && Honest(scan, registered, found) && (interrupted ==> exists k :: stop(k))
      && (Completed(scan, registered, stop) ==> AllDoneBefore(scan, found, registered, scan.Total()))
  {
    var sorted := LongestFirst(registered);
    CarvedFromKeeps(scan, sorted, stop, 0, 0, []);
    if scan.config.windowSize > 0 { CarvedFromIsDone(scan, sorted, stop, 0, 0, []); }
    var found := Carved(scan, registered, stop).0;
    SameHonest(scan, sorted, registered, found);
    if Completed(scan, registered, stop) { SameDone(scan, sorted, registered, found, scan.Total()); }
  }

  // ---------- What a whole scan means ----------

  /** Some window the scan visits holds all of the `size` bytes at `g`. */
  ghost predicate InSomeWindow(scan: Scan, g: nat, size: nat) {
    exists w: nat :: w % scan.Step() == 0 && InWindow(scan, w, g, size)
  }

  /** The last window that starts at or before `g` reaches furthest, so it decides. */
  lemma InSomeWindowIff(scan: Scan, g: nat, size: nat)
    ensures InSomeWindow(scan, g, size) <==> g % scan.Step() + size <= scan.config.windowSize
  {
    var step := scan.Step();
    var last := g - g % step;
    assert last == g / step * step;
    UniqueMod(last, step, g / step, 0);
    if InSomeWindow(scan, g, size) {
      var w: nat :| w % step == 0 && InWindow(scan, w, g, size);
      LastMultiple(w, g, step);
    } else {
      assert !InWindow(scan, last, g, size);
    }
  }

  lemma LastMultiple(w: nat, g: nat, step: nat)
    requires step > 0 && w % step == 0 && w <= g
    ensures w <= g - g % step
  {
    NotSmaller(step, g / step, g % step, w / step, g - w);
    MulMonotone(w / step, g / step, step);
  }

  /** No window edge cuts any occurrence of `size` bytes exactly when `size` is at most one more than the overlap
      (for an overlap smaller than the window). */
  lemma NothingIsCutIff(scan: Scan, size: nat)
    requires scan.config.overlapSize < scan.config.windowSize
    ensures (forall g: nat :: InSomeWindow(scan, g, size)) <==> size <= scan.config.overlapSize + 1
  {
    var step := scan.Step();
    if size <= scan.config.overlapSize + 1 {
      forall g: nat ensures InSomeWindow(scan, g, size) {
        InSomeWindowIff(scan, g, size);
      }
    } else {
      SmallMod(step - 1, step);
      InSomeWindowIff(scan, step - 1, size);
      assert !InSomeWindow(scan, step - 1, size);
    }
  }

  /** A signature that no proper suffix of itself begins. */
  ghost predicate Borderless(b: Bytes) {
    forall k :: 0 < k < |b| ==> b[k..] != b[..|b| - k]
  }

  lemma OverlapMakesBorder(source: Bytes, b: Bytes, d: int, g: int)
    requires StandsAt(source, d, b) && StandsAt(source, g, b) && d < g < d + |b|
    ensures b[g - d..] == b[..|b| - (g - d)]
  {
    var k := g - d;
    assert b[k..] == source[d..d + |b|][k..] == source[g..d + |b|];
    assert b[..|b| - k] == source[g..g + |b|][..|b| - k] == source[g..d + |b|];
  }

  // ---------- Which candidates are covered ----------

  /** A shift by which the signature continues itself while the search can jump over the second occurrence: within
      one window step, on a sector boundary if asked, and inside the bytes to scan. */
  predicate Hides(config: Config, b: Bytes, k: nat) {
    && 0 < k < |b| && k < Max(1, config.windowSize - config.overlapSize)
    && (config.sectorAlignedOnly ==> Rest(k, config.sectorSize) == 0)
    && (config.maxScanBytes.Some? ==> k + |b| <= config.maxScanBytes.value)
    && b[k..] == b[..|b| - k]
  }

  ghost predicate NeverHides(config: Config, b: Bytes) { forall k: nat :: !Hides(config, b, k) }

  lemma {:induction false} RestOfDifference(d: nat, g: nat, n: nat)
    requires n > 0 && d <= g && Rest(d, n) == 0 && Rest(g, n) == 0
    ensures Rest(g - d, n) == 0
  {
    if d >= n { RestOfDifference(d - n, g - n, n); }
  }

  lemma OverlapHides(scan: Scan, s: Signature, w: nat, d: int, g: nat)
    requires w <= d < g < d + |s.bytes| && scan.Candidate(s, d) && scan.Candidate(s, g) && g < w + scan.Step()
    ensures Hides(scan.config, s.bytes, g - d)
  {
    OverlapMakesBorder(scan.source, s.bytes, d, g);
    if scan.config.sectorAlignedOnly { RestOfDifference(d, g, scan.config.sectorSize); }
  }

  /** After a completed scan every candidate that its validator accepts lies in the range of an artifact, or of a
      dropped copy of one, when its signature fits the overlap and never hides behind itself. */
  lemma EveryValidCandidateIsCovered(scan: Scan, registered: seq<Signature>, stop: nat -> bool, s: Signature, g: nat)
    requires AllNonEmpty(registered) && Completed(scan, registered, stop) && s in registered
    requires scan.config.overlapSize < scan.config.windowSize && |s.bytes| <= scan.config.overlapSize + 1
    requires NeverHides(scan.config, s.bytes)
    requires scan.Candidate(s, g) && scan.Accepts(s.format, g)
    ensures Accounted(scan, Carved(scan, registered, stop).0, s, g)
    ensures !scan.config.deduplicateByHash ==> Covered(Carved(scan, registered, stop).0, g)
  {
    hide Carved, Completed;
    var found := Carved(scan, registered, stop).0;
    CarvedKeeps(scan, registered, stop);
    var w := LastWindow(scan, g, |s.bytes|);
    assert AllDone(scan, found, registered, w);
    assert WindowDone(scan, found, s, w, w + scan.config.windowSize);
    assert Explained(scan, found, s, w, g);
    forall d | w <= d < g < d + |s.bytes| ensures !scan.Candidate(s, d) {
      if scan.Candidate(s, d) { OverlapHides(scan, s, w, d, g); }
    }
  }

  /** A signature that begins another one of its format finds the candidates of both. */
  lemma BeginningIsEnough(scan: Scan, registered: seq<Signature>, stop: nat -> bool, s: Signature, t: Signature, g: nat)
    requires AllNonEmpty(registered) && Completed(scan, registered, stop) && t in registered
    requires t.format == s.format && t.bytes <= s.bytes && NeverHides(scan.config, t.bytes)
    requires scan.config.overlapSize < scan.config.windowSize && |t.bytes| <= scan.config.overlapSize + 1
    requires scan.Candidate(s, g) && scan.Accepts(s.format, g)
    ensures Accounted(scan, Carved(scan, registered, stop).0, t, g)
  {
    hide Carved, Completed, NeverHides;
    assert scan.source[g..g + |s.bytes|][..|t.bytes|] == scan.source[g..g + |t.bytes|];
    EveryValidCandidateIsCovered(scan, registered, stop, t, g);
  }

  /** The last window that starts at or before `g` holds the signature, and starts less than a step before it. */
  lemma LastWindow(scan: Scan, g: nat, size: nat) returns (w: nat)
    requires scan.config.overlapSize < scan.config.windowSize && size <= scan.config.overlapSize + 1
    ensures w <= g < w + scan.Step() && w % scan.Step() == 0 && InWindow(scan, w, g, size)
  {
    var step := scan.Step();
    w := g - g % step;
    assert w == g / step * step;
    UniqueMod(w, step, g / step, 0);
  }

  /** A scan of any source, with any validators and any hash, accounts for every accepted candidate of `s` if it is
      completed. */
  ghost predicate Complete(config: Config, registered: seq<Signature>, s: Signature)
    requires AllNonEmpty(registered)
  {
    forall scan: Scan, stop, g: nat ::
      scan.config == config && Completed(scan, registered, stop) && scan.Candidate(s, g) && scan.Accepts(s.format, g)
      ==> Accounted(scan, Carved(scan, registered, stop).0, s, g)
  }

  /** No other signature of the format begins `s`. */
  ghost predicate NoOtherBeginning(registered: seq<Signature>, s: Signature) {
    forall t <- registered :: t.format == s.format && t.bytes <= s.bytes ==> t == s
  }

  // The scan that misses a candidate: the signature stands at 0 and at `k`, and only the second one is accepted.

  function HidingScan(config: Config, s: Signature, k: nat): Scan
    requires k <= |s.bytes|
  {
    var size := |s.bytes|;
    Scan(s.bytes[..k] + s.bytes, config,
         (format: string, buffer: Bytes) => Verdict(format == s.format && |buffer| == size, 1, 0.0), _ => 0)
  }

  lemma HidingScanIs(config: Config, s: Signature, k: nat)
    requires Hides(config, s.bytes, k) && config.maxFileSize > |s.bytes|
    ensures var scan := HidingScan(config, s, k);
      && scan.Total() == k + |s.bytes| && scan.Candidate(s, 0) && scan.Candidate(s, k) && scan.Accepts(s.format, k)
      && (forall format, g: nat :: g <= scan.Total() && scan.Accepts(format, g) ==> format == s.format && g == k)
  {
    var scan, b := HidingScan(config, s, k), s.bytes;
    assert scan.source[..|b|] == b by {
      assert b == b[..k] + b[k..];
      assert scan.source[..|b|] == b[..k] + b[..|b| - k];
    }
    assert scan.source[k..k + |b|] == b;
  }

  /** Where no occurrence is accepted, the search finds nothing. */
  lemma {:induction false} NothingSearched(scan: Scan, s: Signature, w: nat, pos: nat)
    requires |s.bytes| > 0 && w <= scan.Total()
    requires forall g: nat :: w + pos <= g <= scan.Total() && StandsAt(scan.source, g, s.bytes) ==>
      !scan.Accepts(s.format, g)
    ensures Searched(scan, s, w, pos, []) == []
    decreases |Chunk(scan, w)| - pos
  {
    hide NextHit, Jump, Chunk;
    var hit := NextHit(scan, s, w, pos);
    if hit.Some? && scan.config.maxCandidates > 0 {
      HitStands(scan, s, w, pos);
      NothingSearched(scan, s, w, hit.value + Jump(scan, s, w + hit.value, []));
    }
  }

  /** The first window: the hit at 0 is rejected and the search jumps over the one at `k`. */
  lemma HiddenInFirstWindow(config: Config, s: Signature, k: nat)
    requires Hides(config, s.bytes, k) && config.maxFileSize > |s.bytes| && config.windowSize >= |s.bytes|
    ensures Searched(HidingScan(config, s, k), s, 0, 0, []) == []
  {
    var scan := HidingScan(config, s, k);
    HidingScanIs(config, s, k);
    ChunkOccurrence(scan, 0, 0, s.bytes);
    if scan.config.maxCandidates > 0 {
      assert NextHit(scan, s, 0, 0) == Some(0);
      NothingSearched(scan, s, 0, |s.bytes|);
    }
  }

  lemma StandsInTail(source: Bytes, k: nat, b: Bytes, piece: Bytes)
    requires k <= |source| && source[k..] == b && StandsAt(source, k, piece)
    ensures piece <= b
  {
    assert source[k..][..|piece|] == source[k..k + |piece|];
  }

  lemma {:induction false} HiddenFromAll(config: Config, s: Signature, k: nat, signatures: seq<Signature>, w: nat)
    requires Hides(config, s.bytes, k) && config.maxFileSize > |s.bytes| && config.windowSize >= |s.bytes|
    requires AllNonEmpty(signatures) && NoOtherBeginning(signatures, s)
    requires w <= HidingScan(config, s, k).Total() && (w == 0 || k < w)
    ensures SearchedAll(HidingScan(config, s, k), signatures, w, []) == []
  {
    assert k <= |s.bytes|;
    hide Searched, Hides;
    if signatures != [] {
      var scan, t := HidingScan(config, s, k), signatures[0];
      assert t in signatures;
      HidingScanIs(config, s, k);
      if t == s && w == 0 {
        HiddenInFirstWindow(config, s, k);
      } else {
        forall g: nat | w <= g <= scan.Total() && StandsAt(scan.source, g, t.bytes) ensures !scan.Accepts(t.format, g) {
          if g == k { StandsInTail(scan.source, k, s.bytes, t.bytes); }
        }
        NothingSearched(scan, t, w, 0);
      }
      HiddenFromAll(config, s, k, signatures[1..], w);
    }
  }

  lemma {:induction false} HiddenInEveryWindow(config: Config, s: Signature, k: nat, signatures: seq<Signature>,
                                               stop: nat -> bool, round: nat, w: nat)
    requires Hides(config, s.bytes, k) && config.maxFileSize > |s.bytes| && config.windowSize >= |s.bytes|
    requires AllNonEmpty(signatures) && NoOtherBeginning(signatures, s)
    requires w == 0 || k < w
    ensures CarvedFrom(HidingScan(config, s, k), signatures, stop, round, w, []).0 == []
    decreases HidingScan(config, s, k).Total() - w
  {
    hide SearchedAll;
    var scan := HidingScan(config, s, k);
    if w < scan.Total() {
      HiddenFromAll(config, s, k, signatures, w);
      HiddenInEveryWindow(config, s, k, signatures, stop, round + 1, w + scan.Step());
    }
  }

  /** When no other signature of the format begins it, completed scans account for every accepted candidate, whatever
      the source, the validators and the hash, if and only if the signature never hides behind itself. */
  lemma CompleteIff(config: Config, registered: seq<Signature>, s: Signature)
    requires AllNonEmpty(registered) && s in registered
    requires NoOtherBeginning(registered, s)
    requires config.overlapSize < config.windowSize && |s.bytes| <= config.overlapSize + 1
    requires config.maxFileSize > |s.bytes| && config.maxCandidates > 0
    ensures Complete(config, registered, s) <==> NeverHides(config, s.bytes)
  {
    hide Hides, Carved, Completed;
    if NeverHides(config, s.bytes) {
      forall scan: Scan, stop, g: nat |
        scan.config == config && Completed(scan, registered, stop) && scan.Candidate(s, g) && scan.Accepts(s.format, g)
        ensures Accounted(scan, Carved(scan, registered, stop).0, s, g)
      {
        EveryValidCandidateIsCovered(scan, registered, stop, s, g);
      }
    } else {
      var k: nat :| Hides(config, s.bytes, k);
      HiddenIsMissed(config, registered, s, k);
    }
  }

  lemma HiddenIsMissed(config: Config, registered: seq<Signature>, s: Signature, k: nat)
    requires AllNonEmpty(registered) && NoOtherBeginning(registered, s)
    requires Hides(config, s.bytes, k) && config.windowSize >= |s.bytes|
    requires config.maxFileSize > |s.bytes| && config.maxCandidates > 0
    ensures !Complete(config, registered, s)
  {
    var scan, stop := HidingScan(config, s, k), (_: nat) => false;
    HidingScanIs(config, s, k);
    HiddenInEveryWindow(config, s, k, LongestFirst(registered), stop, 0, 0);
    CarvedKeeps(scan, registered, stop);
    assert Carved(scan, registered, stop).0 == [] && Completed(scan, registered, stop);
    assert !Accounted(scan, [], s, k);
  }

  /** With a step of at least its length, no sector alignment and no scan limit the condition is that the signature
      has no border. */
  lemma NeverHidesIff(config: Config, b: Bytes)
    requires !config.sectorAlignedOnly && config.maxScanBytes.None?
    requires |b| <= Max(1, config.windowSize - config.overlapSize)
    ensures NeverHides(config, b) <==> Borderless(b)
  {
    if !Borderless(b) {
      var k :| 0 < k < |b| && b[k..] == b[..|b| - k];
      assert Hides(config, b, k);
    }
    if !NeverHides(config, b) {
      var k: nat :| Hides(config, b, k);
      assert b[k..] == b[..|b| - k];
    }
  }

  /** The registered JPEG signature ends as it begins, so accepted images are missed: one whose signature starts with
      the last byte of another occurrence is jumped over. */
  lemma JpegIsIncomplete(config: Config, registered: seq<Signature>, s: Signature)
    requires AllNonEmpty(registered) && NoOtherBeginning(registered, s)
    requires s in registered && s.bytes == JPEG.bytes
    requires config.windowSize >= config.overlapSize + 3 && config.overlapSize >= 2
    requires !config.sectorAlignedOnly && config.maxScanBytes.None?
    requires config.maxFileSize > 3 && config.maxCandidates > 0
    ensures !Borderless(s.bytes) && !Complete(config, registered, s)
  {
    hide Complete;
    assert s.bytes[2..] == s.bytes[..1];
    NeverHidesIff(config, s.bytes);
    CompleteIff(config, registered, s);
  }

  // A whole scan that misses an image: the RIFF file takes six bytes, and the image starts right behind it.

  const RIFF := Signature("RIFF", [0x52, 0x49, 0x46, 0x46])
  const JPEG := Signature("JPEG", [0xFF, 0xD8, 0xFF])

  function RiffThenImage(config: Config): Scan {
    Scan([0x52, 0x49, 0x46, 0x46, 0xFF, 0xD8, 0xFF, 0xD8, 0xFF], config,
         (format: string, _) => Verdict(true, if format == "RIFF" then 6 else 3, 0.0), (b: Bytes) => |b|)
  }

  predicate WideOpen(config: Config) {
    && config.windowSize >= config.overlapSize + 9 && config.maxFileSize >= 9 && config.maxCandidates > 1
    && !config.sectorAlignedOnly && config.maxScanBytes.None?
  }

  lemma NextHitIs(scan: Scan, s: Signature, w: nat, pos: nat, p: nat)
    requires w <= scan.Total() && |s.bytes| > 0 && pos <= p && StandsAt(Chunk(scan, w), p, s.bytes)
    requires forall q :: pos <= q < p ==> !StandsAt(Chunk(scan, w), q, s.bytes)
    ensures NextHit(scan, s, w, pos) == Some(p)
  {
    NextHitIsFirst(scan, s, w, pos);
    FindIsFirst(Chunk(scan, w), s.bytes, pos);
  }

  lemma NoNextHit(scan: Scan, s: Signature, w: nat, pos: nat)
    requires w <= scan.Total() && |s.bytes| > 0 && pos + |s.bytes| > |Chunk(scan, w)|
    ensures NextHit(scan, s, w, pos) == None
  {}

  /** The RIFF file is found, and nothing behind it starts another. */
  lemma RiffIsFound(config: Config)
    requires WideOpen(config)
    ensures var scan := RiffThenImage(config); Searched(scan, RIFF, 0, 0, []) == [scan.Found("RIFF", 0)]
  {
    hide Searched;
    var scan := RiffThenImage(config);
    var a := scan.Found("RIFF", 0);
    assert Chunk(scan, 0) == scan.source;
    assert scan.source[..4] == RIFF.bytes;
    NextHitIs(scan, RIFF, 0, 0, 0);
    NoNextHit(scan, RIFF, 0, 6);
    assert Examined(scan, RIFF, 0, []) == [a] && a.length == 6 && Jump(scan, RIFF, 0, []) == 6;
    SearchedStep(scan, RIFF, 0, 0, []);
    SearchedStep(scan, RIFF, 0, 6, [a]);
  }

  lemma FirstByteDiffers(s: Bytes, at: nat, piece: Bytes)
    requires at < |s| && piece != [] && s[at] != piece[0]
    ensures !StandsAt(s, at, piece)
  {}

  /** The image's signature is first hit two bytes too early, inside the RIFF file. */
  lemma ImageIsJumpedOver(config: Config)
    requires WideOpen(config)
    ensures var scan := RiffThenImage(config); var found := [scan.Found("RIFF", 0)];
      Searched(scan, JPEG, 0, 0, found) == found
  {
    hide Searched;
    var scan := RiffThenImage(config);
    var found := [scan.Found("RIFF", 0)];
    assert Chunk(scan, 0) == scan.source;
    assert scan.source[4..7] == JPEG.bytes;
    forall q | 0 <= q < 4 ensures !StandsAt(scan.source, q, JPEG.bytes) {
      assert scan.source[q] != 0xFF;
      FirstByteDiffers(scan.source, q, JPEG.bytes);
    }
    NextHitIs(scan, JPEG, 0, 0, 4);
    NoNextHit(scan, JPEG, 0, 7);
    hide NextHit;
    assert Examined(scan, JPEG, 4, found) == found && Jump(scan, JPEG, 4, found) == 3;
    SearchedStep(scan, JPEG, 0, 0, found);
    SearchedStep(scan, JPEG, 0, 7, found);
  }

  lemma SearchedStep(scan: Scan, s: Signature, w: nat, pos: nat, found: seq<Artifact>)
    requires w <= scan.Total() && |s.bytes| > 0
    ensures var hit := NextHit(scan, s, w, pos);
      Searched(scan, s, w, pos, found) ==
        if hit.None? || |found| >= scan.config.maxCandidates then found
        else Searched(scan, s, w, hit.value + Jump(scan, s, w + hit.value, found),
                      Examined(scan, s, w + hit.value, found))
  {
    hide NextHit, Jump, Examined, Chunk;
  }

  /** No stretch accepted as an image is a copy of the RIFF file. */
  lemma ImageIsNoCopy(config: Config)
    requires WideOpen(config)
    ensures var scan := RiffThenImage(config); !Accounted(scan, [scan.Found("RIFF", 0)], JPEG, 6)
  {
    var scan := RiffThenImage(config);
    var a := scan.Found("RIFF", 0);
    assert a.End() == 6 && a.digest == 6;
    assert !Covered([a], 6);
    forall digest | digest < 6 ensures !Known([a], digest) {
      assert [a][..0] == [];
    }
  }

  lemma RiffComesFirst()
    ensures AllNonEmpty([RIFF, JPEG]) && LongestFirst([RIFF, JPEG]) == [RIFF, JPEG]
  {
    assert [RIFF, JPEG][1..] == [JPEG] && [JPEG][1..] == [];
  }

  /** An image directly behind a RIFF file that ends in `FF D8` is missed by a completed scan, although every
      validator accepts what it is shown, with or without digest deduplication. */
  lemma ImageBehindRiffIsMissed(config: Config, stop: nat -> bool)
    requires WideOpen(config) && forall round :: !stop(round)
    ensures AllNonEmpty([RIFF, JPEG])
    ensures var scan := RiffThenImage(config);
      && Completed(scan, [RIFF, JPEG], stop) && scan.Candidate(JPEG, 6) && scan.Accepts("JPEG", 6)
      && !Accounted(scan, Carved(scan, [RIFF, JPEG], stop).0, JPEG, 6)
  {
    hide Searched, LongestFirst;
    var scan := RiffThenImage(config);
    var found := [scan.Found("RIFF", 0)];
    RiffComesFirst();
    RiffIsFound(config);
    ImageIsJumpedOver(config);
    assert [RIFF, JPEG][1..] == [JPEG] && [JPEG][1..] == [];
    assert SearchedAll(scan, [], 0, found) == found;
    assert SearchedAll(scan, [JPEG], 0, found) == found;
    assert SearchedAll(scan, [RIFF, JPEG], 0, []) == found;
    assert scan.source[6..9] == JPEG.bytes;
    assert Chunk(scan, 0) == scan.source && scan.Step() >= 9;
    ImageIsNoCopy(config);
    hide Accounted;
    assert CarvedFrom(scan, [RIFF, JPEG], stop, 1, scan.Step(), found) == (found, false);
    assert Carved(scan, [RIFF, JPEG], stop) == (found, false);
  }

  /** Every artifact is exactly a stretch of the source, as long as its validator said or as far as it could
      see, and with a positive size limit no two artifacts start at the same byte. */
  lemma ArtifactsAreSlices(scan: Scan, registered: seq<Signature>, found: seq<Artifact>, i: nat, j: nat)
    requires Honest(scan, registered, found) && i <= j < |found| && AllNonEmpty(registered)
    ensures SliceOfSource(scan, found[i]) && SliceOfSource(scan, found[j])
    ensures scan.config.maxFileSize > 0 && i < j ==> found[i].start != found[j].start
  {
    hide Honest, Sound;
    HonestMeans(scan, registered, found, i, i);
    HonestMeans(scan, registered, found, i, j);
    SoundIsSlice(scan, registered, found[i]);
    SoundIsSlice(scan, registered, found[j]);
  }

  /** What an artifact says of the source: a signature registered for its format stands at its start, on a sector
      boundary if that is asked for; the validator of the format was shown the source from there on, as far as the
      size limit and the end of the scan let it, and its data is what the validator called valid of that. */
  lemma ArtifactMeans(scan: Scan, registered: seq<Signature>, found: seq<Artifact>, i: nat)
    requires Honest(scan, registered, found) && i < |found|
    ensures var a := found[i];
      var end := if scan.config.maxScanBytes.Some? && scan.config.maxScanBytes.value < |scan.source|
                 then scan.config.maxScanBytes.value else |scan.source|;
      && a.start <= end
      && var shown := if scan.config.maxFileSize < end - a.start
                      then scan.source[a.start..a.start + scan.config.maxFileSize] else scan.source[a.start..end];
      var v := scan.validate(a.format, shown);
      && v.isValid && v.length > 0 && a.confidence == v.confidence && a.digest == scan.digest(a.data)
      && a.data == (if v.length < |shown| then shown[..v.length] else shown) && a.length == |a.data|
    ensures scan.config.sectorAlignedOnly ==> found[i].start % scan.config.sectorSize == 0
    ensures exists s :: s in registered && s.format == found[i].format && found[i].start + |s.bytes| <= |scan.source|
                     && scan.source[found[i].start..found[i].start + |s.bytes|] == s.bytes
  {
    hide *;
    HonestMeans(scan, registered, found, i, i);
    var s := WitnessOf(scan, registered, found[i]);
    CandidateMeans(scan, s, found[i].start);
    FoundMeans(scan, s.format, found[i].start);
  }

  lemma WitnessOf(scan: Scan, registered: seq<Signature>, a: Artifact) returns (s: Signature)
    requires Sound(scan, registered, a)
    ensures s in registered && scan.Candidate(s, a.start) && scan.Accepts(s.format, a.start)
    ensures a == scan.Found(s.format, a.start) && s.format == a.format
  {
    s :| s in registered && scan.Candidate(s, a.start) && scan.Accepts(s.format, a.start)
      && a == scan.Found(s.format, a.start);
  }

  /** Where a candidate stands: the whole signature lies in the part of the source that is scanned, on a sector
      boundary if that is asked for. */
  lemma CandidateMeans(scan: Scan, s: Signature, g: nat)
    ensures scan.Candidate(s, g) <==>
      && g + |s.bytes| <= |scan.source| && scan.source[g..g + |s.bytes|] == s.bytes
      && (scan.config.maxScanBytes.Some? ==> g + |s.bytes| <= scan.config.maxScanBytes.value)
      && (scan.config.sectorAlignedOnly ==> g % scan.config.sectorSize == 0)
  {
    RestIsMod(g, scan.config.sectorSize);
  }

  /** What acceptance is: the validator calls the bytes from there on, up to the limits, valid with a positive
      length. */
  lemma AcceptsMeans(scan: Scan, format: string, g: nat)
    requires g <= scan.Total()
    ensures var end := if scan.config.maxScanBytes.Some? && scan.config.maxScanBytes.value < |scan.source|
                       then scan.config.maxScanBytes.value else |scan.source|;
      && g <= end
      && var shown := if scan.config.maxFileSize < end - g
                      then scan.source[g..g + scan.config.maxFileSize] else scan.source[g..end];
      scan.Accepts(format, g) <==> scan.validate(format, shown).isValid && scan.validate(format, shown).length > 0
  {}

  lemma FoundMeans(scan: Scan, format: string, g: nat)
    requires g <= scan.Total() && scan.Accepts(format, g)
    ensures var a := scan.Found(format, g);
      var end := if scan.config.maxScanBytes.Some? && scan.config.maxScanBytes.value < |scan.source|
                 then scan.config.maxScanBytes.value else |scan.source|;
      && g <= end
      && var shown := if scan.config.maxFileSize < end - g
                      then scan.source[g..g + scan.config.maxFileSize] else scan.source[g..end];
      var v := scan.validate(format, shown);
      && v.isValid && v.length > 0 && a.confidence == v.confidence && a.digest == scan.digest(a.data)
      && a.data == (if v.length < |shown| then shown[..v.length] else shown) && a.length == |a.data|
  {}

  predicate SliceOfSource(scan: Scan, a: Artifact) {
    && a.End() <= scan.Total() && a.data == scan.source[a.start..a.End()] && a.length <= scan.config.maxFileSize
    && (scan.config.maxFileSize > 0 ==> a.length > 0)
  }

  lemma SoundIsSlice(scan: Scan, registered: seq<Signature>, a: Artifact)
    requires Sound(scan, registered, a)
    requires AllNonEmpty(registered)
    ensures SliceOfSource(scan, a)
  {
    var s :| s in registered && scan.Candidate(s, a.start) && scan.Accepts(s.format, a.start)
          && a == scan.Found(s.format, a.start);
    assert |s.bytes| > 0 && a.start < scan.Total();
  }
}
