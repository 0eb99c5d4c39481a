/** When a faithful device passes the physical overwrite of `drex_app.py`, judged from its transfer lengths alone:
    patterns are seeded by where a transfer starts, so both passes have to cut the disk at the same places. */
module TransferLengths {
  import opened Basics
  import opened PhysicalOverwrite

  /** How much of `n` bytes at offset `o` the `step`-th transfer of a pass moves. */
  type Lengths = (nat, nat, nat) -> nat

  datatype Plan = Plan(write: Lengths, read: Lengths)

  /** A transfer moves something, if anything was asked for, and no more than that. */
  predicate MovesAt(len: Lengths, step: nat, o: nat, n: nat) {
    len(step, o, n) <= n && (n > 0 ==> len(step, o, n) > 0)
  }

  ghost predicate Moves(len: Lengths) { forall step: nat, o: nat, n: nat :: MovesAt(len, step, o, n) }

  ghost predicate Workable(plan: Plan) { Moves(plan.write) && Moves(plan.read) }

  /** The length of the transfer that starts at `offset`. */
  function Moved(len: Lengths, total: nat, offset: nat, step: nat): (n: nat)
    requires Moves(len) && offset < total
    ensures 0 < n <= Min(CHUNK, total - offset)
  {
    assert MovesAt(len, step, offset, Min(CHUNK, total - offset));
    len(step, offset, Min(CHUNK, total - offset))
  }

  /** Where the transfer that covers `o` starts. */
  function StartOf(len: Lengths, total: nat, offset: nat, step: nat, o: nat): (s: nat)
    requires Moves(len) && offset <= o < total
    ensures offset <= s <= o
    decreases total - offset
  {
    var next := offset + Moved(len, total, offset, step);
    if o < next then offset else StartOf(len, total, next, step + 1, o)
  }

  /** The two passes move the same lengths, transfer by transfer. */
  ghost predicate SameLengths(plan: Plan, total: nat, offset: nat, step: nat)
    requires Workable(plan)
    decreases total - offset
  {
    offset < total ==>
      && Moved(plan.write, total, offset, step) == Moved(plan.read, total, offset, step)
      && SameLengths(plan, total, offset + Moved(plan.write, total, offset, step), step + 1)
  }

  lemma {:induction false} SameLengthsSameStarts(plan: Plan, total: nat, offset: nat, step: nat, o: nat)
    requires Workable(plan) && offset <= o < total && SameLengths(plan, total, offset, step)
    ensures StartOf(plan.write, total, offset, step, o) == StartOf(plan.read, total, offset, step, o)
    decreases total - offset
  {
    var next := offset + Moved(plan.write, total, offset, step);
    if next <= o { SameLengthsSameStarts(plan, total, next, step + 1, o); }
  }

  /** Different lengths show: some byte belongs to transfers that start at different places. */
  lemma {:induction false} UnevenStart(plan: Plan, total: nat, offset: nat, step: nat) returns (o: nat)
    requires Workable(plan) && offset <= total && !SameLengths(plan, total, offset, step)
    ensures offset <= o < total
    ensures StartOf(plan.write, total, offset, step, o) != StartOf(plan.read, total, offset, step, o)
    decreases total - offset
  {
    var w, r := Moved(plan.write, total, offset, step), Moved(plan.read, total, offset, step);
    if w == r {
      o := UnevenStart(plan, total, offset + w, step + 1);
    } else {
      o := offset + if w < r then w else r;
    }
  }

  // ---------- Faithful devices ----------

  ghost predicate Sized(digest: nat -> Bytes) { forall o: nat :: |digest(o)| == SALT_BLOCK }

  /** The pattern byte at `o` when the transfer that covers it starts at `seed`. */
  function ByteFrom(digest: nat -> Bytes, seed: nat, o: nat): bv8
    requires |digest(seed)| == SALT_BLOCK && seed <= o
  {
    digest(seed)[(o - seed) % SALT_BLOCK]
  }

  /** What a write pass with these lengths leaves on the disk. */
  ghost function Stored(digest: nat -> Bytes, plan: Plan, total: nat): (content: Bytes)
    requires Sized(digest) && Workable(plan)
    ensures |content| == total
  {
    seq(total, o requires 0 <= o < total => ByteFrom(digest, StartOf(plan.write, total, 0, 0, o), o))
  }

  function AtMost(k: nat, n: nat): (r: nat)
    ensures r <= n && (k <= n ==> r == k)
  {
    if k <= n then k else n
  }

  /** A device that moves these lengths, never fails, and returns what was written. */
  function Faithful(digest: nat -> Bytes, plan: Plan, content: Bytes): Device {
    Device(
      digest,
      (step: nat, o: nat, buf: Bytes) => (true, AtMost(plan.write(step, o, |buf|), |buf|)),
      (step: nat, o: nat, n: nat) =>
        (true, if o + n <= |content| then content[o..o + AtMost(plan.read(step, o, n), n)] else []),
      _ => false,
      _ => false)
  }

  ghost function FaithfulDevice(digest: nat -> Bytes, plan: Plan, total: nat): Device
    requires Sized(digest) && Workable(plan)
  {
    Faithful(digest, plan, Stored(digest, plan, total))
  }

  ghost function FinalStatusOf(digest: nat -> Bytes, plan: Plan, total: nat): FinalStatus
    requires Sized(digest) && Workable(plan)
  {
    var d := FaithfulDevice(digest, plan, total);
    FaithfulIsSane(digest, plan, Stored(digest, plan, total));
    Judge(d, total, WritePass(d, total, 0, 0), ReadPass(d, total, 0, 0)).finalStatus
  }

  lemma FaithfulIsSane(digest: nat -> Bytes, plan: Plan, content: Bytes)
    requires Sized(digest) && Workable(plan)
    ensures var d := Faithful(digest, plan, content);
      Sane(d) && NeverCancelled(d) && WritesSucceed(d) && ReadsBack(d, content)
  {
    var d := Faithful(digest, plan, content);
    forall step: nat, o: nat, buf ensures SaneWrite(d, step, o, buf) && (buf != [] ==> d.write(step, o, buf).1 > 0) {
      assert MovesAt(plan.write, step, o, |buf|);
    }
    forall step: nat, o: nat, n: nat ensures SaneRead(d, step, o, n) {
      assert MovesAt(plan.read, step, o, n);
    }
    forall step: nat, o: nat, n: nat | n > 0 && o + n <= |content| ensures ReturnsPiece(d, content, step, o, n) {
      assert MovesAt(plan.read, step, o, n);
    }
  }

  /** A device that writes, and one that reads, with given lengths. */
  ghost predicate WritesLike(d: Device, len: Lengths, total: nat) {
    && Sane(d) && Moves(len) && NeverCancelled(d)
    && (forall offset: nat, step: nat :: offset < total ==>
      WriteChunk(d, total, offset, step) == (true, Moved(len, total, offset, step)))
  }

  ghost predicate ReadsLike(d: Device, len: Lengths, total: nat) {
    && Sane(d) && Moves(len)
    && (forall offset: nat, step: nat :: offset < total ==>
      && Stop(d, total, offset, step).None?
      && |ReadAt(d, total, offset, step).1| == Moved(len, total, offset, step))
  }

  lemma FaithfulMoves(digest: nat -> Bytes, plan: Plan, content: Bytes)
    requires Sized(digest) && Workable(plan)
    ensures WritesLike(Faithful(digest, plan, content), plan.write, |content|)
    ensures ReadsLike(Faithful(digest, plan, content), plan.read, |content|)
  {
    var d := Faithful(digest, plan, content);
    FaithfulIsSane(digest, plan, content);
    forall offset: nat, step: nat | offset < |content|
      ensures Stop(d, |content|, offset, step).None?
      ensures |ReadAt(d, |content|, offset, step).1| == Moved(plan.read, |content|, offset, step)
    {
      assert |ReadAt(d, |content|, offset, step).1| == Moved(plan.read, |content|, offset, step);
    }
  }

  /** The first segment of a write pass, and the rest. */
  lemma WriteIs(d: Device, len: Lengths, total: nat, offset: nat, step: nat)
    requires WritesLike(d, len, total) && offset < total
    ensures var count := Moved(len, total, offset, step);
      var w := WritePass(d, total, offset, step).segments;
      && w != [] && w[0].offset == offset && |w[0].data| == count
      && w[1..] == WritePass(d, total, offset + count, step + 1).segments
  {
    var count := Moved(len, total, offset, step);
    var data := Pattern(d, offset, Min(CHUNK, total - offset));
    var rest := WritePass(d, total, offset + count, step + 1);
    assert WriteChunk(d, total, offset, step) == (true, count);
    assert ([Segment(offset, data[..count])] + rest.segments)[1..] == rest.segments;
  }

  lemma SeedInRest(segments: seq<Segment>, o: nat)
    requires segments != [] && segments[0].offset <= o
    ensures SeedOf(segments, o) == if o < segments[0].offset + |segments[0].data| then segments[0].offset
                                   else SeedOf(segments[1..], o)
  {}

  lemma {:induction false} WriteStarts(d: Device, len: Lengths, total: nat, offset: nat, step: nat, o: nat)
    requires WritesLike(d, len, total) && offset <= o < total
    ensures SeedOf(WritePass(d, total, offset, step).segments, o) == StartOf(len, total, offset, step, o)
    decreases total - offset
  {
    hide WritePass, SeedOf, WriteChunk;
    var next := offset + Moved(len, total, offset, step);
    WriteIs(d, len, total, offset, step);
    SeedInRest(WritePass(d, total, offset, step).segments, o);
    if next <= o { WriteStarts(d, len, total, next, step + 1, o); }
  }

  lemma {:induction false} ReadStarts(d: Device, len: Lengths, total: nat, offset: nat, step: nat, o: nat)
    requires ReadsLike(d, len, total) && offset <= o < total
    ensures SeedOf(ReadPass(d, total, offset, step).segments, o) == StartOf(len, total, offset, step, o)
    decreases total - offset
  {
    hide ReadPass, SeedOf, ReadAt, Stop;
    var next := offset + Moved(len, total, offset, step);
    ReadIs(d, total, offset, step);
    SeedInRest(ReadPass(d, total, offset, step).segments, o);
    if next <= o { ReadStarts(d, len, total, next, step + 1, o); }
  }

  /** What a write pass with these lengths writes at `o`. */
  lemma WrittenByte(d: Device, len: Lengths, total: nat, w: seq<Segment>, o: nat)
    requires WritesLike(d, len, total) && o < total && w == WritePass(d, total, 0, 0).segments
    requires TileRange(w, 0, total) && AllMatch(d, w)
    ensures |Contents(w)| == total && Contents(w)[o] == ByteFrom(d.digest, StartOf(len, total, 0, 0, o), o)
  {
    hide WritePass, SeedOf, TileRange, AllMatch, Contents, StartOf;
    MatchingContent(d, w, 0, total, o);
    WriteStarts(d, len, total, 0, 0, o);
  }

  /** The device stores what the model says it stores. */
  lemma StoredIsWritten(digest: nat -> Bytes, plan: Plan, total: nat)
    requires Sized(digest) && Workable(plan) && Sane(FaithfulDevice(digest, plan, total))
    ensures Contents(WritePass(FaithfulDevice(digest, plan, total), total, 0, 0).segments)
         == Stored(digest, plan, total)
  {
    var d, content := FaithfulDevice(digest, plan, total), Stored(digest, plan, total);
    FaithfulIsSane(digest, plan, content);
    FaithfulMoves(digest, plan, content);
    var w := WritePass(d, total, 0, 0).segments;
    WrittenBytes(d, total, 0, 0);
    TileLength(w, 0, total);
    forall o | 0 <= o < total ensures Contents(w)[o] == content[o] {
      WrittenByte(d, plan.write, total, w, o);
    }
  }

  /** Both chunkings prescribe the same byte at `o`. */
  ghost predicate SameByte(digest: nat -> Bytes, plan: Plan, total: nat, o: nat)
    requires Sized(digest) && Workable(plan) && o < total
  {
    ByteFrom(digest, StartOf(plan.write, total, 0, 0, o), o) == ByteFrom(digest, StartOf(plan.read, total, 0, 0, o), o)
  }

  /** Seeds computed from the run agree with the starts computed from the lengths. */
  lemma SeedsAreStarts(digest: nat -> Bytes, plan: Plan, total: nat)
    requires Sized(digest) && Workable(plan) && Sane(FaithfulDevice(digest, plan, total))
    ensures var d := FaithfulDevice(digest, plan, total);
      forall o: nat :: o < total ==>
        && SeedOf(WritePass(d, total, 0, 0).segments, o) == StartOf(plan.write, total, 0, 0, o)
        && SeedOf(ReadPass(d, total, 0, 0).segments, o) == StartOf(plan.read, total, 0, 0, o)
  {
    var d := FaithfulDevice(digest, plan, total);
    FaithfulMoves(digest, plan, Stored(digest, plan, total));
    forall o: nat | o < total
      ensures SeedOf(WritePass(d, total, 0, 0).segments, o) == StartOf(plan.write, total, 0, 0, o)
      ensures SeedOf(ReadPass(d, total, 0, 0).segments, o) == StartOf(plan.read, total, 0, 0, o)
    {
      WriteStarts(d, plan.write, total, 0, 0, o);
      ReadStarts(d, plan.read, total, 0, 0, o);
    }
  }

  /** A faithful device passes exactly when the starts that its lengths lead to prescribe the same bytes. */
  lemma LengthsDecide(digest: nat -> Bytes, plan: Plan, total: nat)
    requires Sized(digest) && Workable(plan)
    ensures FinalStatusOf(digest, plan, total) == PassPhysical <==>
      forall o: nat :: o < total ==> SameByte(digest, plan, total, o)
  {
    var d := FaithfulDevice(digest, plan, total);
    FaithfulIsSane(digest, plan, Stored(digest, plan, total));
    StoredIsWritten(digest, plan, total);
    FaithfulDevicePassesIff(d, total);
    SeedsAreStarts(digest, plan, total);
    SeedsMatter(digest, plan, total, WritePass(d, total, 0, 0).segments, ReadPass(d, total, 0, 0).segments);
  }

  lemma SeedsMatter(digest: nat -> Bytes, plan: Plan, total: nat, w: seq<Segment>, r: seq<Segment>)
    requires Sized(digest) && Workable(plan) && Sane(FaithfulDevice(digest, plan, total))
    requires TileRange(w, 0, total) && TileRange(r, 0, total)
    requires forall o: nat :: o < total ==>
      && SeedOf(w, o) == StartOf(plan.write, total, 0, 0, o) && SeedOf(r, o) == StartOf(plan.read, total, 0, 0, o)
    ensures SameSeeds(FaithfulDevice(digest, plan, total), w, r, total) <==>
      forall o: nat :: o < total ==> SameByte(digest, plan, total, o)
  {
    var d := FaithfulDevice(digest, plan, total);
    forall o: nat | o < total
      ensures SameByte(digest, plan, total, o) <==>
        SeedOf(w, o) <= o && SeedOf(r, o) <= o && PatternByte(d, SeedOf(w, o), o) == PatternByte(d, SeedOf(r, o), o)
    {}
  }

  /** Otherwise the run ends as a failed verification: a faithful device has no other outcome. */
  lemma PassesOrMismatches(digest: nat -> Bytes, plan: Plan, total: nat)
    requires Sized(digest) && Workable(plan)
    ensures FinalStatusOf(digest, plan, total) in {PassPhysical, VerificationFailed}
  {
    var d, content := FaithfulDevice(digest, plan, total), Stored(digest, plan, total);
    FaithfulIsSane(digest, plan, content);
    WrittenBytes(d, total, 0, 0);
    ReadBackSegments(d, content);
    var r := ReadPass(d, total, 0, 0).segments;
    CountsAgree(d, r);
    TileLength(r, 0, total);
  }

  // ---------- Which lengths are safe ----------

  /** The digest that tells `seed` from every other offset. */
  function Telling(seed: nat): nat -> Bytes {
    (o: nat) => seq(SALT_BLOCK, _ => if o == seed then 1 else 0)
  }

  lemma SameLengthsPass(digest: nat -> Bytes, plan: Plan, total: nat)
    requires Sized(digest) && Workable(plan) && SameLengths(plan, total, 0, 0)
    ensures FinalStatusOf(digest, plan, total) == PassPhysical
  {
    LengthsDecide(digest, plan, total);
    forall o: nat | o < total ensures SameByte(digest, plan, total, o) {
      SameLengthsSameStarts(plan, total, 0, 0, o);
    }
  }

  lemma TellingTells(seed: nat, other: nat, o: nat)
    requires seed <= o && other <= o && seed != other
    ensures Sized(Telling(seed)) && ByteFrom(Telling(seed), seed, o) != ByteFrom(Telling(seed), other, o)
  {
    assert Telling(seed)(seed)[(o - seed) % SALT_BLOCK] == 1;
    assert Telling(seed)(other)[(o - other) % SALT_BLOCK] == 0;
  }

  lemma OtherLengthsFail(plan: Plan, total: nat) returns (digest: nat -> Bytes)
    requires Workable(plan) && !SameLengths(plan, total, 0, 0)
    ensures Sized(digest) && FinalStatusOf(digest, plan, total) != PassPhysical
  {
    var o := UnevenStart(plan, total, 0, 0);
    var seed, other := StartOf(plan.write, total, 0, 0, o), StartOf(plan.read, total, 0, 0, o);
    digest := Telling(seed);
    TellingTells(seed, other, o);
    LengthsDecide(digest, plan, total);
    assert !SameByte(digest, plan, total, o);
  }

  /** The outcome for every possible hash. */
  ghost predicate AlwaysPasses(plan: Plan, total: nat)
    requires Workable(plan)
  {
    forall digest :: Sized(digest) ==> FinalStatusOf(digest, plan, total) == PassPhysical
  }

  /** Whatever the hash, a faithful device passes: this holds if and only if both passes move the same lengths. */
  lemma PassesForEveryDigestIff(plan: Plan, total: nat)
    requires Workable(plan)
    ensures AlwaysPasses(plan, total) <==> SameLengths(plan, total, 0, 0)
  {
    if SameLengths(plan, total, 0, 0) {
      forall digest | Sized(digest) ensures FinalStatusOf(digest, plan, total) == PassPhysical {
        SameLengthsPass(digest, plan, total);
      }
    } else {
      var digest := OtherLengthsFail(plan, total);
    }
  }

  /** The smallest failing device: its first write stops after 512 bytes, everything else is moved whole, and the
      hash blocks of offsets 0 and 512 differ in their first byte. */
  const SHORT_FIRST_WRITE := Plan(
    (step: nat, o: nat, n: nat) => if step == 0 then Min(512, n) else n,
    (step: nat, o: nat, n: nat) => n)

  lemma ShortFirstWriteFails(digest: nat -> Bytes)
    requires Sized(digest) && digest(0)[0] != digest(512)[0]
    ensures Workable(SHORT_FIRST_WRITE)
    ensures FinalStatusOf(digest, SHORT_FIRST_WRITE, 1024) == VerificationFailed
  {
    var plan := SHORT_FIRST_WRITE;
    assert Workable(plan);
    LengthsDecide(digest, plan, 1024);
    PassesOrMismatches(digest, plan, 1024);
    assert Moved(plan.write, 1024, 0, 0) == 512 && Moved(plan.read, 1024, 0, 0) == 1024;
    assert StartOf(plan.write, 1024, 0, 0, 512) == 512 && StartOf(plan.read, 1024, 0, 0, 512) == 0;
    assert !SameByte(digest, plan, 1024, 512);
  }
}
