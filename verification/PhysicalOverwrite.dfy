/** The physical overwrite of `drex_app.py` (Win32 branch): a sequential write pass, a sequential read-back
    pass, and the verdict drawn from them, against a device that may shorten, corrupt or fail any transfer. */
module PhysicalOverwrite {
  import opened Basics
  import opened Patterns

  const CHUNK := 1048576
  const SALT_BLOCK := 32

  /** Everything the two passes can observe.  `step` counts the transfers of a pass, so a device may answer
      the same request differently each time; `digest` is the hash block seeded by an offset. */
  datatype Device = Device(
    digest: nat -> Bytes,
    write: (nat, nat, Bytes) -> (bool, nat),
    read: (nat, nat, nat) -> (bool, Bytes),
    cancelWrite: nat -> bool,
    cancelRead: nat -> bool)

  /** Digests are 32 bytes long, and no transfer moves more than was asked for. */
  ghost predicate Sane(d: Device) {
    && (forall o: nat :: |d.digest(o)| == SALT_BLOCK)
    && (forall step: nat, o: nat, buf :: SaneWrite(d, step, o, buf))
    && (forall step: nat, o: nat, n: nat :: SaneRead(d, step, o, n))
  }

  predicate SaneWrite(d: Device, step: nat, o: nat, buf: Bytes) { d.write(step, o, buf).1 <= |buf| }

  predicate SaneRead(d: Device, step: nat, o: nat, n: nat) { |d.read(step, o, n).1| <= n }

  /** The pattern for a chunk starting at `offset`: its hash block over and over. */
  function Pattern(d: Device, offset: nat, length: nat): Bytes
    requires |d.digest(offset)| == SALT_BLOCK
  {
    Cycle(d.digest(offset), length)
  }

  /** How it is made: the hash block, repeated often enough and cut. */
  function GeneratePattern(d: Device, offset: nat, length: nat): (r: Bytes)
    requires |d.digest(offset)| == SALT_BLOCK
    ensures r == Pattern(d, offset, length)
  {
    var times := (length + SALT_BLOCK - 1) / SALT_BLOCK;
    CeilingCovers(length, SALT_BLOCK);
    RepeatIsCycle(d.digest(offset), times, length);
    Repeat(d.digest(offset), times)[..length]
  }

  datatype PassStatus = Complete | Cancelled | Failed

  /** One transfer of a pass: where it started and the bytes that moved. */
  datatype Segment = Segment(offset: nat, data: Bytes)

  datatype Pass = Pass(status: PassStatus, segments: seq<Segment>)

  /** One `WriteFile` call: the pattern for the next chunk, of which the device takes `count` bytes. */
  function WriteChunk(d: Device, total: nat, offset: nat, step: nat): (r: (bool, nat))
    requires Sane(d) && offset < total
    ensures r.1 <= Min(CHUNK, total - offset)
  {
    assert SaneWrite(d, step, offset, Pattern(d, offset, Min(CHUNK, total - offset)));
    d.write(step, offset, Pattern(d, offset, Min(CHUNK, total - offset)))
  }

  function WritePass(d: Device, total: nat, offset: nat, step: nat): Pass
    requires Sane(d)
    decreases total - offset
  {
    if offset >= total then Pass(Complete, [])
    else if d.cancelWrite(step) then Pass(Cancelled, [])
    else
      var (ok, count) := WriteChunk(d, total, offset, step);
      if !ok || count == 0 then Pass(Failed, []) else
        var rest := WritePass(d, total, offset + count, step + 1);
        Pass(rest.status, [Segment(offset, Pattern(d, offset, Min(CHUNK, total - offset))[..count])] + rest.segments)
  }

  /** The `step`-th read, at `offset`. */
  function ReadAt(d: Device, total: nat, offset: nat, step: nat): (r: (bool, Bytes))
    requires Sane(d) && offset < total
    ensures |r.1| <= Min(CHUNK, total - offset)
  {
    assert SaneRead(d, step, offset, Min(CHUNK, total - offset));
    d.read(step, offset, Min(CHUNK, total - offset))
  }

  /** Why the pass stops at `offset`, if it does. */
  function Stop(d: Device, total: nat, offset: nat, step: nat): Option<PassStatus>
    requires Sane(d)
  {
    if offset >= total then Some(Complete)
    else if d.cancelRead(step) then Some(Cancelled)
    else if !ReadAt(d, total, offset, step).0 || ReadAt(d, total, offset, step).1 == [] then Some(Failed)
    else None
  }

  function ReadPass(d: Device, total: nat, offset: nat, step: nat): Pass
    requires Sane(d)
    decreases total - offset
  {
    var stop := Stop(d, total, offset, step);
    if stop.Some? then Pass(stop.value, [])
    else
      var data := ReadAt(d, total, offset, step).1;
      var rest := ReadPass(d, total, offset + |data|, step + 1);
      Pass(rest.status, [Segment(offset, data)] + rest.segments)
  }

  predicate Matches(d: Device, s: Segment)
    requires |d.digest(s.offset)| == SALT_BLOCK
  {
    s.data == Pattern(d, s.offset, |s.data|)
  }

  function BytesIn(segments: seq<Segment>): nat {
    if segments == [] then 0 else |segments[0].data| + BytesIn(segments[1..])
  }

  function VerifiedBytes(d: Device, segments: seq<Segment>): nat
    requires Sane(d)
  {
    if segments == [] then 0
    else Credit(d, segments[0].offset, segments[0].data) + VerifiedBytes(d, segments[1..])
  }

  function Mismatches(d: Device, segments: seq<Segment>): nat
    requires Sane(d)
  {
    if segments == [] then 0 else Debit(d, segments[0].offset, segments[0].data) + Mismatches(d, segments[1..])
  }

  datatype FinalStatus = CancelledRun | FailedRun | PassPhysical | PassPhysicalRange | VerificationFailed

  datatype Evidence = Evidence(bytesWritten: nat, bytesVerified: nat, mismatches: nat, finalStatus: FinalStatus)

  function TargetBytes(diskSize: nat, maxBytes: Option<int>): nat {
    if maxBytes.Some? && maxBytes.value > 0 then Min(diskSize, maxBytes.value) else diskSize
  }

  function StoppedBy(status: PassStatus): FinalStatus
    requires status != Complete
  {
    if status == Cancelled then CancelledRun else FailedRun
  }

  /** The evidence record as a function of the two passes. */
  function Judge(d: Device, diskSize: nat, w: Pass, r: Pass): Evidence
    requires Sane(d)
  {
    var written := BytesIn(w.segments);
    if w.status != Complete then Evidence(written, 0, 0, StoppedBy(w.status)) else
      var verified, mismatches := VerifiedBytes(d, r.segments), Mismatches(d, r.segments);
      Evidence(written, verified, mismatches,
        if r.status != Complete then StoppedBy(r.status)
        else if mismatches > 0 then VerificationFailed
        else if verified >= diskSize then PassPhysical else PassPhysicalRange)
  }

  /** The write pass. */
  method WriteAll(d: Device, total: nat) returns (status: PassStatus, written: nat)
    requires Sane(d)
    ensures status == WritePass(d, total, 0, 0).status && written == BytesIn(WritePass(d, total, 0, 0).segments)
  {
    hide Cycle, GeneratePattern;
    var offset, step := 0, 0;
    ghost var w := WritePass(d, total, 0, 0);
    while offset < total
      invariant WritePass(d, total, offset, step).status == w.status
      invariant offset + BytesIn(WritePass(d, total, offset, step).segments) == BytesIn(w.segments)
      decreases total - offset
    {
      if d.cancelWrite(step) {
        return Cancelled, offset;
      }
      var expected := GeneratePattern(d, offset, Min(CHUNK, total - offset));
      assert SaneWrite(d, step, offset, expected);
      var (ok, count) := d.write(step, offset, expected);
      if !ok || count == 0 {
        return Failed, offset;
      }
      offset := offset + count;
      step := step + 1;
    }
    return Complete, offset;
  }

  /** The bytes read back are compared with as much of the expected chunk. */
  predicate EqualsExpected(d: Device, offset: nat, n: nat, actual: Bytes)
    requires |d.digest(offset)| == SALT_BLOCK && |actual| <= n
    ensures EqualsExpected(d, offset, n, actual) == Matches(d, Segment(offset, actual))
  {
    CyclePrefix(d.digest(offset), n, |actual|);
    actual == GeneratePattern(d, offset, n)[..|actual|]
  }

  datatype Tally = Tally(status: PassStatus, verified: nat, mismatches: nat)

  /** The counts at the end of a read-back pass that goes on at `offset`. */
  function Count(d: Device, total: nat, offset: nat, step: nat, verified: nat, mismatches: nat): Tally
    requires Sane(d)
    decreases total - offset
  {
    var stop := Stop(d, total, offset, step);
    if stop.Some? then Tally(stop.value, verified, mismatches)
    else
      var data := ReadAt(d, total, offset, step).1;
      Count(d, total, offset + |data|, step + 1, verified + Credit(d, offset, data),
            mismatches + Debit(d, offset, data))
  }

  /** The bytes a transfer adds to the verified ones, and what it adds to the mismatches. */
  function Credit(d: Device, offset: nat, data: Bytes): nat
    requires Sane(d)
  {
    if Matches(d, Segment(offset, data)) then |data| else 0
  }

  function Debit(d: Device, offset: nat, data: Bytes): nat
    requires Sane(d)
  {
    if Matches(d, Segment(offset, data)) then 0 else 1
  }

  lemma CountStep(d: Device, total: nat, offset: nat, step: nat, verified: nat, mismatches: nat)
    requires Sane(d) && Stop(d, total, offset, step).None?
    ensures var data := ReadAt(d, total, offset, step).1;
      Count(d, total, offset, step, verified, mismatches)
        == Count(d, total, offset + |data|, step + 1, verified + Credit(d, offset, data),
                 mismatches + Debit(d, offset, data))
  {}

  lemma {:induction false} CountsSegments(d: Device, total: nat, offset: nat, step: nat, verified: nat, mismatches: nat)
    requires Sane(d)
    ensures Count(d, total, offset, step, verified, mismatches).status == ReadPass(d, total, offset, step).status
    ensures Count(d, total, offset, step, verified, mismatches).verified
         == verified + VerifiedBytes(d, ReadPass(d, total, offset, step).segments)
    ensures Count(d, total, offset, step, verified, mismatches).mismatches
         == mismatches + Mismatches(d, ReadPass(d, total, offset, step).segments)
    decreases total - offset
  {
    hide Credit, Debit, ReadAt, Matches;
    if Stop(d, total, offset, step).None? {
      var data := ReadAt(d, total, offset, step).1;
      ReadIs(d, total, offset, step);
      CountsSegments(d, total, offset + |data|, step + 1,
                     verified + Credit(d, offset, data), mismatches + Debit(d, offset, data));
    }
  }

  /** One round of the read-back pass: a `ReadFile` call and its comparison. */
  method ReadChunk(d: Device, total: nat, offset: nat, step: nat, verified: nat, mismatches: nat)
    returns (stop: Option<PassStatus>, next: nat, nowVerified: nat, nowMismatches: nat)
    requires Sane(d) && offset < total
    ensures stop.Some? ==>
      Count(d, total, offset, step, verified, mismatches) == Tally(stop.value, nowVerified, nowMismatches)
    ensures stop.None? ==>
      && offset < next
      && Count(d, total, offset, step, verified, mismatches)
           == Count(d, total, next, step + 1, nowVerified, nowMismatches)
  {
    hide Pattern, Cycle, GeneratePattern;
    next, nowVerified, nowMismatches := offset, verified, mismatches;
    if d.cancelRead(step) {
      return Some(Cancelled), next, nowVerified, nowMismatches;
    }
    var n := Min(CHUNK, total - offset);
    assert SaneRead(d, step, offset, n);
    var (ok, actual) := d.read(step, offset, n);
    if !ok || actual == [] {
      return Some(Failed), next, nowVerified, nowMismatches;
    }
    CountStep(d, total, offset, step, verified, mismatches);
    stop, next := None, offset + |actual|;
    if !EqualsExpected(d, offset, n, actual) {
      nowMismatches := mismatches + 1;
    } else {
      nowVerified := verified + |actual|;
    }
  }

  /** The read-back pass. */
  method ReadBack(d: Device, total: nat) returns (status: PassStatus, verified: nat, mismatches: nat)
    requires Sane(d)
    ensures Tally(status, verified, mismatches) == Count(d, total, 0, 0, 0, 0)
  {
    ghost var final := Count(d, total, 0, 0, 0, 0);
    var offset: nat, step: nat, stop := 0, 0, None;
    verified, mismatches := 0, 0;
    while offset < total
      invariant Count(d, total, offset, step, verified, mismatches) == final
      decreases total - offset
    {
      stop, offset, verified, mismatches := ReadChunk(d, total, offset, step, verified, mismatches);
      if stop.Some? {
        return stop.value, verified, mismatches;
      }
      step := step + 1;
    }
    return Complete, verified, mismatches;
  }

  /** A read pass that goes on: its first segment, and the rest. */
  lemma ReadIs(d: Device, total: nat, offset: nat, step: nat)
    requires Sane(d) && Stop(d, total, offset, step).None?
    ensures var data := ReadAt(d, total, offset, step).1;
      var r, rest := ReadPass(d, total, offset, step), ReadPass(d, total, offset + |data|, step + 1);
      && r.status == rest.status
      && r.segments != [] && r.segments[0] == Segment(offset, data) && r.segments[1..] == rest.segments
  {
    var data := ReadAt(d, total, offset, step).1;
    var rest := ReadPass(d, total, offset + |data|, step + 1);
    assert ([Segment(offset, data)] + rest.segments)[1..] == rest.segments;
  }

  method Overwrite(d: Device, diskSize: nat, maxBytes: Option<int>) returns (e: Evidence)
    requires Sane(d)
    ensures var total := TargetBytes(diskSize, maxBytes);
            e == Judge(d, diskSize, WritePass(d, total, 0, 0), ReadPass(d, total, 0, 0))
  {
    var total := TargetBytes(diskSize, maxBytes);
    var wrote, written := WriteAll(d, total);
    if wrote != Complete {
      return Evidence(written, 0, 0, StoppedBy(wrote));
    }
    var status, verified, mismatches := ReadBack(d, total);
    CountsSegments(d, total, 0, 0, 0, 0);
    e := Evidence(written, verified, mismatches,
      if status != Complete then StoppedBy(status)
      else if mismatches > 0 then VerificationFailed
      else if verified >= diskSize then PassPhysical else PassPhysicalRange);
  }

  // ---------- What a run tells, in the device's own answers ----------

  /** How much the transfer at `offset` asks for: a mebibyte, or what is left. */
  function Request(total: nat, offset: nat): nat
    requires offset <= total
  {
    if total - offset < 1048576 then total - offset else 1048576
  }

  /** The 32 bytes of the offset's hash over and over. */
  function Repeating(d: Device, offset: nat, n: nat): Bytes
    requires |d.digest(offset)| == 32
  {
    var block := d.digest(offset);
    seq(n, k requires 0 <= k < n => block[k % 32])
  }

  lemma PatternMeans(d: Device, offset: nat, n: nat)
    requires |d.digest(offset)| == 32
    ensures Pattern(d, offset, n) == Repeating(d, offset, n)
  {
    forall k | 0 <= k < n ensures Pattern(d, offset, n)[k] == d.digest(offset)[k % 32] {
      CycleAt(d.digest(offset), n, k);
    }
  }

  /** The `step`-th write went through, and took `s`. */
  ghost predicate Wrote(d: Device, total: nat, step: nat, s: Segment)
    requires Sane(d)
  {
    && s.offset < total && !d.cancelWrite(step) && s.data != []
    && d.write(step, s.offset, Repeating(d, s.offset, Request(total, s.offset))) == (true, |s.data|)
    && |s.data| <= Request(total, s.offset) && s.data == Repeating(d, s.offset, Request(total, s.offset))[..|s.data|]
  }

  /** How a write pass ends in front of its `step`-th transfer at `offset`. */
  ghost predicate WriteEnds(d: Device, total: nat, step: nat, offset: nat, status: PassStatus)
    requires Sane(d)
  {
    && (status == Complete <==> offset >= total)
    && (status == Cancelled <==> offset < total && d.cancelWrite(step))
    && (status == Failed <==>
          offset < total && !d.cancelWrite(step)
          && var (ok, count) := d.write(step, offset, Repeating(d, offset, Request(total, offset))); !ok || count == 0)
  }

  /** The whole write pass from `offset` on: its transfers, one behind the other, and how it ends. */
  ghost predicate WriteLog(d: Device, total: nat, w: Pass, offset: nat, step: nat)
    requires Sane(d)
    decreases |w.segments|
  {
    if w.segments == [] then WriteEnds(d, total, step, offset, w.status)
    else
      var first := w.segments[0];
      && first.offset == offset && Wrote(d, total, step, first)
      && WriteLog(d, total, Pass(w.status, w.segments[1..]), offset + |first.data|, step + 1)
  }

  lemma {:induction false} WritePassMeans(d: Device, total: nat, offset: nat, step: nat)
    requires Sane(d)
    ensures WriteLog(d, total, WritePass(d, total, offset, step), offset, step)
    decreases total - offset
  {
    var w := WritePass(d, total, offset, step);
    hide Wrote, WriteEnds, WritePass, Sane;
    if w.segments == [] {
      WritesNothing(d, total, offset, step);
    } else {
      FirstWrite(d, total, offset, step);
      WritePassMeans(d, total, offset + |w.segments[0].data|, step + 1);
    }
  }

  lemma WritesNothing(d: Device, total: nat, offset: nat, step: nat)
    requires Sane(d) && WritePass(d, total, offset, step).segments == []
    ensures WriteEnds(d, total, step, offset, WritePass(d, total, offset, step).status)
  {
    hide Cycle, Repeating;
    if offset < total { PatternMeans(d, offset, Request(total, offset)); }
  }

  lemma FirstWrite(d: Device, total: nat, offset: nat, step: nat)
    requires Sane(d) && WritePass(d, total, offset, step).segments != []
    ensures var w := WritePass(d, total, offset, step);
      var first, rest := w.segments[0], WritePass(d, total, offset + |w.segments[0].data|, step + 1);
      && offset < total && first.offset == offset && Wrote(d, total, step, first)
      && Pass(w.status, w.segments[1..]) == rest
  {
    hide Cycle, Repeating;
    PatternMeans(d, offset, Request(total, offset));
    assert SaneWrite(d, step, offset, Pattern(d, offset, Request(total, offset)));
  }

  /** The `step`-th read went through, and returned `s`. */
  ghost predicate Read(d: Device, total: nat, step: nat, s: Segment)
    requires Sane(d)
  {
    && s.offset < total && !d.cancelRead(step) && s.data != []
    && d.read(step, s.offset, Request(total, s.offset)) == (true, s.data)
  }

  ghost predicate ReadEnds(d: Device, total: nat, step: nat, offset: nat, status: PassStatus)
    requires Sane(d)
  {
    && (status == Complete <==> offset >= total)
    && (status == Cancelled <==> offset < total && d.cancelRead(step))
    && (status == Failed <==>
          offset < total && !d.cancelRead(step)
          && var (ok, data) := d.read(step, offset, Request(total, offset)); !ok || data == [])
  }

  /** The whole read-back pass from `offset` on: its transfers, one behind the other, and how it ends. */
  ghost predicate ReadLog(d: Device, total: nat, r: Pass, offset: nat, step: nat)
    requires Sane(d)
    decreases |r.segments|
  {
    if r.segments == [] then ReadEnds(d, total, step, offset, r.status)
    else
      var first := r.segments[0];
      && first.offset == offset && Read(d, total, step, first)
      && ReadLog(d, total, Pass(r.status, r.segments[1..]), offset + |first.data|, step + 1)
  }

  lemma {:induction false} ReadPassMeans(d: Device, total: nat, offset: nat, step: nat)
    requires Sane(d)
    ensures ReadLog(d, total, ReadPass(d, total, offset, step), offset, step)
    decreases total - offset
  {
    var r := ReadPass(d, total, offset, step);
    hide Read, ReadEnds, ReadPass, Sane;
    if r.segments == [] {
      ReadsNothing(d, total, offset, step);
    } else {
      FirstRead(d, total, offset, step);
      ReadPassMeans(d, total, offset + |r.segments[0].data|, step + 1);
    }
  }

  lemma ReadsNothing(d: Device, total: nat, offset: nat, step: nat)
    requires Sane(d) && ReadPass(d, total, offset, step).segments == []
    ensures ReadEnds(d, total, step, offset, ReadPass(d, total, offset, step).status)
  {}

  lemma FirstRead(d: Device, total: nat, offset: nat, step: nat)
    requires Sane(d) && ReadPass(d, total, offset, step).segments != []
    ensures var r := ReadPass(d, total, offset, step);
      var first, rest := r.segments[0], ReadPass(d, total, offset + |r.segments[0].data|, step + 1);
      && offset < total && first.offset == offset && Read(d, total, step, first)
      && Pass(r.status, r.segments[1..]) == rest
  {}

  /** The segment holds the pattern of its own offset. */
  predicate HoldsPattern(d: Device, s: Segment)
    requires |d.digest(s.offset)| == 32
  {
    forall k :: 0 <= k < |s.data| ==> s.data[k] == d.digest(s.offset)[k % 32]
  }

  lemma MatchesMeans(d: Device, s: Segment)
    requires |d.digest(s.offset)| == 32
    ensures Matches(d, s) <==> HoldsPattern(d, s)
  {
    PatternMeans(d, s.offset, |s.data|);
    hide Pattern;
  }

  ghost predicate AllHoldPattern(d: Device, segments: seq<Segment>)
    requires Sane(d)
  {
    forall i :: 0 <= i < |segments| ==> HoldsPattern(d, segments[i])
  }

  /** The segments that hold the pattern. */
  function Holding(d: Device, segments: seq<Segment>): seq<Segment>
    requires Sane(d)
  {
    if segments == [] then []
    else (if HoldsPattern(d, segments[0]) then [segments[0]] else []) + Holding(d, segments[1..])
  }

  /** Each final status, from how the two passes ended and what was read: a run that is cancelled or fails says so,
      whichever pass it is in; one that reads back something else fails verification; and a pass counts for the whole
      disk only when as many bytes were verified as the disk has. */
  lemma FinalStatusMeans(d: Device, diskSize: nat, w: Pass, r: Pass)
    requires Sane(d)
    ensures var e := Judge(d, diskSize, w, r);
      var both := w.status == Complete && r.status == Complete;
      && (e.finalStatus == CancelledRun <==> w.status == Cancelled || (w.status == Complete && r.status == Cancelled))
      && (e.finalStatus == FailedRun <==> w.status == Failed || (w.status == Complete && r.status == Failed))
      && (e.finalStatus == VerificationFailed <==> both && !AllHoldPattern(d, r.segments))
      && (e.finalStatus == PassPhysical <==>
            both && AllHoldPattern(d, r.segments) && BytesIn(r.segments) >= diskSize)
      && (e.finalStatus == PassPhysicalRange <==>
            both && AllHoldPattern(d, r.segments) && BytesIn(r.segments) < diskSize)
      && e.bytesWritten == BytesIn(w.segments)
      && (w.status != Complete ==> e.bytesVerified == e.mismatches == 0)
      && (w.status == Complete ==>
            && e.bytesVerified == BytesIn(Holding(d, r.segments))
            && e.mismatches == |r.segments| - |Holding(d, r.segments)|)
  {
    CountsMean(d, r.segments);
    AllHolding(d, r.segments);
    hide AllHoldPattern, Holding;
  }

  lemma {:induction false} CountsMean(d: Device, segments: seq<Segment>)
    requires Sane(d)
    ensures VerifiedBytes(d, segments) == BytesIn(Holding(d, segments))
    ensures Mismatches(d, segments) == |segments| - |Holding(d, segments)|
  {
    if segments != [] {
      var rest := Holding(d, segments[1..]);
      CountsMean(d, segments[1..]);
      MatchesMeans(d, segments[0]);
      hide Matches, HoldsPattern, Sane;
      assert ([segments[0]] + rest)[1..] == rest && [] + rest == rest;
    }
  }

  lemma {:induction false} AllHolding(d: Device, segments: seq<Segment>)
    requires Sane(d)
    ensures |Holding(d, segments)| <= |segments|
    ensures |Holding(d, segments)| == |segments| <==> AllHoldPattern(d, segments)
    ensures AllHoldPattern(d, segments) ==> Holding(d, segments) == segments
  {
    hide HoldsPattern, Sane;
    if segments != [] {
      AllHolding(d, segments[1..]);
      AllHoldStep(d, segments);
      hide AllHoldPattern;
      assert segments == [segments[0]] + segments[1..];
    }
  }

  lemma AllHoldStep(d: Device, segments: seq<Segment>)
    requires Sane(d) && segments != []
    ensures AllHoldPattern(d, segments) <==> HoldsPattern(d, segments[0]) && AllHoldPattern(d, segments[1..])
  {
    hide HoldsPattern, Sane;
    assert forall i :: 0 < i < |segments| ==> segments[i] == segments[1..][i - 1];
  }

  /** How much is overwritten: the disk, or less when a positive limit says so. */
  lemma TargetMeans(diskSize: nat, maxBytes: Option<int>)
    ensures var t := TargetBytes(diskSize, maxBytes);
      && (maxBytes == None ==> t == diskSize)
      && (maxBytes.Some? && maxBytes.value <= 0 ==> t == diskSize)
      && (maxBytes.Some? && maxBytes.value > 0 ==> t <= diskSize && t <= maxBytes.value
                                                   && (t == diskSize || t == maxBytes.value))
  {}

  // ---------- Soundness, for every device ----------

  /** Contiguous non-empty segments from `lo` to `hi`. */
  predicate TileRange(segments: seq<Segment>, lo: nat, hi: nat) {
    if segments == [] then lo == hi
    else segments[0].offset == lo && segments[0].data != [] && TileRange(segments[1..], lo + |segments[0].data|, hi)
  }

  predicate AllMatch(d: Device, segments: seq<Segment>)
    requires Sane(d)
  {
    forall i :: 0 <= i < |segments| ==> Matches(d, segments[i])
  }

  lemma {:induction false} ReadSegmentsTile(d: Device, total: nat, offset: nat, step: nat)
    requires Sane(d) && offset <= total
    ensures var r := ReadPass(d, total, offset, step);
      && TileRange(r.segments, offset, offset + BytesIn(r.segments)) && offset + BytesIn(r.segments) <= total
      && (r.status == Complete ==> offset + BytesIn(r.segments) == total)
    decreases total - offset
  {
    if Stop(d, total, offset, step).None? {
      ReadIs(d, total, offset, step);
      ReadSegmentsTile(d, total, offset + |ReadAt(d, total, offset, step).1|, step + 1);
    }
  }

  lemma {:induction false} CountsAgree(d: Device, segments: seq<Segment>)
    requires Sane(d)
    ensures VerifiedBytes(d, segments) <= BytesIn(segments)
    ensures Mismatches(d, segments) == 0 <==> AllMatch(d, segments)
    ensures Mismatches(d, segments) == 0 ==> VerifiedBytes(d, segments) == BytesIn(segments)
  {
    if segments != [] {
      CountsAgree(d, segments[1..]);
      assert forall i :: 0 < i < |segments| ==> segments[i] == segments[1..][i - 1];
    }
  }

  /** A full physical pass is reported exactly when both passes ran to the end over the whole disk and every
      read-back segment equals the pattern seeded by its own offset; the segments then tile the disk. */
  lemma PassPhysicalIff(d: Device, diskSize: nat, maxBytes: Option<int>)
    requires Sane(d)
    ensures var total := TargetBytes(diskSize, maxBytes);
      var w, r := WritePass(d, total, 0, 0), ReadPass(d, total, 0, 0);
      && (Judge(d, diskSize, w, r).finalStatus == PassPhysical <==>
            w.status == Complete && r.status == Complete && total == diskSize && AllMatch(d, r.segments))
      && (Judge(d, diskSize, w, r).finalStatus == PassPhysical ==> TileRange(r.segments, 0, diskSize))
  {
    var total := TargetBytes(diskSize, maxBytes);
    ReadSegmentsTile(d, total, 0, 0);
    CountsAgree(d, ReadPass(d, total, 0, 0).segments);
  }

  // ---------- Completeness, for a device that stores what it is given ----------

  /** This read returns a non-empty piece of `content`, of any length up to what was asked for. */
  predicate ReturnsPiece(d: Device, content: Bytes, step: nat, o: nat, n: nat)
    requires o + n <= |content|
  {
    var (ok, data) := d.read(step, o, n);
    ok && 0 < |data| <= n && data == content[o..o + |data|]
  }

  ghost predicate ReadsBack(d: Device, content: Bytes) {
    forall step: nat, o: nat, n: nat :: n > 0 && o + n <= |content| ==> ReturnsPiece(d, content, step, o, n)
  }

  ghost predicate NeverCancelled(d: Device) {
    forall step: nat :: !d.cancelWrite(step) && !d.cancelRead(step)
  }

  /** Writes always move at least a byte; `FullWrites` move everything. */
  ghost predicate WritesSucceed(d: Device) {
    forall step: nat, o: nat, buf {:trigger d.write(step, o, buf)} ::
      buf != [] ==> d.write(step, o, buf).0 && d.write(step, o, buf).1 > 0
  }

  ghost predicate FullTransfers(d: Device) {
    && (forall step: nat, o: nat, buf {:trigger d.write(step, o, buf)} :: d.write(step, o, buf) == (true, |buf|))
    && (forall step: nat, o: nat, n: nat {:trigger d.read(step, o, n)} :: |d.read(step, o, n).1| == n)
  }

  function Contents(segments: seq<Segment>): Bytes {
    if segments == [] then [] else segments[0].data + Contents(segments[1..])
  }

  /** The offset whose hash seeded the byte at `o`: the start of the transfer that covers it. */
  function SeedOf(segments: seq<Segment>, o: nat): nat {
    if segments == [] then 0
    else if segments[0].offset <= o < segments[0].offset + |segments[0].data| then segments[0].offset
    else SeedOf(segments[1..], o)
  }

  function PatternByte(d: Device, seed: nat, o: nat): bv8
    requires |d.digest(seed)| == SALT_BLOCK && seed <= o
  {
    d.digest(seed)[(o - seed) % SALT_BLOCK]
  }

  lemma {:induction false} SeedBounds(segments: seq<Segment>, lo: nat, hi: nat, o: nat)
    requires TileRange(segments, lo, hi) && lo <= o < hi
    ensures lo <= SeedOf(segments, o) <= o
  {
    if o >= lo + |segments[0].data| {
      SeedBounds(segments[1..], lo + |segments[0].data|, hi, o);
    }
  }

  lemma {:induction false} TileLength(segments: seq<Segment>, lo: nat, hi: nat)
    requires TileRange(segments, lo, hi)
    ensures lo <= hi && |Contents(segments)| == hi - lo == BytesIn(segments)
  {
    if segments != [] { TileLength(segments[1..], lo + |segments[0].data|, hi); }
  }

  /** A write pass that runs to the end has written, at every offset, the pattern byte of its own chunking. */
  lemma {:induction false} WrittenBytes(d: Device, total: nat, offset: nat, step: nat)
    requires Sane(d) && NeverCancelled(d) && WritesSucceed(d) && offset <= total
    ensures var w := WritePass(d, total, offset, step);
      && w.status == Complete && TileRange(w.segments, offset, total)
      && AllMatch(d, w.segments)
    decreases total - offset
  {
    if offset < total {
      var n := Min(CHUNK, total - offset);
      var data := Pattern(d, offset, n);
      var (ok, count) := d.write(step, offset, data);
      assert data != [];
      assert SaneWrite(d, step, offset, data);
      CyclePrefix(d.digest(offset), n, count);
      WrittenBytes(d, total, offset + count, step + 1);
      var rest := WritePass(d, total, offset + count, step + 1);
      var segments := [Segment(offset, data[..count])] + rest.segments;
      assert segments[1..] == rest.segments;
      assert forall i :: 0 < i < |segments| ==> segments[i] == rest.segments[i - 1];
    }
  }

  lemma {:induction false} MatchingContent(d: Device, segments: seq<Segment>, lo: nat, hi: nat, o: nat)
    requires Sane(d) && TileRange(segments, lo, hi) && AllMatch(d, segments) && lo <= o < hi
    ensures |Contents(segments)| == hi - lo && lo <= SeedOf(segments, o) <= o
    ensures Contents(segments)[o - lo] == PatternByte(d, SeedOf(segments, o), o)
  {
    TileLength(segments, lo, hi);
    SeedBounds(segments, lo, hi, o);
    assert Matches(d, segments[0]);
    if o < lo + |segments[0].data| { CycleAt(d.digest(lo), |segments[0].data|, o - lo); }
    if o >= lo + |segments[0].data| {
      assert forall i :: 0 <= i < |segments[1..]| ==> segments[1..][i] == segments[i + 1];
      MatchingContent(d, segments[1..], lo + |segments[0].data|, hi, o);
    }
  }

  lemma ReadsAPiece(d: Device, content: Bytes, offset: nat, step: nat)
    requires ReadsBack(d, content) && offset < |content|
    ensures var (ok, data) := d.read(step, offset, Min(CHUNK, |content| - offset));
      ok && data != [] && offset + |data| <= |content| && content[offset..] == data + content[offset + |data|..]
  {
    assert ReturnsPiece(d, content, step, offset, Min(CHUNK, |content| - offset));
    var data := d.read(step, offset, Min(CHUNK, |content| - offset)).1;
    assert content[offset..] == content[offset..offset + |data|] + content[offset + |data|..];
  }

  lemma {:induction false} ReadsComplete(d: Device, content: Bytes, offset: nat, step: nat)
    requires Sane(d) && NeverCancelled(d) && ReadsBack(d, content) && offset <= |content|
    ensures ReadPass(d, |content|, offset, step).status == Complete
    decreases |content| - offset
  {
    if offset < |content| {
      ReadsAPiece(d, content, offset, step);
      ReadIs(d, |content|, offset, step);
      ReadsComplete(d, content, offset + |ReadAt(d, |content|, offset, step).1|, step + 1);
    }
  }

  lemma {:induction false} ReadsContents(d: Device, content: Bytes, offset: nat, step: nat)
    requires Sane(d) && NeverCancelled(d) && ReadsBack(d, content) && offset <= |content|
    ensures Contents(ReadPass(d, |content|, offset, step).segments) == content[offset..]
    decreases |content| - offset
  {
    if offset < |content| {
      ReadsAPiece(d, content, offset, step);
      ReadIs(d, |content|, offset, step);
      ReadsContents(d, content, offset + |ReadAt(d, |content|, offset, step).1|, step + 1);
    }
  }

  lemma ReadBackSegments(d: Device, content: Bytes)
    requires Sane(d) && NeverCancelled(d) && ReadsBack(d, content)
    ensures var r := ReadPass(d, |content|, 0, 0);
      r.status == Complete && TileRange(r.segments, 0, |content|) && Contents(r.segments) == content
  {
    hide ReadPass, TileRange, Contents, BytesIn;
    ReadsComplete(d, content, 0, 0);
    ReadsContents(d, content, 0, 0);
    ReadSegmentsTile(d, |content|, 0, 0);
  }

  /** The byte the pattern prescribes at an offset, chunked as `segments` are. */
  ghost predicate SameSeeds(d: Device, w: seq<Segment>, r: seq<Segment>, total: nat)
    requires Sane(d) && TileRange(w, 0, total) && TileRange(r, 0, total)
  {
    forall o :: 0 <= o < total ==>
      SeedOf(w, o) <= o && SeedOf(r, o) <= o && PatternByte(d, SeedOf(w, o), o) == PatternByte(d, SeedOf(r, o), o)
  }

  lemma SegmentMatches(d: Device, segments: seq<Segment>, lo: nat, hi: nat)
    requires Sane(d) && TileRange(segments, lo, hi) && segments != []
    requires forall o :: lo <= o < hi ==> ByteAgrees(d, segments, lo, hi, o)
    ensures Matches(d, segments[0])
  {
    var s := segments[0];
    TileLength(segments, lo, hi);
    forall k | 0 <= k < |s.data| ensures s.data[k] == Pattern(d, s.offset, |s.data|)[k] {
      CycleAt(d.digest(s.offset), |s.data|, k);
      assert ByteAgrees(d, segments, lo, hi, lo + k);
      assert SeedOf(segments, lo + k) == lo && Contents(segments)[lo + k - lo] == s.data[k];
    }
  }

  /** The content at `o` is the pattern byte of the segment that covers it. */
  ghost predicate ByteAgrees(d: Device, segments: seq<Segment>, lo: nat, hi: nat, o: nat)
    requires Sane(d) && TileRange(segments, lo, hi) && lo <= o < hi
  {
    && SeedOf(segments, o) <= o && |Contents(segments)| == hi - lo
    && Contents(segments)[o - lo] == PatternByte(d, SeedOf(segments, o), o)
  }

  lemma ByteAgreesInTail(d: Device, segments: seq<Segment>, lo: nat, hi: nat, o: nat)
    requires Sane(d) && TileRange(segments, lo, hi) && segments != []
    requires lo + |segments[0].data| <= o < hi && ByteAgrees(d, segments, lo, hi, o)
    ensures ByteAgrees(d, segments[1..], lo + |segments[0].data|, hi, o)
  {
    TileLength(segments[1..], lo + |segments[0].data|, hi);
  }

  lemma {:induction false} AgreeingContentMatches(d: Device, segments: seq<Segment>, lo: nat, hi: nat)
    requires Sane(d) && TileRange(segments, lo, hi)
    requires forall o :: lo <= o < hi ==> ByteAgrees(d, segments, lo, hi, o)
    ensures AllMatch(d, segments)
  {
    if segments != [] {
      var mid := lo + |segments[0].data|;
      SegmentMatches(d, segments, lo, hi);
      TileLength(segments[1..], mid, hi);
      forall o | mid <= o < hi ensures ByteAgrees(d, segments[1..], mid, hi, o) {
        ByteAgreesInTail(d, segments, lo, hi, o);
      }
      AgreeingContentMatches(d, segments[1..], mid, hi);
      forall i | 0 <= i < |segments| ensures Matches(d, segments[i]) {
        assert i > 0 ==> segments[i] == segments[1..][i - 1];
      }
    }
  }

  /** A device that keeps what was written and never fails a transfer, but may shorten any of them, passes
      exactly when the two passes' chunkings prescribe the same byte at every offset. */
  lemma FaithfulDevicePassesIff(d: Device, diskSize: nat)
    requires Sane(d) && NeverCancelled(d) && WritesSucceed(d)
    requires ReadsBack(d, Contents(WritePass(d, diskSize, 0, 0).segments))
    ensures var w, r := WritePass(d, diskSize, 0, 0), ReadPass(d, diskSize, 0, 0);
      && TileRange(w.segments, 0, diskSize) && TileRange(r.segments, 0, diskSize)
      && (Judge(d, diskSize, w, r).finalStatus == PassPhysical <==> SameSeeds(d, w.segments, r.segments, diskSize))
  {
    hide WritePass, ReadPass, Contents, SameSeeds;
    var w, r := WritePass(d, diskSize, 0, 0).segments, ReadPass(d, diskSize, 0, 0).segments;
    WrittenBytes(d, diskSize, 0, 0);
    TileLength(w, 0, diskSize);
    ReadBackSegments(d, Contents(w));
    PassPhysicalIff(d, diskSize, None);
    MatchIffSameSeeds(d, w, r, diskSize);
  }

  lemma MatchIffSameSeeds(d: Device, w: seq<Segment>, r: seq<Segment>, total: nat)
    requires Sane(d) && TileRange(w, 0, total) && TileRange(r, 0, total) && AllMatch(d, w) && Contents(w) == Contents(r)
    ensures AllMatch(d, r) <==> SameSeeds(d, w, r, total)
  {
    if AllMatch(d, r) {
      forall o | 0 <= o < total
        ensures SeedOf(w, o) <= o && SeedOf(r, o) <= o
          && PatternByte(d, SeedOf(w, o), o) == PatternByte(d, SeedOf(r, o), o)
      {
        MatchingContent(d, w, 0, total, o);
        MatchingContent(d, r, 0, total, o);
      }
    }
    if SameSeeds(d, w, r, total) {
      forall o | 0 <= o < total ensures ByteAgrees(d, r, 0, total, o) {
        MatchingContent(d, w, 0, total, o);
      }
      AgreeingContentMatches(d, r, 0, total);
    }
  }

  /** Full transfers chunk both passes alike. */
  lemma {:induction false} FullTransfersChunkAlike(d: Device, content: Bytes, total: nat, offset: nat, step: nat,
                                                   o: nat)
    requires Sane(d) && NeverCancelled(d) && FullTransfers(d) && offset <= o < total
    requires ReadsBack(d, content) && |content| == total
    ensures SeedOf(WritePass(d, total, offset, step).segments, o)
         == SeedOf(ReadPass(d, total, offset, step).segments, o)
    decreases total - offset
  {
    hide Cycle, SaneWrite, SaneRead;
    var n := Min(CHUNK, total - offset);
    var data := Pattern(d, offset, n);
    assert ReturnsPiece(d, content, step, offset, n);
    assert d.write(step, offset, data) == (true, n) && d.read(step, offset, n).0 && |d.read(step, offset, n).1| == n;
    var w, r := WritePass(d, total, offset + n, step + 1), ReadPass(d, total, offset + n, step + 1);
    var ws, rs := [Segment(offset, data[..n])] + w.segments, [Segment(offset, d.read(step, offset, n).1)] + r.segments;
    assert ws[1..] == w.segments && rs[1..] == r.segments;
    if o >= offset + n {
      FullTransfersChunkAlike(d, content, total, offset + n, step + 1, o);
    }
  }

  /** A faithful device with full transfers and no byte limit always passes. */
  lemma FullTransfersPass(d: Device, diskSize: nat)
    requires Sane(d) && NeverCancelled(d) && FullTransfers(d)
    requires ReadsBack(d, Contents(WritePass(d, diskSize, 0, 0).segments))
    ensures Judge(d, diskSize, WritePass(d, diskSize, 0, 0), ReadPass(d, diskSize, 0, 0)).finalStatus == PassPhysical
  {
    var w, r := WritePass(d, diskSize, 0, 0).segments, ReadPass(d, diskSize, 0, 0).segments;
    FaithfulDevicePassesIff(d, diskSize);
    TileLength(w, 0, diskSize);
    forall o | 0 <= o < diskSize
      ensures SeedOf(w, o) <= o && SeedOf(r, o) <= o
        && PatternByte(d, SeedOf(w, o), o) == PatternByte(d, SeedOf(r, o), o)
    {
      FullTransfersChunkAlike(d, Contents(w), diskSize, 0, 0, o);
      SeedBounds(w, 0, diskSize, o);
    }
  }
}
