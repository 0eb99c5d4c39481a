/** The physical overwrite of `drex_app.py` (POSIX branch).  Unlike the Win32 branch it advances by the size it
    asked for, whatever the device moved, so the place a transfer happens at may drift from the place it is
    accounted for. */
module PosixOverwrite {
  import opened Basics
  import opened Patterns
  import opened PhysicalOverwrite

  /** One transfer: the offset it is accounted for, the file position it started at, the bytes that moved. */
  datatype Transfer = Transfer(offset: nat, position: nat, data: Bytes)

  datatype Transfers = Transfers(status: PassStatus, transfers: seq<Transfer>)

  function Wanted(total: nat, offset: nat): nat
    requires offset <= total
  {
    Min(CHUNK, total - offset)
  }

  /** What the device takes of the chunk written for `offset` at `position`; the code does not look at it. */
  function Taken(d: Device, total: nat, offset: nat, position: nat, step: nat): (data: Bytes)
    requires Sane(d) && offset <= total
    ensures |data| <= Wanted(total, offset)
  {
    var expected := Pattern(d, offset, Wanted(total, offset));
    assert SaneWrite(d, step, position, expected);
    expected[..d.write(step, position, expected).1]
  }

  function Writings(d: Device, total: nat, offset: nat, position: nat, step: nat): Transfers
    requires Sane(d) && offset <= total
    decreases total - offset
  {
    if offset == total then Transfers(Complete, [])
    else if d.cancelWrite(step) then Transfers(Cancelled, [])
    else
      var data := Taken(d, total, offset, position, step);
      var rest := Writings(d, total, offset + Wanted(total, offset), position + |data|, step + 1);
      Transfers(rest.status, [Transfer(offset, position, data)] + rest.transfers)
  }

  /** The bytes that moved, one transfer behind the other. */
  function Moved(transfers: seq<Transfer>): Bytes {
    if transfers == [] then [] else transfers[0].data + Moved(transfers[1..])
  }

  /** The bytes that were asked to move, which is what the code reports. */
  function Asked(total: nat, transfers: seq<Transfer>): nat {
    if transfers == [] || transfers[0].offset > total then 0
    else Wanted(total, transfers[0].offset) + Asked(total, transfers[1..])
  }

  function Readings(d: Device, total: nat, offset: nat, position: nat, step: nat): Transfers
    requires offset <= total
    decreases total - offset
  {
    if offset == total then Transfers(Complete, [])
    else if d.cancelRead(step) then Transfers(Cancelled, [])
    else
      var data := d.read(step, position, Wanted(total, offset)).1;
      var rest := Readings(d, total, offset + Wanted(total, offset), position + |data|, step + 1);
      Transfers(rest.status, [Transfer(offset, position, data)] + rest.transfers)
  }

  /** The transfer returned the whole expected chunk. */
  predicate Expected(d: Device, total: nat, t: Transfer)
    requires Sane(d)
  {
    t.offset <= total && t.data == Pattern(d, t.offset, Wanted(total, t.offset))
  }

  function Verified(d: Device, total: nat, transfers: seq<Transfer>): nat
    requires Sane(d)
  {
    if transfers == [] then 0
    else (if Expected(d, total, transfers[0]) then |transfers[0].data| else 0) + Verified(d, total, transfers[1..])
  }

  function Unexpected(d: Device, total: nat, transfers: seq<Transfer>): nat
    requires Sane(d)
  {
    if transfers == [] then 0
    else (if Expected(d, total, transfers[0]) then 0 else 1) + Unexpected(d, total, transfers[1..])
  }

  function PosixJudge(d: Device, diskSize: nat, total: nat): Evidence
    requires Sane(d)
  {
    var w := Writings(d, total, 0, 0, 0);
    var written := Asked(total, w.transfers);
    if w.status != Complete then Evidence(written, 0, 0, StoppedBy(w.status)) else
      var r := Readings(d, total, 0, 0, 0);
      var verified, mismatches := Verified(d, total, r.transfers), Unexpected(d, total, r.transfers);
      Evidence(written, verified, mismatches,
        if r.status != Complete then StoppedBy(r.status)
        else if mismatches > 0 then VerificationFailed
        else if verified >= diskSize then PassPhysical else PassPhysicalRange)
  }

  /** A write pass that goes on: its first transfer, and the rest. */
  lemma WritingIs(d: Device, total: nat, offset: nat, position: nat, step: nat)
    requires Sane(d) && offset < total && !d.cancelWrite(step)
    ensures var n, data := Wanted(total, offset), Taken(d, total, offset, position, step);
      var w := Writings(d, total, offset, position, step);
      var rest := Writings(d, total, offset + n, position + |data|, step + 1);
      && w.status == rest.status && w.transfers != [] && w.transfers[0] == Transfer(offset, position, data)
      && w.transfers[1..] == rest.transfers
  {
    var data := Taken(d, total, offset, position, step);
    var rest := Writings(d, total, offset + Wanted(total, offset), position + |data|, step + 1);
    assert ([Transfer(offset, position, data)] + rest.transfers)[1..] == rest.transfers;
  }

  /** How a write pass ends that goes on here: the count it reports is its own offset. */
  function End(d: Device, total: nat, offset: nat, position: nat, step: nat): (PassStatus, nat)
    requires Sane(d) && offset <= total
    decreases total - offset
  {
    if offset == total then (Complete, offset)
    else if d.cancelWrite(step) then (Cancelled, offset)
    else End(d, total, offset + Wanted(total, offset), position + |Taken(d, total, offset, position, step)|, step + 1)
  }

  lemma {:induction false} EndsAsWritten(d: Device, total: nat, offset: nat, position: nat, step: nat)
    requires Sane(d) && offset <= total
    ensures var w := Writings(d, total, offset, position, step);
      End(d, total, offset, position, step) == (w.status, offset + Asked(total, w.transfers))
    decreases total - offset
  {
    if offset < total && !d.cancelWrite(step) {
      var data := Taken(d, total, offset, position, step);
      WritingIs(d, total, offset, position, step);
      EndsAsWritten(d, total, offset + Wanted(total, offset), position + |data|, step + 1);
    }
  }

  /** One `write` call, of which the code does not look at the answer. */
  method WriteChunkPosix(d: Device, total: nat, offset: nat, position: nat, step: nat) returns (next: nat)
    requires Sane(d) && offset < total
    ensures next == position + |Taken(d, total, offset, position, step)|
  {
    var expected := GeneratePattern(d, offset, Wanted(total, offset));
    assert SaneWrite(d, step, position, expected);
    next := position + d.write(step, position, expected).1;
  }

  /** The write pass: the device moves its own file position, the code counts what it asked for. */
  method WriteAllPosix(d: Device, total: nat) returns (status: PassStatus, written: nat)
    requires Sane(d)
    ensures var w := Writings(d, total, 0, 0, 0); status == w.status && written == Asked(total, w.transfers)
  {
    EndsAsWritten(d, total, 0, 0, 0);
    var offset: nat, position: nat, step: nat := 0, 0, 0;
    ghost var end := End(d, total, 0, 0, 0);
    while offset < total
      invariant offset <= total && End(d, total, offset, position, step) == end
      decreases total - offset
    {
      if d.cancelWrite(step) {
        return Cancelled, offset;
      }
      position := WriteChunkPosix(d, total, offset, position, step);
      offset, step := offset + Wanted(total, offset), step + 1;
    }
    return Complete, offset;
  }

  /** The counts at the end of a read-back pass that goes on at `offset`. */
  function CountPosix(d: Device, total: nat, offset: nat, position: nat, step: nat, verified: nat,
                      mismatches: nat): Tally
    requires Sane(d) && offset <= total
    decreases total - offset
  {
    if offset == total then Tally(Complete, verified, mismatches)
    else if d.cancelRead(step) then Tally(Cancelled, verified, mismatches)
    else
      var n := Wanted(total, offset);
      var data := d.read(step, position, n).1;
      if data == Pattern(d, offset, n)
      then CountPosix(d, total, offset + n, position + |data|, step + 1, verified + |data|, mismatches)
      else CountPosix(d, total, offset + n, position + |data|, step + 1, verified, mismatches + 1)
  }

  lemma NothingRead(d: Device, total: nat, offset: nat, position: nat, step: nat, verified: nat, mismatches: nat)
    requires Sane(d) && offset <= total && (offset == total || d.cancelRead(step))
    ensures var r := Readings(d, total, offset, position, step);
      && r.transfers == [] && Verified(d, total, []) == Unexpected(d, total, []) == 0
      && CountPosix(d, total, offset, position, step, verified, mismatches) == Tally(r.status, verified, mismatches)
  {}

  lemma CountStepPosix(d: Device, total: nat, offset: nat, position: nat, step: nat, verified: nat, mismatches: nat)
    requires Sane(d) && offset < total && !d.cancelRead(step)
    ensures var n := Wanted(total, offset);
      var data := d.read(step, position, n).1;
      var good := data == Pattern(d, offset, n);
      CountPosix(d, total, offset, position, step, verified, mismatches)
        == CountPosix(d, total, offset + n, position + |data|, step + 1, if good then verified + |data| else verified,
                      if good then mismatches else mismatches + 1)
  {}

  lemma {:induction false} CountsReadings(d: Device, total: nat, offset: nat, position: nat, step: nat, verified: nat,
                                          mismatches: nat)
    requires Sane(d) && offset <= total
    ensures var r := Readings(d, total, offset, position, step);
      CountPosix(d, total, offset, position, step, verified, mismatches)
        == Tally(r.status, verified + Verified(d, total, r.transfers), mismatches + Unexpected(d, total, r.transfers))
    decreases total - offset
  {
    hide Readings, Verified, Unexpected, CountPosix, Cycle, SaneWrite, SaneRead;
    if offset == total || d.cancelRead(step) {
      NothingRead(d, total, offset, position, step, verified, mismatches);
    } else {
      CountStepPosix(d, total, offset, position, step, verified, mismatches);
      var n := Wanted(total, offset);
      var data := d.read(step, position, n).1;
      var good := data == Pattern(d, offset, n);
      ReadingStep(d, total, offset, position, step);
      CountsReadings(d, total, offset + n, position + |data|, step + 1, if good then verified + |data| else verified,
                     if good then mismatches else mismatches + 1);
    }
  }

  method ReadBackPosix(d: Device, total: nat) returns (status: PassStatus, verified: nat, mismatches: nat)
    requires Sane(d)
    ensures var r := Readings(d, total, 0, 0, 0);
      status == r.status && verified == Verified(d, total, r.transfers)
      && mismatches == Unexpected(d, total, r.transfers)
  {
    CountsReadings(d, total, 0, 0, 0, 0, 0);
    var offset: nat, position: nat, step: nat := 0, 0, 0;
    verified, mismatches := 0, 0;
    while offset < total
      invariant offset <= total
      invariant CountPosix(d, total, offset, position, step, verified, mismatches)
        == CountPosix(d, total, 0, 0, 0, 0, 0)
      decreases total - offset
    {
      if d.cancelRead(step) {
        return Cancelled, verified, mismatches;
      }
      var n := Wanted(total, offset);
      var actual := d.read(step, position, n).1;
      var expected := GeneratePattern(d, offset, n);
      if actual != expected {
        mismatches := mismatches + 1;
      } else {
        verified := verified + |actual|;
      }
      offset, position, step := offset + n, position + |actual|, step + 1;
    }
    return Complete, verified, mismatches;
  }

  lemma ReadingStep(d: Device, total: nat, offset: nat, position: nat, step: nat)
    requires Sane(d) && offset < total && !d.cancelRead(step)
    ensures var n := Wanted(total, offset);
      var data := d.read(step, position, n).1;
      var good := data == Pattern(d, offset, n);
      var r := Readings(d, total, offset, position, step);
      var rest := Readings(d, total, offset + n, position + |data|, step + 1);
      && r.status == rest.status
      && Verified(d, total, r.transfers) == Verified(d, total, rest.transfers) + (if good then |data| else 0)
      && Unexpected(d, total, r.transfers) == Unexpected(d, total, rest.transfers) + (if good then 0 else 1)
  {
    ReadingIs(d, total, offset, position, step);
  }

  lemma ReadingIs(d: Device, total: nat, offset: nat, position: nat, step: nat)
    requires offset < total && !d.cancelRead(step)
    ensures var n := Wanted(total, offset);
      var t := Transfer(offset, position, d.read(step, position, n).1);
      var r := Readings(d, total, offset, position, step);
      var rest := Readings(d, total, offset + n, position + |t.data|, step + 1);
      r == Transfers(rest.status, [t] + rest.transfers) && r.transfers[0] == t && r.transfers[1..] == rest.transfers
  {
    var n := Wanted(total, offset);
    var t := Transfer(offset, position, d.read(step, position, n).1);
    var rest := Readings(d, total, offset + n, position + |t.data|, step + 1);
    assert ([t] + rest.transfers)[1..] == rest.transfers;
  }

  method OverwritePosix(d: Device, diskSize: nat, maxBytes: Option<int>) returns (e: Evidence)
    requires Sane(d)
    ensures e == PosixJudge(d, diskSize, TargetBytes(diskSize, maxBytes))
  {
    var total := TargetBytes(diskSize, maxBytes);
    var wrote, written := WriteAllPosix(d, total);
    if wrote != Complete {
      return Evidence(written, 0, 0, StoppedBy(wrote));
    }
    var status, verified, mismatches := ReadBackPosix(d, total);
    e := Evidence(written, verified, mismatches,
      if status != Complete then StoppedBy(status)
      else if mismatches > 0 then VerificationFailed
      else if verified >= diskSize then PassPhysical else PassPhysicalRange);
  }

  // ---------- What a run tells, in the device's own answers ----------

  /** How a pass ends in front of its `step`-th transfer: at its end, or where it is cancelled. */
  predicate Ends(total: nat, offset: nat, cancelled: bool, status: PassStatus) {
    && (status == Complete <==> offset == total)
    && (status == Cancelled <==> offset != total && cancelled)
    && status != Failed
  }

  /** The whole write pass: each transfer is asked to write the pattern of its offset, at the position the device has
      reached, and what it took is all that is moved. */
  ghost predicate WriteLogPosix(d: Device, total: nat, w: Transfers, offset: nat, position: nat, step: nat)
    requires Sane(d) && offset <= total
    decreases |w.transfers|
  {
    if w.transfers == [] then Ends(total, offset, d.cancelWrite(step), w.status)
    else
      var first, all := w.transfers[0], Repeating(d, offset, Request(total, offset));
      && offset < total && first.offset == offset && first.position == position && !d.cancelWrite(step)
      && |first.data| == d.write(step, position, all).1 && first.data <= all
      && WriteLogPosix(d, total, Transfers(w.status, w.transfers[1..]), offset + Request(total, offset),
                       position + |first.data|, step + 1)
  }

  /** The whole read-back pass. */
  ghost predicate ReadLogPosix(d: Device, total: nat, r: Transfers, offset: nat, position: nat, step: nat)
    requires offset <= total
    decreases |r.transfers|
  {
    if r.transfers == [] then Ends(total, offset, d.cancelRead(step), r.status)
    else
      var first := r.transfers[0];
      && offset < total && first.offset == offset && first.position == position && !d.cancelRead(step)
      && first.data == d.read(step, position, Request(total, offset)).1
      && ReadLogPosix(d, total, Transfers(r.status, r.transfers[1..]), offset + Request(total, offset),
                      position + |first.data|, step + 1)
  }

  lemma WantedMeans(total: nat, offset: nat)
    requires offset <= total
    ensures Wanted(total, offset) == Request(total, offset)
  {}

  lemma TakenMeans(d: Device, total: nat, offset: nat, position: nat, step: nat)
    requires Sane(d) && offset <= total
    ensures var all, data := Repeating(d, offset, Request(total, offset)), Taken(d, total, offset, position, step);
      |data| == d.write(step, position, all).1 && data <= all
  {
    PatternMeans(d, offset, Request(total, offset));
    assert SaneWrite(d, step, position, Pattern(d, offset, Request(total, offset)));
    hide Cycle, Repeating;
  }

  lemma {:induction false} WritingsMean(d: Device, total: nat, offset: nat, position: nat, step: nat)
    requires Sane(d) && offset <= total
    ensures WriteLogPosix(d, total, Writings(d, total, offset, position, step), offset, position, step)
    decreases total - offset
  {
    if offset == total || d.cancelWrite(step) {
      NoWriting(d, total, offset, position, step);
      WritingEnds(d, total, offset, position, step);
    } else {
      hide Writings, Taken, Repeating, SaneWrite, SaneRead;
      var data := Taken(d, total, offset, position, step);
      WantedMeans(total, offset);
      TakenMeans(d, total, offset, position, step);
      WritingIs(d, total, offset, position, step);
      WritingsMean(d, total, offset + Wanted(total, offset), position + |data|, step + 1);
      var w := Writings(d, total, offset, position, step);
      var rest := Writings(d, total, offset + Wanted(total, offset), position + |data|, step + 1);
      assert Transfers(w.status, w.transfers[1..]) == rest;
    }
  }

  lemma WritingEnds(d: Device, total: nat, offset: nat, position: nat, step: nat)
    requires Sane(d) && offset <= total && (offset == total || d.cancelWrite(step))
    ensures Ends(total, offset, d.cancelWrite(step), Writings(d, total, offset, position, step).status)
  {}

  lemma {:induction false} ReadingsMean(d: Device, total: nat, offset: nat, position: nat, step: nat)
    requires offset <= total
    ensures ReadLogPosix(d, total, Readings(d, total, offset, position, step), offset, position, step)
    decreases total - offset
  {
    if offset == total || d.cancelRead(step) {
    } else {
      var data := d.read(step, position, Wanted(total, offset)).1;
      WantedMeans(total, offset);
      ReadingIs(d, total, offset, position, step);
      hide Readings;
      ReadingsMean(d, total, offset + Wanted(total, offset), position + |data|, step + 1);
      var r := Readings(d, total, offset, position, step);
      var rest := Readings(d, total, offset + Wanted(total, offset), position + |data|, step + 1);
      assert Transfers(r.status, r.transfers[1..]) == rest;
    }
  }

  /** The transfer returned the pattern of the chunk it is accounted for, whole. */
  predicate ReturnedPattern(d: Device, total: nat, t: Transfer)
    requires |d.digest(t.offset)| == 32
  {
    t.offset <= total && t.data == Repeating(d, t.offset, Request(total, t.offset))
  }

  ghost predicate AllReturnedPattern(d: Device, total: nat, transfers: seq<Transfer>)
    requires Sane(d)
  {
    forall i :: 0 <= i < |transfers| ==> ReturnedPattern(d, total, transfers[i])
  }

  function LengthOf(transfers: seq<Transfer>): nat {
    if transfers == [] then 0 else |transfers[0].data| + LengthOf(transfers[1..])
  }

  lemma ExpectedMeans(d: Device, total: nat, t: Transfer)
    requires Sane(d)
    ensures Expected(d, total, t) <==> ReturnedPattern(d, total, t)
  {
    if t.offset <= total { PatternMeans(d, t.offset, Request(total, t.offset)); }
    hide Cycle, Repeating;
  }

  /** The transfers that returned the pattern. */
  function Returned(d: Device, total: nat, transfers: seq<Transfer>): seq<Transfer>
    requires Sane(d)
  {
    if transfers == [] then []
    else (if ReturnedPattern(d, total, transfers[0]) then [transfers[0]] else []) + Returned(d, total, transfers[1..])
  }

  lemma {:induction false} PosixCountsMean(d: Device, total: nat, transfers: seq<Transfer>)
    requires Sane(d)
    ensures Verified(d, total, transfers) == LengthOf(Returned(d, total, transfers))
    ensures Unexpected(d, total, transfers) == |transfers| - |Returned(d, total, transfers)|
  {
    if transfers != [] {
      var rest := Returned(d, total, transfers[1..]);
      PosixCountsMean(d, total, transfers[1..]);
      ExpectedMeans(d, total, transfers[0]);
      hide Expected, ReturnedPattern, Sane;
      assert ([transfers[0]] + rest)[1..] == rest && [] + rest == rest;
    }
  }

  lemma {:induction false} AllReturned(d: Device, total: nat, transfers: seq<Transfer>)
    requires Sane(d)
    ensures |Returned(d, total, transfers)| <= |transfers|
    ensures |Returned(d, total, transfers)| == |transfers| <==> AllReturnedPattern(d, total, transfers)
    ensures AllReturnedPattern(d, total, transfers) ==> Returned(d, total, transfers) == transfers
  {
    hide ReturnedPattern, Sane;
    if transfers != [] {
      AllReturned(d, total, transfers[1..]);
      AllReturnedStep(d, total, transfers);
      hide AllReturnedPattern;
      assert transfers == [transfers[0]] + transfers[1..];
    }
  }

  lemma AllReturnedStep(d: Device, total: nat, transfers: seq<Transfer>)
    requires Sane(d) && transfers != []
    ensures AllReturnedPattern(d, total, transfers) <==>
      ReturnedPattern(d, total, transfers[0]) && AllReturnedPattern(d, total, transfers[1..])
  {
    hide ReturnedPattern, Sane;
    assert forall i :: 0 < i < |transfers| ==> transfers[i] == transfers[1..][i - 1];
  }

  /** Each final status, from how the two passes ended and what was read. */
  lemma PosixStatusMeans(d: Device, diskSize: nat, total: nat)
    requires Sane(d)
    ensures var w, r, e := Writings(d, total, 0, 0, 0), Readings(d, total, 0, 0, 0), PosixJudge(d, diskSize, total);
      var both := w.status == Complete && r.status == Complete;
      && (e.finalStatus == CancelledRun <==> w.status == Cancelled || (w.status == Complete && r.status == Cancelled))
      && e.finalStatus != FailedRun
      && (e.finalStatus == VerificationFailed <==> both && !AllReturnedPattern(d, total, r.transfers))
      && (e.finalStatus == PassPhysical <==>
            both && AllReturnedPattern(d, total, r.transfers) && LengthOf(r.transfers) >= diskSize)
      && (e.finalStatus == PassPhysicalRange <==>
            both && AllReturnedPattern(d, total, r.transfers) && LengthOf(r.transfers) < diskSize)
      && (w.status == Complete ==>
            && e.bytesVerified == LengthOf(Returned(d, total, r.transfers))
            && e.mismatches == |r.transfers| - |Returned(d, total, r.transfers)|)
  {
    PosixCountsMean(d, total, Readings(d, total, 0, 0, 0).transfers);
    AllReturned(d, total, Readings(d, total, 0, 0, 0).transfers);
    NeverFails(d, total, 0, 0, 0);
    hide AllReturnedPattern, Returned, Writings, Readings;
  }

  lemma {:induction false} NeverFails(d: Device, total: nat, offset: nat, position: nat, step: nat)
    requires Sane(d) && offset <= total
    ensures Writings(d, total, offset, position, step).status != Failed
    ensures Readings(d, total, offset, position, step).status != Failed
    decreases total - offset
  {
    if offset < total {
      NeverFails(d, total, offset + Wanted(total, offset), position + |Taken(d, total, offset, position, step)|,
                 step + 1);
      NeverFails(d, total, offset + Wanted(total, offset),
                 position + |d.read(step, position, Wanted(total, offset)).1|, step + 1);
    }
  }

  // ---------- Soundness, for every device ----------

  /** The transfers happened where they are accounted for, returned what is expected there, and cut the range
      from `offset` on into whole chunks. */
  predicate InPlace(d: Device, total: nat, offset: nat, transfers: seq<Transfer>)
    requires Sane(d) && offset <= total
    decreases |transfers|
  {
    if transfers == [] then offset == total
    else
      && offset < total && transfers[0].offset == offset == transfers[0].position
      && transfers[0].data == Pattern(d, offset, Wanted(total, offset))
      && InPlace(d, total, offset + Wanted(total, offset), transfers[1..])
  }

  lemma {:induction false} NoMismatchMeansInPlace(d: Device, total: nat, offset: nat, step: nat)
    requires Sane(d) && offset <= total
    ensures var r := Readings(d, total, offset, offset, step);
      r.status == Complete ==>
        (Unexpected(d, total, r.transfers) == 0 <==> InPlace(d, total, offset, r.transfers))
        && (Unexpected(d, total, r.transfers) == 0 ==> Verified(d, total, r.transfers) == total - offset)
    decreases total - offset
  {
    hide Verified, Unexpected, Cycle, Readings, SaneWrite, SaneRead;
    if offset < total && !d.cancelRead(step) {
      var n := Wanted(total, offset);
      var data := d.read(step, offset, n).1;
      ReadingIs(d, total, offset, offset, step);
      ReadingStep(d, total, offset, offset, step);
      if data == Pattern(d, offset, n) {
        NoMismatchMeansInPlace(d, total, offset + n, step + 1);
      }
    } else {
      NothingRead(d, total, offset, offset, step, 0, 0);
    }
  }

  /** A full physical pass is reported exactly when nothing was cancelled, the whole disk was the target, and
      every chunk was read back whole, as expected, at its own place: drift can only make a run fail. */
  lemma PosixPassPhysicalIff(d: Device, diskSize: nat, maxBytes: Option<int>)
    requires Sane(d)
    ensures var total := TargetBytes(diskSize, maxBytes);
      var r := Readings(d, total, 0, 0, 0);
      PosixJudge(d, diskSize, total).finalStatus == PassPhysical <==>
        && Writings(d, total, 0, 0, 0).status == Complete && r.status == Complete
        && total == diskSize && InPlace(d, total, 0, r.transfers)
  {
    NoMismatchMeansInPlace(d, TargetBytes(diskSize, maxBytes), 0, 0);
  }

  /** Every write of a pass moved all it was given. */
  predicate AllWhole(total: nat, transfers: seq<Transfer>) {
    forall i :: 0 <= i < |transfers| ==>
      transfers[i].offset <= total && |transfers[i].data| == Wanted(total, transfers[i].offset)
  }

  lemma NoWriting(d: Device, total: nat, offset: nat, position: nat, step: nat)
    requires Sane(d) && offset <= total && (offset == total || d.cancelWrite(step))
    ensures var w := Writings(d, total, offset, position, step);
      w.transfers == [] && w.status != Failed && (w.status == Complete ==> offset == total)
    ensures AllWhole(total, [])
  {}

  /** The count of written bytes is what was asked for, even from a device that takes nothing: a finished pass
      always reports the whole target.  It reports what the device took if and only if every write moved all. */
  lemma {:induction false} ReportedIsTakenIff(d: Device, total: nat, offset: nat, position: nat, step: nat)
    requires Sane(d) && offset <= total
    ensures var w := Writings(d, total, offset, position, step);
      && w.status != Failed
      && (w.status == Complete ==> Asked(total, w.transfers) == total - offset)
      && |Moved(w.transfers)| <= Asked(total, w.transfers)
      && (|Moved(w.transfers)| == Asked(total, w.transfers) <==> AllWhole(total, w.transfers))
    decreases total - offset
  {
    hide Writings, Cycle, AllWhole, SaneWrite, SaneRead;
    if offset < total && !d.cancelWrite(step) {
      var data := Taken(d, total, offset, position, step);
      WritingIs(d, total, offset, position, step);
      ReportedIsTakenIff(d, total, offset + Wanted(total, offset), position + |data|, step + 1);
      FirstWhole(total, Writings(d, total, offset, position, step).transfers);
    } else {
      NoWriting(d, total, offset, position, step);
    }
  }

  lemma FirstWhole(total: nat, transfers: seq<Transfer>)
    requires transfers != [] && transfers[0].offset <= total
    ensures AllWhole(total, transfers) <==>
      |transfers[0].data| == Wanted(total, transfers[0].offset) && AllWhole(total, transfers[1..])
  {
    assert forall i :: 0 < i < |transfers| ==> transfers[i] == transfers[1..][i - 1];
  }

  // ---------- Faithful devices ----------

  /** The patterns of all chunks from `offset` on. */
  function Wholes(d: Device, total: nat, offset: nat): Bytes
    requires Sane(d) && offset <= total
    decreases total - offset
  {
    if offset == total then []
    else Pattern(d, offset, Wanted(total, offset)) + Wholes(d, total, offset + Wanted(total, offset))
  }

  lemma {:induction false} WholesLength(d: Device, total: nat, offset: nat)
    requires Sane(d) && offset <= total
    ensures |Wholes(d, total, offset)| == total - offset
    decreases total - offset
  {
    if offset < total { WholesLength(d, total, offset + Wanted(total, offset)); }
  }

  predicate ReturnsWhole(d: Device, content: Bytes, step: nat, o: nat, n: nat) {
    o + n <= |content| ==> d.read(step, o, n).1 == content[o..o + n]
  }

  ghost predicate ReadsWhole(d: Device, content: Bytes) {
    forall step: nat, o: nat, n: nat :: ReturnsWhole(d, content, step, o, n)
  }

  lemma SplitSlice(s: Bytes, lo: nat, mid: nat, hi: nat)
    requires lo <= mid <= hi <= |s|
    ensures s[lo..hi][..mid - lo] == s[lo..mid] && s[lo..hi][mid - lo..] == s[mid..hi]
  {}

  lemma NothingReadBack(d: Device, total: nat, step: nat)
    requires Sane(d)
    ensures Readings(d, total, total, total, step) == Transfers(Complete, [])
    ensures InPlace(d, total, total, []) && Wholes(d, total, total) == []
  {}

  /** The first transfer that starts in place is in place when it returned the pattern, and so are the others. */
  lemma FirstInPlace(d: Device, total: nat, offset: nat, transfers: seq<Transfer>)
    requires Sane(d) && offset < total && transfers != []
    requires transfers[0].offset == transfers[0].position == offset
    ensures var n := Wanted(total, offset);
      && Wholes(d, total, offset) == Pattern(d, offset, n) + Wholes(d, total, offset + n)
      && (InPlace(d, total, offset, transfers) <==>
            transfers[0].data == Pattern(d, offset, n) && InPlace(d, total, offset + n, transfers[1..]))
  {
    hide Cycle;
  }

  /** Reading whole chunks back finds them in place exactly when the disk holds the patterns from there on. */
  lemma {:induction false} WholeReadsInPlaceIff(d: Device, content: Bytes, total: nat, offset: nat, step: nat)
    requires Sane(d) && NeverCancelled(d) && ReadsWhole(d, content) && offset <= total <= |content|
    ensures Readings(d, total, offset, offset, step).status == Complete
    ensures InPlace(d, total, offset, Readings(d, total, offset, offset, step).transfers) <==>
      content[offset..total] == Wholes(d, total, offset)
    decreases total - offset
  {
    hide Readings, InPlace, Cycle, SaneWrite, SaneRead, Wholes;
    if offset < total {
      var next := offset + Wanted(total, offset);
      ReadingIs(d, total, offset, offset, step);
      assert ReturnsWhole(d, content, step, offset, next - offset);
      WholeReadsInPlaceIff(d, content, total, next, step + 1);
      SplitSlice(content, offset, next, total);
      CutAt(content[offset..total], Pattern(d, offset, next - offset), Wholes(d, total, next));
      FirstInPlace(d, total, offset, Readings(d, total, offset, offset, step).transfers);
    } else {
      NothingReadBack(d, total, step);
      assert content[total..total] == [];
    }
  }

  lemma CutAt(s: Bytes, head: Bytes, tail: Bytes)
    requires |head| <= |s|
    ensures s == head + tail <==> s[..|head|] == head && s[|head|..] == tail
  {
    assert s == s[..|head|] + s[|head|..];
    assert (head + tail)[..|head|] == head && (head + tail)[|head|..] == tail;
  }

  lemma NothingWritten(d: Device, total: nat, position: nat, step: nat)
    requires Sane(d)
    ensures Writings(d, total, total, position, step) == Transfers(Complete, [])
    ensures Moved([]) == Wholes(d, total, total) == []
  {}

  /** A whole first transfer moves the whole pattern. */
  lemma FirstMoved(d: Device, total: nat, offset: nat, transfers: seq<Transfer>)
    requires Sane(d) && offset < total && transfers != [] && transfers[0].offset == offset
    requires transfers[0].data <= Pattern(d, offset, Wanted(total, offset))
    ensures var n := Wanted(total, offset);
      && Wholes(d, total, offset) == Pattern(d, offset, n) + Wholes(d, total, offset + n)
      && (AllWhole(total, transfers) ==>
            AllWhole(total, transfers[1..]) && Moved(transfers) == Pattern(d, offset, n) + Moved(transfers[1..]))
  {
    hide Cycle;
    FirstWhole(total, transfers);
  }

  lemma {:induction false} NeverStopped(d: Device, total: nat, offset: nat, position: nat, step: nat)
    requires Sane(d) && NeverCancelled(d) && offset <= total
    ensures Writings(d, total, offset, position, step).status == Complete
    ensures AllWhole(total, Writings(d, total, offset, position, step).transfers) ==>
      Moved(Writings(d, total, offset, position, step).transfers) == Wholes(d, total, offset)
    decreases total - offset
  {
    hide Cycle, Writings, Moved, AllWhole, Wholes, SaneWrite, SaneRead;
    if offset < total {
      var data := Taken(d, total, offset, position, step);
      WritingIs(d, total, offset, position, step);
      NeverStopped(d, total, offset + Wanted(total, offset), position + |data|, step + 1);
      FirstMoved(d, total, offset, Writings(d, total, offset, position, step).transfers);
    } else {
      NothingWritten(d, total, position, step);
    }
  }

  /** A device that holds what it took in front of what was there before and reads whole chunks: it passes exactly
      when the disk then starts with the whole patterns. */
  lemma FaithfulPosixPassesIff(d: Device, diskSize: nat, before: Bytes)
    requires Sane(d) && NeverCancelled(d)
    requires var content := Moved(Writings(d, diskSize, 0, 0, 0).transfers) + before;
      diskSize <= |content| && ReadsWhole(d, content)
    ensures var content := Moved(Writings(d, diskSize, 0, 0, 0).transfers) + before;
      PosixJudge(d, diskSize, diskSize).finalStatus == PassPhysical <==> content[..diskSize] == Wholes(d, diskSize, 0)
  {
    var content := Moved(Writings(d, diskSize, 0, 0, 0).transfers) + before;
    NeverStopped(d, diskSize, 0, 0, 0);
    WholeReadsInPlaceIff(d, content, diskSize, 0, 0);
    PosixPassPhysicalIff(d, diskSize, None);
    assert content[0..diskSize] == content[..diskSize];
  }

  /** Such a device passes when every write moved all it was given. */
  lemma WholeTransfersPass(d: Device, diskSize: nat)
    requires Sane(d) && NeverCancelled(d)
    requires AllWhole(diskSize, Writings(d, diskSize, 0, 0, 0).transfers)
    requires ReadsWhole(d, Moved(Writings(d, diskSize, 0, 0, 0).transfers))
    ensures PosixJudge(d, diskSize, diskSize).finalStatus == PassPhysical
  {
    var content := Moved(Writings(d, diskSize, 0, 0, 0).transfers);
    NeverStopped(d, diskSize, 0, 0, 0);
    WholesLength(d, diskSize, 0);
    assert content + [] == content && content[..diskSize] == content;
    FaithfulPosixPassesIff(d, diskSize, []);
  }
}
