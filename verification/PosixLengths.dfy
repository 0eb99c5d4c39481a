/** When a faithful device passes the POSIX branch of the physical overwrite in `drex_app.py`, judged from its write
    lengths alone: the code does not look at what a write moved, so every write has to move all. */
module PosixLengths {
  import opened Basics
  import opened Patterns
  import opened PhysicalOverwrite
  import opened PosixOverwrite
  import opened TransferLengths

  /** Every write of a pass moves all it is given; then file position and accounted offset stay together. */
  ghost predicate MovesAll(len: Lengths, total: nat, offset: nat, step: nat)
    requires offset <= total
    decreases total - offset
  {
    offset < total ==>
      var n := Wanted(total, offset);
      AtMost(len(step, offset, n), n) == n && MovesAll(len, total, offset + n, step + 1)
  }

  /** The first write that falls short is the one for `short`. */
  ghost predicate FallsShortAt(len: Lengths, total: nat, offset: nat, step: nat, short: nat)
    requires offset <= total
    decreases total - offset
  {
    offset < total &&
    var n := Wanted(total, offset);
    if AtMost(len(step, offset, n), n) == n then FallsShortAt(len, total, offset + n, step + 1, short)
    else offset == short
  }

  lemma {:induction false} FirstShortWrite(len: Lengths, total: nat, offset: nat, step: nat) returns (short: nat)
    requires offset <= total && !MovesAll(len, total, offset, step)
    ensures offset <= short < total && FallsShortAt(len, total, offset, step, short)
    decreases total - offset
  {
    var n := Wanted(total, offset);
    if AtMost(len(step, offset, n), n) == n {
      short := FirstShortWrite(len, total, offset + n, step + 1);
    } else {
      short := offset;
    }
  }

  // ---------- The device ----------

  /** A device that takes these lengths, never fails, and reads whole chunks of `content`. */
  function PosixDevice(digest: nat -> Bytes, len: Lengths, content: Bytes): Device {
    Device(
      digest,
      (step: nat, o: nat, buf: Bytes) => (true, AtMost(len(step, o, |buf|), |buf|)),
      (step: nat, o: nat, n: nat) => (true, if o + n <= |content| then content[o..o + n] else []),
      _ => false,
      _ => false)
  }

  lemma PosixDeviceIsFaithful(digest: nat -> Bytes, len: Lengths, content: Bytes)
    requires Sized(digest)
    ensures var d := PosixDevice(digest, len, content); Sane(d) && NeverCancelled(d) && ReadsWhole(d, content)
  {
    var d := PosixDevice(digest, len, content);
    forall step: nat, o: nat, buf ensures SaneWrite(d, step, o, buf) {
      assert d.write(step, o, buf).1 == AtMost(len(step, o, |buf|), |buf|);
    }
    forall step: nat, o: nat, n: nat ensures SaneRead(d, step, o, n) {}
    forall step: nat, o: nat, n: nat ensures ReturnsWhole(d, content, step, o, n) {}
  }

  /** What the write pass moves; it does not depend on what is read. */
  ghost function Sent(digest: nat -> Bytes, len: Lengths, total: nat, offset: nat, position: nat, step: nat): Bytes
    requires Sized(digest) && offset <= total
  {
    PosixDeviceIsFaithful(digest, len, []);
    PosixOverwrite.Moved(Writings(PosixDevice(digest, len, []), total, offset, position, step).transfers)
  }

  /** The patterns the pass is meant to leave behind. */
  ghost function Meant(digest: nat -> Bytes, len: Lengths, total: nat, offset: nat): Bytes
    requires Sized(digest) && offset <= total
  {
    PosixDeviceIsFaithful(digest, len, []);
    Wholes(PosixDevice(digest, len, []), total, offset)
  }

  /** What the write for the chunk at `offset` moves. */
  ghost function SentNow(digest: nat -> Bytes, len: Lengths, total: nat, offset: nat, position: nat, step: nat)
    : (r: Bytes)
    requires Sized(digest) && offset < total
    ensures |r| == AtMost(len(step, position, Wanted(total, offset)), Wanted(total, offset))
    ensures r <= Cycle(digest(offset), Wanted(total, offset))
  {
    var n := Wanted(total, offset);
    Cycle(digest(offset), n)[..AtMost(len(step, position, n), n)]
  }

  lemma SentStep(digest: nat -> Bytes, len: Lengths, total: nat, offset: nat, position: nat, step: nat)
    requires Sized(digest) && offset < total
    ensures var data := SentNow(digest, len, total, offset, position, step);
      Sent(digest, len, total, offset, position, step)
        == data + Sent(digest, len, total, offset + Wanted(total, offset), position + |data|, step + 1)
  {
    hide Writings, Cycle;
    PosixDeviceIsFaithful(digest, len, []);
    WritingIs(PosixDevice(digest, len, []), total, offset, position, step);
  }

  lemma MeantStep(digest: nat -> Bytes, len: Lengths, total: nat, offset: nat)
    requires Sized(digest) && offset < total
    ensures Meant(digest, len, total, offset)
         == Cycle(digest(offset), Wanted(total, offset)) + Meant(digest, len, total, offset + Wanted(total, offset))
  {
    PosixDeviceIsFaithful(digest, len, []);
  }

  lemma {:induction false} SentByAny(digest: nat -> Bytes, len: Lengths, content: Bytes, total: nat, offset: nat,
                                     position: nat, step: nat)
    requires Sized(digest) && offset <= total
    requires Sane(PosixDevice(digest, len, content)) && Sane(PosixDevice(digest, len, []))
    ensures Writings(PosixDevice(digest, len, content), total, offset, position, step)
         == Writings(PosixDevice(digest, len, []), total, offset, position, step)
    decreases total - offset
  {
    hide Cycle, SaneWrite, SaneRead;
    if offset < total {
      var d, e := PosixDevice(digest, len, content), PosixDevice(digest, len, []);
      assert Taken(d, total, offset, position, step) == Taken(e, total, offset, position, step);
      SentByAny(digest, len, content, total, offset + Wanted(total, offset),
                position + |Taken(e, total, offset, position, step)|, step + 1);
    }
  }

  /** The disk behind the write pass: what was moved, in front of what stood there before. */
  ghost function DiskBehind(digest: nat -> Bytes, len: Lengths, total: nat, before: Bytes): (content: Bytes)
    requires Sized(digest) && total <= |before|
    ensures |content| == |before|
  {
    SentFits(digest, len, total);
    var sent := Sent(digest, len, total, 0, 0, 0);
    sent + before[|sent|..]
  }

  lemma SentFits(digest: nat -> Bytes, len: Lengths, total: nat)
    requires Sized(digest)
    ensures |Sent(digest, len, total, 0, 0, 0)| <= total
  {
    PosixDeviceIsFaithful(digest, len, []);
    NeverStopped(PosixDevice(digest, len, []), total, 0, 0, 0);
    ReportedIsTakenIff(PosixDevice(digest, len, []), total, 0, 0, 0);
  }

  ghost function PosixStatus(digest: nat -> Bytes, len: Lengths, total: nat, before: Bytes): FinalStatus
    requires Sized(digest) && total <= |before|
  {
    var content := DiskBehind(digest, len, total, before);
    PosixDeviceIsFaithful(digest, len, content);
    PosixJudge(PosixDevice(digest, len, content), total, total).finalStatus
  }

  lemma {:induction false} SameMeant(d: Device, e: Device, total: nat, offset: nat)
    requires Sane(d) && Sane(e) && d.digest == e.digest && offset <= total
    ensures Wholes(d, total, offset) == Wholes(e, total, offset)
    decreases total - offset
  {
    if offset < total { SameMeant(d, e, total, offset + Wanted(total, offset)); }
  }

  lemma StatusIs(digest: nat -> Bytes, len: Lengths, total: nat, before: Bytes)
    requires Sized(digest) && total <= |before|
    ensures PosixStatus(digest, len, total, before) == PassPhysical
       <==> DiskBehind(digest, len, total, before)[..total] == Meant(digest, len, total, 0)
  {
    hide PosixJudge, Wholes, Writings, PosixOverwrite.Moved;
    var content := DiskBehind(digest, len, total, before);
    var d, e := PosixDevice(digest, len, content), PosixDevice(digest, len, []);
    PosixDeviceIsFaithful(digest, len, content);
    PosixDeviceIsFaithful(digest, len, []);
    SentByAny(digest, len, content, total, 0, 0, 0);
    SameMeant(d, e, total, 0);
    var sent := Sent(digest, len, total, 0, 0, 0);
    SentFits(digest, len, total);
    FaithfulPosixPassesIff(d, total, before[|sent|..]);
  }

  // ---------- When all writes are whole ----------

  lemma {:induction false} AllSent(digest: nat -> Bytes, len: Lengths, total: nat, offset: nat, step: nat)
    requires Sized(digest) && offset <= total && MovesAll(len, total, offset, step)
    ensures Sent(digest, len, total, offset, offset, step) == Meant(digest, len, total, offset)
    decreases total - offset
  {
    if offset < total {
      hide Sent, Meant, Cycle;
      SentStep(digest, len, total, offset, offset, step);
      MeantStep(digest, len, total, offset);
      AllSent(digest, len, total, offset + Wanted(total, offset), step + 1);
    }
  }

  lemma WholeWritesPass(digest: nat -> Bytes, len: Lengths, total: nat, before: Bytes)
    requires Sized(digest) && total <= |before| && MovesAll(len, total, 0, 0)
    ensures PosixStatus(digest, len, total, before) == PassPhysical
  {
    AllSent(digest, len, total, 0, 0);
    PosixDeviceIsFaithful(digest, len, []);
    WholesLength(PosixDevice(digest, len, []), total, 0);
    StatusIs(digest, len, total, before);
  }

  // ---------- When one falls short ----------

  ghost predicate AllZero(s: Bytes) { forall k :: 0 <= k < |s| ==> s[k] == 0 }

  /** The pattern blocks of all later offsets are zeros. */
  ghost predicate ZeroBehind(digest: nat -> Bytes, short: nat) {
    forall o: nat :: o > short ==> AllZero(digest(o))
  }

  lemma TellingIsZeroBehind(short: nat)
    ensures ZeroBehind(Telling(short), short)
  {}

  /** Behind the short write only the patterns of later offsets are moved. */
  lemma {:induction false} LaterPatternsAreZero(digest: nat -> Bytes, short: nat, len: Lengths, total: nat, offset: nat,
                                                position: nat, step: nat)
    requires Sized(digest) && ZeroBehind(digest, short) && short < offset <= total
    ensures AllZero(Sent(digest, len, total, offset, position, step))
    decreases total - offset
  {
    hide Sent, SentNow, Cycle, AllZero, Sized, ZeroBehind;
    if offset < total {
      var data, next := SentNow(digest, len, total, offset, position, step), offset + Wanted(total, offset);
      SentStep(digest, len, total, offset, position, step);
      SentNowIsZero(digest, short, len, total, offset, position, step);
      LaterPatternsAreZero(digest, short, len, total, next, position + |data|, step + 1);
      ZerosConcat(data, Sent(digest, len, total, next, position + |data|, step + 1));
    } else {
      NothingSentLast(digest, len, total, position, step);
    }
  }

  lemma NothingSentLast(digest: nat -> Bytes, len: Lengths, total: nat, position: nat, step: nat)
    requires Sized(digest)
    ensures AllZero(Sent(digest, len, total, total, position, step))
  {}

  lemma SentNowIsZero(digest: nat -> Bytes, short: nat, len: Lengths, total: nat, offset: nat, position: nat, step: nat)
    requires Sized(digest) && ZeroBehind(digest, short) && short < offset < total
    ensures AllZero(SentNow(digest, len, total, offset, position, step))
  {
    hide Cycle;
    CycleBytes(digest(offset), Wanted(total, offset), 0);
  }

  lemma ZerosConcat(a: Bytes, b: Bytes)
    requires AllZero(a) && AllZero(b)
    ensures AllZero(a + b)
  {}

  /** A block of equal bytes repeats as that byte. */
  lemma {:induction false} CycleBytes(block: Bytes, n: nat, b: bv8)
    requires |block| > 0 && forall k :: 0 <= k < |block| ==> block[k] == b
    ensures forall k :: 0 <= k < n ==> Cycle(block, n)[k] == b
  {
    if n > 0 { CycleBytes(block, n - 1, b); }
  }

  /** The byte behind the short write is not the one meant there, on a disk that held zeros. */
  lemma {:induction false} ShortWriteShows(short: nat, len: Lengths, total: nat, offset: nat, step: nat, rest: Bytes)
    requires Sized(Telling(short)) && offset <= total && FallsShortAt(len, total, offset, step, short) && AllZero(rest)
    requires |Sent(Telling(short), len, total, offset, offset, step)| + |rest| >= total - offset
    ensures (Sent(Telling(short), len, total, offset, offset, step) + rest)[..total - offset]
         != Meant(Telling(short), len, total, offset)
    decreases total - offset
  {
    hide Sent, Meant, Cycle, AllZero;
    var digest, n := Telling(short), Wanted(total, offset);
    var data := SentNow(digest, len, total, offset, offset, step);
    var later, meant := Sent(digest, len, total, offset + n, offset + |data|, step + 1), Cycle(digest(offset), n);
    SentStep(digest, len, total, offset, offset, step);
    MeantStep(digest, len, total, offset);
    assert data + later + rest == data + (later + rest);
    if |data| == n {
      assert data == meant;
      ShortWriteShows(short, len, total, offset + n, step + 1, rest);
      DifferBehind(meant, later + rest, Meant(digest, len, total, offset + n), total - offset);
    } else {
      TellingIsZeroBehind(short);
      LaterPatternsAreZero(digest, short, len, total, offset + n, offset + |data|, step + 1);
      CycleBytes(digest(offset), n, 1);
      ZerosDiffer(data, later, rest, meant, Meant(digest, len, total, offset + n), total - offset);
    }
  }

  lemma ZerosDiffer(data: Bytes, later: Bytes, rest: Bytes, meant: Bytes, behind: Bytes, size: nat)
    requires |data| < |meant| <= size <= |data| + |later| + |rest| && AllZero(later) && AllZero(rest)
    requires meant[|data|] == 1
    ensures (data + (later + rest))[..size] != meant + behind
  {
    assert (data + (later + rest))[|data|] == (later + rest)[0] == 0;
    assert (meant + behind)[|data|] == 1;
  }

  lemma DifferBehind(head: Bytes, a: Bytes, b: Bytes, n: nat)
    requires |head| <= n <= |head| + |a| && a[..n - |head|] != b
    ensures (head + a)[..n] != head + b
  {
    assert (head + a)[..n][|head|..] == a[..n - |head|];
    assert (head + b)[|head|..] == b;
  }

  /** The outcome for every hash and every former content of the disk. */
  ghost predicate PassesAlways(len: Lengths, total: nat) {
    forall digest, before :: Sized(digest) && total <= |before| ==>
      PosixStatus(digest, len, total, before) == PassPhysical
  }

  lemma ShortWriteFails(len: Lengths, total: nat) returns (digest: nat -> Bytes, before: Bytes)
    requires !MovesAll(len, total, 0, 0)
    ensures Sized(digest) && total <= |before| && PosixStatus(digest, len, total, before) != PassPhysical
  {
    var short := FirstShortWrite(len, total, 0, 0);
    digest, before := Telling(short), seq(total, _ => 0);
    SentFits(digest, len, total);
    var sent := Sent(digest, len, total, 0, 0, 0);
    ShortWriteShows(short, len, total, 0, 0, before[|sent|..]);
    StatusIs(digest, len, total, before);
  }

  /** Whatever the hash and whatever stood on the disk, a faithful device passes: this holds if and only if every
      write moves all it is given. */
  lemma PassesAlwaysIff(len: Lengths, total: nat)
    ensures PassesAlways(len, total) <==> MovesAll(len, total, 0, 0)
  {
    hide PosixStatus, MovesAll;
    if MovesAll(len, total, 0, 0) {
      forall digest, before | Sized(digest) && total <= |before|
        ensures PosixStatus(digest, len, total, before) == PassPhysical
      {
        WholeWritesPass(digest, len, total, before);
      }
    } else {
      var digest, before := ShortWriteFails(len, total);
    }
  }

  /** Otherwise the run ends as a failed verification: such a device has no other outcome. */
  lemma PassesOrFails(digest: nat -> Bytes, len: Lengths, total: nat, before: Bytes)
    requires Sized(digest) && total <= |before|
    ensures PosixStatus(digest, len, total, before) in {PassPhysical, VerificationFailed}
  {
    hide Writings, Readings, DiskBehind;
    var content := DiskBehind(digest, len, total, before);
    var d := PosixDevice(digest, len, content);
    PosixDeviceIsFaithful(digest, len, content);
    NeverStopped(d, total, 0, 0, 0);
    WholeReadsInPlaceIff(d, content, total, 0, 0);
    NoMismatchMeansInPlace(d, total, 0, 0);
  }

  /** A failing device: its only write takes 512 of 1024 bytes, and the byte that stood behind them is not the one
      the pattern has there. */
  lemma HalfWriteFails(digest: nat -> Bytes, len: Lengths, before: Bytes)
    requires Sized(digest) && len(0, 0, 1024) == 512
    requires |before| >= 1024 && before[512] != digest(0)[0]
    ensures PosixStatus(digest, len, 1024, before) == VerificationFailed
  {
    hide Cycle, PosixStatus, DiskBehind;
    SentStep(digest, len, 1024, 0, 0, 0);
    NothingLeft(digest, len);
    HalfDisk(digest, len, before);
    MeantStep(digest, len, 1024, 0);
    CycleAt(digest(0), 1024, 512);
    StatusIs(digest, len, 1024, before);
    PassesOrFails(digest, len, 1024, before);
  }

  lemma NothingLeft(digest: nat -> Bytes, len: Lengths)
    requires Sized(digest)
    ensures Sent(digest, len, 1024, 1024, 512, 1) == [] && Meant(digest, len, 1024, 1024) == []
  {}

  lemma HalfDisk(digest: nat -> Bytes, len: Lengths, before: Bytes)
    requires Sized(digest) && |before| >= 1024 && |Sent(digest, len, 1024, 0, 0, 0)| == 512
    ensures DiskBehind(digest, len, 1024, before)[512] == before[512]
  {
    hide Sent;
  }
}
