/** The native overwrite loop of `FileSanitizer.wipe_file`: several passes over a file in place, chunk by chunk,
    with a cancellation poll in front of every chunk, and the sample read-back at the end. */
module FileWipe {
  import opened Basics
  import opened Patterns

  const CHUNK := 65536

  datatype PatternSpec = Random | Value(b: bv8) | Block(block: Bytes)

  datatype Status = Success | Partial

  /** The random source: the bytes drawn for `n` bytes at offset `at` of pass `pass`. */
  type RandomSource = (nat, nat, nat) -> Bytes

  ghost predicate Sane(random: RandomSource) {
    forall pass: nat, at: nat, n: nat {:trigger random(pass, at, n)} :: |random(pass, at, n)| == n
  }

  predicate UsablePasses(passes: seq<PatternSpec>) {
    passes != [] && forall i :: 0 <= i < |passes| ==> passes[i].Block? ==> passes[i].block != []
  }

  datatype Standard =
    | Nist80088Clear | Nist80088Rev1Clear | Nist80088Rev2Clear | SinglePassZero | CsprngOverwrite
    | Dod3Pass | Dod7Pass | HmgIs5Enhanced | Gutmann35Pass

  function Gutmann(): (r: seq<PatternSpec>)
    ensures |r| == 35 && forall i :: 0 <= i < 35 ==> (r[i].Random? <==> i < 4 || i >= 31)
    ensures UsablePasses(r)
  {
    [Random, Random, Random, Random]
    + [Block([0x55]), Block([0xAA]), Block([0x92, 0x49, 0x24]), Block([0x49, 0x24, 0x92]), Block([0x24, 0x92, 0x49]),
       Block([0x00]), Block([0x11]), Block([0x22]), Block([0x33]), Block([0x44]), Block([0x55]), Block([0x66])]
    + [Block([0x77]), Block([0x88]), Block([0x99]), Block([0xAA]), Block([0xBB]), Block([0xCC]), Block([0xDD]),
       Block([0xEE]), Block([0xFF]), Block([0x92, 0x49, 0x24]), Block([0x49, 0x24, 0x92]), Block([0x24, 0x92, 0x49])]
    + [Block([0x6D, 0xB6, 0xDB]), Block([0xB6, 0xDB, 0x6D]), Block([0xDB, 0x6D, 0xB6]), Random, Random, Random, Random]
  }

  /** Every sequence of several passes ends random; a single pass is random or zero; of Gutmann's 35 passes the
      first four and the last four are random and no others. */
  function PassSequence(standard: Standard): (r: seq<PatternSpec>)
    ensures UsablePasses(r)
    ensures |r| > 1 ==> r[|r| - 1].Random?
    ensures |r| == 1 ==> r[0] == if standard == CsprngOverwrite then Random else Value(0x00)
    ensures |r| == 1 <==> standard !in {Dod3Pass, Dod7Pass, HmgIs5Enhanced, Gutmann35Pass}
    ensures standard == Gutmann35Pass ==> |r| == 35 && forall i :: 0 <= i < 35 ==> (r[i].Random? <==> i < 4 || i >= 31)
  {
    hide Gutmann;
    match standard
    case CsprngOverwrite => [Random]
    case Dod3Pass => [Value(0x00), Value(0xFF), Random]
    case Dod7Pass => [Value(0x00), Value(0xFF), Random, Value(0x96), Value(0x00), Value(0xFF), Random]
    case HmgIs5Enhanced => [Value(0x00), Value(0xFF), Random]
    case Gutmann35Pass => Gutmann()
    case _ => [Value(0x00)]
  }

  function PatternOf(spec: PatternSpec): Bytes
    requires !spec.Random?
  {
    if spec.Value? then [spec.b] else spec.block
  }

  /** A pattern repeated and cut to `n` bytes. */
  function Filled(spec: PatternSpec, n: nat): (r: Bytes)
    requires !spec.Random? && PatternOf(spec) != []
    ensures r == Cycle(PatternOf(spec), n)
  {
    match spec
    case Value(b) => RepeatIsCycle([b], n, n); Repeat([b], n)
    case Block(block) =>
      OneMoreCovers(n, |block|);
      RepeatIsCycle(block, n / |block| + 1, n);
      Repeat(block, n / |block| + 1)[..n]
  }

  /** One chunk of a pass. */
  function Buffer(random: RandomSource, spec: PatternSpec, pass: nat, at: nat, n: nat): (r: Bytes)
    requires Sane(random) && (spec.Block? ==> spec.block != [])
    ensures |r| == n
  {
    if spec.Random? then random(pass, at, n) else Cycle(PatternOf(spec), n)
  }

  /** What a pass writes from offset `at` to the end of a file of `size` bytes. */
  ghost function PassFrom(random: RandomSource, spec: PatternSpec, pass: nat, size: nat, at: nat): (r: Bytes)
    requires Sane(random) && (spec.Block? ==> spec.block != []) && at <= size
    ensures |r| == size - at
    decreases size - at
  {
    if at == size then [] else
      var n := Min(CHUNK, size - at);
      Buffer(random, spec, pass, at, n) + PassFrom(random, spec, pass, size, at + n)
  }

  /** The file behind `done` complete passes. */
  ghost function Behind(random: RandomSource, passes: seq<PatternSpec>, original: Bytes, done: nat): (r: Bytes)
    requires Sane(random) && UsablePasses(passes) && done <= |passes|
    ensures |r| == |original|
  {
    if done == 0 then original else PassFrom(random, passes[done - 1], done - 1, |original|, 0)
  }

  /** The new content in front of `at`, the previous one behind. */
  ghost function Joined(whole: Bytes, previous: Bytes, at: nat): (r: Bytes)
    requires at <= |whole| == |previous|
    ensures |r| == |whole|
  {
    whole[..at] + previous[at..]
  }

  /** The file inside pass `pass` (counted from 0): its own bytes in front, the previous pass's behind. */
  ghost function Torn(random: RandomSource, passes: seq<PatternSpec>, original: Bytes, pass: nat, prefix: nat): Bytes
    requires Sane(random) && UsablePasses(passes) && pass < |passes| && prefix <= |original|
  {
    Joined(Behind(random, passes, original, pass + 1), Behind(random, passes, original, pass), prefix)
  }

  /** The rest of a pass starts with its next chunk. */
  lemma NextChunk(random: RandomSource, spec: PatternSpec, pass: nat, size: nat, at: nat, whole: Bytes)
    requires Sane(random) && (spec.Block? ==> spec.block != []) && at < size == |whole|
    requires whole[at..] == PassFrom(random, spec, pass, size, at)
    ensures var n := Min(CHUNK, size - at);
      && whole[at..at + n] == Buffer(random, spec, pass, at, n)
      && whole[at + n..] == PassFrom(random, spec, pass, size, at + n)
  {
    var n := Min(CHUNK, size - at);
    SplitTail(whole, at, Buffer(random, spec, pass, at, n), PassFrom(random, spec, pass, size, at + n));
  }

  /** One write of `buffer` at the seam. */
  lemma SeamMoves(whole: Bytes, previous: Bytes, at: nat, buffer: Bytes)
    requires |whole| == |previous| && at + |buffer| <= |whole| && whole[at..at + |buffer|] == buffer
    ensures var before := Joined(whole, previous, at);
      before[..at] + buffer + before[at + |buffer|..] == Joined(whole, previous, at + |buffer|)
  {
    var before := Joined(whole, previous, at);
    assert before[..at] == whole[..at] && before[at + |buffer|..] == previous[at + |buffer|..];
    assert whole[..at] + buffer == whole[..at + |buffer|];
  }

  lemma SplitTail(whole: Bytes, at: nat, buffer: Bytes, rest: Bytes)
    requires at <= |whole| && whole[at..] == buffer + rest
    ensures whole[at..at + |buffer|] == buffer && whole[at + |buffer|..] == rest
  {
    assert whole[at..][..|buffer|] == buffer && whole[at..][|buffer|..] == rest;
  }

  lemma SeamAtStart(whole: Bytes, previous: Bytes)
    requires |whole| == |previous|
    ensures previous == Joined(whole, previous, 0) && whole[0..] == whole
  {}

  /** Writing the next chunk moves the seam between the new content and the previous one. */
  method WriteChunk(file: array<bv8>, at: nat, buffer: Bytes, ghost whole: Bytes, ghost previous: Bytes)
    requires |whole| == |previous| == file.Length && at + |buffer| <= file.Length
    requires file[..] == Joined(whole, previous, at) && whole[at..at + |buffer|] == buffer
    modifies file
    ensures file[..] == Joined(whole, previous, at + |buffer|)
  {
    hide Joined;
    ghost var before := file[..];
    assert file[..at] == before[..at] && file[at + |buffer|..] == before[at + |buffer|..];
    WriteAt(file, at, buffer);
    SeamMoves(whole, previous, at, buffer);
  }

  predicate Goes(cancelled: nat -> bool, poll: nat) { !cancelled(poll) }

  ghost predicate NoneCancelled(cancelled: nat -> bool, lo: nat, hi: nat) {
    forall poll: nat :: lo <= poll < hi ==> Goes(cancelled, poll)
  }

  /** How many chunks, and so how many polls, a pass over `n` bytes takes. */
  function ChunkCount(n: nat): nat {
    if n == 0 then 0 else 1 + ChunkCount(n - Min(CHUNK, n))
  }

  lemma NoPolls(cancelled: nat -> bool, polls: nat)
    ensures NoneCancelled(cancelled, polls, polls) && ChunkCount(0) == 0
  {}

  lemma OnePoll(cancelled: nat -> bool, polls: nat, next: nat, rest: nat)
    requires polls <= next && NoneCancelled(cancelled, polls, next) && rest > 0
    ensures ChunkCount(rest) == 1 + ChunkCount(rest - Min(CHUNK, rest))
    ensures !cancelled(next) ==> NoneCancelled(cancelled, polls, next + 1)
  {}

  /** The chunk loop of one pass; stops at the first chunk whose poll reports a cancellation. */
  method OverwritePass(file: array<bv8>, random: RandomSource, spec: PatternSpec, pass: nat, cancelled: nat -> bool,
                       polls: nat, ghost whole: Bytes, ghost previous: Bytes)
    returns (stopped: bool, at: nat, nextPoll: nat)
    requires Sane(random) && (spec.Block? ==> spec.block != [])
    requires whole == PassFrom(random, spec, pass, file.Length, 0) && file[..] == previous
    modifies file
    ensures at <= file.Length && file[..] == Joined(whole, previous, at)
    ensures if stopped then at < file.Length else at == file.Length
    ensures polls <= nextPoll <= polls + ChunkCount(file.Length) && NoneCancelled(cancelled, polls, nextPoll)
    ensures if stopped then nextPoll < polls + ChunkCount(file.Length) && cancelled(nextPoll)
            else nextPoll == polls + ChunkCount(file.Length)
  {
    assert |previous| == file.Length;
    SeamAtStart(whole, previous);
    hide Joined, PassFrom, ChunkCount, NoneCancelled;
    NoPolls(cancelled, polls);
    at, nextPoll := 0, polls;
    while at < file.Length
      invariant at <= file.Length && file[..] == Joined(whole, previous, at)
      invariant whole[at..] == PassFrom(random, spec, pass, file.Length, at)
      invariant polls <= nextPoll && NoneCancelled(cancelled, polls, nextPoll)
      invariant nextPoll + ChunkCount(file.Length - at) == polls + ChunkCount(file.Length)
      decreases file.Length - at
    {
      OnePoll(cancelled, polls, nextPoll, file.Length - at);
      if cancelled(nextPoll) {
        return true, at, nextPoll;
      }
      nextPoll := nextPoll + 1;
      at := OverwriteNext(file, random, spec, pass, at, whole, previous);
    }
    stopped := false;
  }

  method FillBuffer(random: RandomSource, spec: PatternSpec, pass: nat, at: nat, n: nat) returns (buffer: Bytes)
    requires Sane(random) && (spec.Block? ==> spec.block != [])
    ensures buffer == Buffer(random, spec, pass, at, n)
  {
    buffer := if spec.Random? then random(pass, at, n) else Filled(spec, n);
  }

  method OverwriteNext(file: array<bv8>, random: RandomSource, spec: PatternSpec, pass: nat, at: nat,
                       ghost whole: Bytes, ghost previous: Bytes)
    returns (next: nat)
    requires Sane(random) && (spec.Block? ==> spec.block != []) && at < file.Length == |whole| == |previous|
    requires file[..] == Joined(whole, previous, at) && whole[at..] == PassFrom(random, spec, pass, file.Length, at)
    modifies file
    ensures next == at + Min(CHUNK, file.Length - at) && file[..] == Joined(whole, previous, next)
    ensures whole[next..] == PassFrom(random, spec, pass, file.Length, next)
  {
    hide PassFrom, Joined, Buffer, Sane;
    var n := Min(CHUNK, file.Length - at);
    NextChunk(random, spec, pass, file.Length, at, whole);
    var buffer := FillBuffer(random, spec, pass, at, n);
    WriteChunk(file, at, buffer, whole, previous);
    next := at + n;
  }

  /** One pass over a file that holds the previous one. */
  method WipePass(file: array<bv8>, random: RandomSource, passes: seq<PatternSpec>, pass: nat, cancelled: nat -> bool,
                  polls: nat, ghost original: Bytes)
    returns (stopped: bool, at: nat, nextPoll: nat)
    requires Sane(random) && UsablePasses(passes) && pass < |passes| && |original| == file.Length
    requires file[..] == Behind(random, passes, original, pass)
    modifies file
    ensures at <= file.Length && file[..] == Torn(random, passes, original, pass, at)
    ensures if stopped then at < file.Length
            else at == file.Length && file[..] == Behind(random, passes, original, pass + 1)
    ensures polls <= nextPoll <= polls + ChunkCount(file.Length) && NoneCancelled(cancelled, polls, nextPoll)
    ensures if stopped then nextPoll < polls + ChunkCount(file.Length) && cancelled(nextPoll)
            else nextPoll == polls + ChunkCount(file.Length)
  {
    ghost var whole, previous := Behind(random, passes, original, pass + 1), Behind(random, passes, original, pass);
    stopped, at, nextPoll := OverwritePass(file, random, passes[pass], pass, cancelled, polls, whole, previous);
  }

  /** The product `k * n`, as a sum. */
  function Times(k: nat, n: nat): nat { if k == 0 then 0 else Times(k - 1, n) + n }

  lemma {:induction false} TimesIsProduct(k: nat, n: nat)
    ensures Times(k, n) == k * n
  {
    if k > 0 {
      TimesIsProduct(k - 1, n);
      assert k * n == (k - 1) * n + n;
    }
  }

  lemma {:induction false} TimesMonotone(j: nat, k: nat, n: nat)
    requires j <= k
    ensures Times(j, n) <= Times(k, n)
  {
    if j < k { TimesMonotone(j, k - 1, n); }
  }

  lemma CancelledInside(cancelled: nat -> bool, poll: nat, pass: nat, passes: nat, n: nat)
    requires pass < passes && poll < Times(pass, n) + n && cancelled(poll)
    ensures !NoneCancelled(cancelled, 0, Times(passes, n))
  {
    TimesMonotone(pass + 1, passes, n);
    assert !Goes(cancelled, poll);
  }

  lemma NextTimes(k: nat, n: nat)
    ensures Times(k + 1, n) == Times(k, n) + n
  {}

  lemma NothingWiped(random: RandomSource, passes: seq<PatternSpec>, original: Bytes, cancelled: nat -> bool)
    requires Sane(random) && UsablePasses(passes)
    ensures Behind(random, passes, original, 0) == original && NoneCancelled(cancelled, 0, 0)
    ensures forall n: nat :: Times(0, n) == 0
  {}

  lemma NoneSoFar(cancelled: nat -> bool, pass: nat, n: nat)
    requires NoneCancelled(cancelled, 0, Times(pass, n))
    requires NoneCancelled(cancelled, Times(pass, n), Times(pass, n) + n)
    ensures NoneCancelled(cancelled, 0, Times(pass + 1, n))
  {}

  /** The whole loop.  A cancellation in pass k leaves pass k's bytes in front of pass k-1's, and the byte count
      tells where the seam is; a completed run leaves exactly the last pass.  The run succeeds exactly when none of
      its polls, one for every chunk of every pass, reports a cancellation. */
  method Wipe(file: array<bv8>, random: RandomSource, passes: seq<PatternSpec>, cancelled: nat -> bool)
    returns (status: Status, passCount: nat, bytesWritten: nat, exactReadback: bool)
    requires Sane(random) && UsablePasses(passes)
    modifies file
    ensures status == Success ==>
      passCount == |passes| && bytesWritten == |passes| * file.Length && exactReadback
      && file[..] == Behind(random, passes, old(file[..]), |passes|)
    ensures status == Partial ==>
      1 <= passCount <= |passes| && !exactReadback
      && 0 <= bytesWritten - (passCount - 1) * file.Length < file.Length
      && file[..] == Torn(random, passes, old(file[..]), passCount - 1,
                          bytesWritten - (passCount - 1) * file.Length)
    ensures status == Success <==> NoneCancelled(cancelled, 0, |passes| * ChunkCount(file.Length))
  {
    hide Behind, Torn, Times, NoneCancelled, UsablePasses;
    ghost var original := file[..];
    NothingWiped(random, passes, original, cancelled);
    bytesWritten := 0;
    var polls := 0;
    for pass := 0 to |passes|
      invariant file[..] == Behind(random, passes, original, pass)
      invariant bytesWritten == Times(pass, file.Length)
      invariant polls == Times(pass, ChunkCount(file.Length)) && NoneCancelled(cancelled, 0, polls)
    {
      var stopped, at, next := WipePass(file, random, passes, pass, cancelled, polls, original);
      NextTimes(pass, file.Length);
      bytesWritten := bytesWritten + at;
      if stopped {
        CancelledInside(cancelled, next, pass, |passes|, ChunkCount(file.Length));
        TimesIsProduct(pass, file.Length);
        TimesIsProduct(|passes|, ChunkCount(file.Length));
        return Partial, pass + 1, bytesWritten, false;
      }
      NextTimes(pass, ChunkCount(file.Length));
      NoneSoFar(cancelled, pass, ChunkCount(file.Length));
      polls := next;
    }
    exactReadback := CheckReadback(file, random, passes, original);
    TimesIsProduct(|passes|, file.Length);
    TimesIsProduct(|passes|, ChunkCount(file.Length));
    return Success, |passes|, bytesWritten, exactReadback;
  }

  /** The read-back check looks at the first chunk only. */
  method CheckReadback(file: array<bv8>, random: RandomSource, passes: seq<PatternSpec>, ghost original: Bytes)
    returns (exact: bool)
    requires Sane(random) && UsablePasses(passes) && |original| == file.Length
    requires file[..] == Behind(random, passes, original, |passes|)
    ensures exact
  {
    var n := Min(file.Length, CHUNK);
    var sample := file[..n];
    var last := passes[|passes| - 1];
    FirstChunk(random, last, |passes| - 1, file.Length);
    assert sample == file[..][..n] == Buffer(random, last, |passes| - 1, 0, n);
    exact := if last.Random? then |sample| == n else sample == Filled(last, |sample|);
  }

  lemma FirstChunk(random: RandomSource, spec: PatternSpec, pass: nat, size: nat)
    requires Sane(random) && (spec.Block? ==> spec.block != [])
    ensures PassFrom(random, spec, pass, size, 0)[..Min(size, CHUNK)] == Buffer(random, spec, pass, 0, Min(size, CHUNK))
  {}

  /** Byte `k` of the endlessly repeated pattern. */
  function PatternAt(spec: PatternSpec, k: nat): bv8
    requires !spec.Random? && PatternOf(spec) != []
  {
    PatternOf(spec)[k % |PatternOf(spec)|]
  }

  lemma BufferByte(random: RandomSource, spec: PatternSpec, pass: nat, at: nat, n: nat, k: nat)
    requires Sane(random) && !spec.Random? && PatternOf(spec) != [] && k < n
    ensures Buffer(random, spec, pass, at, n)[k] == PatternAt(spec, k)
  {
    CycleAt(PatternOf(spec), n, k);
  }

  lemma PassFromAt(random: RandomSource, spec: PatternSpec, pass: nat, size: nat, at: nat, o: nat)
    requires Sane(random) && (spec.Block? ==> spec.block != []) && at <= o < size
    ensures var n := Min(CHUNK, size - at);
      PassFrom(random, spec, pass, size, at)[o - at]
      == if o < at + n then Buffer(random, spec, pass, at, n)[o - at]
         else PassFrom(random, spec, pass, size, at + n)[o - (at + n)]
  {
    var n := Min(CHUNK, size - at);
    ConcatAt(Buffer(random, spec, pass, at, n), PassFrom(random, spec, pass, size, at + n), o - at);
  }

  lemma ConcatAt(a: Bytes, b: Bytes, k: nat)
    requires k < |a| + |b|
    ensures (a + b)[k] == if k < |a| then a[k] else b[k - |a|]
  {}

  /** A chunk that reaches byte `r` has `v` there. */
  predicate ChunkHas(random: RandomSource, spec: PatternSpec, pass: nat, at: nat, n: nat, r: nat, v: bv8)
    requires Sane(random) && (spec.Block? ==> spec.block != [])
  {
    r < n ==> Buffer(random, spec, pass, at, n)[r] == v
  }

  ghost predicate ChunksHave(random: RandomSource, spec: PatternSpec, pass: nat, r: nat, v: bv8)
    requires Sane(random) && (spec.Block? ==> spec.block != [])
  {
    forall at: nat, n: nat :: ChunkHas(random, spec, pass, at, n, r, v)
  }

  /** The length of `k` chunks. */
  function Chunks(k: nat): (n: nat)
    ensures n == k * CHUNK
  {
    if k == 0 then 0 else CHUNK + Chunks(k - 1)
  }

  lemma ByteInFirst(random: RandomSource, spec: PatternSpec, pass: nat, size: nat, at: nat, r: nat, v: bv8)
    requires Sane(random) && (spec.Block? ==> spec.block != []) && ChunksHave(random, spec, pass, r, v)
    requires r < CHUNK && at + r < size
    ensures PassFrom(random, spec, pass, size, at)[r] == v
  {
    PassFromAt(random, spec, pass, size, at, at + r);
    assert ChunkHas(random, spec, pass, at, Min(CHUNK, size - at), r, v);
  }

  lemma ByteBehindFirst(random: RandomSource, spec: PatternSpec, pass: nat, size: nat, at: nat, j: nat)
    requires Sane(random) && (spec.Block? ==> spec.block != []) && at + CHUNK + j < size
    ensures PassFrom(random, spec, pass, size, at)[CHUNK + j] == PassFrom(random, spec, pass, size, at + CHUNK)[j]
  {
    PassFromAt(random, spec, pass, size, at, at + CHUNK + j);
  }

  /** Then byte `r` of the chunk that is `k` chunks behind `at` is `v`. */
  lemma {:induction false} FinalByte(random: RandomSource, spec: PatternSpec, pass: nat, size: nat, at: nat,
                                     k: nat, r: nat, v: bv8)
    requires Sane(random) && (spec.Block? ==> spec.block != []) && ChunksHave(random, spec, pass, r, v)
    requires r < CHUNK && at + Chunks(k) + r < size
    ensures PassFrom(random, spec, pass, size, at)[Chunks(k) + r] == v
    decreases k
  {
    if k == 0 {
      ByteInFirst(random, spec, pass, size, at, r, v);
    } else {
      ByteBehindFirst(random, spec, pass, size, at, Chunks(k - 1) + r);
      FinalByte(random, spec, pass, size, at + CHUNK, k - 1, r, v);
    }
  }

  lemma ChunkSplit(o: nat)
    ensures o == Chunks(o / CHUNK) + o % CHUNK
  {}

  lemma EveryChunkHas(random: RandomSource, spec: PatternSpec, pass: nat, r: nat)
    requires Sane(random) && !spec.Random? && PatternOf(spec) != []
    ensures ChunksHave(random, spec, pass, r, PatternAt(spec, r))
  {
    forall at: nat, n: nat ensures ChunkHas(random, spec, pass, at, n, r, PatternAt(spec, r)) {
      if r < n { BufferByte(random, spec, pass, at, n, r); }
    }
  }

  /** Every byte of a pass that is not random is known: the pattern starts afresh at every chunk. */
  lemma PassBytes(random: RandomSource, spec: PatternSpec, pass: nat, size: nat, o: nat)
    requires Sane(random) && !spec.Random? && PatternOf(spec) != [] && o < size
    ensures PassFrom(random, spec, pass, size, 0)[o] == PatternAt(spec, o % CHUNK)
  {
    var r := o % CHUNK;
    EveryChunkHas(random, spec, pass, r);
    ChunkSplit(o);
    FinalByte(random, spec, pass, size, 0, o / CHUNK, r, PatternAt(spec, r));
  }

  /** So behind a completed run offset `o` holds byte `(o mod 65536) mod |p|` of the last pattern. */
  lemma CompletedWipeBytes(random: RandomSource, passes: seq<PatternSpec>, original: Bytes, o: nat)
    requires Sane(random) && UsablePasses(passes) && !passes[|passes| - 1].Random? && o < |original|
    ensures var p := PatternOf(passes[|passes| - 1]);
            p != [] && Behind(random, passes, original, |passes|)[o] == p[(o % 65536) % |p|]
  {
    PassBytes(random, passes[|passes| - 1], |passes| - 1, |original|, o);
  }

  lemma {:induction false} RandomChunk(random: RandomSource, pass: nat, size: nat, at: nat, k: nat, r: nat)
    requires Sane(random) && r < CHUNK && at + Chunks(k) + r < size
    ensures var start := at + Chunks(k);
      PassFrom(random, Random, pass, size, at)[Chunks(k) + r] == random(pass, start, Min(CHUNK, size - start))[r]
    decreases k
  {
    if k > 0 {
      ByteBehindFirst(random, Random, pass, size, at, Chunks(k - 1) + r);
      RandomChunk(random, pass, size, at + CHUNK, k - 1, r);
    }
  }

  /** And behind a random last pass, the byte that was drawn for it: one draw for every chunk. */
  lemma CompletedRandomWipe(random: RandomSource, passes: seq<PatternSpec>, original: Bytes, o: nat)
    requires Sane(random) && UsablePasses(passes) && passes[|passes| - 1].Random? && o < |original|
    ensures var start := o - o % 65536; var n := if |original| - start < 65536 then |original| - start else 65536;
      Behind(random, passes, original, |passes|)[o] == random(|passes| - 1, start, n)[o % 65536]
  {
    ChunkSplit(o);
    RandomChunk(random, |passes| - 1, |original|, 0, o / CHUNK, o % CHUNK);
  }

  /** The sequences: one pass of zeros or of random bytes; zeros, ones and random bytes; that twice around 0x96. */
  lemma SequencesMean()
    ensures PassSequence(SinglePassZero) == PassSequence(Nist80088Clear) == [Value(0x00)]
    ensures PassSequence(Nist80088Rev1Clear) == PassSequence(Nist80088Rev2Clear) == [Value(0x00)]
    ensures PassSequence(CsprngOverwrite) == [Random]
    ensures PassSequence(Dod3Pass) == PassSequence(HmgIs5Enhanced) == [Value(0x00), Value(0xFF), Random]
    ensures PassSequence(Dod7Pass) == PassSequence(Dod3Pass) + [Value(0x96)] + PassSequence(Dod3Pass)
    ensures PassSequence(Gutmann35Pass) == Gutmann()
  {
    hide Gutmann;
  }

  /** `q` is the three-byte pattern `p` shifted by one byte. */
  predicate Rotated(p: PatternSpec, q: PatternSpec) {
    p.Block? && q.Block? && |p.block| == |q.block| == 3
    && q.block[0] == p.block[1] && q.block[1] == p.block[2] && q.block[2] == p.block[0]
  }

  /** The one byte whose two halves are both `digit`. */
  predicate IsTwice(p: PatternSpec, digit: nat) {
    p.Block? && |p.block| == 1 && p.block[0] as int == 16 * digit + digit
  }

  /** The 35 passes: four random ones at either end, 0x55 and 0xAA, the three rotations of 92 49 24 twice, around the
      bytes with two equal halves in order, and the rotations of 6D B6 DB. */
  lemma GutmannMeans()
    ensures var g := Gutmann();
      && |g| == 35 && (forall i :: 0 <= i < 35 ==> (g[i] == Random <==> i < 4 || i > 30))
      && g[4] == Block([0x55]) && g[5] == Block([0xAA])
      && g[6] == g[25] == Block([0x92, 0x49, 0x24]) && g[28] == Block([0x6D, 0xB6, 0xDB])
      && Rotated(g[6], g[7]) && Rotated(g[7], g[8]) && Rotated(g[25], g[26]) && Rotated(g[26], g[27])
      && Rotated(g[28], g[29]) && Rotated(g[29], g[30])
      && g[9] == Block([0x00])
      && forall i :: 9 <= i < 25 ==> IsTwice(g[i], i - 9)
  {}

  // ---------- When a pattern goes on across chunks ----------

  /** The bytes are the endlessly repeated pattern. */
  ghost predicate Continuous(content: Bytes, spec: PatternSpec)
    requires !spec.Random? && PatternOf(spec) != []
  {
    forall o :: 0 <= o < |content| ==> content[o] == PatternAt(spec, o)
  }

  /** As far as the file reaches behind the first chunk, the pattern equals itself shifted by a chunk. */
  ghost predicate ShiftInvariant(spec: PatternSpec, size: nat)
    requires !spec.Random? && PatternOf(spec) != []
  {
    forall k: nat :: k < |PatternOf(spec)| && CHUNK + k < size ==> PatternAt(spec, k) == PatternAt(spec, CHUNK + k)
  }

  lemma {:induction false} ShiftedMod(a: nat, shift: nat, n: nat)
    requires n > 0
    ensures (a % n + shift) % n == (a + shift) % n
  {
    if a < n {
      SmallMod(a, n);
    } else {
      ShiftedMod(a - n, shift, n);
      ShiftMod(a, n);
      ShiftMod(a + shift, n);
    }
  }

  lemma RestShift(o: nat)
    requires o >= CHUNK
    ensures (o - CHUNK) % CHUNK == o % CHUNK
  {}

  lemma ShiftBack(spec: PatternSpec, size: nat, o: nat)
    requires !spec.Random? && PatternOf(spec) != [] && ShiftInvariant(spec, size) && CHUNK <= o < size
    ensures PatternAt(spec, o) == PatternAt(spec, o - CHUNK)
  {
    hide PatternOf;
    var n := |PatternOf(spec)|;
    var k := Rest(o - CHUNK, n);
    RestIsMod(o - CHUNK, n);
    ShiftedMod(o - CHUNK, CHUNK, n);
    SmallMod(k, n);
    assert PatternAt(spec, k) == PatternAt(spec, CHUNK + k);
  }

  lemma {:induction false} ShiftByChunks(spec: PatternSpec, size: nat, o: nat)
    requires !spec.Random? && PatternOf(spec) != [] && ShiftInvariant(spec, size) && o < size
    ensures PatternAt(spec, o) == PatternAt(spec, o % CHUNK)
  {
    hide PatternAt, PatternOf;
    if o >= CHUNK {
      ShiftBack(spec, size, o);
      RestShift(o);
      ShiftByChunks(spec, size, o - CHUNK);
    }
  }

  /** A pass leaves a continuous pattern if and only if the pattern equals itself shifted by 65536 bytes, as far as
      the file reaches. */
  lemma ContinuousIff(random: RandomSource, spec: PatternSpec, pass: nat, size: nat)
    requires Sane(random) && !spec.Random? && PatternOf(spec) != []
    ensures Continuous(PassFrom(random, spec, pass, size, 0), spec) <==> ShiftInvariant(spec, size)
  {
    var content := PassFrom(random, spec, pass, size, 0);
    hide PassFrom, PatternAt, PatternOf;
    if Continuous(content, spec) {
      forall k: nat | k < |PatternOf(spec)| && CHUNK + k < size
        ensures PatternAt(spec, k) == PatternAt(spec, CHUNK + k)
      {
        PassBytes(random, spec, pass, size, k);
        PassBytes(random, spec, pass, size, CHUNK + k);
        RestShift(CHUNK + k);
      }
    }
    if ShiftInvariant(spec, size) {
      forall o | 0 <= o < size ensures content[o] == PatternAt(spec, o) {
        PassBytes(random, spec, pass, size, o);
        ShiftByChunks(spec, size, o);
      }
    }
  }

  lemma ByteAt(spec: PatternSpec, k: nat, r: nat)
    requires spec.Block? && |spec.block| == 3 && r < 3 && (k - r) % 3 == 0
    ensures PatternAt(spec, k) == spec.block[r]
  {
    assert k % 3 == r;
  }

  lemma ThreeByteShift(spec: PatternSpec, size: nat)
    requires spec.Block? && |spec.block| == 3
    ensures ShiftInvariant(spec, size) <==>
      (size > CHUNK ==> spec.block[0] == spec.block[1]) && (size > CHUNK + 1 ==> spec.block[1] == spec.block[2])
  {
    ByteAt(spec, 0, 0);
    ByteAt(spec, 1, 1);
    ByteAt(spec, 2, 2);
    ByteAt(spec, CHUNK, 1);
    ByteAt(spec, CHUNK + 1, 2);
    ByteAt(spec, CHUNK + 2, 0);
  }

  /** Three-byte patterns: 65536 is one more than a multiple of 3, so only a file that does not reach behind the
      first chunk, or hardly, keeps a pattern of different bytes continuous. */
  lemma ThreeByteContinuousIff(random: RandomSource, block: Bytes, pass: nat, size: nat)
    requires Sane(random) && |block| == 3
    ensures Continuous(PassFrom(random, Block(block), pass, size, 0), Block(block)) <==>
      (size > CHUNK ==> block[0] == block[1]) && (size > CHUNK + 1 ==> block[1] == block[2])
  {
    ContinuousIff(random, Block(block), pass, size);
    ThreeByteShift(Block(block), size);
  }

  /** So every three-byte pass of the Gutmann sequence breaks off at the first seam, if the file has one. */
  lemma GutmannRestarts(random: RandomSource, i: nat, pass: nat, size: nat)
    requires Sane(random) && i < |Gutmann()| && Gutmann()[i].Block? && |Gutmann()[i].block| == 3
    ensures Continuous(PassFrom(random, Gutmann()[i], pass, size, 0), Gutmann()[i]) <==> size <= CHUNK
  {
    GutmannDiffers(i);
    ThreeByteContinuousIff(random, Gutmann()[i].block, pass, size);
  }

  lemma GutmannDiffers(i: nat)
    requires i < |Gutmann()| && Gutmann()[i].Block? && |Gutmann()[i].block| == 3
    ensures Gutmann()[i].block[0] != Gutmann()[i].block[1]
  {}
}
