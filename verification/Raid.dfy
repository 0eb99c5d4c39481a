/** The RAID-5 ground-truth set of `fixture_generator.py`: three disks, two data chunks and one parity chunk
    per stripe, the parity disk rotating from the last disk to the first. */
module Raid {
  import opened Basics
  import Patterns

  function Xor(a: Bytes, b: Bytes): (r: Bytes)
    requires |a| == |b|
    ensures |r| == |a|
  {
    seq(|a|, i requires 0 <= i < |a| => a[i] ^ b[i])
  }

  function Zeros(n: nat): Bytes { seq(n, _ => 0) }

  function ParityDisk(stripe: nat): nat { 2 - stripe % 3 }

  /** What disk `disk` holds of a stripe with data chunks `c0` and `c1`. */
  function ChunkOf(disk: nat, stripe: nat, c0: Bytes, c1: Bytes): Bytes
    requires disk < 3 && |c0| == |c1|
  {
    if disk == ParityDisk(stripe) then Xor(c0, c1)
    else if disk == 0 || (disk == 1 && ParityDisk(stripe) == 0) then c0
    else c1
  }

  /** The striped part of a disk: the chunks of the stripes of `data`, the first of them numbered `stripe`. */
  function Striped(disk: nat, stripe: nat, data: Bytes, chunk: nat): Bytes
    requires disk < 3 && chunk > 0
    decreases |data|
  {
    if |data| < 2 * chunk then [] else
      ChunkOf(disk, stripe, data[..chunk], data[chunk..2 * chunk]) + Striped(disk, stripe + 1, data[2 * chunk..], chunk)
  }

  /** A whole disk: stripes, then the zeros of the initial buffer. */
  function Disk(disk: nat, data: Bytes, chunk: nat, size: nat): Bytes
    requires disk < 3 && chunk > 0
  {
    var striped := Striped(disk, 0, data, chunk);
    striped + Zeros(if |striped| <= size then size - |striped| else 0)
  }

  /** A disk whose first `base` bytes are written, in front of the stripes of `rest`. */
  ghost predicate WrittenUpTo(content: Bytes, disk: nat, stripe: nat, base: nat, data: Bytes, rest: Bytes, chunk: nat)
    requires disk < 3 && chunk > 0
  {
    && base <= |content| && content[base..] == Zeros(|content| - base)
    && content[..base] + Striped(disk, stripe, rest, chunk) == Striped(disk, 0, data, chunk)
  }

  lemma StoreAdvances(before: Bytes, after: Bytes, disk: nat, stripe: nat, base: nat, data: Bytes, rest: Bytes,
                      chunk: nat)
    requires disk < 3 && chunk > 0 && |rest| >= 2 * chunk && base + chunk <= |before|
    requires WrittenUpTo(before, disk, stripe, base, data, rest, chunk)
    requires var bytes := ChunkOf(disk, stripe, rest[..chunk], rest[chunk..2 * chunk]);
             after == before[..base] + bytes + before[base + chunk..]
    ensures WrittenUpTo(after, disk, stripe + 1, base + chunk, data, rest[2 * chunk..], chunk)
  {
    var bytes := ChunkOf(disk, stripe, rest[..chunk], rest[chunk..2 * chunk]);
    assert after[..base + chunk] == before[..base] + bytes;
    assert after[base + chunk..] == before[base..][chunk..];
    var later := Striped(disk, stripe + 1, rest[2 * chunk..], chunk);
    assert before[..base] + bytes + later == before[..base] + (bytes + later);
  }

  lemma StripesFit(s: nat, n: nat, chunk: nat, size: nat)
    requires chunk > 0 && n == size / chunk && s <= n
    ensures s * chunk <= size
    ensures s < n ==> (s + 1) * chunk == s * chunk + chunk <= size
    ensures s == n ==> size - s * chunk < chunk
  {
    WholeChunks(size, n, chunk);
    Patterns.MulMonotone(s, n, chunk);
    if s < n {
      NextChunk(s, chunk);
      Patterns.MulMonotone(s + 1, n, chunk);
    }
  }

  lemma WholeChunks(size: nat, n: nat, chunk: nat)
    requires chunk > 0 && n == size / chunk
    ensures n * chunk <= size < n * chunk + chunk
  {
    assert size == n * chunk + size % chunk;
  }

  lemma NextChunk(s: nat, chunk: nat)
    ensures (s + 1) * chunk == s * chunk + chunk
  {}

  /** One pass of the loop: the branch on the parity disk decides which disk gets which chunk. */
  method StoreStripe(disk0: array<bv8>, disk1: array<bv8>, disk2: array<bv8>, stripe: nat, base: nat, c0: Bytes,
                     c1: Bytes)
    requires disk0 != disk1 && disk1 != disk2 && disk0 != disk2
    requires disk0.Length == disk1.Length == disk2.Length && |c0| == |c1| && base + |c0| <= disk0.Length
    modifies disk0, disk1, disk2
    ensures disk0[..] == old(disk0[..base]) + ChunkOf(0, stripe, c0, c1) + old(disk0[base + |c0|..])
    ensures disk1[..] == old(disk1[..base]) + ChunkOf(1, stripe, c0, c1) + old(disk1[base + |c0|..])
    ensures disk2[..] == old(disk2[..base]) + ChunkOf(2, stripe, c0, c1) + old(disk2[base + |c0|..])
  {
    var p := Xor(c0, c1);
    var parityDisk := ParityDisk(stripe);
    if parityDisk == 2 {
      WriteAt(disk0, base, c0);
      WriteAt(disk1, base, c1);
      WriteAt(disk2, base, p);
    } else if parityDisk == 1 {
      WriteAt(disk0, base, c0);
      WriteAt(disk1, base, p);
      WriteAt(disk2, base, c1);
    } else {
      WriteAt(disk0, base, p);
      WriteAt(disk1, base, c0);
      WriteAt(disk2, base, c1);
    }
  }

  /** All three disks are written up to `base`, the first `stripe` stripes being done. */
  ghost predicate StripesWritten(d0: Bytes, d1: Bytes, d2: Bytes, stripe: nat, base: nat, data: Bytes, chunk: nat)
    requires chunk > 0
  {
    && 2 * base <= |data|
    && WrittenUpTo(d0, 0, stripe, base, data, data[2 * base..], chunk)
    && WrittenUpTo(d1, 1, stripe, base, data, data[2 * base..], chunk)
    && WrittenUpTo(d2, 2, stripe, base, data, data[2 * base..], chunk)
  }

  lemma StripeAdvances(b0: Bytes, b1: Bytes, b2: Bytes, d0: Bytes, d1: Bytes, d2: Bytes,
                       stripe: nat, base: nat, data: Bytes, chunk: nat)
    requires chunk > 0 && |b0| == |b1| == |b2| && base + chunk <= |b0| && |data| == 2 * |b0|
    requires StripesWritten(b0, b1, b2, stripe, base, data, chunk)
    requires var c0, c1 := data[2 * base..2 * base + chunk], data[2 * base + chunk..2 * base + 2 * chunk];
      && d0 == b0[..base] + ChunkOf(0, stripe, c0, c1) + b0[base + chunk..]
      && d1 == b1[..base] + ChunkOf(1, stripe, c0, c1) + b1[base + chunk..]
      && d2 == b2[..base] + ChunkOf(2, stripe, c0, c1) + b2[base + chunk..]
    ensures StripesWritten(d0, d1, d2, stripe + 1, base + chunk, data, chunk)
  {
    hide ChunkOf;
    var rest := data[2 * base..];
    assert data[2 * base..2 * base + chunk] == rest[..chunk];
    assert data[2 * base + chunk..2 * base + 2 * chunk] == rest[chunk..2 * chunk];
    assert rest[2 * chunk..] == data[2 * (base + chunk)..];
    StoreAdvances(b0, d0, 0, stripe, base, data, rest, chunk);
    StoreAdvances(b1, d1, 1, stripe, base, data, rest, chunk);
    StoreAdvances(b2, d2, 2, stripe, base, data, rest, chunk);
  }

  lemma NothingWritten(size: nat, data: Bytes, chunk: nat)
    requires chunk > 0
    ensures StripesWritten(Zeros(size), Zeros(size), Zeros(size), 0, 0, data, chunk)
  {
    assert data[0..] == data;
    assert Zeros(size)[..0] == [] && Zeros(size)[0..] == Zeros(size);
    forall disk: nat | disk < 3 ensures [] + Striped(disk, 0, data, chunk) == Striped(disk, 0, data, chunk) {}
  }

  method GenerateRaid5(data: Bytes, chunk: nat, size: nat)
    returns (disk0: array<bv8>, disk1: array<bv8>, disk2: array<bv8>)
    requires chunk > 0 && |data| == 2 * size
    ensures disk0[..] == Disk(0, data, chunk, size)
    ensures disk1[..] == Disk(1, data, chunk, size)
    ensures disk2[..] == Disk(2, data, chunk, size)
  {
    disk0, disk1, disk2 := new bv8[size](_ => 0), new bv8[size](_ => 0), new bv8[size](_ => 0);
    assert disk0[..] == Zeros(size) && disk1[..] == Zeros(size) && disk2[..] == Zeros(size);
    WriteStripes(disk0, disk1, disk2, data, chunk, size, size / chunk);
  }

  ghost predicate StripesOn(disk0: array<bv8>, disk1: array<bv8>, disk2: array<bv8>, s: nat, base: nat, data: Bytes,
                            chunk: nat)
    requires chunk > 0
    reads disk0, disk1, disk2
  {
    && disk0.Length == disk1.Length == disk2.Length && |data| == 2 * disk0.Length
    && StripesWritten(disk0[..], disk1[..], disk2[..], s, base, data, chunk)
  }

  /** One round of the loop: the next two chunks and their parity. */
  method WriteStripe(disk0: array<bv8>, disk1: array<bv8>, disk2: array<bv8>, s: nat, base: nat, data: Bytes,
                     chunk: nat)
    requires chunk > 0 && disk0 != disk1 && disk1 != disk2 && disk0 != disk2
    requires StripesOn(disk0, disk1, disk2, s, base, data, chunk) && base + chunk <= disk0.Length
    modifies disk0, disk1, disk2
    ensures StripesOn(disk0, disk1, disk2, s + 1, base + chunk, data, chunk)
  {
    hide StripesWritten, ChunkOf;
    var c0, c1 := data[2 * base..2 * base + chunk], data[2 * base + chunk..2 * base + 2 * chunk];
    ghost var b0, b1, b2 := disk0[..], disk1[..], disk2[..];
    StoreStripe(disk0, disk1, disk2, s, base, c0, c1);
    StripeAdvances(b0, b1, b2, disk0[..], disk1[..], disk2[..], s, base, data, chunk);
  }

  predicate CountsStripes(stripes: nat, chunk: nat, size: nat)
    requires chunk > 0
  {
    stripes == size / chunk
  }

  method WriteStripes(disk0: array<bv8>, disk1: array<bv8>, disk2: array<bv8>, data: Bytes, chunk: nat, size: nat,
                      stripes: nat)
    requires chunk > 0 && |data| == 2 * size && CountsStripes(stripes, chunk, size)
    requires disk0 != disk1 && disk1 != disk2 && disk0 != disk2
    requires disk0[..] == Zeros(size) && disk1[..] == Zeros(size) && disk2[..] == Zeros(size)
    modifies disk0, disk1, disk2
    ensures disk0[..] == Disk(0, data, chunk, size)
    ensures disk1[..] == Disk(1, data, chunk, size)
    ensures disk2[..] == Disk(2, data, chunk, size)
  {
    hide StripesWritten, BaseOf, CountsStripes, Striped;
    assert disk0.Length == |disk0[..]| && disk1.Length == |disk1[..]| && disk2.Length == |disk2[..]|;
    NothingWritten(size, data, chunk);
    FirstBase(chunk, size);
    var base := 0;
    assert StripesOn(disk0, disk1, disk2, 0, base, data, chunk);
    hide Zeros, Disk, StripesOn;
    for s := 0 to stripes
      invariant base <= size && BaseOf(s, chunk, base) && StripesOn(disk0, disk1, disk2, s, base, data, chunk)
    {
      NextBase(s, stripes, chunk, size, base);
      WriteStripe(disk0, disk1, disk2, s, base, data, chunk);
      base := base + chunk;
    }
    LastBase(stripes, chunk, size, base);
    WholeDisks(disk0, disk1, disk2, stripes, base, data, chunk, size);
  }

  /** Where a stripe starts on each disk. */
  predicate BaseOf(stripe: nat, chunk: nat, base: nat) { base == stripe * chunk }

  lemma FirstBase(chunk: nat, size: nat)
    ensures BaseOf(0, chunk, 0)
  {}

  lemma NextBase(s: nat, stripes: nat, chunk: nat, size: nat, base: nat)
    requires chunk > 0 && CountsStripes(stripes, chunk, size) && s < stripes && BaseOf(s, chunk, base)
    ensures base + chunk <= size && BaseOf(s + 1, chunk, base + chunk)
  {
    StripesFit(s, stripes, chunk, size);
  }

  lemma LastBase(stripes: nat, chunk: nat, size: nat, base: nat)
    requires chunk > 0 && CountsStripes(stripes, chunk, size) && BaseOf(stripes, chunk, base)
    ensures base <= size && size - base < chunk
  {
    StripesFit(stripes, stripes, chunk, size);
  }

  lemma WholeDisks(disk0: array<bv8>, disk1: array<bv8>, disk2: array<bv8>, stripe: nat, base: nat, data: Bytes,
                   chunk: nat, size: nat)
    requires chunk > 0 && |data| == 2 * size && base <= size && size - base < chunk
    requires StripesOn(disk0, disk1, disk2, stripe, base, data, chunk)
    ensures disk0[..] == Disk(0, data, chunk, size)
    ensures disk1[..] == Disk(1, data, chunk, size)
    ensures disk2[..] == Disk(2, data, chunk, size)
  {
    hide WrittenUpTo, Disk;
    WholeDisk(disk0[..], 0, stripe, base, data, chunk, size);
    WholeDisk(disk1[..], 1, stripe, base, data, chunk, size);
    WholeDisk(disk2[..], 2, stripe, base, data, chunk, size);
  }

  lemma WholeDisk(content: Bytes, disk: nat, stripe: nat, base: nat, data: Bytes, chunk: nat, size: nat)
    requires disk < 3 && chunk > 0 && |content| == size && |data| == 2 * size && base <= size && size - base < chunk
    requires WrittenUpTo(content, disk, stripe, base, data, data[2 * base..], chunk)
    ensures content == Disk(disk, data, chunk, size)
  {
    assert content[..base] + [] == content[..base];
    assert content == content[..base] + content[base..];
  }

  // ---------- What the layout is for ----------

  /** Each of three bytes is the XOR of the other two, and all three cancel. */
  predicate BalancedBytes(a: bv8, b: bv8, c: bv8) {
    a == b ^ c && b == a ^ c && c == a ^ b && a ^ b ^ c == 0
  }

  ghost predicate Balanced(a: Bytes, b: Bytes, c: Bytes) {
    |a| == |b| == |c| && forall i :: 0 <= i < |a| ==> BalancedBytes(a[i], b[i], c[i])
  }

  lemma XorBalances(x: bv8, y: bv8)
    ensures BalancedBytes(x, y, x ^ y) && BalancedBytes(x, x ^ y, y) && BalancedBytes(x ^ y, x, y)
  {}

  lemma StripeIsBalanced(stripe: nat, c0: Bytes, c1: Bytes)
    requires |c0| == |c1|
    ensures Balanced(ChunkOf(0, stripe, c0, c1), ChunkOf(1, stripe, c0, c1), ChunkOf(2, stripe, c0, c1))
  {
    var p := Xor(c0, c1);
    forall i | 0 <= i < |c0|
      ensures BalancedBytes(c0[i], c1[i], p[i]) && BalancedBytes(c0[i], p[i], c1[i])
        && BalancedBytes(p[i], c0[i], c1[i])
    {
      XorBalances(c0[i], c1[i]);
    }
    assert Balanced(c0, c1, p) && Balanced(c0, p, c1) && Balanced(p, c0, c1);
  }

  lemma BalancedConcat(a: Bytes, b: Bytes, c: Bytes, x: Bytes, y: Bytes, z: Bytes)
    requires Balanced(a, b, c) && Balanced(x, y, z)
    ensures Balanced(a + x, b + y, c + z)
  {
    forall i | 0 <= i < |a + x| ensures BalancedBytes((a + x)[i], (b + y)[i], (c + z)[i]) {
      if i < |a| {
        assert BalancedBytes(a[i], b[i], c[i]);
      } else {
        assert BalancedBytes(x[i - |a|], y[i - |a|], z[i - |a|]);
      }
    }
  }

  lemma {:induction false} StripedIsBalanced(stripe: nat, data: Bytes, chunk: nat)
    requires chunk > 0
    ensures Balanced(Striped(0, stripe, data, chunk), Striped(1, stripe, data, chunk), Striped(2, stripe, data, chunk))
    ensures 2 * |Striped(0, stripe, data, chunk)| <= |data| < 2 * |Striped(0, stripe, data, chunk)| + 2 * chunk
    decreases |data|
  {
    if |data| >= 2 * chunk {
      var c0, c1, rest := data[..chunk], data[chunk..2 * chunk], data[2 * chunk..];
      StripedIsBalanced(stripe + 1, rest, chunk);
      StripeIsBalanced(stripe, c0, c1);
      BalancedConcat(ChunkOf(0, stripe, c0, c1), ChunkOf(1, stripe, c0, c1), ChunkOf(2, stripe, c0, c1),
        Striped(0, stripe + 1, rest, chunk), Striped(1, stripe + 1, rest, chunk), Striped(2, stripe + 1, rest, chunk));
    }
  }

  lemma ZerosAreBalanced(n: nat)
    ensures Balanced(Zeros(n), Zeros(n), Zeros(n))
  {
    XorBalances(0, 0);
  }

  /** At every offset the disks XOR to zero, so any lost disk is the XOR of the other two; this holds for every
      chunk size, whether or not it divides the disk. */
  lemma AnyDiskIsRecoverable(data: Bytes, chunk: nat, size: nat)
    requires chunk > 0 && |data| == 2 * size
    ensures var d0, d1, d2 := Disk(0, data, chunk, size), Disk(1, data, chunk, size), Disk(2, data, chunk, size);
      && |d0| == |d1| == |d2| == size
      && (forall o :: 0 <= o < size ==> d0[o] ^ d1[o] ^ d2[o] == 0)
      && d0 == Xor(d1, d2) && d1 == Xor(d0, d2) && d2 == Xor(d0, d1)
  {
    StripedIsBalanced(0, data, chunk);
    var s0, s1, s2 := Striped(0, 0, data, chunk), Striped(1, 0, data, chunk), Striped(2, 0, data, chunk);
    var pad := Zeros(size - |s0|);
    ZerosAreBalanced(size - |s0|);
    BalancedConcat(s0, s1, s2, pad, pad, pad);
    BalancedIsXor(Disk(0, data, chunk, size), Disk(1, data, chunk, size), Disk(2, data, chunk, size));
  }

  lemma BalancedIsXor(a: Bytes, b: Bytes, c: Bytes)
    requires Balanced(a, b, c)
    ensures a == Xor(b, c) && b == Xor(a, c) && c == Xor(a, b)
    ensures forall o :: 0 <= o < |a| ==> a[o] ^ b[o] ^ c[o] == 0
  {
    forall o | 0 <= o < |a| ensures BalancedBytes(a[o], b[o], c[o]) {}
  }

  /** The two disks holding a stripe's data, in order. */
  function FirstData(stripe: nat): nat { if ParityDisk(stripe) == 0 then 1 else 0 }
  function SecondData(stripe: nat): nat { if ParityDisk(stripe) == 2 then 1 else 2 }

  function Pick(disk: nat, d0: Bytes, d1: Bytes, d2: Bytes): Bytes {
    if disk == 0 then d0 else if disk == 1 then d1 else d2
  }

  /** Reading the array around the rotating parity disk, chunk by chunk, while whole chunks are left. */
  function ReadAround(d0: Bytes, d1: Bytes, d2: Bytes, stripe: nat, chunk: nat): Bytes
    requires chunk > 0 && |d0| == |d1| == |d2|
  {
    if |d0| < chunk then [] else
      Pick(FirstData(stripe), d0, d1, d2)[..chunk] + Pick(SecondData(stripe), d0, d1, d2)[..chunk]
      + ReadAround(d0[chunk..], d1[chunk..], d2[chunk..], stripe + 1, chunk)
  }

  lemma StripeReadsBack(stripe: nat, c0: Bytes, c1: Bytes)
    requires |c0| == |c1|
    ensures var h0, h1, h2 := ChunkOf(0, stripe, c0, c1), ChunkOf(1, stripe, c0, c1), ChunkOf(2, stripe, c0, c1);
            Pick(FirstData(stripe), h0, h1, h2) == c0 && Pick(SecondData(stripe), h0, h1, h2) == c1
  {}

  lemma PickPrefix(disk: nat, h0: Bytes, h1: Bytes, h2: Bytes, t0: Bytes, t1: Bytes, t2: Bytes, chunk: nat)
    requires |h0| == |h1| == |h2| == chunk
    ensures Pick(disk, h0 + t0, h1 + t1, h2 + t2)[..chunk] == Pick(disk, h0, h1, h2)
  {
    assert (h0 + t0)[..chunk] == h0 && (h1 + t1)[..chunk] == h1 && (h2 + t2)[..chunk] == h2;
  }

  /** One stripe of `ReadAround`, whatever follows it on the disks. */
  lemma ReadAroundStep(c0: Bytes, c1: Bytes, t0: Bytes, t1: Bytes, t2: Bytes, stripe: nat, chunk: nat)
    requires chunk > 0 && |c0| == |c1| == chunk && |t0| == |t1| == |t2|
    ensures ReadAround(ChunkOf(0, stripe, c0, c1) + t0, ChunkOf(1, stripe, c0, c1) + t1,
                       ChunkOf(2, stripe, c0, c1) + t2, stripe, chunk)
         == c0 + c1 + ReadAround(t0, t1, t2, stripe + 1, chunk)
  {
    var h0, h1, h2 := ChunkOf(0, stripe, c0, c1), ChunkOf(1, stripe, c0, c1), ChunkOf(2, stripe, c0, c1);
    StripeReadsBack(stripe, c0, c1);
    PickPrefix(FirstData(stripe), h0, h1, h2, t0, t1, t2, chunk);
    PickPrefix(SecondData(stripe), h0, h1, h2, t0, t1, t2, chunk);
    assert (h0 + t0)[chunk..] == t0 && (h1 + t1)[chunk..] == t1 && (h2 + t2)[chunk..] == t2;
  }

  lemma ReadAroundPadded(c0: Bytes, c1: Bytes, t0: Bytes, t1: Bytes, t2: Bytes, pad: Bytes, stripe: nat, chunk: nat)
    requires chunk > 0 && |c0| == |c1| == chunk && |t0| == |t1| == |t2|
    ensures ReadAround(ChunkOf(0, stripe, c0, c1) + t0 + pad, ChunkOf(1, stripe, c0, c1) + t1 + pad,
                       ChunkOf(2, stripe, c0, c1) + t2 + pad, stripe, chunk)
         == c0 + c1 + ReadAround(t0 + pad, t1 + pad, t2 + pad, stripe + 1, chunk)
  {
    ReadAroundStep(c0, c1, t0 + pad, t1 + pad, t2 + pad, stripe, chunk);
    assert ChunkOf(0, stripe, c0, c1) + t0 + pad == ChunkOf(0, stripe, c0, c1) + (t0 + pad);
    assert ChunkOf(1, stripe, c0, c1) + t1 + pad == ChunkOf(1, stripe, c0, c1) + (t1 + pad);
    assert ChunkOf(2, stripe, c0, c1) + t2 + pad == ChunkOf(2, stripe, c0, c1) + (t2 + pad);
  }

  lemma StripePrefix(data: Bytes, chunk: nat, m: nat)
    requires 2 * (chunk + m) <= |data|
    ensures data[..2 * (chunk + m)] == data[..chunk] + data[chunk..2 * chunk] + data[2 * chunk..][..2 * m]
  {}

  lemma {:induction false} ReadAroundReturnsData(stripe: nat, data: Bytes, chunk: nat, pad: Bytes)
    requires chunk > 0 && |pad| < chunk
    ensures var s0, s1 := Striped(0, stripe, data, chunk), Striped(1, stripe, data, chunk);
      var s2 := Striped(2, stripe, data, chunk);
      && |s0| == |s1| == |s2| && 2 * |s0| <= |data|
      && ReadAround(s0 + pad, s1 + pad, s2 + pad, stripe, chunk) == data[..2 * |s0|]
    decreases |data|
  {
    StripedIsBalanced(stripe, data, chunk);
    var s0, s1, s2 := Striped(0, stripe, data, chunk), Striped(1, stripe, data, chunk), Striped(2, stripe, data, chunk);
    if |data| >= 2 * chunk {
      var c0, c1, rest := data[..chunk], data[chunk..2 * chunk], data[2 * chunk..];
      ReadAroundReturnsData(stripe + 1, rest, chunk, pad);
      var t0, t1 := Striped(0, stripe + 1, rest, chunk), Striped(1, stripe + 1, rest, chunk);
      var t2 := Striped(2, stripe + 1, rest, chunk);
      ReadAroundPadded(c0, c1, t0, t1, t2, pad, stripe, chunk);
      StripePrefix(data, chunk, |t0|);
    } else {
      assert s0 + pad == pad && s1 + pad == pad && s2 + pad == pad;
    }
  }

  /** Reading around the parity returns the dataset exactly when the chunk size divides the disk; otherwise it
      returns the prefix that was striped. */
  lemma ReadAroundIffDivides(data: Bytes, chunk: nat, size: nat)
    requires chunk > 0 && |data| == 2 * size
    ensures var d0, d1, d2 := Disk(0, data, chunk, size), Disk(1, data, chunk, size), Disk(2, data, chunk, size);
      && |d0| == |d1| == |d2|
      && ReadAround(d0, d1, d2, 0, chunk) <= data
      && (ReadAround(d0, d1, d2, 0, chunk) == data <==> size % chunk == 0)
  {
    StripedIsBalanced(0, data, chunk);
    var n := |Striped(0, 0, data, chunk)|;
    ReadAroundReturnsData(0, data, chunk, Zeros(size - n));
    StripedLength(0, data, chunk, size);
  }

  lemma {:induction false} StripedLength(stripe: nat, data: Bytes, chunk: nat, size: nat)
    requires chunk > 0 && |data| == 2 * size
    ensures |Striped(0, stripe, data, chunk)| == size - size % chunk
    decreases size
  {
    if size >= chunk {
      StripedLength(stripe + 1, data[2 * chunk..], chunk, size - chunk);
      Patterns.ShiftMod(size, chunk);
    } else {
      Patterns.SmallMod(size, chunk);
    }
  }

  // ---------- Where every byte goes ----------

  /** What the three disks hold of the bytes `a` and `b` that stand at one place in the two chunks of a stripe: the
      parity moves from the last disk to the first, and the data keeps its order on the other two. */
  predicate Placed(stripe: nat, a: bv8, b: bv8, d0: bv8, d1: bv8, d2: bv8) {
    && (stripe % 3 == 0 ==> d0 == a && d1 == b && d2 == a ^ b)
    && (stripe % 3 == 1 ==> d0 == a && d1 == a ^ b && d2 == b)
    && (stripe % 3 == 2 ==> d0 == a ^ b && d1 == a && d2 == b)
  }

  lemma FirstPlaces(stripe: nat, c0: Bytes, c1: Bytes, k: nat)
    requires |c0| == |c1| && k < |c0|
    ensures |ChunkOf(0, stripe, c0, c1)| == |ChunkOf(1, stripe, c0, c1)| == |ChunkOf(2, stripe, c0, c1)| == |c0|
    ensures Placed(stripe, c0[k], c1[k], ChunkOf(0, stripe, c0, c1)[k], ChunkOf(1, stripe, c0, c1)[k],
                   ChunkOf(2, stripe, c0, c1)[k])
  {}

  lemma StripedStep(disk: nat, stripe: nat, data: Bytes, chunk: nat)
    requires disk < 3 && chunk > 0 && |data| >= 2 * chunk
    ensures |ChunkOf(disk, stripe, data[..chunk], data[chunk..2 * chunk])| == chunk
    ensures Striped(disk, stripe, data, chunk)
         == ChunkOf(disk, stripe, data[..chunk], data[chunk..2 * chunk])
            + Striped(disk, stripe + 1, data[2 * chunk..], chunk)
  {}

  /** The three disks hold, at `at`, what belongs to the two bytes of stripe `stripe`. */
  ghost predicate HoldAt(stripe: nat, a: bv8, b: bv8, d0: Bytes, d1: Bytes, d2: Bytes, at: nat) {
    at < |d0| && |d0| == |d1| == |d2| && Placed(stripe, a, b, d0[at], d1[at], d2[at])
  }

  lemma HoldInFirst(stripe: nat, data: Bytes, chunk: nat, k: nat)
    requires k < chunk && 2 * chunk <= |data|
    ensures HoldAt(stripe, data[k], data[chunk + k], Striped(0, stripe, data, chunk), Striped(1, stripe, data, chunk),
                   Striped(2, stripe, data, chunk), k)
  {
    StripedIsBalanced(stripe, data, chunk);
    StripedStep(0, stripe, data, chunk);
    StripedStep(1, stripe, data, chunk);
    StripedStep(2, stripe, data, chunk);
    var c0, c1 := data[..chunk], data[chunk..2 * chunk];
    FirstPlaces(stripe, c0, c1, k);
    assert c0[k] == data[k] && c1[k] == data[chunk + k];
    hide Striped, ChunkOf, Placed;
  }

  lemma HoldBehind(stripe: nat, a: bv8, b: bv8, h0: Bytes, h1: Bytes, h2: Bytes, d0: Bytes, d1: Bytes, d2: Bytes,
                   at: nat)
    requires |h0| == |h1| == |h2| && HoldAt(stripe, a, b, d0, d1, d2, at)
    ensures HoldAt(stripe, a, b, h0 + d0, h1 + d1, h2 + d2, |h0| + at)
  {
    hide Placed;
  }

  lemma HoldInNext(stripe: nat, n: nat, a: bv8, b: bv8, data: Bytes, chunk: nat, at: nat)
    requires 0 < chunk && 2 * chunk <= |data|
    requires var rest := data[2 * chunk..];
      HoldAt(n, a, b, Striped(0, stripe + 1, rest, chunk), Striped(1, stripe + 1, rest, chunk),
             Striped(2, stripe + 1, rest, chunk), at)
    ensures HoldAt(n, a, b, Striped(0, stripe, data, chunk), Striped(1, stripe, data, chunk),
                   Striped(2, stripe, data, chunk), chunk + at)
  {
    StripedStep(0, stripe, data, chunk);
    StripedStep(1, stripe, data, chunk);
    StripedStep(2, stripe, data, chunk);
    hide Striped, ChunkOf, HoldAt;
    var c0, c1, rest := data[..chunk], data[chunk..2 * chunk], data[2 * chunk..];
    HoldBehind(n, a, b, ChunkOf(0, stripe, c0, c1), ChunkOf(1, stripe, c0, c1), ChunkOf(2, stripe, c0, c1),
               Striped(0, stripe + 1, rest, chunk), Striped(1, stripe + 1, rest, chunk),
               Striped(2, stripe + 1, rest, chunk), at);
  }

  lemma {:induction false} StripedPlaces(stripe: nat, data: Bytes, chunk: nat, s: nat, base: nat, k: nat, a: bv8,
                                         b: bv8)
    requires k < chunk && BaseOf(s, chunk, base) && 2 * base + 2 * chunk <= |data|
    requires data[2 * base + k] == a && data[2 * base + chunk + k] == b
    ensures HoldAt(stripe + s, a, b, Striped(0, stripe, data, chunk), Striped(1, stripe, data, chunk),
                   Striped(2, stripe, data, chunk), base + k)
    decreases s
  {
    hide Striped, HoldAt, BaseOf;
    if s == 0 {
      BaseOfFirst(chunk, base);
      HoldInFirst(stripe, data, chunk, k);
    } else {
      BaseBefore(s, chunk, base);
      DataBehind(data, chunk, base, k);
      StripedPlaces(stripe + 1, data[2 * chunk..], chunk, s - 1, base - chunk, k, a, b);
      HoldInNext(stripe, stripe + s, a, b, data, chunk, base - chunk + k);
    }
  }

  lemma BaseOfFirst(chunk: nat, base: nat)
    requires BaseOf(0, chunk, base)
    ensures base == 0
  {}

  lemma DataBehind(data: Bytes, chunk: nat, base: nat, k: nat)
    requires k < chunk <= base && 2 * base + 2 * chunk <= |data|
    ensures var rest, before := data[2 * chunk..], base - chunk;
      && |rest| == |data| - 2 * chunk
      && rest[2 * before + k] == data[2 * base + k] && rest[2 * before + chunk + k] == data[2 * base + chunk + k]
  {}

  lemma BaseBefore(s: nat, chunk: nat, base: nat)
    requires s > 0 && BaseOf(s, chunk, base)
    ensures chunk <= base && BaseOf(s - 1, chunk, base - chunk)
  {
    assert s * chunk == (s - 1) * chunk + chunk;
  }

  lemma SameLengths(data: Bytes, chunk: nat, size: nat)
    requires chunk > 0 && |data| == 2 * size
    ensures |Striped(0, 0, data, chunk)| == |Striped(1, 0, data, chunk)| == |Striped(2, 0, data, chunk)|
         == size - size % chunk
  {
    StripedLength(0, data, chunk, size);
    StripedIsBalanced(0, data, chunk);
    hide Striped;
  }

  lemma StripeStands(data: Bytes, chunk: nat, size: nat, s: nat, base: nat, k: nat)
    requires chunk > 0 && |data| == 2 * size && k < chunk && BaseOf(s, chunk, base) && base + chunk <= size
    ensures HoldAt(s, data[2 * base + k], data[2 * base + chunk + k], Disk(0, data, chunk, size),
                   Disk(1, data, chunk, size), Disk(2, data, chunk, size), base + k)
  {
    hide Striped, Placed, Disk, BaseOf;
    StripedPlaces(0, data, chunk, s, base, k, data[2 * base + k], data[2 * base + chunk + k]);
    ShortStripes(data, chunk, size);
    DiskStarts(0, data, chunk, size);
    DiskStarts(1, data, chunk, size);
    DiskStarts(2, data, chunk, size);
  }

  lemma ShortStripes(data: Bytes, chunk: nat, size: nat)
    requires chunk > 0 && |data| == 2 * size
    ensures |Striped(0, 0, data, chunk)| == |Striped(1, 0, data, chunk)| == |Striped(2, 0, data, chunk)| <= size
  {
    SameLengths(data, chunk, size);
  }

  /** Every byte of every whole stripe: stripe `s` starts at `s * chunk` on each disk. */
  lemma DisksMean(data: Bytes, chunk: nat, size: nat, s: nat, base: nat, k: nat)
    requires chunk > 0 && |data| == 2 * size && k < chunk && base == s * chunk && base + chunk <= size
    ensures var d0, d1, d2 := Disk(0, data, chunk, size), Disk(1, data, chunk, size), Disk(2, data, chunk, size);
      && base + k < |d0| && |d0| == |d1| == |d2|
      && Placed(s, data[2 * base + k], data[2 * base + chunk + k], d0[base + k], d1[base + k], d2[base + k])
  {
    assert BaseOf(s, chunk, base);
    hide Striped, Placed, Disk, BaseOf;
    StripeStands(data, chunk, size, s, base, k);
  }

  lemma DiskStarts(disk: nat, data: Bytes, chunk: nat, size: nat)
    requires disk < 3 && chunk > 0 && |Striped(disk, 0, data, chunk)| <= size
    ensures |Disk(disk, data, chunk, size)| == size
    ensures forall o :: 0 <= o < |Striped(disk, 0, data, chunk)| ==>
      Disk(disk, data, chunk, size)[o] == Striped(disk, 0, data, chunk)[o]
  {
    hide Striped;
  }

  /** Behind the last whole stripe the disks hold zeros. */
  lemma PaddingMeans(disk: nat, data: Bytes, chunk: nat, size: nat, o: nat)
    requires disk < 3 && chunk > 0 && |data| == 2 * size && size - size % chunk <= o < size
    ensures |Disk(disk, data, chunk, size)| == size && Disk(disk, data, chunk, size)[o] == 0
  {
    SameLengths(data, chunk, size);
    hide Striped;
  }
}
