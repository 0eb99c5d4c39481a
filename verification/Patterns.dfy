/** Overwrite patterns: `(block * k)[:n]`. */
module Patterns {
  import opened Basics

  function Repeat(block: Bytes, times: nat): Bytes {
    if times == 0 then [] else block + Repeat(block, times - 1)
  }

  lemma {:induction false} RepeatAt(block: Bytes, times: nat, k: nat)
    requires |block| > 0
    ensures |Repeat(block, times)| == times * |block|
    ensures k < times * |block| ==> Repeat(block, times)[k] == block[k % |block|]
  {
    if times > 0 {
      assert times * |block| == (times - 1) * |block| + |block|;
      if k < |block| {
        RepeatAt(block, times - 1, k);
        SmallMod(k, |block|);
      } else {
        RepeatAt(block, times - 1, k - |block|);
        ShiftMod(k, |block|);
      }
    }
  }

  lemma SmallMod(k: nat, n: nat)
    requires k < n
    ensures k % n == k
  {}

  lemma ShiftMod(k: nat, n: nat)
    requires n <= k && n > 0
    ensures (k - n) % n == k % n
  {
    var q, r := (k - n) / n, (k - n) % n;
    assert k == (q + 1) * n + r;
    UniqueMod(k, n, q + 1, r);
  }

  lemma MulMonotone(a: int, b: int, n: nat)
    requires a <= b
    ensures a * n <= b * n
  {
    assert (b - a) * n >= 0;
  }

  lemma NotSmaller(n: nat, p: int, s: nat, q: int, r: nat)
    requires p * n + s == q * n + r && s < n
    ensures p >= q
  {
    assert (p + 1) * n == p * n + n;
    if p < q {
      MulMonotone(p + 1, q, n);
    }
  }

  lemma UniqueMod(k: nat, n: nat, q: nat, r: nat)
    requires k == q * n + r && r < n
    ensures k % n == r && k / n == q
  {
    NotSmaller(n, k / n, k % n, q, r);
    NotSmaller(n, q, r, k / n, k % n);
  }

  /** The first `n` bytes of the endlessly repeated block. */
  function Cycle(block: Bytes, n: nat): (r: Bytes)
    requires |block| > 0
    ensures |r| == n
  {
    if n == 0 then [] else Cycle(block, n - 1) + [block[(n - 1) % |block|]]
  }

  lemma {:induction false} CycleAt(block: Bytes, n: nat, k: nat)
    requires |block| > 0 && k < n
    ensures Cycle(block, n)[k] == block[k % |block|]
  {
    if k < n - 1 { CycleAt(block, n - 1, k); }
  }

  lemma {:induction false} CyclePrefix(block: Bytes, n: nat, k: nat)
    requires |block| > 0 && k <= n
    ensures Cycle(block, n)[..k] == Cycle(block, k)
  {
    if k < n {
      CyclePrefix(block, n - 1, k);
      assert Cycle(block, n)[..k] == Cycle(block, n - 1)[..k];
    }
  }

  /** Slicing enough repetitions gives the cycle, however many there are. */
  lemma RepeatIsCycle(block: Bytes, times: nat, n: nat)
    requires |block| > 0 && n <= times * |block|
    ensures |Repeat(block, times)| == times * |block|
    ensures Repeat(block, times)[..n] == Cycle(block, n)
  {
    RepeatAt(block, times, 0);
    forall k | 0 <= k < n ensures Repeat(block, times)[k] == Cycle(block, n)[k] {
      RepeatAt(block, times, k);
      CycleAt(block, n, k);
    }
  }

  /** `(length + |block| - 1) / |block|` repetitions cover `length` bytes. */
  lemma CeilingCovers(n: nat, size: nat)
    requires size > 0
    ensures n <= ((n + size - 1) / size) * size
  {
    var q, r := (n + size - 1) / size, (n + size - 1) % size;
    assert n + size - 1 == q * size + r;
  }

  /** So do `length / |block| + 1`. */
  lemma OneMoreCovers(n: nat, size: nat)
    requires size > 0
    ensures n <= (n / size + 1) * size
  {
    var q, r := n / size, n % size;
    assert n == q * size + r && (q + 1) * size == q * size + size;
  }

  // ---------- Remainders without division ----------

  /** `g % n`, as what is left when `n` is taken away as often as it can be. */
  function Rest(g: nat, n: nat): (r: nat)
    requires n > 0
    ensures r < n
  {
    if g < n then g else Rest(g - n, n)
  }

  lemma {:induction false} RestIsMod(g: nat, n: nat)
    requires n > 0
    ensures Rest(g, n) == g % n
  {
    if g < n {
      SmallMod(g, n);
    } else {
      RestIsMod(g - n, n);
      ShiftMod(g, n);
    }
  }
}
