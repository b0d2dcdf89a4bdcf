/** Shard selection: masking with `count - 1` instead of dividing by `count`. */
module Sharding {
  import opened Bits

  /** The smallest power of two that is at least `n`, searched upwards from `p`. */
  function NextPowerOfTwo(n: nat, p: nat := 1): (r: nat)
    requires p > 0
    ensures p <= r && n <= r
    ensures r == p || r < 2 * n
    decreases if p < n then n - p else 0
  {
    if n <= p then p else NextPowerOfTwo(n, 2 * p)
  }

  lemma {:induction false} RoundingGivesPowerOfTwo(n: nat, k: nat)
    ensures IsPowerOfTwo(NextPowerOfTwo(n, Pow2(k)))
    decreases if Pow2(k) < n then n - Pow2(k) else 0
  {
    if Pow2(k) < n {
      assert Pow2(k + 1) == 2 * Pow2(k);
      RoundingGivesPowerOfTwo(n, k + 1);
    }
  }

  /** Rounding up never skips a power of two: every power of two that holds `n` is at least as big. */
  lemma {:induction false} RoundingIsLeast(n: nat, k: nat, j: nat)
    requires n <= Pow2(j) && k <= j
    ensures NextPowerOfTwo(n, Pow2(k)) <= Pow2(j)
    decreases j - k
  {
    if k == j {
      assert NextPowerOfTwo(n, Pow2(k)) == Pow2(k);
    } else if Pow2(k) < n {
      assert Pow2(k + 1) == 2 * Pow2(k);
      RoundingIsLeast(n, k + 1, j);
    } else {
      Pow2Monotone(k, j);
    }
  }

  /** For every power-of-two shard count the mask selects the same shard as the remainder would,
      and always one that exists. */
  lemma ShardIndexIsRemainder(hash: nat, count: nat)
    requires IsPowerOfTwo(count)
    ensures count > 0 && BitAnd(hash, count - 1) == hash % count < count
  {
    var k: nat :| Pow2(k) == count;
    MaskIsRemainder(hash, k);
  }
}
