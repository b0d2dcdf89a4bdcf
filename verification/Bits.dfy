/** Powers of two and bitwise AND over machine words written as natural numbers. */
module Bits {

  function Pow2(k: nat): (p: nat)
    ensures p > 0
  {
    if k == 0 then 1 else 2 * Pow2(k - 1)
  }

  ghost predicate IsPowerOfTwo(n: nat) {
    exists k: nat :: Pow2(k) == n
  }

  /** Bitwise AND of two machine words. */
  function BitAnd(a: nat, b: nat): (r: nat)
    ensures r <= b
  {
    if a == 0 || b == 0 then 0
    else (a % 2) * (b % 2) + 2 * BitAnd(a / 2, b / 2)
  }

  lemma {:induction false} Pow2Monotone(k: nat, j: nat)
    requires k <= j
    ensures Pow2(k) <= Pow2(j)
    decreases j
  {
    if k < j { Pow2Monotone(k, j - 1); }
  }

  lemma BitAndByHalves(a: nat, p: nat)
    requires p > 0
    ensures BitAnd(a, 2 * p - 1) == a % 2 + 2 * BitAnd(a / 2, p - 1)
  {
    var mask := 2 * p - 1;
    assert mask == 2 * (p - 1) + 1;
    assert mask % 2 == 1 && mask / 2 == p - 1;
  }

  lemma {:induction false} MaskIsRemainder(a: nat, k: nat)
    ensures BitAnd(a, Pow2(k) - 1) == a % Pow2(k)
    decreases k
  {
    if k == 0 {
      assert Pow2(k) == 1 && a % 1 == 0;
    } else {
      var p := Pow2(k - 1);
      calc {
        BitAnd(a, Pow2(k) - 1);
        { BitAndByHalves(a, p); }
        a % 2 + 2 * BitAnd(a / 2, p - 1);
        { MaskIsRemainder(a / 2, k - 1); }
        a % 2 + 2 * ((a / 2) % p);
        { RemainderByHalves(a, p); }
        a % (2 * p);
      }
    }
  }

  lemma RemainderByHalves(a: nat, p: nat)
    requires p > 0
    ensures a % (2 * p) == a % 2 + 2 * ((a / 2) % p)
  {
    var q, r := (a / 2) / p, (a / 2) % p;
    assert a == 2 * (q * p + r) + a % 2;
    assert a == q * (2 * p) + (2 * r + a % 2);
    RemainderUnique(a, 2 * p, q, 2 * r + a % 2);
  }

  lemma RemainderUnique(a: nat, m: nat, q: nat, r: nat)
    requires m > 0 && a == q * m + r && r < m
    ensures a % m == r
  {
    var q', r' := a / m, a % m;
    assert a == q' * m + r';
    Distribute(q, q', m);
    if q != q' { AtLeastOne(if q > q' then q - q' else q' - q, m); Distribute(q', q, m); }
  }

  lemma Distribute(x: int, y: int, m: int)
    ensures (x - y) * m == x * m - y * m
  {
  }

  lemma AtLeastOne(x: nat, m: nat)
    requires x > 0
    ensures x * m >= m
  {
  }
}
