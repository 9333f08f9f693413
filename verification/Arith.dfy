/** Division, remainder and powers, as far as the other modules need them. */
module Arith {

  const TWO_64: nat := 0x1_0000_0000_0000_0000

  lemma MulAtLeast(d: int, k: int)
    requires 0 < d && 1 <= k
    ensures d * k >= d
  {
  }

  lemma DivModUnique(d: int, q: int, m: int, k: int, e: int)
    requires 0 < d && 0 <= m < d && 0 <= e < d && q * d + m == k * d + e
    ensures q == k && m == e
  {
    assert (q - k) * d == e - m && (k - q) * d == m - e;
    if q > k { MulAtLeast(d, q - k); }
    if q < k { MulAtLeast(d, k - q); }
  }

  /** The quotient and the remainder are the only way to write `x` as `q * d + m`. */
  lemma DivModOf(x: int, d: int, q: int, m: int)
    requires 0 < d && 0 <= m < d && x == q * d + m
    ensures x / d == q && x % d == m
  {
    DivModUnique(d, q, m, x / d, x % d);
  }

  lemma ModAdd(x: int, d: int, k: int)
    requires 0 < d
    ensures (x + k * d) % d == x % d
  {
    DivModOf(x + k * d, d, x / d + k, x % d);
  }

  lemma MulAssoc(x: int, y: int, z: int)
    ensures x * (y * z) == x * y * z
  {
  }

  lemma MulSplit(q: int, d: int, r: int, y: int)
    ensures (q * d + r) * y == r * y + q * y * d
  {
    assert (q * d + r) * y == q * d * y + r * y;
  }

  lemma MulComm(x: int, y: int)
    ensures x * y == y * x
  {
  }

  lemma ModMulOf(x: int, y: int, d: int, q: int, r: int)
    requires 0 < d && x == q * d + r
    ensures (r * y) % d == (x * y) % d
  {
    MulSplit(q, d, r, y);
    ModAdd(r * y, d, q * y);
  }

  lemma ModMulRight(x: int, y: int, d: int)
    requires 0 < d
    ensures (x * (y % d)) % d == (x * y) % d
  {
    ModMulOf(y, x, d, y / d, y % d);
    MulComm(x, y);
    MulComm(x, y % d);
  }

  lemma ModMul(x: int, y: int, d: int)
    requires 0 < d
    ensures (x % d * y) % d == (x * y) % d == (x * (y % d)) % d == (x % d * (y % d)) % d
  {
    ModMulOf(x, y, d, x / d, x % d);
    ModMulRight(x, y, d);
    ModMulRight(x % d, y, d);
  }

  /** Equal remainders stay equal under multiplication. */
  lemma ModCongruent(x: int, y: int, k: int, d: int)
    requires 0 < d && x % d == y % d
    ensures (x * k) % d == (y * k) % d
  {
    ModMulOf(x, k, d, x / d, x % d);
    ModMulOf(y, k, d, y / d, y % d);
  }

  lemma ModSum(x: int, y: int, d: int)
    requires 0 < d
    ensures (x % d + y) % d == (x + y) % d
  {
    ModAdd(x % d + y, d, x / d);
  }

  /** A shift by less than `m` changes the remainder. */
  lemma ModShift(x: int, d: int, m: int)
    requires 0 < d < m
    ensures (x + d) % m != x % m
  {
    var q, r := x / m, x % m;
    if r + d < m { DivModOf(x + d, m, q, r + d); } else { DivModOf(x + d, m, q + 1, r + d - m); }
  }

  function Pow(b: nat, n: nat): (p: nat)
    ensures b > 0 ==> p > 0
  {
    if n == 0 then 1 else b * Pow(b, n - 1)
  }

  lemma {:induction false} PowAdd(b: nat, m: nat, n: nat)
    ensures Pow(b, m + n) == Pow(b, m) * Pow(b, n)
  {
    if m > 0 {
      PowAdd(b, m - 1, n);
      MulAssoc(b, Pow(b, m - 1), Pow(b, n));
    }
  }
}
