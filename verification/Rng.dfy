/** Skip-ahead of the two dbgen random number generators.

    Sources: benchmark/tpch/dbgen/rnd.c, benchmark/tpch/dbgen/speed_seed.c,
    benchmark/tpch/dbgen/rng64.c. */
module Rng {
  import opened Arith

  // ------------------------------------------------------------------------------------------
  // Park and Miller's generator
  // ------------------------------------------------------------------------------------------

  const MULTIPLIER: nat := 16807
  const MODULUS: nat := 2147483647
  const TWO_63: nat := 0x8000_0000_0000_0000

  function NextRand(seed: nat): (next: nat) {
    (seed * MULTIPLIER) % MODULUS
  }

  /** `n` calls of NextRand, one after another. */
  function Iterate(seed: nat, n: nat): (s: nat) {
    if n == 0 then seed else NextRand(Iterate(seed, n - 1))
  }

  lemma {:induction false} IterateAdds(seed: nat, m: nat, n: nat)
    ensures Iterate(Iterate(seed, m), n) == Iterate(seed, m + n)
  {
    if n > 0 { IterateAdds(seed, m, n - 1); }
  }

  lemma {:induction false} IterateIsPower(seed: nat, n: nat)
    requires seed < MODULUS
    ensures Iterate(seed, n) == (Pow(MULTIPLIER, n) * seed) % MODULUS
  {
    if n > 0 {
      IterateIsPower(seed, n - 1);
      var p := Pow(MULTIPLIER, n - 1);
      ModMul(p * seed, MULTIPLIER, MODULUS);
      assert p * seed * MULTIPLIER == MULTIPLIER * p * seed;
    } else {
      DivModOf(seed, MODULUS, 0, seed);
    }
  }

  /** The first values from seed 1, the third of which wraps round the modulus. */
  lemma FirstValues()
    ensures Iterate(1, 1) == 16807 && Iterate(1, 2) == 282475249 && Iterate(1, 3) == 1622650073
  {
  }

  /** NthElement: square-and-multiply. Every product stays within a signed 64-bit integer. */
  method NthElement(n: nat, startSeed: nat) returns (z: nat)
    requires startSeed < MODULUS
    ensures z == Iterate(startSeed, n) && z < MODULUS
  {
    var mult: nat, m: nat := MULTIPLIER, n;
    z := startSeed;
    IterateIsPower(startSeed, n);
    while m > 0
      invariant z < MODULUS && mult < MODULUS
      invariant (Pow(mult, m) * z) % MODULUS == Iterate(startSeed, n)
      decreases m
    {
      ProductFits(mult, z);
      ProductFits(mult, mult);
      SquareAndMultiply(mult, m, z);
      if m % 2 != 0 {
        z := (mult * z) % MODULUS;
      }
      m := m / 2;
      mult := (mult * mult) % MODULUS;
    }
    DivModOf(z, MODULUS, 0, z);
  }

  lemma ProductFits(a: nat, b: nat)
    requires a < MODULUS && b < MODULUS
    ensures a * b < TWO_63
  {
    assert a * b <= a * MODULUS <= MODULUS * MODULUS;
  }

  lemma {:induction false} PowOfSquare(b: nat, k: nat)
    ensures Pow(b * b, k) == Pow(b, 2 * k)
  {
    if k > 0 {
      PowOfSquare(b, k - 1);
      assert Pow(b, 2 * k) == b * Pow(b, 2 * k - 1) == b * (b * Pow(b, 2 * k - 2));
      assert b * (b * Pow(b, 2 * k - 2)) == b * b * Pow(b, 2 * k - 2);
    }
  }

  lemma {:induction false} PowOfRemainder(b: nat, k: nat)
    ensures Pow(b % MODULUS, k) % MODULUS == Pow(b, k) % MODULUS
  {
    if k > 0 {
      PowOfRemainder(b, k - 1);
      var p, q := Pow(b % MODULUS, k - 1), Pow(b, k - 1);
      ModMul(b % MODULUS, p, MODULUS);
      ModMul(b, q, MODULUS);
    }
  }

  lemma SquareHalf(mult: nat, square: nat, k: nat, z: nat)
    requires square == mult * mult
    ensures (Pow(square % MODULUS, k) * z) % MODULUS == (Pow(mult, 2 * k) * z) % MODULUS
  {
    var q, p := Pow(square % MODULUS, k), Pow(square, k);
    assert q % MODULUS == p % MODULUS by { PowOfRemainder(square, k); }
    assert p == Pow(mult, 2 * k) by { PowOfSquare(mult, k); }
    ModCongruent(q, p, z, MODULUS);
  }

  /** One round of square-and-multiply keeps the value still to be computed. */
  lemma SquareAndMultiply(mult: nat, m: nat, z: nat)
    ensures var z' := if m % 2 != 0 then (mult * z) % MODULUS else z;
      (Pow((mult * mult) % MODULUS, m / 2) * z') % MODULUS == (Pow(mult, m) * z) % MODULUS
  {
    var k, square := m / 2, mult * mult;
    if m % 2 != 0 {
      SquareHalf(mult, square, k, (mult * z) % MODULUS);
      MultiplyOdd(mult, k, z);
      assert m == 2 * k + 1;
    } else {
      SquareHalf(mult, square, k, z);
      assert m == 2 * k;
    }
  }

  lemma MultiplyOdd(mult: nat, k: nat, z: nat)
    ensures (Pow(mult, 2 * k) * ((mult * z) % MODULUS)) % MODULUS == (Pow(mult, 2 * k + 1) * z) % MODULUS
  {
    var p := Pow(mult, 2 * k);
    ModMulRight(p, mult * z, MODULUS);
    MulAssoc(p, mult, z);
    MulComm(p, mult);
  }

  // ------------------------------------------------------------------------------------------
  // The 64-bit generator
  // ------------------------------------------------------------------------------------------

  const RNG_A: nat := 6364136223846793005
  const RNG_C: nat := 1

  /** Seeds are 64-bit words; the source's signed values are these modulo 2^64. */
  function NextRand64(seed: nat): (next: nat) {
    (seed * RNG_A + RNG_C) % TWO_64
  }

  function Iterate64(seed: nat, n: nat): (s: nat) {
    if n == 0 then seed else NextRand64(Iterate64(seed, n - 1))
  }

  lemma FirstValues64()
    ensures Iterate64(1, 1) == 6364136223846793006 && Iterate64(1, 2) == 13885033948157127959
  {
    assert Iterate64(1, 1) == NextRand64(Iterate64(1, 0));
  }

  /** A^(n-1) + ... + A + 1 */
  function Geometric(n: nat): (s: nat) {
    if n == 0 then 0 else RNG_A * Geometric(n - 1) + 1
  }

  lemma {:induction false} Iterate64Closed(seed: nat, n: nat)
    requires seed < TWO_64
    ensures Iterate64(seed, n) == (seed * Pow(RNG_A, n) + Geometric(n) * RNG_C) % TWO_64
  {
    if n > 0 {
      Iterate64Closed(seed, n - 1);
      var x := seed * Pow(RNG_A, n - 1) + Geometric(n - 1);
      ModMul(x, RNG_A, TWO_64);
      ModSum(x % TWO_64 * RNG_A, 1, TWO_64);
      ModSum(x * RNG_A, 1, TWO_64);
      MulAssoc(seed, Pow(RNG_A, n - 1), RNG_A);
    } else {
      DivModOf(seed, TWO_64, 0, seed);
    }
  }

  lemma {:induction false} GeometricAdds(m: nat, n: nat)
    ensures Geometric(m + n) == Geometric(m) * Pow(RNG_A, n) + Geometric(n)
  {
    if n > 0 {
      GeometricAdds(m, n - 1);
      var g, p := Geometric(m), Pow(RNG_A, n - 1);
      assert RNG_A * (g * p) == g * (RNG_A * p);
    } else {
      assert Geometric(m) * 1 == Geometric(m);
    }
  }

  /** AdvanceRand64: the bits of the count from the highest down, doubling as it goes. */
  method AdvanceRand64(seed: nat, count: nat) returns (s: nat)
    requires seed < TWO_64
    ensures s == Iterate64(seed, count)
  {
    if count == 0 {
      return seed;
    }
    var apow, dsum := RNG_A, RNG_C;
    var bit := 0;
    assert count / Pow(2, 0) == count;
    while count / Pow(2, bit) != RNG_C
      invariant 0 <= bit && count / Pow(2, bit) >= 1
      decreases count / Pow(2, bit)
    {
      HalfOfShift(count, bit);
      bit := bit + 1;
    }
    assert Geometric(1) == RNG_A * Geometric(0) + 1;
    assert Pow(RNG_A, 1) == RNG_A * Pow(RNG_A, 0);
    while bit > 0
      invariant 0 <= bit
      invariant apow == Pow(RNG_A, count / Pow(2, bit)) % TWO_64
      invariant dsum == Geometric(count / Pow(2, bit)) % TWO_64
    {
      bit := bit - 1;
      HalfOfShift(count, bit);
      var n := count / Pow(2, bit);
      DoubleStep(n / 2, apow, dsum);
      dsum := (dsum * (apow + 1)) % TWO_64;
      apow := (apow * apow) % TWO_64;
      if n % 2 == 1 {
        OddStep(n - 1, apow, dsum);
        dsum := (dsum + apow) % TWO_64;
        apow := (apow * RNG_A) % TWO_64;
      }
    }
    s := (seed * apow + dsum * RNG_C) % TWO_64;
    Iterate64Closed(seed, count);
    FinalStep(seed, Pow(RNG_A, count), Geometric(count));
  }

  /** count >> (bit + 1) is half of count >> bit. */
  lemma HalfOfShift(count: nat, bit: nat)
    ensures count / Pow(2, bit + 1) == count / Pow(2, bit) / 2
  {
    var p := Pow(2, bit);
    var q, m := count / p, count % p;
    var h, b := q / 2, q % 2;
    assert count == h * (2 * p) + (b * p + m);
    DivModOf(count, 2 * p, h, b * p + m);
  }

  lemma DoubleStep(h: nat, apow: nat, dsum: nat)
    requires apow == Pow(RNG_A, h) % TWO_64 && dsum == Geometric(h) % TWO_64
    ensures (dsum * (apow + 1)) % TWO_64 == Geometric(2 * h) % TWO_64
    ensures (apow * apow) % TWO_64 == Pow(RNG_A, 2 * h) % TWO_64
  {
    var p, g := Pow(RNG_A, h), Geometric(h);
    PowAdd(RNG_A, h, h);
    GeometricAdds(h, h);
    ModMul(p, p, TWO_64);
    MulSuccessor(g, p);
  }

  lemma MulSuccessor(g: nat, p: nat)
    ensures (g % TWO_64 * (p % TWO_64 + 1)) % TWO_64 == (g * p + g) % TWO_64
  {
    ModMul(g, p % TWO_64 + 1, TWO_64);
    ModSum(p, 1, TWO_64);
    ModMul(g, p + 1, TWO_64);
    assert g * (p + 1) == g * p + g;
  }

  lemma OddStep(n: nat, apow: nat, dsum: nat)
    requires apow == Pow(RNG_A, n) % TWO_64 && dsum == Geometric(n) % TWO_64
    ensures (dsum + apow) % TWO_64 == Geometric(n + 1) % TWO_64
    ensures (apow * RNG_A) % TWO_64 == Pow(RNG_A, n + 1) % TWO_64
  {
    GeometricAdds(1, n);
    assert Geometric(1) == RNG_A * Geometric(0) + 1;
    ModMul(Pow(RNG_A, n), RNG_A, TWO_64);
    ModSum(Geometric(n), apow, TWO_64);
    ModSum(Pow(RNG_A, n), Geometric(n), TWO_64);
  }

  lemma FinalStep(seed: nat, p: nat, g: nat)
    ensures (seed * (p % TWO_64) + g % TWO_64 * RNG_C) % TWO_64 == (seed * p + g * RNG_C) % TWO_64
  {
    ModMul(seed, p, TWO_64);
    ModSum(g, seed * (p % TWO_64), TWO_64);
    ModSum(seed * (p % TWO_64), g, TWO_64);
    ModSum(seed * p, g, TWO_64);
  }
}
