/** Integer versions of the bit operations the generator uses: bitwise AND
    on non-negative integers, powers of two and the floor of log2. */
module Bits {

  function Pow2(k: nat): (r: nat)
    ensures r >= 1
  {
    if k == 0 then 1 else 2 * Pow2(k - 1)
  }

  /** Bitwise AND of two non-negative integers, bit by bit from the lowest.
      Masking keeps no bit that the mask lacks, so the result never exceeds
      either operand. */
  function BitAnd(x: nat, y: nat): (r: nat)
    ensures r <= x && r <= y
  {
    if x == 0 || y == 0 then 0
    else 2 * BitAnd(x / 2, y / 2) + (if x % 2 == 1 && y % 2 == 1 then 1 else 0)
  }

  /** n is 2 to the power of some k >= 0. */
  predicate IsPowerOfTwo(n: nat)
  {
    n == 1 || (n >= 2 && n % 2 == 0 && IsPowerOfTwo(n / 2))
  }

  /** The largest k with 2^k <= n. */
  function FloorLog2(n: nat): (k: nat)
    requires n >= 1
    ensures Pow2(k) <= n < Pow2(k + 1)
  {
    if n == 1 then 0 else 1 + FloorLog2(n / 2)
  }

  lemma {:induction false} BitAndSelf(x: nat)
    ensures BitAnd(x, x) == x
  {
    if x != 0 {
      BitAndSelf(x / 2);
    }
  }

  /** AND with 2^k - 1 keeps the k low bits: it is the remainder modulo 2^k. */
  lemma {:induction false} BitAndLowMask(x: nat, k: nat)
    ensures BitAnd(x, Pow2(k) - 1) == x % Pow2(k)
  {
    if k != 0 && x != 0 {
      var m := Pow2(k) - 1;
      assert m / 2 == Pow2(k - 1) - 1 && m % 2 == 1;
      BitAndLowMask(x / 2, k - 1);
      DivModPow2(x, k);
    }
  }

  lemma DivModPow2(x: nat, k: nat)
    requires k >= 1
    ensures x % Pow2(k) == 2 * ((x / 2) % Pow2(k - 1)) + x % 2
  {
    var p := Pow2(k - 1);
    var q := (x / 2) / p;
    var r := (x / 2) % p;
    assert x == 2 * p * q + 2 * r + x % 2;
    assert 0 <= 2 * r + x % 2 < 2 * p;
    LemmaModUnique(x, 2 * p, q, 2 * r + x % 2);
  }

  lemma LemmaModUnique(x: nat, d: nat, q: int, r: int)
    requires d > 0 && 0 <= r < d && x == d * q + r
    ensures x % d == r
  {
    var q', r' := x / d, x % d;
    assert d * q' + r' == d * q + r;
    assert d * (q + 1) == d * q + d && d * (q' + 1) == d * q' + d;
    if q' > q {
      MulMonotone(d, q + 1, q');
    } else if q' < q {
      MulMonotone(d, q' + 1, q);
    }
  }

  lemma MulMonotone(d: nat, a: int, b: int)
    requires a <= b
    ensures d * a <= d * b
  {
    assert d * b - d * a == d * (b - a);
  }

  /** The test `n & (n - 1) == 0` holds exactly of the powers of two. */
  lemma {:induction false} PowerOfTwoTest(n: nat)
    requires n >= 1
    ensures BitAnd(n, n - 1) == 0 <==> IsPowerOfTwo(n)
  {
    if n >= 2 {
      if n % 2 == 0 {
        PowerOfTwoTest(n / 2);
        assert (n - 1) / 2 == n / 2 - 1;
      } else {
        BitAndSelf(n / 2);
        assert (n - 1) / 2 == n / 2;
      }
    }
  }

  lemma {:induction false} Pow2IsPowerOfTwo(k: nat)
    ensures IsPowerOfTwo(Pow2(k))
  {
    if k != 0 {
      Pow2IsPowerOfTwo(k - 1);
    }
  }

  /** Between 2 and 256 the powers of two are the eight listed values. */
  lemma {:induction false} PowersOfTwoUpTo256(n: nat)
    requires 2 <= n <= 256
    ensures IsPowerOfTwo(n) <==> n in {2, 4, 8, 16, 32, 64, 128, 256}
  {
    if n >= 4 && n % 2 == 0 {
      PowersOfTwoUpTo256(n / 2);
    }
  }

  lemma {:induction false} PowerOfTwoIsPow2(n: nat)
    requires IsPowerOfTwo(n)
    ensures exists k: nat :: Pow2(k) == n
  {
    if n == 1 {
      assert Pow2(0) == 1;
    } else {
      PowerOfTwoIsPow2(n / 2);
      var k: nat :| Pow2(k) == n / 2;
      assert Pow2(k + 1) == n;
    }
  }

  // Agreement with the machine AND on bytes

  lemma Bv8Halves(z: bv8)
    ensures z as nat == 2 * (z >> 1) as nat + (z & 1) as nat
    ensures (z >> 1) as nat == z as nat / 2
    ensures (z & 1) as nat == z as nat % 2
  {
  }

  lemma Bv8AndSplit(x: bv8, y: bv8)
    ensures (x & y) >> 1 == (x >> 1) & (y >> 1)
    ensures (x & y) & 1 == (x & 1) & (y & 1)
  {
  }

  lemma Bv8LowBits(x: bv8, y: bv8)
    ensures ((x & 1) & (y & 1)) as nat == (if (x & 1) as nat == 1 && (y & 1) as nat == 1 then 1 else 0)
  {
  }

  /** The machine AND of two bytes, split into its upper seven bits and its lowest bit. */
  lemma Bv8AndValue(x: bv8, y: bv8)
    ensures (x & y) as nat
      == 2 * ((x >> 1) & (y >> 1)) as nat + (if x as nat % 2 == 1 && y as nat % 2 == 1 then 1 else 0)
  {
    Bv8Halves(x);
    Bv8Halves(y);
    Bv8Halves(x & y);
    Bv8AndSplit(x, y);
    Bv8LowBits(x, y);
  }

  /** One step of the agreement: if it holds for the upper seven bits of
      two non-zero bytes, it holds for the bytes. */
  lemma BitAndIsBv8AndStep(x: bv8, y: bv8)
    requires x != 0 && y != 0
    requires BitAnd((x >> 1) as nat, (y >> 1) as nat) == ((x >> 1) & (y >> 1)) as nat
    ensures BitAnd(x as nat, y as nat) == (x & y) as nat
  {
    Bv8Halves(x);
    Bv8Halves(y);
    Bv8AndValue(x, y);
  }

  /** On byte-sized operands BitAnd is PHP's & as the machine computes it. */
  lemma {:induction false} BitAndIsBv8And(x: bv8, y: bv8)
    ensures BitAnd(x as nat, y as nat) == (x & y) as nat
    decreases x as nat
  {
    if x != 0 && y != 0 {
      Bv8Halves(x);
      BitAndIsBv8And(x >> 1, y >> 1);
      BitAndIsBv8AndStep(x, y);
    }
  }
}
