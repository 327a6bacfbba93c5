/**
 * The bitwise operators `^` and `&` of C++ on non-negative integers, defined
 * bit by bit from the least significant bit up.
 */
module BitOps {

  /** 2^n. */
  function Pow2(n: nat): (p: nat)
    ensures p >= 1
  {
    if n == 0 then 1 else 2 * Pow2(n - 1)
  }

  /** 2^(a + b) == 2^a * 2^b. */
  lemma {:induction false} Pow2Add(a: nat, b: nat)
    ensures Pow2(a + b) == Pow2(a) * Pow2(b)
    decreases a
  {
    if a > 0 {
      Pow2Add(a - 1, b);
    }
  }

  /** 2^64, the modulus of 64-bit unsigned arithmetic. */
  lemma Pow2Of64()
    ensures Pow2(64) == 0x1_0000_0000_0000_0000
  {
    assert Pow2(2) == 4;
    Pow2Add(2, 2);
    Pow2Add(4, 4);
    Pow2Add(8, 8);
    Pow2Add(16, 16);
    Pow2Add(32, 32);
  }

  /** `a ^ b`. */
  function Xor(a: nat, b: nat): nat
    decreases a + b
  {
    if a == 0 && b == 0 then 0
    else 2 * Xor(a / 2, b / 2) + (if a % 2 != b % 2 then 1 else 0)
  }

  /** `a & b`. */
  function And(a: nat, b: nat): nat
    decreases a + b
  {
    if a == 0 || b == 0 then 0
    else 2 * And(a / 2, b / 2) + (if a % 2 == 1 && b % 2 == 1 then 1 else 0)
  }

  /** XOR with the same word twice gives back the original word. */
  lemma {:induction false} XorSelfInverse(a: nat, m: nat)
    ensures Xor(Xor(a, m), m) == a
    decreases a + m
  {
    var x := Xor(a, m);
    if a == 0 && m == 0 {
    } else {
      var bit := if a % 2 != m % 2 then 1 else 0;
      assert x == 2 * Xor(a / 2, m / 2) + bit;
      assert x / 2 == Xor(a / 2, m / 2) && x % 2 == bit;
      XorSelfInverse(a / 2, m / 2);
      if !(x == 0 && m == 0) {
        assert Xor(x, m) == 2 * Xor(x / 2, m / 2) + (if x % 2 != m % 2 then 1 else 0);
      }
    }
  }

  /** XOR with a fixed word never merges two different words. */
  lemma XorInjective(a: nat, b: nat, m: nat)
    requires Xor(a, m) == Xor(b, m)
    ensures a == b
  {
    XorSelfInverse(a, m);
    XorSelfInverse(b, m);
  }

  /** XOR of two n-bit words is an n-bit word. */
  lemma {:induction false} XorBound(a: nat, b: nat, n: nat)
    requires a < Pow2(n) && b < Pow2(n)
    ensures Xor(a, b) < Pow2(n)
    decreases n
  {
    if a == 0 && b == 0 {
    } else {
      assert n > 0;
      XorBound(a / 2, b / 2, n - 1);
    }
  }

  /** A word ANDed with itself is unchanged. */
  lemma {:induction false} AndSelf(a: nat)
    ensures And(a, a) == a
  {
    if a != 0 {
      AndSelf(a / 2);
    }
  }

  /** n is a power of two. */
  ghost predicate IsPowerOfTwo(n: nat)
  {
    exists k: nat :: Pow2(k) == n
  }

  /**
   * For n > 0, `n & (n - 1)` clears the lowest set bit, so it is zero exactly
   * when n has a single set bit, that is when n is a power of two.
   */
  lemma {:induction false} AndPredecessorZeroIffPowerOfTwo(n: nat)
    requires n > 0
    ensures And(n, n - 1) == 0 <==> IsPowerOfTwo(n)
    decreases n
  {
    if n == 1 {
      assert Pow2(0) == 1;
    } else if n % 2 == 1 {
      // n = 2m + 1, n - 1 = 2m: the AND keeps every bit of m, which is not zero
      var m := n / 2;
      assert And(n, n - 1) == 2 * And(m, m);
      AndSelf(m);
      OddAboveOneIsNotPowerOfTwo(n);
    } else {
      // n = 2m, n - 1 = 2(m - 1) + 1: the AND is twice that of m and m - 1
      var m := n / 2;
      assert (n - 1) / 2 == m - 1;
      assert And(n, n - 1) == 2 * And(m, m - 1);
      AndPredecessorZeroIffPowerOfTwo(m);
      PowerOfTwoHalves(n);
    }
  }

  /** An odd number above one is not a power of two. */
  lemma OddAboveOneIsNotPowerOfTwo(n: nat)
    requires n > 1 && n % 2 == 1
    ensures !IsPowerOfTwo(n)
  {
    forall k: nat
      ensures Pow2(k) != n
    {
      if k > 0 {
        assert Pow2(k) == 2 * Pow2(k - 1);
      }
    }
  }

  /** An even positive number is a power of two exactly when its half is. */
  lemma PowerOfTwoHalves(n: nat)
    requires n > 0 && n % 2 == 0
    ensures IsPowerOfTwo(n) <==> IsPowerOfTwo(n / 2)
  {
    if IsPowerOfTwo(n) {
      var k: nat :| Pow2(k) == n;
      assert k > 0;
      assert Pow2(k - 1) == n / 2;
    }
    if IsPowerOfTwo(n / 2) {
      var k: nat :| Pow2(k) == n / 2;
      assert Pow2(k + 1) == n;
    }
  }
}
