/**
 Bytes and 32-bit words, bitwise conjunction on naturals, and why masking with a power
 of two minus one is the remainder.  Every ring of the framework indexes its storage
 this way.
 */
module Bits {

  const WORD: nat := 0x1_0000_0000

  type Byte = b: nat | b < 256

  type Word32 = w: nat | w < WORD

  function BitAnd(x: nat, y: nat): nat
  {
    if x == 0 || y == 0 then 0
    else 2 * BitAnd(x / 2, y / 2) + (if x % 2 == 1 && y % 2 == 1 then 1 else 0)
  }

  function Pow2(k: nat): (p: nat)
    ensures p >= 1
  {
    if k == 0 then 1 else 2 * Pow2(k - 1)
  }

  ghost predicate IsPowerOfTwo(n: nat) {
    exists k: nat :: n == Pow2(k)
  }

  /** The framework's own test: non-zero, and no bit shared with the predecessor. */
  predicate PowerOfTwoTest(n: nat) {
    n != 0 && BitAnd(n, n - 1) == 0
  }

  lemma {:induction false} BitAndSelf(x: nat)
    ensures BitAnd(x, x) == x
  {
    if x > 0 {
      BitAndSelf(x / 2);
    }
  }

  /** The power-of-two test accepts exactly the powers of two. */
  lemma {:induction false} PowerOfTwoTestIsExact(n: nat)
    ensures PowerOfTwoTest(n) <==> IsPowerOfTwo(n)
  {
    if n == 0 {
    } else if n == 1 {
      assert n == Pow2(0);
    } else if n % 2 == 1 {
      assert (n - 1) / 2 == n / 2;
      BitAndSelf(n / 2);
    } else {
      var h := n / 2;
      assert (n - 1) / 2 == h - 1;
      PowerOfTwoTestIsExact(h);
      if IsPowerOfTwo(h) {
        var k: nat :| h == Pow2(k);
        assert n == Pow2(k + 1);
      }
      if IsPowerOfTwo(n) {
        var k: nat :| n == Pow2(k);
        assert k > 0 && h == Pow2(k - 1);
      }
    }
  }

  lemma {:induction false} MaskIsModPow(x: nat, k: nat)
    ensures BitAnd(x, Pow2(k) - 1) == x % Pow2(k)
    decreases k
  {
    hide BitAnd;
    if k == 0 {
      BitAndZero(x);
    } else {
      var n := Pow2(k - 1);
      assert Pow2(k) == 2 * n;
      MaskIsModPow(x / 2, k - 1);
      ModDouble(x, n);
      BitAndOdd(x, n);
    }
  }

  lemma BitAndZero(x: nat)
    ensures BitAnd(x, 0) == 0 == x % 1
  {
  }

  lemma BitAndOdd(x: nat, n: nat)
    requires n >= 1
    ensures BitAnd(x, 2 * n - 1) == 2 * BitAnd(x / 2, n - 1) + x % 2
  {
    assert (2 * n - 1) / 2 == n - 1 && (2 * n - 1) % 2 == 1;
  }

  lemma ModDouble(x: nat, n: nat)
    requires n > 0
    ensures x % (2 * n) == 2 * ((x / 2) % n) + x % 2
  {
    var q, r := (x / 2) / n, (x / 2) % n;
    assert x / 2 == q * n + r;
    assert x == 2 * (q * n + r) + x % 2;
    assert x == q * (2 * n) + (2 * r + x % 2);
    ModOf(q, 2 * n, 2 * r + x % 2);
  }

  lemma MulAtLeast(d: int, n: nat)
    requires d >= 1
    ensures d * n >= n
  {
  }

  lemma ModOf(q: int, n: nat, r: nat)
    requires r < n
    ensures (q * n + r) % n == r
  {
    var x := q * n + r;
    var k, s := x / n, x % n;
    assert x == k * n + s;
    assert (q - k) * n == s - r && (k - q) * n == r - s;
    if q > k {
      MulAtLeast(q - k, n);
    } else if k > q {
      MulAtLeast(k - q, n);
    }
  }

  /** Masking with `n - 1` is the remainder modulo a power of two `n`. */
  lemma MaskIsMod(x: nat, n: nat)
    requires PowerOfTwoTest(n)
    ensures BitAnd(x, n - 1) == x % n
  {
    PowerOfTwoTestIsExact(n);
    var k: nat :| n == Pow2(k);
    MaskIsModPow(x, k);
  }
}
