/** Powers of two, bitwise operations on naturals, and 32-bit wrap-around. */
module Bits {

  const WORD: nat := 0x1_0000_0000

  /** A value of C's `uint32_t` after the wrap-around of an unbounded result. */
  function Wrap(x: int): (r: nat)
    ensures r < WORD
  {
    x % WORD
  }

  function Pow2(n: nat): (r: nat)
    ensures r > 0
  {
    if n == 0 then 1 else 2 * Pow2(n - 1)
  }

  lemma {:induction false} Pow2Monotone(m: nat, n: nat)
    requires m <= n
    ensures Pow2(m) <= Pow2(n)
    decreases n
  {
    if m < n {
      Pow2Monotone(m, n - 1);
    }
  }

  lemma {:induction false} Pow2Add(m: nat, n: nat)
    ensures Pow2(m + n) == Pow2(m) * Pow2(n)
  {
    if m > 0 {
      Pow2Add(m - 1, n);
      assert Pow2(m) * Pow2(n) == 2 * (Pow2(m - 1) * Pow2(n));
    }
  }

  /** Bitwise exclusive or, bit by bit from the lowest. */
  function Xor(a: nat, b: nat): (r: nat)
    decreases a + b
  {
    if a == 0 && b == 0 then 0
    else (if a % 2 != b % 2 then 1 else 0) + 2 * Xor(a / 2, b / 2)
  }

  lemma {:induction false} XorZero(a: nat)
    ensures Xor(a, 0) == a
  {
    if a > 0 {
      XorZero(a / 2);
    }
  }

  lemma XorDouble(a: nat, b: nat)
    ensures Xor(2 * a, 2 * b) == 2 * Xor(a, b)
  {
    assert (2 * a) / 2 == a && (2 * b) / 2 == b;
  }

  /** XOR with a power of two that divides `a` moves between the two halves of
      the enclosing aligned pair. */
  lemma {:induction false} XorPow2(q: nat, k: nat)
    ensures Xor(q * Pow2(k), Pow2(k)) == (if q % 2 == 0 then q + 1 else q - 1) * Pow2(k)
  {
    if k == 0 {
      XorZero(q / 2);
      assert Xor(q, 1) == (if q % 2 != 1 then 1 else 0) + 2 * Xor(q / 2, 0);
    } else {
      XorPow2(q, k - 1);
      ScaleDouble(q, Pow2(k - 1));
      ScaleDouble(if q % 2 == 0 then q + 1 else q - 1, Pow2(k - 1));
      XorDouble(q * Pow2(k - 1), Pow2(k - 1));
    }
  }

  lemma ScaleDouble(q: int, p: int)
    ensures q * (2 * p) == 2 * (q * p)
  {
  }

  // ----- division and remainder

  lemma DivUnique(x: nat, n: nat, q: nat, r: nat)
    requires x == n * q + r && r < n
    ensures x % n == r && x / n == q
  {
    var q', r' := x / n, x % n;
    assert x == n * q' + r';
    if q' < q {
      MulGap(n, q', q);
    } else if q' > q {
      MulGap(n, q, q');
    }
  }

  lemma DivDiv(x: nat, n: nat, m: nat)
    requires n > 0 && m > 0
    ensures n * m > 0 && (x / n) / m == x / (n * m)
  {
    MulGap(n, 0, m);
    var a := x / n;
    var c, d := a / m, a % m;
    SplitNumber(x, n);
    SplitNumber(a, m);
    MulGap(n, d, m);
    TimesSum(n, m, c, d);
    DivUnique(x, n * m, c, n * d + x % n);
  }

  lemma TimesSum(n: nat, m: nat, c: nat, d: nat)
    ensures n * (m * c + d) == (n * m) * c + n * d
  {
  }

  lemma {:induction false} MulGap(n: nat, a: nat, b: nat)
    requires a < b
    ensures n * a + n <= n * b
    decreases b
  {
    MulNext(n, b - 1);
    if a < b - 1 { MulGap(n, a, b - 1); }
  }

  lemma MulNext(n: nat, k: nat)
    ensures n * (k + 1) == n * k + n
  {
  }

  lemma MulCommutes(a: nat, b: nat)
    ensures a * b == b * a
  {
  }

  lemma SplitNumber(x: nat, n: nat)
    requires n > 0
    ensures x == n * (x / n) + x % n
  {
  }
}
