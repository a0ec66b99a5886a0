/** The few facts about products and quotients that block arithmetic needs. */
module Arith {
  function Min(a: nat, b: nat): nat {
    if a <= b then a else b
  }

  function Max(a: nat, b: nat): nat {
    if a >= b then a else b
  }


  /** Intervals [p*n, p*n + n) and [q*n, ...) do not overlap. */
  lemma {:induction false} Apart(p: nat, q: nat, n: nat)
    requires p < q
    ensures p * n + n <= q * n
  {
    assert q * n == p * n + (q - p) * n;
    assert (q - p) * n == (q - p - 1) * n + n;
  }

  lemma {:induction false} Quotient(b: nat, n: nat)
    requires n > 0
    ensures (b / n) * n <= b < (b / n) * n + n && b % n == b - (b / n) * n
  {
  }

  /** b is in the k-th stretch of n exactly when its quotient is k. */
  lemma {:induction false} QuotientIs(b: nat, k: nat, n: nat)
    requires n > 0
    ensures b / n == k <==> k * n <= b < k * n + n
    ensures b / n < k <==> b < k * n
    ensures b / n == k ==> b % n == b - k * n
  {
    Quotient(b, n);
    var q := b / n;
    if q < k {
      Apart(q, k, n);
    } else if k < q {
      Apart(k, q, n);
    }
  }

  /** The binary digit of x that stands for p. */
  lemma {:induction false} DigitAt(x: nat, p: nat, low: nat, digit: nat, high: nat)
    requires p > 0 && low < p && digit < 2 && x == low + p * (digit + 2 * high)
    ensures (x / p) % 2 == digit
  {
    QuotientIs(x, digit + 2 * high, p);
  }

  lemma {:induction false} NonNegative(x: nat, y: nat)
    ensures x * y >= 0
  {
  }

  lemma {:induction false} Distribute(x: int, y: int, z: int)
    ensures (x + y) * z == x * z + y * z
  {
  }

  /** The product of two 32-bit numbers fits 64 bits. */
  lemma {:induction false} Product32(x: nat, y: nat)
    requires x < 0x1_0000_0000 && y < 0x1_0000_0000
    ensures x * y < 0x1_0000_0000_0000_0000
  {
    var rest := 0xffff_ffff - x;
    Distribute(x, rest, y);
    NonNegative(rest, y);
  }
}
