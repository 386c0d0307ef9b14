/** Products, quotients and remainders of natural numbers. */
module Arithmetic {

  lemma {:induction false} MulMonotone(x: nat, y: nat, d: nat)
    requires x <= y
    ensures x * d <= y * d
    decreases y
  {
    if x < y { MulMonotone(x, y - 1, d); }
  }

  /** The quotient is the largest factor that fits. */
  lemma DivFits(a: nat, d: nat, q: nat)
    requires d > 0
    ensures q * d <= a <==> q <= a / d
  {
    var r := a / d;
    assert a == r * d + a % d;
    if q <= r { MulMonotone(q, r, d); } else { MulMonotone(r + 1, q, d); }
  }

  lemma DivMonotone(a: nat, b: nat, d: nat)
    requires a <= b && d > 0
    ensures a / d <= b / d
  {
    DivFits(a, d, a / d);
    DivFits(b, d, a / d);
  }

  lemma Cancel(x: nat, t: nat)
    requires t > 0
    ensures x * t / t == x
  {
    DivFits(x * t, t, x);
    DivFits(x * t, t, x + 1);
  }

  lemma Remainder(x: nat, n: nat, q: nat, r: nat)
    requires 0 < n && r < n && x == q * n + r
    ensures x % n == r
  {
    var p := x / n;
    assert x == p * n + x % n;
    if p < q { MulMonotone(p + 1, q, n); }
    if q < p { MulMonotone(q + 1, p, n); }
  }

  /** Adding less than the modulus moves the remainder around at most once. */
  lemma RemainderOfSum(x: nat, n: nat, k: nat)
    requires 0 < n && k < n
    ensures (x + k) % n == if x % n + k < n then x % n + k else x % n + k - n
  {
    var q := x / n;
    assert x == q * n + x % n;
    if x % n + k < n { Remainder(x + k, n, q, x % n + k); } else { Remainder(x + k, n, q + 1, x % n + k - n); }
  }
}
