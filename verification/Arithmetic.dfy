// Products, kept apart so that every other proof is linear.
module Arithmetic {
  lemma Distribute(a: int, b: int, c: int)
    ensures (a + b) * c == a * c + b * c
    ensures (a - b) * c == a * c - b * c
  {
  }

  lemma ProductOrder(a: int, b: int, c: int)
    requires c >= 0
    ensures a <= b ==> a * c <= b * c
    ensures c > 0 && a < b ==> a * c + c <= b * c
  {
    Distribute(b, a, c);
    if a <= b {
      NonNegative(b - a, c);
    }
    if c > 0 && a < b {
      Distribute(b - a, 1, c);
      NonNegative(b - a - 1, c);
    }
  }

  lemma NonNegative(a: nat, b: nat)
    ensures 0 <= a * b
  {
  }

  // Floored division by a positive divisor.
  lemma DivMod(n: int, d: int)
    requires d > 0
    ensures n == (n / d) * d + n % d && 0 <= n % d < d
    ensures n >= 0 ==> n / d >= 0
  {
  }

  lemma RealNonNegative(a: real, b: real)
    requires 0.0 <= a && 0.0 <= b
    ensures 0.0 <= a * b
  {
  }

  lemma RealProductOrder(a: real, b: real, c: real)
    requires 0.0 <= c
    ensures a <= b ==> a * c <= b * c
    ensures 0.0 < c && a < b ==> a * c < b * c
  {
    if a <= b { assert (b - a) * c >= 0.0; }
    if 0.0 < c && a < b { assert (b - a) * c > 0.0; }
  }

  lemma RealCancel(a: real, b: real, c: real)
    requires 0.0 < c
    ensures a * c < b * c ==> a < b
    ensures a * c <= b * c ==> a <= b
  {
    RealProductOrder(b, a, c);
  }

  // Comparing with a quotient n / f is comparing the product with n.
  lemma RealScale(a: real, x: real, f: real, af: real, n: real)
    requires 0.0 < f && af == a * f && n == x * f
    ensures a <= x <==> af <= n
    ensures x < a <==> n < af
  {
    if a <= x {
      RealProductOrder(a, x, f);
    } else {
      RealProductOrder(x, a, f);
    }
  }
}
