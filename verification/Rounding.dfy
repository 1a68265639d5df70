// Math.round over exact numbers: the integer nearest to x, halves going up
// (ECMA-262, section 21.3.2.28).
module Rounding {
  import opened Arithmetic

  function Round(x: real): (r: int)
    ensures r as real - 0.5 <= x < r as real + 0.5
  {
    (x + 0.5).Floor
  }

  lemma RoundUnique(x: real, k: int)
    requires k as real - 0.5 <= x < k as real + 0.5
    ensures Round(x) == k
  {
    var r := Round(x);
    assert r as real - 0.5 < k as real + 0.5;
    assert (r - k) as real < 1.0 && (k - r) as real < 1.0;
  }

  lemma RoundInt(k: int)
    ensures Round(k as real) == k
  {
    RoundUnique(k as real, k);
  }

  // The quotient n / f, rounded, is the integer b with n within f/2 of b * f.
  lemma RoundQuotient(n: real, f: real, b: int)
    requires 0.0 < f
    ensures Round(n / f) == b <==> b as real * f - 0.5 * f <= n < b as real * f + 0.5 * f
  {
    var x, r := n / f, b as real;
    var rf := r * f;
    RealScale(r - 0.5, x, f, rf - 0.5 * f, n);
    RealScale(r + 0.5, x, f, rf + 0.5 * f, n);
    hide Round;
    assert r - 0.5 <= x < r + 0.5 <==> rf - 0.5 * f <= n < rf + 0.5 * f;
    if r - 0.5 <= x < r + 0.5 { RoundUnique(x, b); }
    assert Round(x) == b <==> r - 0.5 <= x < r + 0.5;
  }
}
