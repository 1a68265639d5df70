// The amounts of an invoice line and of an invoice (invoice-totals.ts), and
// the prices clients see (prices-tax-example.ts).
module Invoices {
  import opened Arithmetic
  import opened Common
  import opened Rounding

  // A number as typed; None is missing or not finite.
  datatype LineInput = LineInput(
    quantity: Option<real>,
    unitPriceCents: Option<real>,
    discountPct: Option<real>,
    taxRate: Option<real>,
    taxIncluded: bool)

  datatype Amounts = Amounts(baseCents: int, taxCents: int, totalCents: int)

  function ClampDiscount(value: Option<real>): (d: real)
    ensures 0.0 <= d <= 100.0
  {
    var v := value.GetOr(0.0);
    if v > 100.0 then 100.0 else if v < 0.0 then 0.0 else v
  }

  // The line's price as typed: discounted, times the quantity, in cents.
  function LineCents(line: LineInput): (r: int) {
    Round(UnitCents(line) as real * line.quantity.GetOr(0.0))
  }

  function UnitCents(line: LineInput): (r: int) {
    Round(line.unitPriceCents.GetOr(0.0) * (1.0 - ClampDiscount(line.discountPct) / 100.0))
  }

  function TaxRate(line: LineInput): (r: real) { line.taxRate.GetOr(0.0) }

  // The price with the tax inside it, split.
  function Included(cents: int, rate: real): (r: Amounts)
    requires 1.0 + rate / 100.0 != 0.0
  {
    var base := Round(cents as real / (1.0 + rate / 100.0));
    Amounts(base, cents - base, cents)
  }

  // The price with the tax on top.
  function OnTop(cents: int, rate: real): (r: Amounts) {
    var tax := Round(cents as real * (rate / 100.0));
    Amounts(cents, tax, cents + tax)
  }

  function ComputeInvoiceLine(line: LineInput): (r: Amounts)
    requires line.taxIncluded ==> 1.0 + TaxRate(line) / 100.0 != 0.0
  {
    if line.taxIncluded then Included(LineCents(line), TaxRate(line)) else OnTop(LineCents(line), TaxRate(line))
  }

  predicate Computable(lines: seq<LineInput>) {
    forall i :: 0 <= i < |lines| ==> lines[i].taxIncluded ==> 1.0 + TaxRate(lines[i]) / 100.0 != 0.0
  }

  function LineAmounts(lines: seq<LineInput>): (r: seq<Amounts>)
    requires Computable(lines)
    ensures |r| == |lines|
  {
    seq(|lines|, i requires 0 <= i < |lines| => ComputeInvoiceLine(lines[i]))
  }

  function Totals(lines: seq<Amounts>): (r: Amounts) {
    if lines == [] then Amounts(0, 0, 0)
    else
      var t := Totals(lines[..|lines| - 1]);
      var a := lines[|lines| - 1];
      Amounts(t.baseCents + a.baseCents, t.taxCents + a.taxCents, t.totalCents + a.totalCents)
  }

  // computeInvoiceTotals: the invoice is the sum of its lines, each amount
  // by itself.
  method ComputeInvoiceTotals(lines: seq<LineInput>) returns (totals: Amounts)
    requires Computable(lines)
    ensures totals == Totals(LineAmounts(lines))
  {
    var subtotalCents, taxCents := 0, 0;
    ghost var all := LineAmounts(lines);
    for k := 0 to |lines|
      invariant var t := Totals(all[..k]);
        t.baseCents == subtotalCents && t.taxCents == taxCents && t.totalCents == subtotalCents + taxCents
    {
      var amounts := ComputeInvoiceLine(lines[k]);
      assert all[..k + 1][..k] == all[..k] && all[k] == amounts;
      LineAddsUp(lines[k]);
      subtotalCents := subtotalCents + amounts.baseCents;
      taxCents := taxCents + amounts.taxCents;
    }
    assert all[..|lines|] == all;
    return Amounts(subtotalCents, taxCents, subtotalCents + taxCents);
  }

  // Each figure of the invoice is the sum of its own over the lines.
  lemma {:induction false} TotalsAreSums(lines: seq<Amounts>)
    ensures var t := Totals(lines);
      && t.baseCents == Sum(seq(|lines|, i requires 0 <= i < |lines| => lines[i].baseCents))
      && t.taxCents == Sum(seq(|lines|, i requires 0 <= i < |lines| => lines[i].taxCents))
      && t.totalCents == Sum(seq(|lines|, i requires 0 <= i < |lines| => lines[i].totalCents))
  {
    if lines != [] {
      var n := |lines| - 1;
      TotalsAreSums(lines[..n]);
      LastAdded(seq(|lines|, i requires 0 <= i < |lines| => lines[i].baseCents),
        seq(n, i requires 0 <= i < n => lines[..n][i].baseCents));
      LastAdded(seq(|lines|, i requires 0 <= i < |lines| => lines[i].taxCents),
        seq(n, i requires 0 <= i < n => lines[..n][i].taxCents));
      LastAdded(seq(|lines|, i requires 0 <= i < |lines| => lines[i].totalCents),
        seq(n, i requires 0 <= i < n => lines[..n][i].totalCents));
    }
  }

  lemma LastAdded(all: seq<int>, first: seq<int>)
    requires |all| == |first| + 1 && forall i :: 0 <= i < |first| ==> all[i] == first[i]
    ensures Sum(all) == Sum(first) + all[|first|]
  {
    assert all == first + [all[|first|]];
    SumAppend(first, [all[|first|]]);
    assert [all[|first|]][1..] == [];
  }

  // The tax is the rate: on top, of the typed price to the nearest cent, and
  // inside it the base is the price without it to the nearest cent, halves
  // going up.
  lemma TaxIsTheRate(line: LineInput)
    requires TaxRate(line) >= 0.0
    ensures var a := ComputeInvoiceLine(line); var r := TaxRate(line) / 100.0; var typed := LineCents(line) as real;
      if line.taxIncluded then
        a.baseCents as real * (1.0 + r) - 0.5 * (1.0 + r) <= typed < a.baseCents as real * (1.0 + r) + 0.5 * (1.0 + r)
      else a.taxCents as real - 0.5 <= typed * r < a.taxCents as real + 0.5
  {
    hide LineCents;
    var a := ComputeInvoiceLine(line);
    if line.taxIncluded {
      RoundQuotient(LineCents(line) as real, 1.0 + TaxRate(line) / 100.0, a.baseCents);
    }
  }

  lemma LineAddsUp(line: LineInput)
    requires line.taxIncluded ==> 1.0 + TaxRate(line) / 100.0 != 0.0
    ensures var a := ComputeInvoiceLine(line);
      && a.baseCents + a.taxCents == a.totalCents
      && (if line.taxIncluded then a.totalCents == LineCents(line) else a.baseCents == LineCents(line))
  {
  }

  // An invoice with tax-included prices charges exactly the prices typed,
  // whatever its lines' rates.
  lemma {:induction false} IncludedInvoiceIsTheTypedPrices(lines: seq<LineInput>)
    requires Computable(lines)
    requires forall i :: 0 <= i < |lines| ==> lines[i].taxIncluded
    ensures Totals(LineAmounts(lines)).totalCents == Sum(seq(|lines|, i requires 0 <= i < |lines| => LineCents(lines[i])))
  {
    if lines != [] {
      var n := |lines| - 1;
      IncludedInvoiceIsTheTypedPrices(lines[..n]);
      var cents := seq(|lines|, i requires 0 <= i < |lines| => LineCents(lines[i]));
      assert LineAmounts(lines)[..n] == LineAmounts(lines[..n]);
      assert cents == seq(n, i requires 0 <= i < n => LineCents(lines[..n][i])) + [LineCents(lines[n])];
      SumAppend(cents[..n], [LineCents(lines[n])]);
      LineAddsUp(lines[n]);
    }
  }

  // ------------------------------------------------------------ round trips

  // base * f, rounded, divided by f and rounded again is base.
  lemma SplitBack(base: int, tax: int, r: real, f: real)
    requires 0.0 <= r && f == 1.0 + r && tax == Round(base as real * r)
    ensures Round((base + tax) as real / f) == base
  {
    var b := base as real;
    if r == 0.0 {
      RoundInt(0);
      assert b * r == 0.0;
    }
    assert b * f == b + b * r;
    hide Round;
    assert b * f - 0.5 * f <= (base + tax) as real < b * f + 0.5 * f;
    RoundQuotient((base + tax) as real, f, base);
  }

  lemma OneUnit(price: real, taxRate: Option<real>, included: bool)
    ensures LineCents(LineInput(Some(1.0), Some(price), None, taxRate, included)) == Round(price)
  {
    assert price * (1.0 - 0.0 / 100.0) == price;
    RoundInt(Round(price));
  }

  // A line is its quantity times the price of one unit, in whole cents.
  lemma WholeQuantity(line: LineInput, q: int)
    requires line.quantity == Some(q as real)
    ensures LineCents(line) == q * LineCents(line.(quantity := Some(1.0)))
  {
    var one := line.(quantity := Some(1.0));
    assert UnitCents(one) == UnitCents(line);
    hide LineCents, UnitCents;
    WholeLine(line, q);
    WholeLine(one, 1);
    var cents := UnitCents(line);
    assert 1 * cents == cents;
  }

  lemma WholeLine(line: LineInput, q: int)
    requires line.quantity == Some(q as real)
    ensures LineCents(line) == q * UnitCents(line)
  {
    hide UnitCents, Round;
    WholeProduct(UnitCents(line), q);
  }

  lemma WholeProduct(unit: int, q: int)
    ensures Round(unit as real * q as real) == q * unit
  {
    assert unit as real * q as real == (q * unit) as real;
    RoundInt(q * unit);
  }

  // The price of one unit is the discounted price to the nearest cent, a half
  // going up; a discount above 100 % makes it nothing, one below 0 % changes
  // nothing.
  lemma DiscountedUnit(price: real, d: real, taxRate: Option<real>, included: bool)
    ensures var cents := LineCents(LineInput(Some(1.0), Some(price), Some(d), taxRate, included));
      && (0.0 <= d <= 100.0 ==> cents as real - 0.5 <= price * (1.0 - d / 100.0) < cents as real + 0.5)
      && (d > 100.0 ==> cents == 0)
      && (d < 0.0 ==> cents == Round(price))
  {
    var line := LineInput(Some(1.0), Some(price), Some(d), taxRate, included);
    WholeProduct(UnitCents(line), 1);
    DiscountedPrice(price, d);
    hide Round;
  }

  lemma DiscountedPrice(price: real, d: real)
    ensures var exact := price * (1.0 - ClampDiscount(Some(d)) / 100.0);
      && (0.0 <= d <= 100.0 ==> exact == price * (1.0 - d / 100.0))
      && (d > 100.0 ==> exact == 0.0 && Round(exact) == 0)
      && (d < 0.0 ==> exact == price)
  {
    if d > 100.0 {
      RoundInt(0);
      assert ClampDiscount(Some(d)) / 100.0 == 1.0;
    }
  }

  lemma IncludedOfOnTop(cents: int, rate: real)
    requires 0.0 <= rate
    ensures Included(OnTop(cents, rate).totalCents, rate) == OnTop(cents, rate)
  {
    SplitBack(cents, OnTop(cents, rate).taxCents, rate / 100.0, 1.0 + rate / 100.0);
  }

  // Tax round trip: the total of a line with the tax on top, typed as a
  // tax-included price, is split back into the same base and tax, for every
  // line and every rate of 0 or more.
  lemma OnTopSplitsBack(line: LineInput)
    requires !line.taxIncluded && TaxRate(line) >= 0.0
    ensures var a := ComputeInvoiceLine(line);
      ComputeInvoiceLine(LineInput(Some(1.0), Some(a.totalCents as real), None, line.taxRate, true)) == a
  {
    hide LineCents, OnTop, Included;
    var a := ComputeInvoiceLine(line);
    OneUnit(a.totalCents as real, line.taxRate, true);
    RoundInt(a.totalCents);
    IncludedOfOnTop(LineCents(line), TaxRate(line));
  }

  // A tax-included price taxed again from its base: off by at most
  // 1 + rate/200 cents.
  lemma RetaxBound(cents: int, r: real)
    requires 0.0 <= r
    ensures var base := Round(cents as real / (1.0 + r)); var again := base + Round(base as real * r);
      -(1.0 + r / 2.0) <= (again - cents) as real <= 1.0 + r / 2.0
  {
    var base := Round(cents as real / (1.0 + r));
    RoundQuotient(cents as real, 1.0 + r, base);
    assert base as real * (1.0 + r) == base as real + base as real * r;
  }

  // A tax-included price, split, and taxed again from its base.
  function Retaxed(cents: int, rate: real): (r: int)
    requires 1.0 + rate / 100.0 != 0.0
  {
    OnTop(Included(cents, rate).baseCents, rate).totalCents
  }

  // The price that comes back is again if and only if some base rounds to both:
  // f is one plus the rate.
  lemma RetaxedFrom(cents: int, rate: real, f: real, base: int, again: int)
    requires 0.0 <= rate && f == 1.0 + rate / 100.0
    requires base as real * f - 0.5 * f <= cents as real < base as real * f + 0.5 * f
    requires again as real - 0.5 <= base as real * f < again as real + 0.5
    ensures Retaxed(cents, rate) == again
  {
    RoundQuotient(cents as real, f, base);
    var bf, b := base as real * f, base as real;
    assert bf == b + b * (rate / 100.0);
    RoundUnique(b * (rate / 100.0), again - base);
  }

  lemma RetaxWithinOneCent(cents: int, rate: real)
    requires 0.0 <= rate <= 200.0
    ensures -1 <= Retaxed(cents, rate) - cents <= 1
  {
    var f := 1.0 + rate / 100.0;
    var base := Round(cents as real / f);
    RoundQuotient(cents as real, f, base);
    var bf := base as real * f;
    var again := Round(bf);
    RetaxedFrom(cents, rate, f, base, again);
    if rate == 200.0 {
      assert bf == (3 * base) as real;
      RoundInt(3 * base);
    }
  }

  // A fraction in lowest terms, with the integers that show it is.
  lemma Euclid(a: nat, b: nat) returns (g: nat, p: nat, q: nat, x: int, y: int)
    requires a > 0 || b > 0
    ensures g > 0 && a == g * p && b == g * q && x * p + y * q == 1
    decreases b
  {
    if b == 0 {
      g, p, q, x, y := a, 1, 0, 1, 0;
    } else {
      DivMod(a, b);
      var k, r := a / b, a % b;
      var g', p', q', x', y' := Euclid(b, r);
      g, p, q, x, y := g', k * p' + q', p', y', x' - k * y';
      EuclidStep(a, b, k, r, g', p', q', x', y');
    }
  }

  lemma EuclidStep(a: nat, b: nat, k: nat, r: nat, g: nat, p: nat, q: nat, x: int, y: int)
    requires a == k * b + r && b == g * p && r == g * q && x * p + y * q == 1
    ensures a == g * (k * p + q) && y * (k * p + q) + (x - k * y) * p == 1
  {
    assert k * (g * p) == g * (k * p);
    assert y * (k * p + q) == k * y * p + y * q;
    assert (x - k * y) * p == x * p - k * y * p;
  }

  // b times n/d is m - 1/2, or 1/(2d) above it.
  predicate NearHalf(n: int, d: int, b: int, m: int) { 0 <= 2 * (b * n - m * d) + d <= 1 }

  // There are such b and m, with b as large as wanted.
  lemma HalfAbove(n: nat, d: nat, x: int, y: int) returns (b: nat, m: int)
    requires d > 0 && x * n + y * d == 1
    ensures b >= 1 && NearHalf(n, d, b, m)
  {
    hide NearHalf;
    var b0, m0: int;
    if d % 2 == 0 {
      b0, m0 := HalfOfEven(n, d / 2, x, y);
    } else {
      b0, m0 := HalfOfOdd(n, d, x, y);
    }
    var k := if b0 >= 1 then 0 else 1 - b0;
    ProductOrder(1, d, k);
    Shifted(n, d, b0, m0, k);
    b, m := b0 + k * d, m0 + k * n;
  }

  lemma HalfOfEven(n: nat, h: nat, x: int, y: int) returns (b: int, m: int)
    requires h > 0 && x * n + y * (2 * h) == 1
    ensures NearHalf(n, 2 * h, b, m)
  {
    OddWhenEven(n, h, x, y);
    b, m := h, (n + 1) / 2;
    HalvesMeet(n, h, m);
  }

  lemma HalvesMeet(n: nat, h: nat, m: int)
    requires 2 * m == n + 1
    ensures 2 * (h * n - m * (2 * h)) + 2 * h == 0
  {
    assert m * (2 * h) == (2 * m) * h;
    Distribute(n, 1, h);
  }

  lemma HalfOfOdd(n: nat, d: nat, x: int, y: int) returns (b: int, m: int)
    requires d % 2 == 1 && x * n + y * d == 1
    ensures NearHalf(n, d, b, m)
  {
    var c := (1 - d) / 2;
    b, m := x * c, -(y * c);
    Scaled(n, d, x, y, c);
  }

  lemma OddWhenEven(n: nat, h: nat, x: int, y: int)
    requires x * n + y * (2 * h) == 1
    ensures n % 2 == 1
  {
    var i, odd := n / 2, n % 2;
    assert x * n == 2 * (x * i) + x * odd by { Distribute(2 * i, odd, x); }
    assert y * (2 * h) == 2 * (y * h);
    assert odd == 0 ==> x * odd == 0;
  }

  lemma Scaled(n: nat, d: nat, x: int, y: int, c: int)
    requires x * n + y * d == 1
    ensures (x * c) * n - (-(y * c)) * d == c
  {
    var xn, yd := x * n, y * d;
    assert (x * c) * n == xn * c;
    assert (-(y * c)) * d == -(yd * c);
    Distribute(xn, yd, c);
  }

  lemma Shifted(n: nat, d: nat, b: int, m: int, k: int)
    requires NearHalf(n, d, b, m)
    ensures NearHalf(n, d, b + k * d, m + k * n)
  {
    var kd, kn := k * d, k * n;
    Distribute(b, kd, n);
    Distribute(m, kn, d);
    assert kd * n == kn * d;
  }

  // Such a base, for a rate above 200 %, is the one of m - 2 cents, and comes
  // back as m.
  lemma TwoCentsMore(n: nat, d: nat, b: nat, m: int, rate: real)
    requires d > 0 && n > 3 * d && 1.0 + rate / 100.0 == n as real / d as real && b >= 1
    requires NearHalf(n, d, b, m)
    ensures m >= 2 && Retaxed(m - 2, rate) == m
  {
    hide Retaxed;
    var f, D := n as real / d as real, d as real;
    var unit := 1.0 / D;
    Quotients(n, d, f, D, unit);
    UnitBounds(n, d, f, D, unit);
    ProductAgain(b, n, f, D);
    var bf := b as real * f;
    Above(bf, m, D, unit, b * n, d);
    RealProductOrder(1.0, b as real, f);
    hide NearHalf;
    RetaxedFrom(m - 2, rate, f, b, m);
  }

  lemma Quotients(n: nat, d: nat, f: real, D: real, unit: real)
    requires d > 0 && D == d as real && f == n as real / D && unit == 1.0 / D
    ensures f * D == n as real && unit * D == 1.0
  {
  }

  lemma ProductAgain(b: nat, n: nat, f: real, D: real)
    requires f * D == n as real
    ensures (b as real * f) * D == (b * n) as real
  {
    var B := b as real;
    assert (B * f) * D == B * (f * D);
    assert B * n as real == (b * n) as real;
  }

  lemma UnitBounds(n: nat, d: nat, f: real, D: real, unit: real)
    requires d > 0 && D == d as real && n > 3 * d && f * D == n as real && unit * D == 1.0
    ensures 0.0 < unit <= 1.0 && f >= 3.0 + unit
  {
    RealScale(0.0, unit, D, 0.0, 1.0);
    RealScale(1.0, unit, D, D, 1.0);
    RealScale(unit, 1.0, D, 1.0, D);
    RealScale(unit, 0.0, D, 1.0, 0.0);
    Added(3.0, unit, D);
    RealScale(3.0 + unit, f, D, 3.0 * D + 1.0, n as real);
  }

  lemma Added(a: real, u: real, D: real)
    ensures (a + u) * D == a * D + u * D
  {
  }

  lemma Above(bf: real, m: int, D: real, unit: real, bn: int, d: nat)
    requires d > 0 && D == d as real && unit * D == 1.0
    requires bf * D == bn as real && 0 <= 2 * (bn - m * d) + d <= 1
    ensures m as real - 0.5 <= bf <= m as real - 0.5 + 0.5 * unit
  {
    var md := (m * d) as real;
    assert m as real * D == md;
    var low := m as real - 0.5;
    Added(m as real, -0.5, D);
    RealScale(low, bf, D, md - 0.5 * D, bn as real);
    HalfUnit(unit, D);
    Added(low, 0.5 * unit, D);
    RealScale(bf, low + 0.5 * unit, D, bn as real, md - 0.5 * D + 0.5);
  }

  lemma HalfUnit(unit: real, D: real)
    requires unit * D == 1.0
    ensures (0.5 * unit) * D == 0.5
  {
  }

  // Above 200 % one cent is never enough: whatever the rate, of those that are
  // fractions as every number typed is, some price comes back two cents
  // higher.
  lemma RetaxOffByTwo(n: nat, d: nat, rate: real) returns (price: nat)
    requires d > 0 && 1.0 + rate / 100.0 == n as real / d as real && rate > 200.0
    ensures Retaxed(price, rate) == price + 2
  {
    var g, p, q, x, y := Euclid(n, d);
    SameFraction(n, d, g, p, q);
    var b, m := HalfAbove(p, q, x, y);
    MoreThanThree(p, q, rate);
    TwoCentsMore(p, q, b, m, rate);
    price := m - 2;
  }

  lemma SameFraction(n: nat, d: nat, g: nat, p: nat, q: nat)
    requires d > 0 && g > 0 && n == g * p && d == g * q
    ensures q > 0 && n as real / d as real == p as real / q as real
  {
    assert q == 0 ==> g * q == 0;
    var G, P, Q := g as real, p as real, q as real;
    assert n as real == G * P && d as real == G * Q;
    assert (P / Q) * Q == P;
    assert (G * P) == (P / Q) * (G * Q);
  }

  lemma MoreThanThree(p: nat, q: nat, rate: real)
    requires q > 0 && 1.0 + rate / 100.0 == p as real / q as real && rate > 200.0
    ensures p > 3 * q
  {
    var f, Q := p as real / q as real, q as real;
    assert f * Q == p as real;
    RealProductOrder(3.0, f, Q);
  }

  // Exactly when one cent is enough for every price.
  lemma RetaxIsWithinOneCent(n: nat, d: nat, rate: real)
    requires d > 0 && 1.0 + rate / 100.0 == n as real / d as real && rate >= 0.0
    ensures (forall price: nat :: -1 <= Retaxed(price, rate) - price <= 1) <==> rate <= 200.0
  {
    if rate <= 200.0 {
      forall price: nat ensures -1 <= Retaxed(price, rate) - price <= 1 {
        RetaxWithinOneCent(price, rate);
      }
    } else {
      var price := RetaxOffByTwo(n, d, rate);
      assert Retaxed(price, rate) == price + 2;
    }
  }

  // For one, 2 cents at 300 % come back as 4.
  lemma RetaxAtThreeHundred()
    ensures Retaxed(2, 300.0) == 4
  {
    RoundUnique(0.5, 1);
    RoundInt(3);
  }

  // ---------------------------------------------------- prices clients see

  // None is a rate that is not finite.
  function EffectiveRate(ratePercent: Option<real>): (r: real) {
    if ratePercent.Some? && ratePercent.value > 0.0 then ratePercent.value else 0.0
  }

  function ClientPriceCents(priceCents: real, ratePercent: Option<real>, pricesIncludeTax: bool): (r: int) {
    var cents := Round(priceCents);
    if pricesIncludeTax then cents
    else cents + Round(cents as real * (EffectiveRate(ratePercent) / 100.0))
  }

  // pricesTaxExample, in cents.
  function PricesTaxExample(ratePercent: Option<real>, pricesIncludeTax: bool, priceCents: int): (r: Amounts) {
    var rate := EffectiveRate(ratePercent);
    if pricesIncludeTax then
      var base := Round(priceCents as real / (1.0 + rate / 100.0));
      Amounts(base, priceCents - base, priceCents)
    else
      var tax := Round(priceCents as real * (rate / 100.0));
      Amounts(priceCents, tax, priceCents + tax)
  }

  // A negative rate counts as none for the client and is applied on the
  // invoice: what a client sees is what one unit is invoiced at if and only if
  // the rate is 0 or more, the price includes the tax, or the tax is less than
  // half a cent. A missing rate counts as 0 on both.
  lemma ClientPriceIsInvoiced(priceCents: real, ratePercent: Option<real>, pricesIncludeTax: bool)
    requires pricesIncludeTax ==> 1.0 + ratePercent.GetOr(0.0) / 100.0 != 0.0
    ensures var line := LineInput(Some(1.0), Some(priceCents), None, ratePercent, pricesIncludeTax);
      var rate := ratePercent.GetOr(0.0);
      ClientPriceCents(priceCents, ratePercent, pricesIncludeTax) == ComputeInvoiceLine(line).totalCents <==>
        pricesIncludeTax || rate >= 0.0 || -0.5 <= Round(priceCents) as real * (rate / 100.0) < 0.5
  {
    OneUnit(priceCents, ratePercent, pricesIncludeTax);
    NoTax(Round(priceCents) as real * (ratePercent.GetOr(0.0) / 100.0));
    NoTax(0.0);
    assert EffectiveRate(ratePercent) == 0.0 ==> Round(priceCents) as real * (EffectiveRate(ratePercent) / 100.0) == 0.0;
    hide Round, LineCents;
  }

  lemma NoTax(tax: real)
    ensures Round(tax) == 0 <==> -0.5 <= tax < 0.5
  {
    if -0.5 <= tax < 0.5 { RoundUnique(tax, 0); }
  }

  function Abs(x: real): (r: real) { if x < 0.0 then -x else x }

  // A price with the tax inside it is its own base if and only if the tax on
  // it is within half a cent of base.
  lemma BaseIsPrice(price: int, r: real)
    requires 1.0 + r != 0.0
    ensures var tax := price as real * r; var half := Abs(1.0 + r) / 2.0;
      Round(price as real / (1.0 + r)) == price <==>
        (-half < tax < half) || (if 1.0 + r > 0.0 then tax == half else tax == -half)
  {
    var p, f := price as real, 1.0 + r;
    var pf := p * f;
    Taxed(p, r);
    if f > 0.0 {
      RoundQuotient(p, f, price);
    } else {
      Flipped(p, f);
      RoundQuotient(-p, -f, price);
      assert p * (-f) == -pf;
    }
    hide Round;
  }

  lemma Taxed(p: real, r: real)
    ensures p * (1.0 + r) == p + p * r
  {
  }

  lemma Flipped(p: real, f: real)
    requires f != 0.0
    ensures p / f == (-p) / (-f)
  {
    var q := p / f;
    assert q * f == p;
    assert q * (-f) == -p;
  }

  // The worked example is the invoice of one unit, amount by amount, if and
  // only if the rate is 0 or more or the tax is within half a cent; with the
  // tax included, of the base.
  lemma ExampleIsInvoiced(priceCents: int, ratePercent: Option<real>, pricesIncludeTax: bool)
    requires pricesIncludeTax ==> 1.0 + ratePercent.GetOr(0.0) / 100.0 != 0.0
    ensures var line := LineInput(Some(1.0), Some(priceCents as real), None, ratePercent, pricesIncludeTax);
      var r := ratePercent.GetOr(0.0) / 100.0; var tax := priceCents as real * r;
      var half := if pricesIncludeTax then Abs(1.0 + r) / 2.0 else 0.5;
      PricesTaxExample(ratePercent, pricesIncludeTax, priceCents) == ComputeInvoiceLine(line) <==>
        r >= 0.0 || (-half < tax < half) || (if pricesIncludeTax && 1.0 + r > 0.0 then tax == half else tax == -half)
  {
    hide PricesTaxExample, ComputeInvoiceLine, Included, OnTop;
    var rate := ratePercent.GetOr(0.0);
    ExampleAtRate(priceCents, ratePercent, pricesIncludeTax);
    InvoiceOfOne(priceCents, ratePercent, pricesIncludeTax);
    if rate < 0.0 {
      if pricesIncludeTax {
        IncludedAgrees(priceCents, rate);
      } else {
        var tax := priceCents as real * (rate / 100.0);
        OnTopAgrees(priceCents, rate);
        assert OnTop(priceCents, 0.0) == OnTop(priceCents, rate) <==> (-0.5 < tax < 0.5) || tax == -0.5;
      }
    } else {
      assert EffectiveRate(ratePercent) == rate;
    }
  }

  lemma ExampleAtRate(priceCents: int, ratePercent: Option<real>, pricesIncludeTax: bool)
    ensures var rate := EffectiveRate(ratePercent);
      PricesTaxExample(ratePercent, pricesIncludeTax, priceCents)
        == if pricesIncludeTax then Included(priceCents, rate) else OnTop(priceCents, rate)
  {
    hide Round;
  }

  lemma InvoiceOfOne(priceCents: int, ratePercent: Option<real>, pricesIncludeTax: bool)
    requires pricesIncludeTax ==> 1.0 + ratePercent.GetOr(0.0) / 100.0 != 0.0
    ensures var rate := ratePercent.GetOr(0.0);
      ComputeInvoiceLine(LineInput(Some(1.0), Some(priceCents as real), None, ratePercent, pricesIncludeTax))
        == if pricesIncludeTax then Included(priceCents, rate) else OnTop(priceCents, rate)
  {
    OneUnit(priceCents as real, ratePercent, pricesIncludeTax);
    RoundInt(priceCents);
    hide LineCents, Round, Included, OnTop;
  }

  lemma IncludedAgrees(priceCents: int, rate: real)
    requires 1.0 + rate / 100.0 != 0.0
    ensures var r := rate / 100.0; var tax := priceCents as real * r; var half := Abs(1.0 + r) / 2.0;
      Included(priceCents, 0.0) == Included(priceCents, rate) <==>
        (-half < tax < half) || (if 1.0 + r > 0.0 then tax == half else tax == -half)
  {
    BaseIsPrice(priceCents, rate / 100.0);
    RoundInt(priceCents);
    assert priceCents as real / (1.0 + 0.0 / 100.0) == priceCents as real;
    hide Round, Abs;
  }

  lemma OnTopAgrees(priceCents: int, rate: real)
    ensures var tax := priceCents as real * (rate / 100.0);
      OnTop(priceCents, 0.0) == OnTop(priceCents, rate) <==> (-0.5 < tax < 0.5) || tax == -0.5
  {
    NoTax(priceCents as real * (rate / 100.0));
    assert priceCents as real * (0.0 / 100.0) == 0.0;
    NoTax(0.0);
    hide Round;
  }
}
