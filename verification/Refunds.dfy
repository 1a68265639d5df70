// Refunding a till sale unit by unit (payments-format.ts).
module Refunds {
  import opened Arithmetic
  import opened Common
  import opened Rounding

  datatype SaleLine = SaleLine(
    id: string,
    quantity: int,
    refundedQuantity: int,
    refundableQuantity: int,
    totalCents: int,
    refundedCents: int,
    refundableCents: int)

  // The units' share of the line, and all that is left of it for its last
  // units.
  function UnitsValueCents(line: SaleLine, quantity: int): (r: int) {
    if quantity <= 0 then 0
    else if quantity >= line.refundableQuantity then line.refundableCents
    else if line.quantity <= 0 then 0
    else Min(line.refundableCents, Round((line.totalCents * quantity) as real / line.quantity as real))
  }

  // The line after `quantity` more units are given back at their value.
  function Refunded(line: SaleLine, quantity: int): (r: SaleLine) {
    var value := UnitsValueCents(line, quantity);
    line.(
      refundedQuantity := line.refundedQuantity + quantity,
      refundableQuantity := line.refundableQuantity - quantity,
      refundedCents := line.refundedCents + value,
      refundableCents := line.refundableCents - value)
  }

  function Sold(id: string, quantity: nat, totalCents: nat): (r: SaleLine) {
    SaleLine(id, quantity, 0, quantity, totalCents, 0, totalCents)
  }

  // A run of refunds: each of at least one unit and at most what is left.
  predicate ValidRun(line: SaleLine, units: seq<int>)
    decreases |units|
  {
    units == [] || (1 <= units[0] <= line.refundableQuantity && ValidRun(Refunded(line, units[0]), units[1..]))
  }

  function AfterRun(line: SaleLine, units: seq<int>): (r: SaleLine)
    decreases |units|
  {
    if units == [] then line else AfterRun(Refunded(line, units[0]), units[1..])
  }

  // After n refunds: the books balance, and what was given back is within
  // n/2 cents of the units' proportional part of the line.
  ghost predicate Balanced(line: SaleLine, n: nat) {
    && line.quantity > 0 && line.totalCents >= 0
    && 0 <= line.refundedQuantity && 0 <= line.refundableQuantity
    && line.refundedQuantity + line.refundableQuantity == line.quantity
    && 0 <= line.refundedCents && 0 <= line.refundableCents
    && line.refundedCents + line.refundableCents == line.totalCents
    && (line.refundableQuantity == 0 ==> line.refundableCents == 0)
    && -(n * line.quantity) <= 2 * Drift(line) <= n * line.quantity
  }

  // Cents given back above the proportional part, times the quantity sold.
  ghost function Drift(line: SaleLine): (r: int) {
    line.refundedCents * line.quantity - line.totalCents * line.refundedQuantity
  }

  lemma RoundRatio(n: int, d: int)
    requires d > 0
    ensures var r := Round(n as real / d as real); 2 * r * d - d <= 2 * n < 2 * r * d + d
  {
    var r := Round(n as real / d as real);
    RoundQuotient(n as real, d as real, r);
    assert r as real * d as real == (r * d) as real;
    assert 2 * r * d == 2 * (r * d);
    assert (2 * (r * d) - d) as real <= (2 * n) as real < (2 * (r * d) + d) as real;
  }

  // The drift of one refund: R and R' cents given back before and after, U
  // and U + q units, of a line of Q units and T cents; v the refund's cents.
  lemma DriftStep(T: int, Q: int, U: int, q: int, R: int, v: int, n: nat)
    requires 0 < Q && 0 <= T && 0 <= U && 1 <= q && U + q <= Q
    requires -(n * Q) <= 2 * (R * Q - T * U) <= n * Q
    requires R + v <= T
    requires
      || -Q <= 2 * (v * Q - T * q) <= Q
      || (R + v == T && (U + q == Q || 2 * (v * Q - T * q) <= Q))
    ensures -((n + 1) * Q) <= 2 * ((R + v) * Q - T * (U + q)) <= (n + 1) * Q
  {
    Distribute(R, v, Q);
    Distribute(U, q, T);
    Distribute(n, 1, Q);
    if R + v == T {
      ProductOrder(U + q, Q, T);
      assert (n + 1) * Q >= 0;
    }
  }

  lemma RefundBalanced(line: SaleLine, q: int, n: nat)
    requires Balanced(line, n) && 1 <= q <= line.refundableQuantity
    ensures Balanced(Refunded(line, q), n + 1)
    ensures 0 <= UnitsValueCents(line, q) <= line.refundableCents
  {
    var v := UnitsValueCents(line, q);
    ValueBounds(line, q);
    DriftStep(line.totalCents, line.quantity, line.refundedQuantity, q, line.refundedCents, v, n);
  }

  lemma ValueBounds(line: SaleLine, q: int)
    requires line.quantity > 0 && line.totalCents >= 0 && line.refundableCents >= 0 && 1 <= q <= line.refundableQuantity
    ensures var v := UnitsValueCents(line, q); var excess := v * line.quantity - line.totalCents * q;
      && 0 <= v <= line.refundableCents
      && (q == line.refundableQuantity ==> v == line.refundableCents)
      && (q < line.refundableQuantity ==> 2 * excess <= line.quantity)
      && (v < line.refundableCents ==> -line.quantity <= 2 * excess)
  {
    if q < line.refundableQuantity {
      var T, Q := line.totalCents, line.quantity;
      var r := Round((T * q) as real / Q as real);
      RoundRatio(T * q, Q);
      ProductOrder(0, q, T);
      assert UnitsValueCents(line, q) == Min(line.refundableCents, r);
      hide Round, UnitsValueCents;
      CappedRound(r, T * q, Q, line.refundableCents);
    }
  }

  // r is p / Q rounded; v is r, or the cap when that is less.
  lemma CappedRound(r: int, p: int, Q: int, cap: int)
    requires 0 < Q && 0 <= p && 0 <= cap && 2 * r * Q - Q <= 2 * p < 2 * r * Q + Q
    ensures var v := Min(cap, r);
      && 0 <= v && 2 * (v * Q - p) <= Q
      && (v < cap ==> -Q <= 2 * (v * Q - p))
  {
    var v, rQ := Min(cap, r), r * Q;
    assert 2 * r * Q == 2 * rQ;
    ProductOrder(r, -1, Q);
    ProductOrder(v, r, Q);
  }

  lemma {:induction false} RunBalanced(line: SaleLine, units: seq<int>, n: nat)
    requires Balanced(line, n) && ValidRun(line, units)
    ensures Balanced(AfterRun(line, units), n + |units|)
    ensures AfterRun(line, units).quantity == line.quantity && AfterRun(line, units).totalCents == line.totalCents
    ensures AfterRun(line, units).refundedQuantity == line.refundedQuantity + Sum(units)
    decreases |units|
  {
    if units != [] {
      RefundBalanced(line, units[0], n);
      RunBalanced(Refunded(line, units[0]), units[1..], n + 1);
    }
  }

  // Main result: over any run of refunds of a sold line, the money given
  // back never exceeds the line, is the whole line once all its units are
  // back, and after n refunds is within n/2 cents of the units' proportional
  // part, also where the cap on the last units applies.
  lemma RefundRun(id: string, quantity: nat, totalCents: nat, units: seq<int>)
    requires quantity > 0 && ValidRun(Sold(id, quantity, totalCents), units)
    ensures var after := AfterRun(Sold(id, quantity, totalCents), units); var n := |units|;
      && 0 <= after.refundedCents <= totalCents
      && after.refundedQuantity == Sum(units) <= quantity
      && (Sum(units) == quantity ==> after.refundedCents == totalCents)
      && -(n * quantity) <= 2 * (after.refundedCents * quantity - totalCents * Sum(units)) <= n * quantity
  {
    RunBalanced(Sold(id, quantity, totalCents), units, 0);
  }

  // ------------------------------------------------------------ picked lines

  datatype Pick = Pick(lineId: string, quantity: int)

  // The units picked of a line: whole, and never more than can be refunded.
  function PickedUnits(line: SaleLine, picks: map<string, real>): (r: nat) {
    Max(0, Min(line.refundableQuantity, (if line.id in picks then picks[line.id] else 0.0).Floor))
  }

  // Part of a unit is not refunded, and more than there is counts as all.
  lemma PickedUnitsAreWhole(line: SaleLine, picks: map<string, real>, n: nat)
    requires line.id in picks && n <= line.refundableQuantity
    ensures PickedUnits(line, picks) == n <==>
      (if n == 0 then picks[line.id] < 1.0 || line.refundableQuantity == 0
       else n as real <= picks[line.id] && (picks[line.id] < (n + 1) as real || n == line.refundableQuantity))
  {
    var x := picks[line.id];
    assert x.Floor as real <= x < (x.Floor + 1) as real;
  }

  function PickedLines(lines: seq<SaleLine>, picks: map<string, real>): (r: (seq<Pick>, int)) {
    if lines == [] then ([], 0)
    else
      var units := PickedUnits(lines[0], picks);
      var (more, value) := PickedLines(lines[1..], picks);
      if units > 0 then ([Pick(lines[0].id, units)] + more, UnitsValueCents(lines[0], units) + value)
      else (more, value)
  }

  // What is refunded: for each line, in order, the units picked of it at their
  // value, lines of which none is picked left out.
  function AllPicks(lines: seq<SaleLine>, picks: map<string, real>): (r: seq<Pick>)
    ensures |r| == |lines|
    ensures forall i :: 0 <= i < |r| ==> r[i] == Pick(lines[i].id, PickedUnits(lines[i], picks))
  {
    seq(|lines|, i requires 0 <= i < |lines| => Pick(lines[i].id, PickedUnits(lines[i], picks)))
  }

  function PickedValues(lines: seq<SaleLine>, picks: map<string, real>): (r: seq<int>)
    ensures |r| == |lines|
    ensures forall i :: 0 <= i < |r| ==> r[i] == UnitsValueCents(lines[i], PickedUnits(lines[i], picks))
  {
    seq(|lines|, i requires 0 <= i < |lines| => UnitsValueCents(lines[i], PickedUnits(lines[i], picks)))
  }

  lemma {:induction false} EveryPickCounts(lines: seq<SaleLine>, picks: map<string, real>)
    ensures PickedLines(lines, picks).0 == Filter(AllPicks(lines, picks), (p: Pick) => p.quantity > 0)
    ensures PickedLines(lines, picks).1 == Sum(PickedValues(lines, picks))
  {
    if lines != [] {
      hide PickedUnits;
      EveryPickCounts(lines[1..], picks);
      assert AllPicks(lines, picks)[1..] == AllPicks(lines[1..], picks);
      assert PickedValues(lines, picks)[1..] == PickedValues(lines[1..], picks);
    }
  }

  // Part of a line is worth its units' share to the nearest cent, a half going
  // up, while that is not more than is left of it.
  lemma UnitsAtNearestCent(line: SaleLine, q: int)
    requires line.quantity > 0 && 1 <= q < line.refundableQuantity
    ensures var v := UnitsValueCents(line, q); var T, Q := line.totalCents, line.quantity;
      v < line.refundableCents ==> 2 * (v * Q) - Q <= 2 * (T * q) < 2 * (v * Q) + Q
  {
    var r := Round((line.totalCents * q) as real / line.quantity as real);
    RoundRatio(line.totalCents * q, line.quantity);
    assert 2 * r * line.quantity == 2 * (r * line.quantity);
    hide Round;
  }

  ghost predicate PickedFrom(pick: Pick, lines: seq<SaleLine>) {
    exists i :: 0 <= i < |lines| && pick.lineId == lines[i].id && 1 <= pick.quantity <= lines[i].refundableQuantity
  }

  function RefundableSum(lines: seq<SaleLine>): (r: int) {
    if lines == [] then 0
    else (if lines[0].refundableQuantity > 0 then lines[0].refundableCents else 0) + RefundableSum(lines[1..])
  }

  // Whatever is typed, the refund asks for at least one and at most the
  // refundable units of each line, is worth at most what is left of the sale,
  // and is worth all of it when every line is picked in full.
  lemma {:induction false} PickedWithinRefundable(lines: seq<SaleLine>, picks: map<string, real>)
    requires forall i :: 0 <= i < |lines| ==> lines[i].quantity > 0 && lines[i].totalCents >= 0 && lines[i].refundableCents >= 0
    ensures var (picked, value) := PickedLines(lines, picks);
      && 0 <= value <= RefundableSum(lines)
      && (forall k :: 0 <= k < |picked| ==> PickedFrom(picked[k], lines))
      && ((forall i :: 0 <= i < |lines| ==> PickedUnits(lines[i], picks) == Max(0, lines[i].refundableQuantity))
          ==> value == RefundableSum(lines))
  {
    if lines != [] {
      var rest := lines[1..];
      PickedWithinRefundable(rest, picks);
      var units := PickedUnits(lines[0], picks);
      if units > 0 { ValueBounds(lines[0], units); }
      var (picked, _) := PickedLines(lines, picks);
      var (more, _) := PickedLines(rest, picks);
      forall k | 0 <= k < |picked|
        ensures PickedFrom(picked[k], lines)
      {
        if units > 0 && k == 0 {
          assert picked[0].lineId == lines[0].id;
        } else {
          var m := if units > 0 then k - 1 else k;
          assert PickedFrom(more[m], rest);
          var i :| 0 <= i < |rest| && more[m].lineId == rest[i].id && 1 <= more[m].quantity <= rest[i].refundableQuantity;
          assert rest[i] == lines[i + 1];
        }
      }
    }
  }
}
