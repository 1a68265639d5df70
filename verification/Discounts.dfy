// Discounts at the till (pos-discounts.ts). A line's own discount comes off
// first, then the ticket's discount off what is left, shared over the lines.
module Discounts {
  import opened Allocation
  import opened Arithmetic
  import opened Common
  import opened Rounding

  datatype DiscountKind = Percentage | Fixed

  // A percent of the base, or cents.
  datatype Spec = Spec(kind: DiscountKind, value: real)

  datatype Line = Line(price: nat, quantity: nat, discount: Option<Spec>)

  datatype TicketLine = TicketLine(grossCents: int, lineDiscountCents: int, orderDiscountCents: int, netCents: int)

  datatype Ticket = Ticket(
    lines: seq<TicketLine>,
    subtotalCents: int,
    lineDiscountsCents: int,
    orderBaseCents: int,
    orderDiscountCents: int,
    discountCents: int,
    totalCents: int)

  predicate IsDiscount(spec: Option<Spec>) {
    spec.Some? && spec.value.value > 0.0
  }

  function DiscountCents(spec: Option<Spec>, baseCents: int): (r: int) {
    if !IsDiscount(spec) then 0
    else
      var v := spec.value.value;
      match spec.value.kind
      case Percentage =>
        var hundredths := Round((if v < 100.0 then v else 100.0) * 100.0);
        Round((baseCents * hundredths) as real / 10000.0)
      case Fixed => Min(Round(v), baseCents)
  }

  function Gross(l: Line): (r: nat) { l.price * l.quantity }

  function LineDiscount(l: Line): (r: int) { DiscountCents(l.discount, Gross(l)) }

  function Grosses(lines: seq<Line>): (r: seq<int>) {
    seq(|lines|, i requires 0 <= i < |lines| => Gross(lines[i]))
  }

  function LineDiscounts(lines: seq<Line>): (r: seq<int>) {
    seq(|lines|, i requires 0 <= i < |lines| => LineDiscount(lines[i]))
  }

  // What each line's own discount leaves: the weights of the ticket's.
  function Leftovers(lines: seq<Line>): (r: seq<int>) {
    seq(|lines|, i requires 0 <= i < |lines| => Gross(lines[i]) - LineDiscount(lines[i]))
  }

  function ApplyDiscounts(lines: seq<Line>, orderDiscount: Option<Spec>): (t: Ticket)
    ensures |t.lines| == |lines|
  {
    var subtotal := Sum(Grosses(lines));
    var lineDiscounts := Sum(LineDiscounts(lines));
    var orderBase := subtotal - lineDiscounts;
    var orderCents := DiscountCents(orderDiscount, orderBase);
    var shares := Shares(orderCents, Leftovers(lines));
    var out := seq(|lines|, i requires 0 <= i < |lines| =>
      TicketLine(Gross(lines[i]), LineDiscount(lines[i]), shares[i],
        Gross(lines[i]) - LineDiscount(lines[i]) - shares[i]));
    Ticket(out, subtotal, lineDiscounts, orderBase, orderCents, lineDiscounts + orderCents,
      subtotal - (lineDiscounts + orderCents))
  }

  datatype SpecRefusal = NegativeValue | PercentAbove100 | AboveBase

  function DiscountProblem(spec: Spec, baseCents: int): (r: Option<SpecRefusal>) {
    if spec.value < 0.0 then Some(NegativeValue)
    else if spec.kind.Percentage? && spec.value > 100.0 then Some(PercentAbove100)
    else if spec.kind.Fixed? && spec.value > baseCents as real then Some(AboveBase)
    else None
  }

  function Rate(spec: Option<Spec>, baseCents: int): (r: real) {
    if !IsDiscount(spec) then 0.0
    else if spec.value.kind.Percentage? then spec.value.value / 100.0
    else if baseCents > 0 then spec.value.value / baseCents as real
    else 0.0
  }

  // The staff limit as a whole percent between 0 and 100.
  function Limit(maxPercent: real): (max: int)
    ensures 0 <= max <= 100
    ensures 0.0 <= maxPercent ==> max as real <= maxPercent
  {
    Max(0, Min(100, maxPercent.Floor))
  }

  const TOLERANCE := 1.0 / 1000000000.0

  function Cap(max: int): (r: real)
    ensures max >= 0 ==> r > 0.0
  {
    max as real / 100.0 + TOLERANCE
  }

  predicate OverLimit(lines: seq<Line>, i: nat, orderRate: real, max: int)
    requires i < |lines|
  {
    var gross := Gross(lines[i]);
    gross > 0 && 1.0 - (1.0 - Rate(lines[i].discount, gross)) * (1.0 - orderRate) > Cap(max)
  }

  datatype StaffRefusal = StaffMayNotDiscount | LineOverLimit(max: int)

  // staffLimitProblem: the first line over the limit refuses the ticket.
  method StaffLimitProblem(lines: seq<Line>, orderDiscount: Option<Spec>, maxPercent: real)
    returns (refusal: Option<StaffRefusal>)
    ensures refusal == StaffProblem(lines, orderDiscount, maxPercent)
  {
    var ticket := ApplyDiscounts(lines, orderDiscount);
    if ticket.discountCents <= 0 { return None; }
    var max := Limit(maxPercent);
    if max == 0 { return Some(StaffMayNotDiscount); }
    var orderRate := Rate(orderDiscount, ticket.orderBaseCents);
    for i := 0 to |lines|
      invariant forall k :: 0 <= k < i ==> !OverLimit(lines, k, orderRate, max)
    {
      if ticket.lines[i].grossCents <= 0 { continue; }
      if OverLimit(lines, i, orderRate, max) {
        return Some(LineOverLimit(max));
      }
    }
    return None;
  }

  ghost function StaffProblem(lines: seq<Line>, orderDiscount: Option<Spec>, maxPercent: real)
    : (r: Option<StaffRefusal>)
  {
    var ticket := ApplyDiscounts(lines, orderDiscount);
    var max := Limit(maxPercent);
    if ticket.discountCents <= 0 then None
    else if max == 0 then Some(StaffMayNotDiscount)
    else if exists i :: 0 <= i < |lines| && OverLimit(lines, i, Rate(orderDiscount, ticket.orderBaseCents), max)
    then Some(LineOverLimit(max))
    else None
  }

  // ------------------------------------------------------------ conservation

  // No spec, refused or not, takes off more than there is.
  lemma DiscountWithinBase(spec: Option<Spec>, base: nat)
    ensures 0 <= DiscountCents(spec, base) <= base
  {
    if IsDiscount(spec) && spec.value.kind.Percentage? {
      var v := if spec.value.value < 100.0 then spec.value.value else 100.0;
      var h := Round(v * 100.0);
      assert 0 <= h <= 10000;
      ProductOrder(h, 10000, base);
      ProductOrder(0, h, base);
      RoundInt(base);
      var x := (base * h) as real / 10000.0;
      assert base * h <= base * 10000;
      assert 0.0 <= x <= base as real;
      assert Round(x) <= base;
    }
  }

  lemma {:induction false} LeftoverSums(lines: seq<Line>)
    ensures var left := Leftovers(lines);
      && Sum(left) == Sum(Grosses(lines)) - Sum(LineDiscounts(lines))
      && WeightSum(left) == Sum(left)
      && forall i :: 0 <= i < |lines| ==> 0 <= left[i] <= WeightSum(left)
  {
    if |lines| > 0 {
      LeftoverSums(lines[1..]);
      DiscountWithinBase(lines[0].discount, Gross(lines[0]));
      hide LineDiscount, Gross;
      assert Leftovers(lines)[1..] == Leftovers(lines[1..]);
      assert Grosses(lines)[1..] == Grosses(lines[1..]);
      assert LineDiscounts(lines)[1..] == LineDiscounts(lines[1..]);
    }
  }

  function Nets(lines: seq<TicketLine>): (r: seq<int>)
    ensures |r| == |lines|
  {
    if |lines| == 0 then [] else [lines[0].netCents] + Nets(lines[1..])
  }

  lemma {:induction false} NetSum(lines: seq<TicketLine>, left: seq<int>, shares: seq<int>)
    requires |lines| == |left| == |shares|
    requires forall i :: 0 <= i < |lines| ==> lines[i].netCents == left[i] - shares[i]
    ensures Sum(Nets(lines)) == Sum(left) - Sum(shares)
  {
    if |lines| > 0 { NetSum(lines[1..], left[1..], shares[1..]); }
  }

  // The ticket adds up to the cent: nothing is discounted twice or lost, no
  // line goes below zero, and no line costs more than before.
  lemma TicketAddsUp(lines: seq<Line>, orderDiscount: Option<Spec>)
    ensures var t := ApplyDiscounts(lines, orderDiscount);
      && Sum(Nets(t.lines)) == t.totalCents
      && 0 <= t.totalCents <= t.subtotalCents
      && 0 <= t.orderDiscountCents <= t.orderBaseCents
      && forall i :: 0 <= i < |lines| ==>
        && 0 <= t.lines[i].lineDiscountCents && 0 <= t.lines[i].orderDiscountCents && 0 <= t.lines[i].netCents
        && t.lines[i].netCents + t.lines[i].orderDiscountCents + t.lines[i].lineDiscountCents == Gross(lines[i])
  {
    hide Shares, DiscountCents, Gross, Sum, WeightSum;
    var t := ApplyDiscounts(lines, orderDiscount);
    var left := Leftovers(lines);
    var shares := Shares(t.orderDiscountCents, left);
    LeftoverSums(lines);
    DiscountWithinBase(orderDiscount, t.orderBaseCents);
    SharesAddUp(t.orderDiscountCents, left);
    NetSum(t.lines, left, shares);
    LineDiscountsNonNegative(lines);
    forall i | 0 <= i < |lines|
      ensures 0 <= t.lines[i].orderDiscountCents && 0 <= t.lines[i].netCents && 0 <= t.lines[i].lineDiscountCents
    {
      SharesMeetQuota(t.orderDiscountCents, left, i);
      DiscountWithinBase(lines[i].discount, Gross(lines[i]));
    }
  }

  lemma {:induction false} LineDiscountsNonNegative(lines: seq<Line>)
    ensures Sum(LineDiscounts(lines)) >= 0
  {
    if |lines| > 0 {
      LineDiscountsNonNegative(lines[1..]);
      DiscountWithinBase(lines[0].discount, Gross(lines[0]));
      assert LineDiscounts(lines)[1..] == LineDiscounts(lines[1..]);
    }
  }

  // ------------------------------------------------------------ staff limit

  // What the panel sends: a percent has at most two decimals.
  predicate TwoDecimals(spec: Spec) {
    spec.kind.Percentage? ==> (spec.value * 100.0) == (spec.value * 100.0).Floor as real
  }

  predicate Accepted(spec: Option<Spec>, base: int) {
    spec.Some? ==> TwoDecimals(spec.value) && DiscountProblem(spec.value, base).None?
  }

  // cents is rate of base to the nearest cent, a half cent going up.
  predicate NearRate(cents: int, base: int, rate: real) {
    && 0.0 <= rate <= 1.0
    && base as real * rate - 0.5 < cents as real <= base as real * rate + 0.5
  }

  lemma PercentNearRate(base: nat, v: real)
    requires 0.0 < v <= 100.0 && v * 100.0 == (v * 100.0).Floor as real
    ensures NearRate(DiscountCents(Some(Spec(Percentage, v)), base), base, v / 100.0)
  {
    var h := (v * 100.0).Floor;
    var x := base as real * (v / 100.0);
    assert Round(v * 100.0) == h by { RoundInt(h); }
    PercentProduct(base, h, v);
    var exact := (base * h) as real / 10000.0;
    assert DiscountCents(Some(Spec(Percentage, v)), base) == Round(exact);
    assert exact == x;
  }

  lemma FixedNearRate(base: nat, v: real)
    requires 0.0 < v <= base as real
    ensures NearRate(DiscountCents(Some(Spec(Fixed, v)), base), base, v / base as real)
  {
    var r := Round(v);
    assert r as real <= base as real + 0.5;
    assert DiscountCents(Some(Spec(Fixed, v)), base) == r;
    DivideOut(v, base as real);
  }

  // An accepted discount is its rate of the base to the nearest cent.
  lemma DiscountNearRate(spec: Option<Spec>, base: nat)
    requires Accepted(spec, base)
    ensures NearRate(DiscountCents(spec, base), base, Rate(spec, base))
  {
    hide NearRate;
    if IsDiscount(spec) {
      var v := spec.value.value;
      if spec.value.kind.Percentage? {
        PercentNearRate(base, v);
      } else {
        FixedNearRate(base, v);
      }
    } else {
      NoDiscount(spec, base);
    }
  }

  // The server's refusal is one rule: on a line that costs something a
  // discount is accepted exactly when it is between nothing and all of it.
  lemma AcceptedIsARate(spec: Spec, base: nat)
    requires base > 0
    ensures DiscountProblem(spec, base).None? <==> 0.0 <= spec.value && Rate(Some(spec), base) <= 1.0
  {
    if spec.kind.Fixed? { AtMostAll(spec.value, base as real); }
  }

  // What is refused names the end it is beyond: below nothing, or above all of
  // the line, as a percentage or as an amount.
  lemma RefusalNamesTheEnd(spec: Spec, base: nat)
    requires base > 0
    ensures var refusal := DiscountProblem(spec, base); var percentage := spec.kind.Percentage?;
      && (refusal == Some(NegativeValue) <==> spec.value < 0.0)
      && (refusal == Some(PercentAbove100) <==> percentage && Rate(Some(spec), base) > 1.0)
      && (refusal == Some(AboveBase) <==> !percentage && Rate(Some(spec), base) > 1.0)
  {
    if spec.kind.Fixed? { AtMostAll(spec.value, base as real); }
  }

  lemma AtMostAll(v: real, base: real)
    requires 0.0 < base
    ensures v / base <= 1.0 <==> v <= base
  {
    var rate := v / base;
    DivideOut(v, base);
    var product := rate * base;
    assert product == v;
    RealScale(rate, 1.0, base, product, base);
  }

  lemma NoDiscount(spec: Option<Spec>, base: nat)
    requires !IsDiscount(spec)
    ensures NearRate(DiscountCents(spec, base), base, Rate(spec, base))
  {
  }

  lemma PercentProduct(base: nat, h: int, v: real)
    requires v * 100.0 == h as real
    ensures (base * h) as real / 10000.0 == base as real * (v / 100.0)
  {
    assert (base * h) as real == base as real * h as real;
    assert base as real * h as real == base as real * (v * 100.0);
    assert base as real * (v * 100.0) == (base as real * v) * 100.0;
    assert base as real * (v / 100.0) == (base as real * v) / 100.0;
  }

  lemma DivideOut(v: real, base: real)
    requires 0.0 < base
    ensures base * (v / base) == v
    ensures 0.0 <= v <= base ==> 0.0 <= v / base <= 1.0
  {
    RealCancel(0.0, v / base, base);
    RealCancel(v / base, 1.0, base);
  }

  // The rate of two discounts one after the other.
  function Stacked(la: real, lo: real): (r: real) {
    1.0 - (1.0 - la) * (1.0 - lo)
  }

  lemma Expand(g: real, a: real, la: real, lo: real)
    ensures g * Stacked(la, lo) == g * lo + g * la - g * la * lo
    ensures lo * (g - a) == g * lo - a * lo
    ensures (g * la + 0.5 - a) * (1.0 - lo) == g * la + 0.5 - a - g * la * lo - 0.5 * lo + a * lo
  {
    assert (1.0 - la) * (1.0 - lo) == 1.0 - la - lo + la * lo;
  }

  // The arithmetic of the bound: g the line's gross, a its own discount, s
  // its share of the ticket's, la and lo the two rates.
  lemma StackedBound(g: real, a: real, s: real, la: real, lo: real)
    requires 0.0 <= lo <= 1.0 && a <= g * la + 0.5
    requires s < lo * (g - a) + 1.5
    ensures a + s < g * Stacked(la, lo) + 2.0
  {
    Expand(g, a, la, lo);
    RealNonNegative(g * la + 0.5 - a, 1.0 - lo);
  }

  // S is what is left of the ticket, d the ticket's discount, w the line's
  // part of S.
  lemma ShareBound(w: real, s: real, S: real, d: real, lo: real)
    requires 0.0 <= w <= S && 0.0 < S
    requires d <= S * lo + 0.5 && s * S < d * w + S
    ensures s < lo * w + 1.5
  {
    RealProductOrder(d, S * lo + 0.5, w);
    assert (S * lo + 0.5) * w == (lo * w) * S + 0.5 * w;
    assert (lo * w + 1.5) * S == (lo * w) * S + 1.5 * S;
    RealCancel(s, lo * w + 1.5, S);
  }

  // Whatever the limit, an accepted pair of discounts takes off less than
  // its stacked rate of the line plus two cents.
  lemma LineWithinStackedRate(lines: seq<Line>, orderDiscount: Option<Spec>, i: nat)
    requires i < |lines|
    requires Accepted(lines[i].discount, Gross(lines[i]))
    requires Accepted(orderDiscount, ApplyDiscounts(lines, orderDiscount).orderBaseCents)
    ensures var t := ApplyDiscounts(lines, orderDiscount);
      (t.lines[i].lineDiscountCents + t.lines[i].orderDiscountCents) as real
        < Gross(lines[i]) as real
          * Stacked(Rate(lines[i].discount, Gross(lines[i])), Rate(orderDiscount, t.orderBaseCents)) + 2.0
  {
    var t := ApplyDiscounts(lines, orderDiscount);
    hide Shares, WeightSum, Sum, Stacked, Rate, DiscountCents, Gross, Accepted;
    TicketAddsUp(lines, orderDiscount);
    LeftoverSums(lines);
    DiscountNearRate(lines[i].discount, Gross(lines[i]));
    DiscountNearRate(orderDiscount, t.orderBaseCents);
    LineParts(Gross(lines[i]), t.lines[i].lineDiscountCents, t.orderDiscountCents, Leftovers(lines), i,
      Rate(lines[i].discount, Gross(lines[i])), Rate(orderDiscount, t.orderBaseCents));
  }

  lemma LineParts(gross: int, off: int, total: nat, left: seq<int>, i: nat, la: real, lo: real)
    requires i < |left| && 0 <= left[i] == gross - off && left[i] <= WeightSum(left)
    requires 0.0 <= lo <= 1.0 && off as real <= gross as real * la + 0.5
    requires total as real <= WeightSum(left) as real * lo + 0.5
    ensures (off + Shares(total, left)[i]) as real < gross as real * Stacked(la, lo) + 2.0
  {
    hide *;
    ShareNearRate(total, left, i, lo);
    StackedBound(gross as real, off as real, Shares(total, left)[i] as real, la, lo);
  }

  lemma ShareNearRate(total: nat, left: seq<int>, i: nat, lo: real)
    requires i < |left| && 0 <= left[i] <= WeightSum(left) && 0.0 <= lo
    requires total as real <= WeightSum(left) as real * lo + 0.5
    ensures Shares(total, left)[i] as real < lo * left[i] as real + 1.5
  {
    hide Shares, WeightSum;
    SharesMeetQuota(total, left, i);
    ShareNearRateValues(Shares(total, left)[i], WeightSum(left), total, left[i], lo);
  }

  lemma ShareNearRateValues(share: int, sum: nat, total: nat, w: nat, lo: real)
    requires w <= sum && 0.0 <= lo && total as real <= sum as real * lo + 0.5
    requires total > 0 && sum > 0 ==> share * sum < total * w + sum
    requires total <= sum ==> share <= w
    requires total == 0 || sum == 0 ==> share == 0
    ensures share as real < lo * w as real + 1.5
  {
    if total > 0 && sum > 0 {
      assert share as real * sum as real == (share * sum) as real;
      assert total as real * w as real == (total * w) as real;
      ShareBound(w as real, share as real, sum as real, total as real, lo);
    } else {
      RealNonNegative(lo, w as real);
    }
  }

  // Main result: on a ticket the staff limit lets through, each line's own
  // discount and its share of the ticket's, together, stay below the allowed
  // percent of the line plus two cents (and the check's own tolerance), for
  // any number of lines. The three roundings are the line's, the ticket's
  // and the share's.
  lemma StaffLimitHolds(lines: seq<Line>, orderDiscount: Option<Spec>, maxPercent: real, i: nat)
    requires i < |lines|
    requires forall k :: 0 <= k < |lines| ==> Accepted(lines[k].discount, Gross(lines[k]))
    requires Accepted(orderDiscount, ApplyDiscounts(lines, orderDiscount).orderBaseCents)
    requires StaffProblem(lines, orderDiscount, maxPercent).None?
    ensures var l := ApplyDiscounts(lines, orderDiscount).lines[i];
      (l.lineDiscountCents + l.orderDiscountCents) as real
        < Gross(lines[i]) as real * Cap(Limit(maxPercent)) + 2.0
  {
    hide ApplyDiscounts, Rate, Gross, Limit, Accepted, OverLimit, Stacked, Cap;
    var t := ApplyDiscounts(lines, orderDiscount);
    var off := t.lines[i].lineDiscountCents + t.lines[i].orderDiscountCents;
    var g, cap := Gross(lines[i]), Cap(Limit(maxPercent));
    if t.discountCents <= 0 || g == 0 {
      NothingOff(lines, orderDiscount, i);
      UnderCap(0, g, 0.0, cap);
    } else {
      var lo := Rate(orderDiscount, t.orderBaseCents);
      LineWithinStackedRate(lines, orderDiscount, i);
      WithinLimit(lines, i, lo, Limit(maxPercent));
      UnderCap(off, g, Stacked(Rate(lines[i].discount, g), lo), cap);
    }
  }

  lemma UnderCap(off: int, g: nat, rate: real, cap: real)
    requires rate <= cap && off as real < g as real * rate + 2.0
    ensures off as real < g as real * cap + 2.0
  {
    RealProductOrder(rate, cap, g as real);
  }

  lemma WithinLimit(lines: seq<Line>, i: nat, lo: real, max: int)
    requires i < |lines| && Gross(lines[i]) > 0 && !OverLimit(lines, i, lo, max)
    ensures Stacked(Rate(lines[i].discount, Gross(lines[i])), lo) <= Cap(max)
  {
    hide Rate, Gross;
  }

  lemma NothingOff(lines: seq<Line>, orderDiscount: Option<Spec>, i: nat)
    requires i < |lines|
    requires ApplyDiscounts(lines, orderDiscount).discountCents <= 0 || Gross(lines[i]) == 0
    ensures var l := ApplyDiscounts(lines, orderDiscount).lines[i];
      l.lineDiscountCents == 0 && l.orderDiscountCents == 0
  {
    var t := ApplyDiscounts(lines, orderDiscount);
    TicketAddsUp(lines, orderDiscount);
    LineDiscountsNonNegative(lines);
    PartOfSum(lines, i);
    SharesMeetQuota(t.orderDiscountCents, Leftovers(lines), i);
  }

  lemma {:induction false} PartOfSum(lines: seq<Line>, i: nat)
    requires i < |lines|
    ensures LineDiscount(lines[i]) <= Sum(LineDiscounts(lines))
  {
    DiscountWithinBase(lines[0].discount, Gross(lines[0]));
    LineDiscountsNonNegative(lines[1..]);
    assert LineDiscounts(lines)[1..] == LineDiscounts(lines[1..]);
    if i > 0 { PartOfSum(lines[1..], i - 1); }
  }

  // ---------------------------------------------------------- what it takes

  // A discount as large as the base, or larger, takes all of it.
  lemma OverdoneTakesAll(spec: Spec, base: nat)
    requires spec.value > 0.0
    requires if spec.kind.Percentage? then spec.value >= 100.0 else spec.value >= base as real
    ensures DiscountCents(Some(spec), base) == base
  {
    if spec.kind.Percentage? {
      assert 100.0 * 100.0 == 10000.0;
      RoundInt(10000);
      RoundInt(base);
      assert (base * 10000) as real / 10000.0 == base as real;
    } else {
      var r := Round(spec.value);
      assert base as real < r as real + 0.5;
    }
  }

  function Discounted(lines: seq<TicketLine>): (r: seq<int>)
    ensures |r| == |lines| && forall i :: 0 <= i < |r| ==> r[i] == lines[i].lineDiscountCents
  {
    if lines == [] then [] else [lines[0].lineDiscountCents] + Discounted(lines[1..])
  }

  // spec takes cents of base: its rate to the nearest cent when it is
  // accepted, everything when it asks for as much or more, and nothing when
  // there is no discount.
  ghost predicate Takes(spec: Option<Spec>, base: nat, cents: int) {
    && (Accepted(spec, base) ==> NearRate(cents, base, Rate(spec, base)))
    && (IsDiscount(spec) && (if spec.value.kind.Percentage? then spec.value.value >= 100.0 else spec.value.value >= base as real)
        ==> cents == base)
    && (!IsDiscount(spec) ==> cents == 0)
  }

  lemma DiscountTakes(spec: Option<Spec>, base: nat)
    ensures Takes(spec, base, DiscountCents(spec, base))
  {
    if Accepted(spec, base) { DiscountNearRate(spec, base); }
    hide NearRate, DiscountCents, Accepted, Rate;
    if IsDiscount(spec) && (if spec.value.kind.Percentage? then spec.value.value >= 100.0 else spec.value.value >= base as real) {
      OverdoneTakesAll(spec.value, base);
    }
    if !IsDiscount(spec) { NothingTaken(spec, base); }
  }

  lemma NothingTaken(spec: Option<Spec>, base: nat)
    requires !IsDiscount(spec)
    ensures DiscountCents(spec, base) == 0
  {
  }

  // Main result on the ticket's figures: they are the prices times the
  // quantities, each line's discount off its own amount, and the ticket's off
  // what those leave.
  lemma TicketTakesItsDiscounts(lines: seq<Line>, orderDiscount: Option<Spec>)
    ensures var t := ApplyDiscounts(lines, orderDiscount);
      && |t.lines| == |lines|
      && t.subtotalCents == Sum(seq(|lines|, i requires 0 <= i < |lines| => lines[i].price * lines[i].quantity))
      && t.lineDiscountsCents == Sum(Discounted(t.lines))
      && t.orderBaseCents == t.subtotalCents - t.lineDiscountsCents >= 0
      && t.discountCents == t.lineDiscountsCents + t.orderDiscountCents
      && t.totalCents == t.subtotalCents - t.discountCents
      && Takes(orderDiscount, t.orderBaseCents, t.orderDiscountCents)
      && forall i :: 0 <= i < |lines| ==>
        && t.lines[i].grossCents == lines[i].price * lines[i].quantity
        && Takes(lines[i].discount, t.lines[i].grossCents, t.lines[i].lineDiscountCents)
  {
    hide Takes, DiscountCents, Shares, Sum;
    var t := ApplyDiscounts(lines, orderDiscount);
    TicketAddsUp(lines, orderDiscount);
    DiscountTakes(orderDiscount, t.orderBaseCents);
    forall i | 0 <= i < |lines| ensures Takes(lines[i].discount, t.lines[i].grossCents, t.lines[i].lineDiscountCents) {
      DiscountTakes(lines[i].discount, Gross(lines[i]));
    }
    assert Discounted(t.lines) == LineDiscounts(lines);
    assert Grosses(lines) == seq(|lines|, i requires 0 <= i < |lines| => lines[i].price * lines[i].quantity);
  }

  // Nothing of the discount is an amount of money.
  predicate OnlyPercent(spec: Option<Spec>) { IsDiscount(spec) ==> spec.value.kind.Percentage? }

  lemma RateInHundredths(spec: Option<Spec>, base: nat) returns (h: nat)
    requires Accepted(spec, base) && OnlyPercent(spec)
    ensures h <= 10000 && Rate(spec, base) == h as real / 10000.0
  {
    h := 0;
    if IsDiscount(spec) {
      h := (spec.value.value * 100.0).Floor;
    }
  }

  // Two rates in hundredths of a percent stack to a multiple of 10^-8, which
  // the tolerance of 10^-9 cannot carry over the limit.
  lemma ToleranceIsIdle(h: nat, k: nat, max: int)
    requires h <= 10000 && k <= 10000
    requires Stacked(h as real / 10000.0, k as real / 10000.0) <= Cap(max)
    ensures Stacked(h as real / 10000.0, k as real / 10000.0) <= max as real / 100.0
  {
    var p := (10000 - h) * (10000 - k);
    StackedHundredths(h, k, p);
    hide Stacked;
    WholeRate(p, max, Stacked(h as real / 10000.0, k as real / 10000.0));
  }

  lemma WholeRate(p: int, max: int, rate: real)
    requires rate == 1.0 - p as real / 100000000.0 && rate <= Cap(max)
    ensures rate <= max as real / 100.0
  {
    assert (100_000_000 - p) as real <= (1_000_000 * max) as real + 0.1;
  }

  lemma StackedHundredths(h: nat, k: nat, p: int)
    requires p == (10000 - h) * (10000 - k)
    ensures Stacked(h as real / 10000.0, k as real / 10000.0) == 1.0 - p as real / 100000000.0
  {
    ScaledProduct(10000 - h, 10000 - k, p, 1.0 - h as real / 10000.0, 1.0 - k as real / 10000.0);
  }

  lemma ScaledProduct(x: int, y: int, p: int, a: real, b: real)
    requires p == x * y && 10000.0 * a == x as real && 10000.0 * b == y as real
    ensures a * b == p as real / 100000000.0
  {
    assert (10000.0 * a) * (10000.0 * b) == 100000000.0 * (a * b);
    assert x as real * y as real == p as real;
  }

  function Percent(spec: Option<Spec>): (r: real) { if IsDiscount(spec) then spec.value.value else 0.0 }

  // What the staff limit is for, both ways: on percentages it lets a ticket
  // through if and only if nothing is taken off it, or every line keeps, after
  // its own percent and the ticket's, at least what the limit leaves of it.
  lemma PercentsLetThrough(lines: seq<Line>, orderDiscount: Option<Spec>, maxPercent: real)
    requires OnlyPercent(orderDiscount) && forall k :: 0 <= k < |lines| ==> OnlyPercent(lines[k].discount)
    requires forall k :: 0 <= k < |lines| ==> Accepted(lines[k].discount, Gross(lines[k]))
    requires Accepted(orderDiscount, ApplyDiscounts(lines, orderDiscount).orderBaseCents)
    ensures var t := ApplyDiscounts(lines, orderDiscount); var max := Limit(maxPercent) as real;
      StaffProblem(lines, orderDiscount, maxPercent).None? <==>
        t.discountCents <= 0 || (max > 0.0 && forall i :: 0 <= i < |lines| && lines[i].price * lines[i].quantity > 0 ==>
          (100.0 - Percent(lines[i].discount)) * (100.0 - Percent(orderDiscount)) >= 100.0 * (100.0 - max))
  {
    hide ApplyDiscounts, Limit, Accepted;
    var t := ApplyDiscounts(lines, orderDiscount);
    var lo := Rate(orderDiscount, t.orderBaseCents);
    TicketAddsUp(lines, orderDiscount);
    forall i | 0 <= i < |lines|
      ensures OverLimit(lines, i, lo, Limit(maxPercent)) <==>
        lines[i].price * lines[i].quantity > 0 &&
        (100.0 - Percent(lines[i].discount)) * (100.0 - Percent(orderDiscount)) < 100.0 * (100.0 - Limit(maxPercent) as real)
    {
      PercentsOverLimit(lines, i, orderDiscount, t.orderBaseCents, Limit(maxPercent));
    }
    hide OverLimit, Percent, OnlyPercent;
  }

  lemma PercentsOverLimit(lines: seq<Line>, i: nat, orderDiscount: Option<Spec>, base: nat, max: int)
    requires i < |lines| && OnlyPercent(lines[i].discount) && OnlyPercent(orderDiscount)
    requires Accepted(lines[i].discount, Gross(lines[i])) && Accepted(orderDiscount, base)
    ensures OverLimit(lines, i, Rate(orderDiscount, base), max) <==>
      lines[i].price * lines[i].quantity > 0 &&
      (100.0 - Percent(lines[i].discount)) * (100.0 - Percent(orderDiscount)) < 100.0 * (100.0 - max as real)
  {
    hide *;
    var g := Gross(lines[i]);
    var h := RateInHundredths(lines[i].discount, g);
    var k := RateInHundredths(orderDiscount, base);
    var p, q := Percent(lines[i].discount), Percent(orderDiscount);
    PercentIsRate(lines[i].discount, g);
    PercentIsRate(orderDiscount, base);
    StackedPercents(p, q);
    LimitOnStacked(h, k, p, q, max);
    StackedOverLimit(lines, i, Rate(orderDiscount, base), max);
  }

  lemma PercentIsRate(spec: Option<Spec>, base: nat)
    requires OnlyPercent(spec)
    ensures Rate(spec, base) == Percent(spec) / 100.0
  {
  }

  lemma StackedOverLimit(lines: seq<Line>, i: nat, lo: real, max: int)
    requires i < |lines|
    ensures OverLimit(lines, i, lo, max) <==>
      lines[i].price * lines[i].quantity > 0 && Stacked(Rate(lines[i].discount, Gross(lines[i])), lo) > Cap(max)
  {
    hide Rate, Cap;
  }

  lemma StackedPercents(p: real, q: real)
    ensures (100.0 - p) * (100.0 - q) == 10000.0 * (1.0 - Stacked(p / 100.0, q / 100.0))
  {
    var a, b := 1.0 - p / 100.0, 1.0 - q / 100.0;
    assert 100.0 - p == 100.0 * a && 100.0 - q == 100.0 * b;
    assert (100.0 * a) * (100.0 * b) == 10000.0 * (a * b);
  }

  lemma LimitOnStacked(h: nat, k: nat, p: real, q: real, max: int)
    requires h <= 10000 && k <= 10000 && p / 100.0 == h as real / 10000.0 && q / 100.0 == k as real / 10000.0
    requires (100.0 - p) * (100.0 - q) == 10000.0 * (1.0 - Stacked(p / 100.0, q / 100.0))
    ensures Stacked(p / 100.0, q / 100.0) > Cap(max) <==> (100.0 - p) * (100.0 - q) < 100.0 * (100.0 - max as real)
  {
    hide Stacked;
    if Stacked(h as real / 10000.0, k as real / 10000.0) <= Cap(max) { ToleranceIsIdle(h, k, max); }
  }

  // Main result for percentages: for any number of lines, of any amount, a
  // line's two discounts together stay below the allowed percent of the line
  // plus two cents, carrying the rounding of the line, of the ticket and of
  // the share.
  lemma PercentsWithinTwoCents(lines: seq<Line>, orderDiscount: Option<Spec>, maxPercent: real, i: nat)
    requires i < |lines| && OnlyPercent(lines[i].discount) && OnlyPercent(orderDiscount)
    requires forall k :: 0 <= k < |lines| ==> Accepted(lines[k].discount, Gross(lines[k]))
    requires Accepted(orderDiscount, ApplyDiscounts(lines, orderDiscount).orderBaseCents)
    requires StaffProblem(lines, orderDiscount, maxPercent).None?
    ensures var l := ApplyDiscounts(lines, orderDiscount).lines[i];
      100 * (l.lineDiscountCents + l.orderDiscountCents) < Limit(maxPercent) * Gross(lines[i]) + 200
  {
    hide ApplyDiscounts, Rate, Gross, Limit, Accepted, OverLimit, Stacked, Cap, OnlyPercent;
    var t := ApplyDiscounts(lines, orderDiscount);
    var off := t.lines[i].lineDiscountCents + t.lines[i].orderDiscountCents;
    var g, max := Gross(lines[i]), Limit(maxPercent);
    if t.discountCents <= 0 || g == 0 {
      NothingOff(lines, orderDiscount, i);
      InCents(off, g, max, 0.0);
    } else {
      TicketAddsUp(lines, orderDiscount);
      var h := RateInHundredths(lines[i].discount, g);
      var k := RateInHundredths(orderDiscount, t.orderBaseCents);
      var la, lo := Rate(lines[i].discount, g), Rate(orderDiscount, t.orderBaseCents);
      LineWithinStackedRate(lines, orderDiscount, i);
      WithinLimit(lines, i, lo, max);
      ToleranceIsIdle(h, k, max);
      InCents(off, g, max, Stacked(la, lo));
    }
  }

  lemma InCents(off: int, g: nat, max: int, rate: real)
    requires rate <= max as real / 100.0 && off as real < g as real * rate + 2.0
    ensures 100 * off < max * g + 200
  {
    RealProductOrder(rate, max as real / 100.0, g as real);
    assert g as real * (max as real / 100.0) == (max * g) as real / 100.0;
    assert (100 * off) as real < (max * g + 200) as real;
  }

  // The two cents are the whole of the error unless the line or the ticket
  // takes off an amount of money and the line is over 100.000 euros: below
  // that the tolerance is less than the gap to the next cent.
  lemma StaffLimitWithinTwoCents(lines: seq<Line>, orderDiscount: Option<Spec>, maxPercent: real, i: nat)
    requires i < |lines|
    requires (OnlyPercent(lines[i].discount) && OnlyPercent(orderDiscount)) || Gross(lines[i]) <= 10_000_000
    requires forall k :: 0 <= k < |lines| ==> Accepted(lines[k].discount, Gross(lines[k]))
    requires Accepted(orderDiscount, ApplyDiscounts(lines, orderDiscount).orderBaseCents)
    requires StaffProblem(lines, orderDiscount, maxPercent).None?
    ensures var l := ApplyDiscounts(lines, orderDiscount).lines[i];
      100 * (l.lineDiscountCents + l.orderDiscountCents) <= Limit(maxPercent) * Gross(lines[i]) + 200
  {
    hide ApplyDiscounts, Gross, Limit, Accepted, StaffProblem, OnlyPercent;
    if OnlyPercent(lines[i].discount) && OnlyPercent(orderDiscount) {
      PercentsWithinTwoCents(lines, orderDiscount, maxPercent, i);
    } else {
      StaffLimitHolds(lines, orderDiscount, maxPercent, i);
      var l := ApplyDiscounts(lines, orderDiscount).lines[i];
      NextCent(l.lineDiscountCents + l.orderDiscountCents, Gross(lines[i]), Limit(maxPercent));
    }
  }

  lemma NextCent(off: int, g: int, max: int)
    requires g <= 10_000_000
    requires off as real < g as real * Cap(max) + 2.0
    ensures 100 * off <= max * g + 200
  {
    assert (max * g) as real == max as real * g as real;
    assert g as real * Cap(max) == (max * g) as real / 100.0 + g as real * TOLERANCE;
    assert (100 * off) as real < (max * g + 201) as real;
  }

  // A ticket of one line with a fixed discount of whole cents.
  function OneFixed(g: nat, v: nat): (r: seq<Line>) { [Line(g, 1, Some(Spec(Fixed, v as real)))] }

  lemma OneFixedTicket(g: nat, v: nat)
    requires 0 < v <= g
    ensures var t := ApplyDiscounts(OneFixed(g, v), None);
      t.discountCents == v && t.lines[0].lineDiscountCents == v && t.orderBaseCents == g - v
  {
    var lines := OneFixed(g, v);
    RoundInt(v);
    assert Gross(lines[0]) == g && LineDiscount(lines[0]) == v;
    assert Grosses(lines) == [g as int] && LineDiscounts(lines) == [v as int];
    assert [g as int][1..] == [] && [v as int][1..] == [];
    assert Sum([g as int]) == g && Sum([v as int]) == v && DiscountCents(None, g - v) == 0;
  }

  // The limit counts in whole percents, from 0 to 100.
  lemma WholeLimit(max: int)
    requires 0 <= max <= 100
    ensures forall m: real :: max as real <= m < max as real + 1.0 ==> Limit(m) == max
    ensures forall m: real :: m <= 0.0 ==> Limit(m) == 0
    ensures forall m: real :: m >= 100.0 ==> Limit(m) == 100
  {
  }

  // Staff allowed less than one percent may discount nothing; anyone else is
  // told the whole percent allowed, and only when something is taken off.
  lemma WhoMayNotDiscount(lines: seq<Line>, orderDiscount: Option<Spec>, maxPercent: real)
    ensures var refusal := StaffProblem(lines, orderDiscount, maxPercent);
      var off := ApplyDiscounts(lines, orderDiscount).discountCents;
      && (refusal == Some(StaffMayNotDiscount) <==> off > 0 && maxPercent < 1.0)
      && (refusal.Some? && refusal.value.LineOverLimit? ==>
            off > 0 && 1 <= refusal.value.max <= 100 && refusal.value.max as real <= maxPercent)
      && (refusal.Some? && refusal.value.LineOverLimit? && maxPercent < 100.0 ==>
            maxPercent < refusal.value.max as real + 1.0)
  {
    hide ApplyDiscounts, OverLimit;
  }

  // What the staff limit lets through of it, in whole numbers.
  lemma FixedLetThrough(g: nat, v: nat, max: int)
    requires 0 < v <= g && 1 <= max <= 100
    ensures StaffProblem(OneFixed(g, v), None, max as real).None? <==>
      1_000_000_000 * v <= g * (10_000_000 * max + 1)
  {
    var lines := OneFixed(g, v);
    OneFixedTicket(g, v);
    WholeLimit(max);
    hide ApplyDiscounts, Limit;
    var rate := v as real / g as real;
    assert Gross(lines[0]) == g && Rate(lines[0].discount, g) == rate && Rate(None, g - v) == 0.0;
    RateAgainstCap(g, v, max, rate);
    assert OverLimit(lines, 0, 0.0, max) <==> rate > Cap(max);
  }

  lemma RateAgainstCap(g: nat, v: nat, max: int, rate: real)
    requires 0 < g && rate == v as real / g as real
    ensures rate <= Cap(max) <==> 1_000_000_000 * v <= g * (10_000_000 * max + 1)
  {
    var n := g * (10_000_000 * max + 1);
    DivideOut(v as real, g as real);
    var product := Cap(max) * g as real;
    assert Cap(max) == (10_000_000 * max + 1) as real / 1000000000.0;
    assert g as real * (10_000_000 * max + 1) as real == n as real;
    assert product == n as real / 1000000000.0;
    RealScale(rate, Cap(max), g as real, v as real, product);
    assert v as real <= product <==> (1_000_000_000 * v) as real <= n as real;
  }

  // The least fixed discount above the percent and two cents.
  function JustOver(g: nat, max: nat): (r: nat) { max * g / 100 + 3 }

  // A fixed discount of v cents passes the limit and is more than two cents
  // above the percent.
  ghost predicate ShowsTolerance(g: nat, v: nat, max: nat) {
    0 < v <= g && 100 * v > max * g + 200 && StaffProblem(OneFixed(g, v), None, max as real).None?
  }

  // When the tolerance shows: a line of g cents has such a discount if and
  // only if g is at least 3 * 10^9, less 10^7 for each hundredth of a cent
  // that max percent of it is beyond a whole cent.
  lemma ToleranceShows(g: nat, max: nat)
    requires 1 <= max <= 99
    ensures (exists v: nat :: ShowsTolerance(g, v, max)) <==>
      g >= 3_000_000_000 - 10_000_000 * (max * g % 100)
  {
    hide StaffProblem, OneFixed;
    var p := max * g;
    var w := JustOver(g, max);
    assert g * (10_000_000 * max + 1) == 10_000_000 * p + g;
    assert p == 100 * (p / 100) + p % 100;
    if g >= 3_000_000_000 - 10_000_000 * (p % 100) {
      ProductOrder(max, 99, g);
      FixedLetThrough(g, w, max);
      assert ShowsTolerance(g, w, max);
    }
    forall v: nat | ShowsTolerance(g, v, max)
      ensures g >= 3_000_000_000 - 10_000_000 * (p % 100)
    {
      FixedLetThrough(g, v, max);
      assert v >= w;
    }
  }

  // So on a line of 10^13 cents it lets a fixed discount pass the limit by
  // 10.000 cents.
  lemma ToleranceOnHugeLine()
    ensures var lines := [Line(10_000_000_000_000, 1, Some(Spec(Fixed, 1_000_000_010_000.0)))];
      && StaffProblem(lines, None, 10.0).None?
      && ApplyDiscounts(lines, None).lines[0].lineDiscountCents == 1_000_000_010_000
  {
    var spec := Some(Spec(Fixed, 1_000_000_010_000.0));
    var lines := [Line(10_000_000_000_000, 1, spec)];
    RoundInt(1_000_000_010_000);
    assert Gross(lines[0]) == 10_000_000_000_000;
    assert Rate(spec, 10_000_000_000_000) == 0.100000001;
    assert Limit(10.0) == 10;
    assert !OverLimit(lines, 0, 0.0, 10);
  }
}
