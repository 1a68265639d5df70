// How the client pays: the tenders of a ticket and the form they are typed
// in (pos-cart.ts).
module Tenders {
  import opened Common
  import opened Euros
  import opened Text

  datatype Method = Cash | Card | Bizum | BankTransfer | GiftCard | Wallet

  datatype Tender = Tender(means: Method, amount: int, giftCardCode: Option<string>)

  function Amounts(ts: seq<Tender>): (r: seq<int>)
    ensures |r| == |ts| && forall i :: 0 <= i < |r| ==> r[i] == ts[i].amount
  {
    if ts == [] then [] else [ts[0].amount] + Amounts(ts[1..])
  }

  function SumTenders(ts: seq<Tender>): (r: int) { Sum(Amounts(ts)) }

  function CashIn(ts: seq<Tender>): (r: int) {
    if ts == [] then 0 else (if ts[0].means.Cash? then ts[0].amount else 0) + CashIn(ts[1..])
  }

  function ChangeCents(ts: seq<Tender>, due: int): (r: int) { Max(0, SumTenders(ts) - due) }

  function RemainingCents(ts: seq<Tender>, due: int): (r: int) { Max(0, due - SumTenders(ts)) }

  // Tender `index` takes what the others leave.
  function FillRemainder(ts: seq<Tender>, due: int, index: nat): (r: seq<Tender>)
    requires index < |ts|
  {
    var others := SumTenders(ts) - ts[index].amount;
    ts[index := ts[index].(amount := Max(0, due - others))]
  }

  const OFFERED := [Card, Cash, Bizum, BankTransfer]

  function FirstUnused(offered: seq<Method>, used: seq<Method>): (r: Method) {
    if offered == [] then Card else if offered[0] !in used then offered[0] else FirstUnused(offered[1..], used)
  }

  function MethodsOf(ts: seq<Tender>): (r: seq<Method>) {
    if ts == [] then [] else [ts[0].means] + MethodsOf(ts[1..])
  }

  function AddTender(ts: seq<Tender>, due: int, means: Option<Method>): (r: seq<Tender>) {
    var next := means.GetOr(FirstUnused(OFFERED, MethodsOf(ts)));
    FillRemainder(ts + [Tender(next, 0, None)], due, |ts|)
  }

  datatype Problem = NoTender | BadAmount | MissingCode | Short(cents: int) | OnlyCashMayExceed

  predicate LacksCode(t: Tender) {
    t.means.GiftCard? && Trim(t.giftCardCode.GetOr("")) == []
  }

  function TenderProblem(ts: seq<Tender>, due: int): (r: Option<Problem>) {
    if ts == [] then Some(NoTender)
    else if exists i :: 0 <= i < |ts| && ts[i].amount < 0 then Some(BadAmount)
    else if exists i :: 0 <= i < |ts| && LacksCode(ts[i]) then Some(MissingCode)
    else
      var paid := SumTenders(ts);
      if paid < due then Some(Short(due - paid))
      else if paid - due > CashIn(ts) then Some(OnlyCashMayExceed)
      else None
  }

  // The code as the server takes it: trimmed, in capitals.
  function CodeForServer(t: Tender, upper: string -> string): (r: Tender) {
    if t.means.GiftCard? then Tender(t.means, t.amount, Some(upper(Trim(t.giftCardCode.GetOr("")))))
    else Tender(t.means, t.amount, None)
  }

  function Kept(ts: seq<Tender>, upper: string -> string): (r: seq<Tender>) {
    if ts == [] then []
    else if ts[0].amount > 0 then [CodeForServer(ts[0], upper)] + Kept(ts[1..], upper)
    else Kept(ts[1..], upper)
  }

  // Empty tenders left out; a ticket that costs nothing keeps its first.
  function TendersForServer(ts: seq<Tender>, upper: string -> string): (r: seq<Tender>) {
    var kept := Kept(ts, upper);
    if kept != [] then kept else if ts == [] then [] else [Tender(ts[0].means, 0, None)]
  }

  // ------------------------------------------------------------- acceptance

  function NonCash(ts: seq<Tender>): (r: int) { SumTenders(ts) - CashIn(ts) }

  predicate NonNegative(ts: seq<Tender>) { forall i :: 0 <= i < |ts| ==> ts[i].amount >= 0 }

  predicate HasCodes(ts: seq<Tender>) { forall i :: 0 <= i < |ts| ==> !LacksCode(ts[i]) }

  // Accepted tenders are exactly those that cover what is due with whole,
  // non-negative amounts, of which everything but cash fits in what is due.
  lemma AcceptedMeans(ts: seq<Tender>, due: int)
    ensures TenderProblem(ts, due).None?
      <==> ts != [] && NonNegative(ts) && HasCodes(ts) && SumTenders(ts) >= due && NonCash(ts) <= due
    ensures TenderProblem(ts, due).None? ==>
      ChangeCents(ts, due) <= CashIn(ts) && RemainingCents(ts, due) == 0
  {
  }

  // What is refused is refused for what is wrong with it, the tenders
  // themselves before their sum.
  lemma RefusedFor(ts: seq<Tender>, due: int)
    ensures var refusal := TenderProblem(ts, due);
      var each := ts != [] && NonNegative(ts) && HasCodes(ts);
      && (refusal == Some(NoTender) <==> ts == [])
      && (refusal == Some(BadAmount) <==> !NonNegative(ts))
      && (refusal == Some(MissingCode) <==> NonNegative(ts) && !HasCodes(ts))
      && (refusal == Some(OnlyCashMayExceed) <==> each && SumTenders(ts) >= due && NonCash(ts) > due)
      && ((exists cents :: refusal == Some(Short(cents))) <==> each && SumTenders(ts) < due)
  {
    hide LacksCode;
  }

  // Capitals never make a code blank.
  ghost predicate KeepsCodes(upper: string -> string) {
    forall c {:trigger upper(Trim(c))} :: Trim(c) != [] ==> Trim(upper(Trim(c))) != []
  }

  lemma CodeSent(t: Tender, upper: string -> string)
    requires KeepsCodes(upper) && !LacksCode(t)
    ensures !LacksCode(CodeForServer(t, upper))
  {
    var code := t.giftCardCode.GetOr("");
    assert t.means.GiftCard? ==> Trim(upper(Trim(code))) != [];
    hide Trim;
  }

  lemma {:induction false} KeptSums(ts: seq<Tender>, upper: string -> string)
    requires NonNegative(ts)
    ensures var kept := Kept(ts, upper);
      && SumTenders(kept) == SumTenders(ts) && CashIn(kept) == CashIn(ts) && NonNegative(kept)
      && (kept == [] <==> SumTenders(ts) == 0) && 0 <= SumTenders(ts)
      && (KeepsCodes(upper) && HasCodes(ts) ==> HasCodes(kept))
  {
    hide KeepsCodes, LacksCode;
    if ts != [] {
      KeptSums(ts[1..], upper);
      if KeepsCodes(upper) && HasCodes(ts) {
        CodeSent(ts[0], upper);
      }
    }
  }

  // What is sent is the tenders with money in them, in order, each with its
  // means and amount; gift cards with their code trimmed, in capitals, and the
  // others without one.
  lemma {:induction false} KeptAsTyped(ts: seq<Tender>, upper: string -> string)
    ensures var kept := Kept(ts, upper); var paying := Filter(ts, (t: Tender) => t.amount > 0);
      |kept| == |paying| && forall i :: 0 <= i < |kept| ==>
        && kept[i].means == paying[i].means && kept[i].amount == paying[i].amount
        && kept[i].giftCardCode ==
          if paying[i].means == GiftCard then Some(upper(Trim(paying[i].giftCardCode.GetOr("")))) else None
  {
    hide Trim;
    if ts != [] { KeptAsTyped(ts[1..], upper); }
  }

  // The amount a refusal names is what is missing: handed over in cash, it
  // makes the payment accepted.
  lemma ShortByThat(ts: seq<Tender>, due: int, cents: int)
    requires TenderProblem(ts, due) == Some(Short(cents))
    ensures cents > 0 && TenderProblem(ts + [Tender(Cash, cents, None)], due).None?
  {
    var more := ts + [Tender(Cash, cents, None)];
    assert NonNegative(ts) && HasCodes(ts);
    assert forall i :: 0 <= i < |more| ==> more[i].amount >= 0 && !LacksCode(more[i]);
    hide LacksCode;
    assert Amounts(more) == Amounts(ts) + [cents];
    SumAppend(Amounts(ts), [cents]);
    assert [cents][1..] == [];
    CashAdded(ts, Tender(Cash, cents, None));
    CashNonNegative(ts);
    AcceptedMeans(more, due);
  }

  lemma {:induction false} CashAdded(ts: seq<Tender>, t: Tender)
    ensures CashIn(ts + [t]) == CashIn(ts) + if t.means.Cash? then t.amount else 0
  {
    if ts == [] {
      assert ([] + [t])[1..] == [];
    } else {
      assert (ts + [t])[1..] == ts[1..] + [t];
      CashAdded(ts[1..], t);
    }
  }

  // What is sent keeps the money and the acceptance of what was typed, for
  // every ticket that costs something.
  lemma ServerKeepsAcceptance(ts: seq<Tender>, due: int, upper: string -> string)
    requires KeepsCodes(upper)
    requires due > 0 && TenderProblem(ts, due).None?
    ensures SumTenders(TendersForServer(ts, upper)) == SumTenders(ts)
    ensures CashIn(TendersForServer(ts, upper)) == CashIn(ts)
    ensures TenderProblem(TendersForServer(ts, upper), due).None?
  {
    hide KeepsCodes, LacksCode, Kept;
    KeptSums(ts, upper);
    AcceptedMeans(ts, due);
    AcceptedMeans(TendersForServer(ts, upper), due);
  }

  // On a ticket that costs nothing it does unless all amounts are zero and
  // the first tender is a gift card, whose code is then not sent.
  lemma ServerOnFreeTicket(ts: seq<Tender>, upper: string -> string)
    requires KeepsCodes(upper)
    requires TenderProblem(ts, 0).None?
    ensures SumTenders(TendersForServer(ts, upper)) == SumTenders(ts)
    ensures TenderProblem(TendersForServer(ts, upper), 0).None? <==> SumTenders(ts) > 0 || !ts[0].means.GiftCard?
  {
    hide KeepsCodes, Kept;
    KeptSums(ts, upper);
    AcceptedMeans(ts, 0);
    AcceptedMeans(TendersForServer(ts, upper), 0);
    var sent := TendersForServer(ts, upper);
    if SumTenders(ts) == 0 {
      assert sent == [Tender(ts[0].means, 0, None)] && sent[1..] == [];
      assert LacksCode(sent[0]) <==> ts[0].means.GiftCard?;
    }
    hide LacksCode;
  }

  // What is paid is what is due, and the change, less what is still missing;
  // there is never both.
  lemma PaidIsDueAndChange(ts: seq<Tender>, due: int)
    ensures SumTenders(ts) == due + ChangeCents(ts, due) - RemainingCents(ts, due)
    ensures 0 <= ChangeCents(ts, due) && 0 <= RemainingCents(ts, due)
    ensures ChangeCents(ts, due) == 0 || RemainingCents(ts, due) == 0
  {
  }

  lemma {:induction false} AmountsUpdate(ts: seq<Tender>, i: nat, t: Tender)
    requires i < |ts|
    ensures SumTenders(ts[i := t]) == SumTenders(ts) - ts[i].amount + t.amount
  {
    assert Amounts(ts[i := t]) == Amounts(ts)[i := t.amount];
    SumUpdate(Amounts(ts), i, t.amount);
  }

  // The filled tender makes the payment exact whenever the others do not
  // already exceed what is due, and never adds to an excess.
  lemma FillMakesExact(ts: seq<Tender>, due: int, index: nat)
    requires index < |ts|
    ensures SumTenders(FillRemainder(ts, due, index)) == Max(due, SumTenders(ts) - ts[index].amount)
    ensures forall i :: 0 <= i < |ts| && i != index ==> FillRemainder(ts, due, index)[i] == ts[i]
  {
    AmountsUpdate(ts, index, ts[index].(amount := Max(0, due - (SumTenders(ts) - ts[index].amount))));
  }

  // ---------------------------------------------------------------- the form

  datatype TenderRow = TenderRow(means: Method, amountText: string, giftCardCode: Option<string>)

  // The cents typed, or `missing` when it is not an amount.
  function Typed(text: string, missing: int): (r: int) {
    match ParseEurosInput(text)
    case Some(cents) => cents
    case None => missing
  }

  // One row with nothing typed pays exactly what is due.
  function RowAmount(rows: seq<TenderRow>, i: nat, due: int): (r: int)
    requires i < |rows|
  {
    var text := rows[i].amountText;
    if Trim(text) != [] then Typed(text, -1) else if |rows| == 1 then due else -1
  }

  function TendersOfRows(rows: seq<TenderRow>, due: int): (r: seq<Tender>)
    ensures |r| == |rows|
    ensures forall i :: 0 <= i < |r| ==> r[i].amount == RowAmount(rows, i, due) && r[i].means == rows[i].means
  {
    seq(|rows|, i requires 0 <= i < |rows| =>
      Tender(rows[i].means, RowAmount(rows, i, due),
        if rows[i].means.GiftCard? then Some(rows[i].giftCardCode.GetOr("")) else None))
  }

  // The amounts typed, with `missing` for a row that is not an amount.
  function TypedAmounts(rows: seq<TenderRow>, missing: int): (r: seq<int>)
    ensures |r| == |rows|
    ensures forall i :: 0 <= i < |r| ==> r[i] == Typed(rows[i].amountText, missing)
  {
    if rows == [] then [] else [Typed(rows[0].amountText, missing)] + TypedAmounts(rows[1..], missing)
  }

  // After row `index` was typed in, the last row takes what the others leave.
  function RefillRows(rows: seq<TenderRow>, due: int, index: nat): (r: seq<TenderRow>) {
    if |rows| < 2 then rows
    else
      var last := |rows| - 1;
      if index == last then rows
      else
        var others := Sum(TypedAmounts(rows[..last], 0));
        rows[last := rows[last].(amountText := EurosInput(Max(0, due - others)))]
  }

  function RowMethods(rows: seq<TenderRow>): (r: seq<Method>) {
    if rows == [] then [] else [rows[0].means] + RowMethods(rows[1..])
  }

  function Floored(s: seq<int>): (r: seq<int>)
    ensures |r| == |s| && forall i :: 0 <= i < |r| ==> r[i] == Max(0, s[i])
  {
    if s == [] then [] else [Max(0, s[0])] + Floored(s[1..])
  }

  // A single row with nothing typed was paying all of it.
  function ExplicitRows(rows: seq<TenderRow>, due: int): (r: seq<TenderRow>)
    ensures |r| == |rows|
  {
    if |rows| == 1 && Trim(rows[0].amountText) == [] then [rows[0].(amountText := EurosInput(due))] else rows
  }

  // A second way to pay, filled in with what is left.
  function AddTenderRow(rows: seq<TenderRow>, due: int): (r: seq<TenderRow>) {
    var base := ExplicitRows(rows, due);
    var left := Max(0, due - Sum(Floored(Amounts(TendersOfRows(base, due)))));
    base + [TenderRow(FirstUnused(OFFERED, RowMethods(base)), EurosInput(left), None)]
  }

  predicate AllParse(rows: seq<TenderRow>) {
    forall i :: 0 <= i < |rows| ==> ParseEurosInput(rows[i].amountText).Some?
  }

  lemma BlankDoesNotParse(text: string)
    requires Trim(text) == []
    ensures ParseEurosInput(text).None?
  {
    assert Cleaned([]) == [] && CommaToDot([]) == [];
  }

  // On a form of two rows or more the amounts are the ones typed.
  lemma MixedAmounts(rows: seq<TenderRow>, due: int)
    requires |rows| != 1
    ensures Amounts(TendersOfRows(rows, due)) == TypedAmounts(rows, -1)
  {
    hide ParseEurosInput;
    forall i | 0 <= i < |rows| ensures RowAmount(rows, i, due) == TypedAmounts(rows, -1)[i] {
      if Trim(rows[i].amountText) == [] { BlankDoesNotParse(rows[i].amountText); }
    }
  }

  lemma {:induction false} ParsedSums(rows: seq<TenderRow>)
    ensures Sum(TypedAmounts(rows, 0)) >= 0
    ensures Sum(TypedAmounts(rows, 0)) >= Sum(TypedAmounts(rows, -1))
    ensures AllParse(rows) ==> TypedAmounts(rows, 0) == TypedAmounts(rows, -1)
    ensures AllParse(rows) <==> forall i :: 0 <= i < |rows| ==> TypedAmounts(rows, -1)[i] >= 0
    ensures !AllParse(rows) ==> Sum(TypedAmounts(rows, 0)) > Sum(TypedAmounts(rows, -1))
  {
    hide ParseEurosInput;
    if rows != [] {
      ParsedSums(rows[1..]);
      assert rows == [rows[0]] + rows[1..];
    }
  }

  // The filled-in form: the rows as typed, then `left` in the last one.
  lemma FilledForm(rows: seq<TenderRow>, filled: seq<TenderRow>, due: nat, left: nat)
    requires rows != [] && |filled| == |rows| + 1
    requires forall i :: 0 <= i < |rows| ==> filled[i].amountText == rows[i].amountText
    requires filled[|rows|].amountText == EurosInput(left)
    ensures Amounts(TendersOfRows(filled, due)) == TypedAmounts(rows, -1) + [left]
    ensures SumTenders(TendersOfRows(filled, due)) == Sum(TypedAmounts(rows, -1)) + left
    ensures NonNegative(TendersOfRows(filled, due)) <==> AllParse(rows)
  {
    hide ParseEurosInput, EurosInput, Trim, RowAmount, TendersOfRows, TypedAmounts, Amounts, AllParse, NonNegative;
    MixedAmounts(filled, due);
    EurosRoundTrip(left);
    ParsedSums(rows);
    var a, ts := TypedAmounts(rows, -1), TendersOfRows(filled, due);
    assert TypedAmounts(filled, -1) == a + [left];
    SumAppend(a, [left]);
    hide Typed;
    assert [left as int][1..] == [];
    SignOfForm(ts, a, left);
  }

  lemma SignOfForm(ts: seq<Tender>, a: seq<int>, left: nat)
    requires Amounts(ts) == a + [left]
    ensures NonNegative(ts) <==> forall i :: 0 <= i < |a| ==> a[i] >= 0
  {
    assert forall i :: 0 <= i < |ts| ==> ts[i].amount == (a + [left])[i];
    assert forall i :: 0 <= i < |a| ==> a[i] == ts[i].amount;
  }

  // A payment that is exact: nothing negative, nothing over, nothing short.
  predicate Exact(ts: seq<Tender>, due: int) {
    NonNegative(ts) && SumTenders(ts) == due && ChangeCents(ts, due) == 0 && RemainingCents(ts, due) == 0
  }

  // Main result on the form: after a row other than the last is typed in, the
  // form pays exactly what is due if and only if the other rows are amounts
  // that add up to at most that.
  lemma RefillIsExact(rows: seq<TenderRow>, due: nat, index: nat)
    requires |rows| >= 2 && index < |rows| - 1
    ensures var others := rows[..|rows| - 1];
      Exact(TendersOfRows(RefillRows(rows, due, index), due), due) <==>
      AllParse(others) && Sum(TypedAmounts(others, 0)) <= due
  {
    hide ParseEurosInput, EurosInput, Trim, Typed, RowAmount, TendersOfRows, TypedAmounts, AllParse, NonNegative;
    var others := rows[..|rows| - 1];
    var left := Max(0, due - Sum(TypedAmounts(others, 0)));
    ParsedSums(others);
    FilledForm(others, RefillRows(rows, due, index), due, left);
  }

  // Refilling touches nothing but the last row's amount, and that only when
  // another row was typed in.
  lemma RefillTouchesTheLast(rows: seq<TenderRow>, due: int, index: nat)
    ensures var after := RefillRows(rows, due, index); var n := |rows|;
      && |after| == n
      && (n < 2 || index == n - 1 ==> after == rows)
      && (n >= 2 ==> after[..n - 1] == rows[..n - 1])
      && (n >= 2 ==> after[n - 1].(amountText := rows[n - 1].amountText) == rows[n - 1])
  {
    hide EurosInput;
  }

  // A form's tenders have their codes if its gift card rows do.
  lemma RowsKeepCodes(rows: seq<TenderRow>, due: int)
    ensures HasCodes(TendersOfRows(rows, due)) <==>
      forall i :: 0 <= i < |rows| && rows[i].means == GiftCard ==> Trim(rows[i].giftCardCode.GetOr("")) != []
  {
    hide Trim, RowAmount;
    var ts := TendersOfRows(rows, due);
    forall i | 0 <= i < |rows|
      ensures LacksCode(ts[i]) <==> rows[i].means == GiftCard && Trim(rows[i].giftCardCode.GetOr("")) == []
    {
    }
  }

  lemma ExplicitHasNoBlank(rows: seq<TenderRow>, due: nat)
    requires rows != []
    ensures var base := ExplicitRows(rows, due);
      |base| == 1 ==> Trim(base[0].amountText) != []
  {
    if |rows| == 1 && Trim(rows[0].amountText) == [] {
      EurosRoundTrip(due);
      if Trim(EurosInput(due)) == [] { BlankDoesNotParse(EurosInput(due)); }
    }
  }

  lemma FlooredRow(base: seq<TenderRow>, i: nat, due: nat)
    requires i < |base| && (|base| == 1 ==> Trim(base[0].amountText) != [])
    ensures Max(0, RowAmount(base, i, due)) == Typed(base[i].amountText, 0)
  {
    hide ParseEurosInput, Trim;
    if Trim(base[i].amountText) == [] { BlankDoesNotParse(base[i].amountText); }
  }

  // What a form without a blank single row adds up to, unreadable rows left
  // out, as the button that adds a row works it out.
  lemma FlooredAmounts(base: seq<TenderRow>, due: nat)
    requires |base| == 1 ==> Trim(base[0].amountText) != []
    ensures Floored(Amounts(TendersOfRows(base, due))) == TypedAmounts(base, 0)
  {
    hide *;
    forall i | 0 <= i < |base| ensures Max(0, RowAmount(base, i, due)) == TypedAmounts(base, 0)[i] {
      FlooredRow(base, i, due);
    }
  }

  // The same when a second way to pay is added; a single row with nothing
  // typed counts as all of what is due.
  lemma AddRowIsExact(rows: seq<TenderRow>, due: nat)
    requires rows != []
    ensures var base := ExplicitRows(rows, due);
      Exact(TendersOfRows(AddTenderRow(rows, due), due), due) <==>
      AllParse(base) && Sum(TypedAmounts(base, 0)) <= due
    ensures |rows| == 1 && Trim(rows[0].amountText) == [] ==> Exact(TendersOfRows(AddTenderRow(rows, due), due), due)
  {
    hide ParseEurosInput, EurosInput, Trim, Typed, RowAmount, TendersOfRows, TypedAmounts, AllParse, NonNegative,
      ExplicitRows, FirstUnused;
    var base := ExplicitRows(rows, due);
    var left := Max(0, due - Sum(TypedAmounts(base, 0)));
    ExplicitHasNoBlank(rows, due);
    FlooredAmounts(base, due);
    ParsedSums(base);
    if |rows| == 1 && Trim(rows[0].amountText) == [] { OneBlankRow(rows, due); }
    FilledForm(base, AddTenderRow(rows, due), due, left);
  }

  lemma OneBlankRow(rows: seq<TenderRow>, due: nat)
    requires |rows| == 1 && Trim(rows[0].amountText) == []
    ensures AllParse(ExplicitRows(rows, due)) && Sum(TypedAmounts(ExplicitRows(rows, due), 0)) == due
  {
    hide EurosInput, ParseEurosInput, Trim;
    EurosRoundTrip(due);
    assert TypedAmounts(ExplicitRows(rows, due), 0) == [due as int] && [due as int][1..] == [];
  }

  // An exact payment is accepted once its gift cards have their codes.
  lemma ExactIsAccepted(ts: seq<Tender>, due: nat)
    requires ts != [] && Exact(ts, due) && HasCodes(ts)
    ensures TenderProblem(ts, due).None?
  {
    AcceptedMeans(ts, due);
    CashNonNegative(ts);
  }

  lemma {:induction false} CashNonNegative(ts: seq<Tender>)
    requires NonNegative(ts)
    ensures 0 <= CashIn(ts) <= SumTenders(ts)
  {
    if ts != [] { CashNonNegative(ts[1..]); }
  }

  // A tender added takes what is left, by a means not used yet while one of
  // the four is free.
  lemma AddedTender(ts: seq<Tender>, due: int, means: Option<Method>)
    ensures var added := AddTender(ts, due, means);
      && |added| == |ts| + 1 && added[..|ts|] == ts
      && SumTenders(added) == Max(due, SumTenders(ts))
      && (means.Some? ==> added[|ts|].means == means.value)
      && (means.None? && (exists m :: m in [Card, Cash, Bizum, BankTransfer] && m !in MethodsOf(ts)) ==>
            added[|ts|].means !in MethodsOf(ts))
  {
    var next := means.GetOr(FirstUnused(OFFERED, MethodsOf(ts)));
    var more := ts + [Tender(next, 0, None)];
    if exists m :: m in OFFERED && m !in MethodsOf(ts) { FirstUnusedIsUnused(OFFERED, MethodsOf(ts)); }
    hide FirstUnused, MethodsOf;
    FillMakesExact(more, due, |ts|);
    assert Amounts(more) == Amounts(ts) + [0];
    SumAppend(Amounts(ts), [0]);
    assert [0][1..] == [];
  }

  lemma AddedRow(rows: seq<TenderRow>, due: int)
    ensures var added := AddTenderRow(rows, due);
      && |added| == |rows| + 1
      && (forall i :: 0 <= i < |rows| ==>
            added[i].means == rows[i].means && added[i].giftCardCode == rows[i].giftCardCode
            && (|rows| != 1 || Trim(rows[0].amountText) != [] ==> added[i] == rows[i]))
      && ((exists m :: m in [Card, Cash, Bizum, BankTransfer] && m !in RowMethods(rows)) ==>
            added[|rows|].means !in RowMethods(rows))
  {
    hide EurosInput, Trim, TendersOfRows, FirstUnused, RowMethods, ExplicitRows;
    ExplicitKeeps(rows, due);
    if exists m :: m in OFFERED && m !in RowMethods(rows) { FirstUnusedIsUnused(OFFERED, RowMethods(rows)); }
  }

  lemma ExplicitKeeps(rows: seq<TenderRow>, due: int)
    ensures var base := ExplicitRows(rows, due);
      && |base| == |rows| && RowMethods(base) == RowMethods(rows)
      && (forall i :: 0 <= i < |rows| ==>
            base[i].means == rows[i].means && base[i].giftCardCode == rows[i].giftCardCode
            && (|rows| != 1 || Trim(rows[0].amountText) != [] ==> base[i] == rows[i]))
  {
    hide EurosInput, Trim;
  }

  // The row added is of a method not used yet, while one of the four is free.
  lemma {:induction false} FirstUnusedIsUnused(offered: seq<Method>, used: seq<Method>)
    requires exists m :: m in offered && m !in used
    ensures FirstUnused(offered, used) in offered && FirstUnused(offered, used) !in used
  {
    if offered != [] && offered[0] in used {
      assert offered == [offered[0]] + offered[1..];
      FirstUnusedIsUnused(offered[1..], used);
    }
  }
}
