// Amounts of euros as typed: the till's reader and printer (pos-cart.ts,
// parseEurosInput and eurosInput) and the refund form's reader
// (payments-format.ts, parseEurosToCents).
module Euros {
  import opened Common
  import opened Text

  predicate IsAmountChar(c: char) { !IsSpace(c) && c != '\U{20AC}' }

  function Cleaned(text: string): (r: string) { Filter(text, IsAmountChar) }

  // The first comma becomes a point.
  function CommaToDot(s: string): (r: string) {
    if s == [] then [] else if s[0] == ',' then ['.'] + s[1..] else [s[0]] + CommaToDot(s[1..])
  }

  // Hundredths written by at most two digits after the separator.
  function Hundredths(decimals: string): (r: nat)
    requires AllDigits(decimals) && |decimals| <= 2
  {
    match |decimals|
    case 0 => 0
    case 1 => 10 * DecimalValue(decimals)
    case _ => DecimalValue(decimals)
  }

  // /^\d+(\.\d{0,2})?$/, and the cents it writes: the number times 100 is
  // whole, so rounding it changes nothing.
  function ParseDotted(clean: string): (r: Option<nat>) {
    var n := DigitRun(clean);
    if n == 0 then None
    else if n == |clean| then Some(100 * DecimalValue(clean))
    else
      var decimals := clean[n + 1..];
      if clean[n] == '.' && |decimals| <= 2 && AllDigits(decimals) then
        Some(100 * DecimalValue(clean[..n]) + Hundredths(decimals))
      else None
  }

  function ParseEurosInput(text: string): (r: Option<nat>) {
    ParseDotted(CommaToDot(Cleaned(Trim(text))))
  }

  // Euros with two decimals after a comma.
  function EurosInput(cents: int): (r: string)
    decreases cents < 0
  {
    if cents < 0 then "-" + EurosInput(-cents)
    else Digits(cents / 100) + "," + [Digit(cents % 100 / 10), Digit(cents % 100 % 10)]
  }

  // /^\d+([.,]\d{1,2})?$/, and above zero.
  function ParseEurosToCents(input: string): (r: Option<nat>) {
    var clean := Cleaned(input);
    var n := DigitRun(clean);
    if n == 0 then None
    else if n == |clean| then Positive(100 * DecimalValue(clean))
    else
      var decimals := clean[n + 1..];
      if (clean[n] == '.' || clean[n] == ',') && 1 <= |decimals| <= 2 && AllDigits(decimals) then
        Positive(100 * DecimalValue(clean[..n]) + Hundredths(decimals))
      else None
  }

  function Positive(cents: nat): (r: Option<nat>) { if cents > 0 then Some(cents) else None }

  lemma {:induction false} CleanKeeps(s: string)
    requires forall i :: 0 <= i < |s| ==> IsAmountChar(s[i])
    ensures Cleaned(s) == s
  {
    if s != [] {
      CleanKeeps(s[1..]);
      assert s == [s[0]] + s[1..];
    }
  }

  lemma {:induction false} CleanDropsSpaces(s: string)
    requires forall i :: 0 <= i < |s| ==> IsSpace(s[i])
    ensures Cleaned(s) == []
  {
    if s != [] { CleanDropsSpaces(s[1..]); }
  }

  lemma CleanAppend(a: string, b: string)
    ensures Cleaned(a + b) == Cleaned(a) + Cleaned(b)
  {
    FilterAppend(a, b, IsAmountChar);
  }

  // Trimming first makes no difference.
  lemma CleanTrimmed(text: string)
    ensures Cleaned(Trim(text)) == Cleaned(text)
  {
    hide TrimStart, TrimEnd, IsSpace, Cleaned;
    var t := TrimStart(text);
    var u := TrimEnd(t);
    var head, tail := text[..|text| - |t|], t[|u|..];
    assert text == head + t && t == u + tail;
    CleanAppend(head, t);
    CleanAppend(u, tail);
    CleanDropsSpaces(head);
    CleanDropsSpaces(tail);
  }

  lemma {:induction false} CommaKeepsDigits(s: string)
    ensures var t := CommaToDot(s); var n := DigitRun(s);
      && |t| == |s| && DigitRun(t) == n && t[..n] == s[..n]
      && (n < |s| ==>
          && t[n] == (if s[n] == ',' then '.' else s[n])
          && t[n + 1..] == if s[n] == ',' then s[n + 1..] else CommaToDot(s[n + 1..]))
  {
    if s != [] && IsDigit(s[0]) {
      CommaKeepsDigits(s[1..]);
      var t, n := CommaToDot(s), DigitRun(s);
      var t', n' := CommaToDot(s[1..]), DigitRun(s[1..]);
      assert t == [s[0]] + t' && n == n' + 1;
      assert t[..n] == [s[0]] + t'[..n'] && s[..n] == [s[0]] + s[1..][..n'];
      if n < |s| {
        assert t[n + 1..] == t'[n' + 1..] && s[n + 1..] == s[1..][n' + 1..];
      }
    } else if s != [] {
      CommaKeepsLength(s[1..]);
      assert s[..0] == [] && CommaToDot(s)[1..] == if s[0] == ',' then s[1..] else CommaToDot(s[1..]);
    }
  }

  lemma {:induction false} CommaKeepsLength(s: string)
    ensures |CommaToDot(s)| == |s|
  {
    if s != [] { CommaKeepsLength(s[1..]); }
  }

  // What both readers see: whole digits, then maybe a separator and digits.
  function ReadClean(s: string): (r: Option<nat>) {
    var n := DigitRun(s);
    if n == 0 then None
    else if n == |s| then Some(100 * DecimalValue(s))
    else if (s[n] == '.' || s[n] == ',') && |s[n + 1..]| <= 2 && AllDigits(s[n + 1..]) then
      Some(100 * DecimalValue(s[..n]) + Hundredths(s[n + 1..]))
    else None
  }

  lemma ReadInput(text: string)
    ensures ParseEurosInput(text) == ReadClean(Cleaned(text))
  {
    CleanTrimmed(text);
    ReadDotted(Cleaned(text));
  }

  // The grammar of an amount: digits, then maybe a comma or a point and at most
  // two more.
  ghost predicate IsAmount(s: string, whole: string, decimals: string, cents: nat) {
    && whole != [] && AllDigits(whole) && AllDigits(decimals) && |decimals| <= 2
    && ((s == whole && decimals == []) || s == whole + "," + decimals || s == whole + "." + decimals)
    && cents == 100 * DecimalValue(whole) + Hundredths(decimals)
  }

  // The till reads exactly the amounts of the grammar, spaces and euro signs
  // left out, at their value.
  lemma ReadsExactly(text: string, cents: nat)
    ensures ParseEurosInput(text) == Some(cents) <==>
      exists whole, decimals :: IsAmount(Cleaned(text), whole, decimals, cents)
  {
    var s := Cleaned(text);
    ReadInput(text);
    hide ParseEurosInput, Cleaned;
    if ReadClean(s) == Some(cents) {
      AmountRead(s, cents);
    }
    forall whole, decimals | IsAmount(s, whole, decimals, cents) ensures ReadClean(s) == Some(cents) {
      ReadAmount(s, whole, decimals, cents);
    }
  }

  lemma AmountRead(s: string, cents: nat)
    requires ReadClean(s) == Some(cents)
    ensures exists whole, decimals :: IsAmount(s, whole, decimals, cents)
  {
    var n := DigitRun(s);
    hide DecimalValue, DigitRun;
    if n == |s| {
      assert s[..n] == s;
      assert IsAmount(s, s, [], cents);
    } else {
      assert s == s[..n] + [s[n]] + s[n + 1..];
      assert IsAmount(s, s[..n], s[n + 1..], cents);
    }
  }

  lemma ReadAmount(s: string, whole: string, decimals: string, cents: nat)
    requires IsAmount(s, whole, decimals, cents)
    ensures ReadClean(s) == Some(cents)
  {
    hide DecimalValue, DigitRun;
    var n := |whole|;
    var rest := s[n..];
    assert s == whole + rest;
    DigitRunAll(whole, rest);
    assert s[..n] == whole && (n < |s| ==> s[n + 1..] == decimals);
    assert n == |s| ==> s == whole;
  }

  lemma ReadDotted(s: string)
    ensures ParseDotted(CommaToDot(s)) == ReadClean(s)
  {
    var t, n := CommaToDot(s), DigitRun(s);
    CommaKeepsDigits(s);
    if n < |s| {
      DotsThenDigits(s[n + 1..]);
      ReadSeparated(s, t, n);
    } else {
      assert t[..n] == t && s[..n] == s;
    }
  }

  lemma ReadSeparated(s: string, t: string, n: nat)
    requires n < |s| == |t| && DigitRun(s) == n == DigitRun(t) && t[..n] == s[..n]
    requires t[n] == (if s[n] == ',' then '.' else s[n])
    requires AllDigits(s[n + 1..]) || AllDigits(t[n + 1..]) ==> s[n + 1..] == t[n + 1..]
    requires |s[n + 1..]| == |t[n + 1..]|
    ensures ParseDotted(t) == ReadClean(s)
  {
    hide DecimalValue, Hundredths, DigitRun;
  }

  lemma {:induction false} DotsThenDigits(s: string)
    ensures |CommaToDot(s)| == |s|
    ensures AllDigits(s) ==> CommaToDot(s) == s
    ensures AllDigits(CommaToDot(s)) ==> CommaToDot(s) == s
  {
    if s != [] {
      DotsThenDigits(s[1..]);
      var t := CommaToDot(s);
      assert s[0] != ',' ==> t[1..] == CommaToDot(s[1..]);
      assert s == [s[0]] + s[1..];
    }
  }

  lemma PrintedForm(d: string, separator: char, tail: string)
    requires AllDigits(d) && AllDigits(tail) && d != [] && (separator == ',' || separator == '.')
    ensures var s := d + [separator] + tail; var n := |d|;
      Cleaned(s) == s && DigitRun(s) == n && s[..n] == d && s[n] == separator && s[n + 1..] == tail
  {
    var s := d + [separator] + tail;
    assert s == d + ([separator] + tail);
    DigitRunAll(d, [separator] + tail);
    CleanKeeps(s);
  }

  lemma PrintedParts(cents: nat)
    ensures var s := EurosInput(cents); var n := DigitRun(s);
      && Cleaned(s) == s && 0 < n && n + 3 == |s| && s[n] == ',' && AllDigits(s[n + 1..])
      && DecimalValue(s[..n]) == cents / 100 && DecimalValue(s[n + 1..]) == cents % 100
  {
    hide Digits, DecimalValue, Cleaned, DigitRun;
    TwoDigits(cents % 100);
    PrintedForm(Digits(cents / 100), ',', [Digit(cents % 100 / 10), Digit(cents % 100 % 10)]);
  }

  // Both readers of n digits, a comma and two more.
  lemma ReadTwoDecimals(s: string, n: nat, tail: string)
    requires DigitRun(s) == n && 0 < n && n + 3 == |s| && s[n] == ',' && s[n + 1..] == tail && AllDigits(tail)
    requires Cleaned(s) == s
    ensures ReadClean(s) == Some(100 * DecimalValue(s[..n]) + DecimalValue(tail))
    ensures ParseEurosToCents(s) == Positive(100 * DecimalValue(s[..n]) + DecimalValue(tail))
  {
    hide DecimalValue, DigitRun, Cleaned;
  }

  // The printer is read back exactly, by both readers.
  lemma EurosRoundTrip(cents: nat)
    ensures ParseEurosInput(EurosInput(cents)) == Some(cents)
    ensures ParseEurosToCents(EurosInput(cents)) == if cents > 0 then Some(cents) else None
  {
    hide EurosInput, Cleaned, ParseEurosInput, ParseEurosToCents, ReadClean, DecimalValue, DigitRun, AllDigits;
    var s := EurosInput(cents);
    var n := DigitRun(s);
    PrintedParts(cents);
    ReadInput(s);
    ReadTwoDecimals(s, n, s[n + 1..]);
    assert cents == 100 * (cents / 100) + cents % 100;
  }

  // With a point or a comma, a single decimal is tenths, and a separator with
  // nothing after it is left alone by the till.
  lemma ShortAmounts(n: nat, tenths: nat, separator: char)
    requires tenths < 10 && (separator == ',' || separator == '.')
    ensures ParseEurosInput(Digits(n) + [separator] + [Digit(tenths)]) == Some(100 * n + 10 * tenths)
    ensures ParseEurosInput(Digits(n) + [separator] + []) == Some(100 * n)
  {
    hide Digits, DigitRun, DecimalValue, Cleaned, ParseEurosInput;
    PrintedForm(Digits(n), separator, [Digit(tenths)]);
    PrintedForm(Digits(n), separator, []);
    ReadInput(Digits(n) + [separator] + [Digit(tenths)]);
    ReadInput(Digits(n) + [separator] + []);
    OneDigit(tenths);
  }

  lemma OneDigit(d: nat)
    requires d < 10
    ensures DecimalValue([Digit(d)]) == d && DecimalValue([]) == 0
  {
    assert [Digit(d)][..0] == [];
  }

  // An amount below zero is printed with its sign, which no reader takes.
  lemma NegativeIsNotRead(cents: int)
    requires cents < 0
    ensures ParseEurosInput(EurosInput(cents)).None? && ParseEurosToCents(EurosInput(cents)).None?
  {
    hide Cleaned, DigitRun, ParseEurosInput, CommaToDot;
    var s := EurosInput(cents);
    ReadInput(s);
    SignStays(EurosInput(-cents));
    SignHasNoDigits(Cleaned(s));
  }

  lemma SignStays(rest: string)
    ensures Cleaned("-" + rest) == "-" + Cleaned(rest)
  {
    assert ("-" + rest)[1..] == rest;
  }

  lemma SignHasNoDigits(s: string)
    requires s != [] && s[0] == '-'
    ensures DigitRun(s) == 0
  {
  }

  lemma TwoDigits(n: nat)
    requires n < 100
    ensures DecimalValue([Digit(n / 10), Digit(n % 10)]) == n
  {
    var s := [Digit(n / 10), Digit(n % 10)];
    assert s[..1] == [Digit(n / 10)] && s[..1][..0] == [];
    assert DecimalValue(s[..1]) == n / 10;
  }

  predicate EndsInDigit(s: string) { s != [] && IsDigit(s[|s| - 1]) }

  // The refund form reads what the till reads, when it is above zero and does
  // not end in its separator.
  lemma RefundReaderAgrees(text: string, cents: nat)
    ensures ParseEurosToCents(text) == Some(cents)
      <==> ParseEurosInput(text) == Some(cents) && cents > 0 && EndsInDigit(Cleaned(text))
  {
    var s := Cleaned(text);
    ReadInput(text);
    var n := DigitRun(s);
    if 0 < n < |s| && AllDigits(s[n + 1..]) && |s| > n + 1 {
      assert s[n + 1..][|s| - n - 2] == s[|s| - 1];
    }
    if 0 < n == |s| {
      assert s[..n][n - 1] == s[n - 1];
    }
  }
}
