// Day numbers of the Gregorian calendar (ECMA-262, section 21.4.1) and the
// "YYYY-MM-DD" strings that stand for them.
module Calendar {
  import opened Text

  predicate IsLeap(y: int) { y % 4 == 0 && (y % 100 != 0 || y % 400 == 0) }

  function DaysInYear(y: int): (r: int) { if IsLeap(y) then 366 else 365 }

  // The number of the first day of year y; day 0 is 1970-01-01.
  function DayFromYear(y: int): (r: int) {
    365 * (y - 1970) + (y - 1969) / 4 - (y - 1901) / 100 + (y - 1601) / 400
  }

  // The days of the year before month m (0 to 12).
  function MonthStart(m: nat, leap: bool): (r: nat)
    requires m <= 12
  {
    [0, 31, 59, 90, 120, 151, 181, 212, 243, 273, 304, 334, 365][m] + if leap && m >= 2 then 1 else 0
  }

  datatype Date = Date(year: int, month: int, day: int)

  // A day that exists: month 1 to 12, day within the month.
  predicate IsReal(d: Date) {
    && 1 <= d.month <= 12
    && 1 <= d.day <= MonthStart(d.month, IsLeap(d.year)) - MonthStart(d.month - 1, IsLeap(d.year))
  }

  function DayNumber(d: Date): (r: int)
    requires 1 <= d.month <= 12
  {
    DayFromYear(d.year) + MonthStart(d.month - 1, IsLeap(d.year)) + d.day - 1
  }

  // MakeDay: month0 counts from 0 and may lie outside the year, date outside
  // the month.
  function MakeDay(year: int, month0: int, date: int): (r: int) {
    var y := year + month0 / 12;
    DayFromYear(y) + MonthStart(month0 % 12, IsLeap(y)) + date - 1
  }

  // YearFromTime: the year whose days n is one of, looked for from y.
  function YearNear(n: int, y: int): (r: int)
    ensures DayFromYear(r) <= n < DayFromYear(r + 1)
    decreases if n < DayFromYear(y) then DayFromYear(y) - n else 0, n - DayFromYear(y)
  {
    YearLength(y);
    YearLength(y - 1);
    if n < DayFromYear(y) then YearNear(n, y - 1)
    else if n >= DayFromYear(y + 1) then YearNear(n, y + 1)
    else y
  }

  // MonthFromTime, counted from m: day k of the year is in it.
  function MonthFrom(k: nat, leap: bool, m: nat): (r: nat)
    requires m < 12 && MonthStart(m, leap) <= k < MonthStart(12, leap)
    ensures m <= r < 12 && MonthStart(r, leap) <= k < MonthStart(r + 1, leap)
    decreases 12 - m
  {
    if k < MonthStart(m + 1, leap) then m else MonthFrom(k, leap, m + 1)
  }

  // The date of day n.
  function DateOf(n: int): (d: Date)
    ensures IsReal(d) && DayNumber(d) == n
  {
    var y := YearNear(n, 1970);
    YearLength(y);
    var k := n - DayFromYear(y);
    var m := MonthFrom(k, IsLeap(y), 0);
    Date(y, m + 1, k - MonthStart(m, IsLeap(y)) + 1)
  }

  lemma YearLength(y: int)
    ensures DayFromYear(y + 1) == DayFromYear(y) + DaysInYear(y)
    ensures DaysInYear(y) == MonthStart(12, IsLeap(y))
  {
    assert (y + 1 - 1969) / 4 == (y - 1969) / 4 + if y % 4 == 0 then 1 else 0;
    assert (y + 1 - 1901) / 100 == (y - 1901) / 100 + if y % 100 == 0 then 1 else 0;
    assert (y + 1 - 1601) / 400 == (y - 1601) / 400 + if y % 400 == 0 then 1 else 0;
    assert y % 100 == 0 ==> y % 4 == 0;
    assert y % 400 == 0 ==> y % 100 == 0;
  }

  lemma {:induction false} YearsIncrease(y: int, z: int)
    requires y < z
    ensures DayFromYear(y) + DaysInYear(y) <= DayFromYear(z)
    decreases z - y
  {
    YearLength(y);
    if y + 1 < z {
      YearLength(y + 1);
      YearsIncrease(y + 1, z);
    }
  }

  lemma MonthsIncrease(m: nat, n: nat, leap: bool)
    requires m <= n <= 12
    ensures MonthStart(m, leap) <= MonthStart(n, leap)
  {
  }

  predicate Earlier(a: Date, b: Date) {
    a.year < b.year || (a.year == b.year && (a.month < b.month || (a.month == b.month && a.day < b.day)))
  }

  // Dates that exist and day numbers go in the same order.
  lemma EarlierIsSmaller(a: Date, b: Date)
    requires IsReal(a) && IsReal(b) && Earlier(a, b)
    ensures DayNumber(a) < DayNumber(b)
  {
    if a.year < b.year {
      YearsIncrease(a.year, b.year);
      YearLength(a.year);
      MonthsIncrease(a.month, 12, IsLeap(a.year));
    } else if a.month < b.month {
      MonthsIncrease(a.month, b.month - 1, IsLeap(a.year));
    }
  }

  // Day numbers and dates that exist stand one for one.
  lemma DayNumbersTellDatesApart(a: Date, b: Date)
    requires IsReal(a) && IsReal(b)
    ensures DayNumber(a) < DayNumber(b) <==> Earlier(a, b)
    ensures DayNumber(a) == DayNumber(b) <==> a == b
  {
    if Earlier(a, b) { EarlierIsSmaller(a, b); }
    if Earlier(b, a) { EarlierIsSmaller(b, a); }
  }

  lemma DateOfDayNumber(d: Date)
    requires IsReal(d)
    ensures DateOf(DayNumber(d)) == d
  {
    DayNumbersTellDatesApart(DateOf(DayNumber(d)), d);
  }

  // ------------------------------------------------- the calendar by the book

  // The last day of a month, as everyone knows it.
  function LastDay(year: int, month: int): (r: int) {
    if month == 4 || month == 6 || month == 9 || month == 11 then 30
    else if month == 2 then if year % 400 == 0 || (year % 4 == 0 && year % 100 != 0) then 29 else 28
    else 31
  }

  function Tomorrow(d: Date): (r: Date) {
    if d.day < LastDay(d.year, d.month) then Date(d.year, d.month, d.day + 1)
    else if d.month < 12 then Date(d.year, d.month + 1, 1)
    else Date(d.year + 1, 1, 1)
  }

  // The dates that exist are those of the calendar.
  lemma RealDates(d: Date)
    ensures IsReal(d) <==> 1 <= d.month <= 12 && 1 <= d.day <= LastDay(d.year, d.month)
  {
    if 1 <= d.month <= 12 { MonthLength(d.month, d.year); }
  }

  lemma MonthLength(m: nat, year: int)
    requires 1 <= m <= 12
    ensures MonthStart(m, IsLeap(year)) - MonthStart(m - 1, IsLeap(year)) == LastDay(year, m)
  {
    LeapRule(year);
    hide IsLeap;
    MonthSpan(m, IsLeap(year));
  }

  lemma LeapRule(year: int)
    ensures IsLeap(year) <==> year % 400 == 0 || (year % 4 == 0 && year % 100 != 0)
  {
    assert year == 400 * (year / 400) + year % 400;
  }

  lemma MonthSpan(m: nat, leap: bool)
    requires 1 <= m <= 12
    ensures MonthStart(m, leap) - MonthStart(m - 1, leap) ==
      if m == 4 || m == 6 || m == 9 || m == 11 then 30 else if m == 2 then (if leap then 29 else 28) else 31
  {
  }

  lemma Epoch()
    ensures DayNumber(Date(1970, 1, 1)) == 0
  {
  }

  lemma FirstOfMonth(year: int, m: nat)
    requires 1 <= m <= 12
    ensures DayNumber(Date(year, m, 1)) == DayFromYear(year) + MonthStart(m - 1, IsLeap(year))
    ensures m == 1 ==> DayNumber(Date(year, m, 1)) == DayFromYear(year)
  {
  }

  lemma TomorrowFollows(d: Date)
    requires IsReal(d)
    ensures IsReal(Tomorrow(d)) && DayNumber(Tomorrow(d)) == DayNumber(d) + 1
  {
    RealDates(d);
    RealDates(Tomorrow(d));
    MonthLength(d.month, d.year);
    YearLength(d.year);
    hide IsReal, DayFromYear, DaysInYear, IsLeap, MonthStart;
    if d.day == LastDay(d.year, d.month) {
      FirstOfMonth(d.year, d.month);
      DaysOfMonth(d);
      if d.month < 12 { FirstOfMonth(d.year, d.month + 1); } else { FirstOfMonth(d.year + 1, 1); }
    }
  }

  lemma DaysOfMonth(d: Date)
    requires 1 <= d.month <= 12
    ensures DayNumber(d) == DayNumber(Date(d.year, d.month, 1)) + d.day - 1
  {
    hide DayFromYear, MonthStart;
  }

  // Day numbers count from 1970-01-01, day by day through months and years:
  // these facts leave no choice about any of them.
  lemma DaysFollow(d: Date)
    requires IsReal(d)
    ensures DayNumber(Date(1970, 1, 1)) == 0
    ensures IsReal(Tomorrow(d)) && DayNumber(Tomorrow(d)) == DayNumber(d) + 1
    ensures DateOf(DayNumber(d) + 1) == Tomorrow(d)
  {
    hide *;
    Epoch();
    TomorrowFollows(d);
    RealDates(d);
    RealDates(Tomorrow(d));
    DateOfDayNumber(Tomorrow(d));
  }

  // ------------------------------------------------------------------ strings

  // /^\d{4}-\d{2}-\d{2}$/
  predicate IsDay(s: string) {
    && |s| == 10 && s[4] == '-' && s[7] == '-'
    && AllDigits(s[..4]) && AllDigits(s[5..7]) && AllDigits(s[8..])
  }

  function Parts(s: string): (r: Date)
    requires IsDay(s)
  {
    Date(DecimalValue(s[..4]), DecimalValue(s[5..7]), DecimalValue(s[8..]))
  }

  // Digits of the same width: equal values, equal strings.
  lemma {:induction false} ValueDecides(a: string, b: string)
    requires AllDigits(a) && AllDigits(b) && |a| == |b| && DecimalValue(a) == DecimalValue(b)
    ensures a == b
  {
    if |a| > 0 {
      var n := |a| - 1;
      ValueDecides(a[..n], b[..n]);
      assert a == a[..n] + [a[n]] && b == b[..n] + [b[n]];
    }
  }

  lemma {:induction false} ValueBound(a: string)
    requires AllDigits(a)
    ensures DecimalValue(a) < Power10(|a|)
  {
    if |a| > 0 { ValueBound(a[..|a| - 1]); }
  }

  // The day of an ISO time stamp: years 0 to 9999 in four digits, others with a
  // sign and six.
  function IsoDay(d: Date): (r: string)
    requires IsReal(d)
  {
    if 0 <= d.year <= 9999 then Padded(d.year, 4) + "-" + Padded(d.month, 2) + "-" + Padded(d.day, 2)
    else (if d.year < 0 then "-" else "+") + Padded(if d.year < 0 then -d.year else d.year, 6) + "-" + Padded(d.month, 2)
  }

  lemma IsoDayReadsBack(d: Date)
    requires IsReal(d) && 0 <= d.year <= 9999
    ensures IsDay(IsoDay(d)) && Parts(IsoDay(d)) == d
  {
    assert Power10(4) == 10000 && Power10(2) == 100 by { assert Power10(3) == 1000; }
    PaddedValue(d.year, 4);
    PaddedValue(d.month, 2);
    PaddedValue(d.day, 2);
    var s := IsoDay(d);
    assert s[..4] == Padded(d.year, 4) && s[5..7] == Padded(d.month, 2) && s[8..] == Padded(d.day, 2);
  }

  // The string of a date that exists is the only one.
  lemma DayStringUnique(s: string)
    requires IsDay(s) && IsReal(Parts(s))
    ensures IsoDay(Parts(s)) == s && 0 <= Parts(s).year <= 9999
  {
    YearBound(s);
    IsoDayReadsBack(Parts(s));
    hide IsoDay, IsReal;
    SamePieces(s, IsoDay(Parts(s)));
  }

  lemma YearBound(s: string)
    requires IsDay(s)
    ensures 0 <= Parts(s).year <= 9999
  {
    assert Power10(4) == 10000 by { assert Power10(3) == 1000; }
    ValueBound(s[..4]);
  }

  lemma SamePieces(s: string, t: string)
    requires IsDay(s) && IsDay(t) && Parts(s) == Parts(t)
    ensures s == t
  {
    hide DecimalValue;
    ValueDecides(s[..4], t[..4]);
    ValueDecides(s[5..7], t[5..7]);
    ValueDecides(s[8..], t[8..]);
    assert s == s[..4] + "-" + s[5..7] + "-" + s[8..] && t == t[..4] + "-" + t[5..7] + "-" + t[8..];
  }

  // The order of strings: s < t.
  predicate Less(s: string, t: string) {
    if t == [] then false
    else if s == [] then true
    else s[0] < t[0] || (s[0] == t[0] && Less(s[1..], t[1..]))
  }

  lemma {:induction false} LessAfter(a: string, b: string, x: string, y: string)
    requires |a| == |b|
    ensures Less(a + x, b + y) <==> Less(a, b) || (a == b && Less(x, y))
  {
    if a == [] {
      assert a + x == x && b + y == y;
    } else {
      assert (a + x)[1..] == a[1..] + x && (b + y)[1..] == b[1..] + y;
      LessAfter(a[1..], b[1..], x, y);
      assert a == [a[0]] + a[1..] && b == [b[0]] + b[1..];
    }
  }

  lemma {:induction false} LessIsSmaller(a: string, b: string)
    requires AllDigits(a) && AllDigits(b) && |a| == |b|
    ensures Less(a, b) <==> DecimalValue(a) < DecimalValue(b)
  {
    if |a| > 0 {
      var n := |a| - 1;
      var a', b' := a[..n], b[..n];
      LessIsSmaller(a', b');
      if DecimalValue(a') == DecimalValue(b') { ValueDecides(a', b'); }
      LessAfter(a', b', [a[n]], [b[n]]);
      assert a == a' + [a[n]] && b == b' + [b[n]];
      assert Less([a[n]], [b[n]]) <==> a[n] < b[n];
    }
  }

  // A day string of a date that exists, as the salon's forms and feeds send.
  predicate IsRealDay(s: string) { IsDay(s) && IsReal(Parts(s)) }

  // Its day number; 0 for other strings, of which nothing is said.
  function DayOf(s: string): (r: int) {
    if IsRealDay(s) then DayNumber(Parts(s)) else 0
  }

  // Real days from year 100 on, where two-digit years play no part.
  predicate OnCalendar(s: string) { IsRealDay(s) && Parts(s).year >= 100 }

  lemma StringOrderOfParts(s: string, t: string)
    requires IsDay(s) && IsDay(t)
    ensures Less(s, t) <==> Earlier(Parts(s), Parts(t))
  {
    assert s == s[..4] + (s[4..5] + (s[5..7] + (s[7..8] + s[8..])));
    assert t == t[..4] + (t[4..5] + (t[5..7] + (t[7..8] + t[8..])));
    LessAfter(s[..4], t[..4], s[4..5] + (s[5..7] + (s[7..8] + s[8..])), t[4..5] + (t[5..7] + (t[7..8] + t[8..])));
    LessAfter(s[4..5], t[4..5], s[5..7] + (s[7..8] + s[8..]), t[5..7] + (t[7..8] + t[8..]));
    LessAfter(s[5..7], t[5..7], s[7..8] + s[8..], t[7..8] + t[8..]);
    LessAfter(s[7..8], t[7..8], s[8..], t[8..]);
    assert s[4..5] == "-" == t[4..5] && s[7..8] == "-" == t[7..8];
    assert !Less("-", "-");
    LessIsSmaller(s[..4], t[..4]);
    LessIsSmaller(s[5..7], t[5..7]);
    LessIsSmaller(s[8..], t[8..]);
    if DecimalValue(s[..4]) == DecimalValue(t[..4]) { ValueDecides(s[..4], t[..4]); }
    if DecimalValue(s[5..7]) == DecimalValue(t[5..7]) { ValueDecides(s[5..7], t[5..7]); }
  }

  // String order is day order, and equal days are equal strings.
  lemma StringOrderIsDayOrder(s: string, t: string)
    requires IsRealDay(s) && IsRealDay(t)
    ensures Less(s, t) <==> DayOf(s) < DayOf(t)
    ensures s == t <==> DayOf(s) == DayOf(t)
  {
    StringOrderOfParts(s, t);
    DayNumbersTellDatesApart(Parts(s), Parts(t));
    DayStringUnique(s);
    DayStringUnique(t);
  }

  // ------------------------------------------------------------ Date.UTC

  // Date.UTC in days: a year from 0 to 99 means 1900 to 1999.
  function UtcDay(year: int, month0: int, date: int): (r: int) {
    MakeDay(if 0 <= year <= 99 then 1900 + year else year, month0, date)
  }

  // Twelve months more is a year more, and the days go on from the month.
  lemma MonthsCarry(year: int, month0: int, date: int, delta: int)
    ensures MakeDay(year, month0 + 12, date) == MakeDay(year + 1, month0, date)
    ensures MakeDay(year, month0, date + delta) == MakeDay(year, month0, date) + delta
  {
    assert (month0 + 12) / 12 == month0 / 12 + 1 && (month0 + 12) % 12 == month0 % 12;
  }

  // From year 100 on it is the date's own day number, moved by the excess of
  // days.
  lemma UtcDayOfParts(s: string, delta: int)
    requires OnCalendar(s)
    ensures UtcDay(Parts(s).year, Parts(s).month - 1, Parts(s).day + delta) == DayOf(s) + delta
  {
    var m := Parts(s).month - 1;
    assert m / 12 == 0 && m % 12 == m;
  }
}
