// Day arithmetic of the team's absences (time-off.ts).
module TimeOff {
  import opened Calendar
  import opened Common
  import opened Text

  const MAX_SPAN_DAYS := 366

  // Days from `from` to `to`, both counted.
  function DaysInRange(from: string, to: string): (r: int)
    requires IsDay(from) && IsDay(to)
  {
    var a, b := Parts(from), Parts(to);
    UtcDay(b.year, b.month - 1, b.day) - UtcDay(a.year, a.month - 1, a.day) + 1
  }

  function AddDays(day: string, delta: int): (r: string)
    requires IsDay(day)
  {
    var d := Parts(day);
    IsoDay(DateOf(UtcDay(d.year, d.month - 1, d.day + delta)))
  }

  // Whether day n has a four-digit year.
  predicate Writable(n: int) { 100 <= DateOf(n).year <= 9999 }

  // Moving a day moves its number, and gives a day again exactly while the
  // year stays between 100 and 9999.
  lemma AddDaysMoves(day: string, delta: int)
    requires OnCalendar(day)
    ensures AddDays(day, delta) == IsoDay(DateOf(DayOf(day) + delta))
    ensures OnCalendar(AddDays(day, delta)) <==> Writable(DayOf(day) + delta)
    ensures OnCalendar(AddDays(day, delta)) ==> DayOf(AddDays(day, delta)) == DayOf(day) + delta
  {
    hide IsoDay, DateOf, DayOf, UtcDay, Writable, OnCalendar, IsRealDay, IsDay, Parts;
    UtcDayOfParts(day, delta);
    WrittenDay(DayOf(day) + delta);
  }

  lemma WrittenDay(n: int)
    ensures OnCalendar(IsoDay(DateOf(n))) <==> Writable(n)
    ensures OnCalendar(IsoDay(DateOf(n))) ==> DayOf(IsoDay(DateOf(n))) == n
  {
    var d := DateOf(n);
    if 0 <= d.year <= 9999 {
      IsoDayReadsBack(d);
    } else {
      SignIsNoDay(d);
    }
    hide IsoDay, IsReal, IsDay, DateOf, Parts, DayNumber;
  }

  lemma SignIsNoDay(d: Date)
    requires IsReal(d) && !(0 <= d.year <= 9999)
    ensures !IsDay(IsoDay(d))
  {
    var s := IsoDay(d);
    assert |s| >= 4 ==> s[..4][0] == s[0];
  }

  // The count of days is the distance of the day numbers.
  lemma DaysInRangeIsDistance(from: string, to: string)
    requires OnCalendar(from) && OnCalendar(to)
    ensures DaysInRange(from, to) == DayOf(to) - DayOf(from) + 1
  {
    UtcDayOfParts(from, 0);
    UtcDayOfParts(to, 0);
  }

  // Main result: moving a day and counting the days agree, and moves add up,
  // across month ends and leap years, as long as the years stay written in
  // four digits.
  lemma DayLine(day: string, a: int, b: int)
    requires OnCalendar(day) && OnCalendar(AddDays(day, a))
    ensures DaysInRange(day, AddDays(day, a)) == a + 1
    ensures AddDays(AddDays(day, a), b) == AddDays(day, a + b)
    ensures AddDays(day, 0) == day
    ensures Less(day, AddDays(day, a)) <==> 0 < a
  {
    hide *;
    OnCalendarIsReal(day);
    var moved := AddDays(day, a);
    OnCalendarIsReal(moved);
    AddDaysMoves(day, a);
    AddDaysMoves(day, a + b);
    AddDaysMoves(moved, b);
    DaysInRangeIsDistance(day, moved);
    StringOrderIsDayOrder(day, moved);
    MovedByNothing(day);
  }

  // The day after, by the calendar: the day before the first of a month is the
  // last of the one before it, and both are two days counted together.
  lemma TheDayAfter(day: string)
    requires OnCalendar(day) && Tomorrow(Parts(day)).year <= 9999
    ensures AddDays(day, 1) == IsoDay(Tomorrow(Parts(day))) && OnCalendar(AddDays(day, 1))
    ensures AddDays(AddDays(day, 1), -1) == day
    ensures DaysInRange(day, AddDays(day, 1)) == 2
  {
    hide *;
    OnCalendarIsReal(day);
    DaysFollow(Parts(day));
    AddDaysMoves(day, 1);
    TomorrowWritable(day);
    DayLine(day, 1, -1);
    assert 1 + -1 == 0;
  }

  lemma TomorrowWritable(day: string)
    requires OnCalendar(day) && Tomorrow(Parts(day)).year <= 9999
    requires DateOf(DayOf(day) + 1) == Tomorrow(Parts(day))
    ensures Writable(DayOf(day) + 1)
  {
    hide DateOf, DayOf;
  }

  lemma MovedByNothing(day: string)
    requires OnCalendar(day)
    ensures AddDays(day, 0) == day
  {
    hide *;
    OnCalendarIsReal(day);
    AddDaysMoves(day, 0);
    DateOfDayNumber(Parts(day));
    DayStringUnique(day);
  }

  lemma OnCalendarIsReal(s: string)
    requires OnCalendar(s)
    ensures IsRealDay(s) && IsDay(s) && IsReal(Parts(s)) && DayOf(s) == DayNumber(Parts(s))
  {
  }

  // Before year 100 the day line breaks: a real day stays where it is when
  // moved by nothing if and only if its year is 100 or later.
  lemma TwoDigitYears(day: string)
    requires IsRealDay(day)
    ensures AddDays(day, 0) == day <==> Parts(day).year >= 100
  {
    var d := Parts(day);
    if d.year >= 100 {
      MovedByNothing(day);
    } else {
      var n := UtcDay(d.year, d.month - 1, d.day);
      assert (d.month - 1) / 12 == 0 && (d.month - 1) % 12 == d.month - 1;
      assert n >= DayFromYear(1900 + d.year);
      MovedByCenturies(d, n);
      if 0 <= DateOf(n).year <= 9999 {
        IsoDayReadsBack(DateOf(n));
      } else {
        SignIsNoDay(DateOf(n));
      }
    }
  }

  lemma MovedByCenturies(d: Date, n: int)
    requires IsReal(d) && 0 <= d.year < 100 && DayFromYear(1900 + d.year) <= n
    ensures DateOf(n) != d
  {
    EarlierIsSmaller(d, Date(1900 + d.year, 1, 1));
  }

  // ------------------------------------------------------------------ the form

  // A block that still shows in the lists on `today`.
  predicate IsCurrentOrUpcoming(endDate: string, today: string) { !Less(endDate, today) }

  predicate IsClock(s: string) {
    |s| == 5 && s[2] == ':' && AllDigits(s[..2]) && AllDigits(s[3..])
  }

  datatype Problem = PickDates | EndBeforeStart | TooLong | PickTimes | EndTimeNotAfter | NoteTooLong

  function FormProblem(
    startDate: string, endDate: string, allDay: bool, startTime: string, endTime: string, note: string
  ): (r: Option<Problem>) {
    if !IsDay(startDate) || !IsDay(endDate) then Some(PickDates)
    else if Less(endDate, startDate) then Some(EndBeforeStart)
    else if DaysInRange(startDate, endDate) > MAX_SPAN_DAYS then Some(TooLong)
    else if !allDay && (!IsClock(startTime) || !IsClock(endTime)) then Some(PickTimes)
    else if !allDay && !Less(startTime, endTime) then Some(EndTimeNotAfter)
    else if |Trim(note)| > 200 then Some(NoteTooLong)
    else None
  }

  // The form's string comparisons are comparisons of days: what it accepts
  // lasts from 1 to 366 days, and nothing shorter or longer is refused for
  // its length.
  lemma FormDates(
    startDate: string, endDate: string, allDay: bool, startTime: string, endTime: string, note: string)
    requires OnCalendar(startDate) && OnCalendar(endDate)
    ensures var p := FormProblem(startDate, endDate, allDay, startTime, endTime, note);
      var days := DayOf(endDate) - DayOf(startDate) + 1;
      && (p == Some(EndBeforeStart) <==> days < 1)
      && (p == Some(TooLong) <==> days > 366)
      && p != Some(PickDates)
      && (p.None? ==> 1 <= days <= 366)
  {
    StringOrderIsDayOrder(endDate, startDate);
    DaysInRangeIsDistance(startDate, endDate);
  }

  // Hours and minutes of a clock, as one number.
  function ClockValue(s: string): (r: nat)
    requires IsClock(s)
  {
    100 * DecimalValue(s[..2]) + DecimalValue(s[3..])
  }

  // Clocks compared as strings are compared by their hours, then minutes.
  lemma ClockOrder(s: string, t: string)
    requires IsClock(s) && IsClock(t)
    ensures Less(s, t) <==> ClockValue(s) < ClockValue(t)
  {
    hide DecimalValue;
    var a, b := s[3..], t[3..];
    assert s == s[..2] + (":" + a) && t == t[..2] + (":" + b);
    LessAfter(s[..2], t[..2], ":" + a, ":" + b);
    LessAfter(":", ":", a, b);
    LessIsSmaller(s[..2], t[..2]);
    LessIsSmaller(a, b);
    if DecimalValue(s[..2]) == DecimalValue(t[..2]) { ValueDecides(s[..2], t[..2]); }
    HundredBound(s);
    HundredBound(t);
    assert !Less(":", ":");
  }

  lemma HundredBound(s: string)
    requires IsClock(s)
    ensures DecimalValue(s[3..]) < 100
  {
    ValueBound(s[3..]);
    assert Power10(2) == 100 by { assert Power10(1) == 10; }
  }

  // The form accepts a block exactly when it lasts 1 to 366 days, its hours,
  // if it has any, are two clocks the second of which is later, and its note
  // has at most 200 characters.
  lemma FormAccepts(
    startDate: string, endDate: string, allDay: bool, startTime: string, endTime: string, note: string)
    requires OnCalendar(startDate) && OnCalendar(endDate)
    ensures FormProblem(startDate, endDate, allDay, startTime, endTime, note).None? <==>
      && 1 <= DayOf(endDate) - DayOf(startDate) + 1 <= 366
      && (allDay || (IsClock(startTime) && IsClock(endTime) && ClockValue(startTime) < ClockValue(endTime)))
      && |Trim(note)| <= 200
  {
    FormDates(startDate, endDate, allDay, startTime, endTime, note);
    if IsClock(startTime) && IsClock(endTime) { ClockOrder(startTime, endTime); }
    hide OnCalendar, DayOf, IsClock, ClockValue, DaysInRange;
  }

  // And a block of such days is refused for the first of these that is wrong.
  lemma FormHours(
    startDate: string, endDate: string, allDay: bool, startTime: string, endTime: string, note: string)
    requires OnCalendar(startDate) && OnCalendar(endDate)
    requires 1 <= DayOf(endDate) - DayOf(startDate) + 1 <= 366
    ensures var p := FormProblem(startDate, endDate, allDay, startTime, endTime, note);
      var clocks := IsClock(startTime) && IsClock(endTime);
      var later := clocks && ClockValue(startTime) < ClockValue(endTime);
      && (p == Some(PickTimes) <==> !allDay && !clocks)
      && (p == Some(EndTimeNotAfter) <==> !allDay && clocks && !later)
      && (p == Some(NoteTooLong) <==> (allDay || later) && |Trim(note)| > 200)
  {
    FormDates(startDate, endDate, allDay, startTime, endTime, note);
    if IsClock(startTime) && IsClock(endTime) { ClockOrder(startTime, endTime); }
    hide OnCalendar, DayOf, IsClock, ClockValue, DaysInRange;
  }

  lemma CurrentOrUpcoming(endDate: string, today: string)
    requires IsRealDay(endDate) && IsRealDay(today)
    ensures IsCurrentOrUpcoming(endDate, today) <==> DayOf(endDate) >= DayOf(today)
  {
    StringOrderIsDayOrder(endDate, today);
  }
}
