// A salon's opening hours (salon-hours.ts): reading the stored value and
// merging the shifts of a weekday.
module SalonHours {
  import opened Common
  import opened Sorting
  import opened Text

  const MINUTES_A_DAY := 1440

  // /^(\d{1,2}):(\d{2})$/ on the trimmed text, as minutes of the day; None
  // for a value that is not a string.
  function MinutesOf(time: Option<string>): (r: Option<nat>)
    ensures r.Some? ==> r.value < MINUTES_A_DAY
  {
    match time
    case None => None
    case Some(raw) =>
      var t := Trim(raw);
      var n := DigitRun(t);
      if 1 <= n <= 2 && |t| == n + 3 && t[n] == ':' && AllDigits(t[n + 1..]) then
        var h, min := DecimalValue(t[..n]), DecimalValue(t[n + 1..]);
        if h > 23 || min > 59 then None else Some(h * 60 + min)
      else None
  }

  function Clock(minutes: nat): (r: string)
    requires minutes < 6000
  {
    Padded(minutes / 60, 2) + ":" + Padded(minutes % 60, 2)
  }

  // A clock reads back as its minutes.
  lemma ClockReadsBack(minutes: nat)
    requires minutes < MINUTES_A_DAY
    ensures MinutesOf(Some(Clock(minutes))) == Some(minutes)
  {
    hide Padded, DecimalValue, MinutesOf, AllDigits;
    assert Power10(2) == 100 by { assert Power10(1) == 10; }
    PaddedValue(minutes / 60, 2);
    PaddedValue(minutes % 60, 2);
    ReadClock([], Padded(minutes / 60, 2), Padded(minutes % 60, 2), []);
    assert [] + Clock(minutes) + [] == Clock(minutes);
  }

  // One or two digits, a colon and two digits, with spaces around them or not,
  // are read, or refused past 23:59.
  lemma ReadClock(before: string, h: string, m: string, after: string)
    requires 1 <= |h| <= 2 && |m| == 2 && AllDigits(h) && AllDigits(m) && AllSpace(before) && AllSpace(after)
    ensures MinutesOf(Some(before + (h + ":" + m) + after)) ==
      if DecimalValue(h) > 23 || DecimalValue(m) > 59 then None else Some(DecimalValue(h) * 60 + DecimalValue(m))
  {
    hide MinutesOf, Trim, DigitRun, DecimalValue, IsSpace, AllSpace, AllDigits;
    var s := h + ":" + m;
    ClockEnds(h, m);
    TrimPast(before, s, after);
    assert s == h + (":" + m);
    DigitRunAll(h, ":" + m);
    SplitAtColon(before + s + after, h, m);
  }

  lemma ClockEnds(h: string, m: string)
    requires h != [] && m != [] && AllDigits(h) && AllDigits(m)
    ensures var s := h + ":" + m; !IsSpace(s[0]) && !IsSpace(s[|s| - 1])
  {
    DigitIsNoSpace(h[0]);
    DigitIsNoSpace(m[|m| - 1]);
    hide IsSpace, IsDigit;
  }

  lemma SplitAtColon(raw: string, h: string, m: string)
    requires 1 <= |h| <= 2 && |m| == 2 && AllDigits(h) && AllDigits(m)
    requires Trim(raw) == h + ":" + m && DigitRun(Trim(raw)) == |h|
    ensures MinutesOf(Some(raw)) ==
      if DecimalValue(h) > 23 || DecimalValue(m) > 59 then None else Some(DecimalValue(h) * 60 + DecimalValue(m))
  {
    hide Trim, DigitRun, DecimalValue;
    var t := Trim(raw);
    assert t[..|h|] == h && t[|h|] == ':' && t[|h| + 1..] == m;
  }

  // And nothing else is.
  lemma OnlyClocksAreRead(raw: string)
    requires MinutesOf(Some(raw)).Some?
    ensures exists h, m :: Trim(raw) == h + ":" + m && 1 <= |h| <= 2 && |m| == 2 && AllDigits(h) && AllDigits(m)
  {
    var t := Trim(raw);
    var n := DigitRun(t);
    hide Trim, DigitRun, DecimalValue;
    assert t == t[..n] + ":" + t[n + 1..];
  }

  lemma DigitIsNoSpace(c: char)
    requires IsDigit(c)
    ensures !IsSpace(c)
  {
  }

  // ------------------------------------------------------- the stored value

  datatype Entry = Entry(day: string, openTime: string, closeTime: string)

  // An element of a stored list: an entry, or something else.
  datatype Element = Shift(entry: Entry) | Other

  // The stored value: a list, an object (its open and close when they are
  // strings), or anything else.
  datatype Raw = List(elements: seq<Element>) | Object(open: Option<string>, close: Option<string>) | Nothing

  const WEEK := ["monday", "tuesday", "wednesday", "thursday", "friday", "saturday", "sunday"]

  function Entries(elements: seq<Element>): (r: seq<Entry>) {
    if elements == [] then []
    else if elements[0].Shift? then [elements[0].entry] + Entries(elements[1..])
    else Entries(elements[1..])
  }

  // The salon's week, or None when it recorded none.
  function SalonHoursEntries(raw: Raw): (r: Option<seq<Entry>>) {
    match raw
    case List(elements) => if Entries(elements) == [] then None else Some(Entries(elements))
    case Object(open, close) =>
      var start, end := MinutesOf(open), MinutesOf(close);
      if start.None? || end.None? || end.value <= start.value then None
      else Some(seq(|WEEK|, i requires 0 <= i < |WEEK| => Entry(WEEK[i], Clock(start.value), Clock(end.value))))
    case Nothing => None
  }

  lemma {:induction false} EntriesKept(elements: seq<Element>, e: Entry)
    ensures e in Entries(elements) <==> Shift(e) in elements
  {
    if elements != [] {
      EntriesKept(elements[1..], e);
      assert elements == [elements[0]] + elements[1..];
    }
  }

  // A salon recorded hours when its list has an entry, which are then all of
  // them, or when its pair of times is readable and ends after it starts.
  lemma WhenRecorded(raw: Raw, e: Entry)
    ensures match raw
      case List(elements) =>
        && (Shift(e) in elements ==> SalonHoursEntries(raw).Some?)
        && (SalonHoursEntries(raw).Some? ==> SalonHoursEntries(raw).value != [])
        && (SalonHoursEntries(raw).Some? ==> (e in SalonHoursEntries(raw).value <==> Shift(e) in elements))
      case Object(open, close) =>
        SalonHoursEntries(raw).Some? <==>
          MinutesOf(open).Some? && MinutesOf(close).Some? && MinutesOf(open).value < MinutesOf(close).value
      case Nothing => SalonHoursEntries(raw).None?
  {
    hide MinutesOf, Clock;
    match raw {
      case List(elements) => EntriesKept(elements, e);
      case _ =>
    }
  }

  // ---------------------------------------------------------------- windows

  datatype Window = Window(start: int, end: int)

  function Lower(s: string): (r: string) {
    seq(|s|, i requires 0 <= i < |s| =>
      if 'A' <= s[i] <= 'Z' then (s[i] as int - 'A' as int + 'a' as int) as char else s[i])
  }

  // The name of a weekday may be in capitals, in part or whole.
  lemma CapitalsDoNotMatter(s: string, i: nat, small: char, capital: char)
    requires i < |s| && 'a' <= small <= 'z' && 'A' <= capital <= 'Z' && small - 'a' == capital - 'A'
    ensures |Lower(s)| == |s| && Lower(Lower(s)) == Lower(s)
    ensures Lower(s)[i] == small <==> s[i] == small || s[i] == capital
  {
  }

  // The shift of an entry on the weekday, when it is readable.
  function ShiftOn(e: Entry, weekday: string): (r: Option<Window>) {
    if Lower(e.day) != weekday then None
    else
      match (MinutesOf(Some(e.openTime)), MinutesOf(Some(e.closeTime)))
      case (Some(start), Some(end)) => if end > start then Some(Window(start, end)) else None
      case _ => None
  }

  function Shifts(entries: seq<Entry>, weekday: string): (r: seq<Window>)
    ensures forall w :: w in r ==> w.start < w.end
  {
    if entries == [] then []
    else
      match ShiftOn(entries[0], weekday)
      case Some(w) => [w] + Shifts(entries[1..], weekday)
      case None => Shifts(entries[1..], weekday)
  }

  // The loop over the entries.
  method CollectShifts(entries: seq<Entry>, weekday: string) returns (windows: seq<Window>)
    ensures windows == Shifts(entries, weekday)
  {
    hide Lower, MinutesOf;
    windows := [];
    for i := 0 to |entries|
      invariant Shifts(entries, weekday) == windows + Shifts(entries[i..], weekday)
    {
      var e := entries[i];
      assert entries[i..][1..] == entries[i + 1..];
      if Lower(e.day) != weekday { continue; }
      var start, end := MinutesOf(Some(e.openTime)), MinutesOf(Some(e.closeTime));
      if start.Some? && end.Some? && end.value > start.value {
        windows := windows + [Window(start.value, end.value)];
      }
    }
  }

  predicate Before(a: Window, b: Window) {
    a.start < b.start || (a.start == b.start && a.end <= b.end)
  }

  // Minute m lies in one of the windows.
  ghost predicate Open(windows: seq<Window>, m: int) {
    exists k :: 0 <= k < |windows| && windows[k].start <= m < windows[k].end
  }

  // Not empty, increasing, and with a gap between each window and the next.
  ghost predicate Apart(windows: seq<Window>) {
    && (forall k :: 0 <= k < |windows| ==> windows[k].start < windows[k].end)
    && forall j, k :: 0 <= j < k < |windows| ==> windows[j].end < windows[k].start
  }

  // The loop that merges sorted windows.
  method Merge(windows: seq<Window>) returns (merged: seq<Window>)
    requires forall k :: 0 <= k < |windows| ==> windows[k].start < windows[k].end
    requires SortedBy(windows, Before)
    ensures Apart(merged)
    ensures forall m :: Open(merged, m) <==> Open(windows, m)
  {
    merged := [];
    for i := 0 to |windows|
      invariant Apart(merged)
      invariant forall k :: 0 <= k < |merged| ==> forall j :: i <= j < |windows| ==> merged[k].start <= windows[j].start
      invariant forall m :: Open(merged, m) <==> Open(windows[..i], m)
    {
      var w := windows[i];
      ghost var before := merged;
      if merged != [] && w.start <= merged[|merged| - 1].end {
        var last := merged[|merged| - 1];
        merged := merged[|merged| - 1 := last.(end := Max(last.end, w.end))];
      } else {
        merged := merged + [w];
      }
      assert forall j :: i < j < |windows| ==> Before(w, windows[j]);
      MergedOne(before, merged, windows, i);
    }
    assert windows[..|windows|] == windows;
  }

  lemma MergedOne(before: seq<Window>, after: seq<Window>, windows: seq<Window>, i: nat)
    requires i < |windows| && windows[i].start < windows[i].end
    requires forall k :: 0 <= k < |before| ==> before[k].start < before[k].end && before[k].start <= windows[i].start
    requires
      var w := windows[i]; var last := |before| - 1;
      if before != [] && w.start <= before[last].end
      then after == before[last := before[last].(end := Max(before[last].end, w.end))]
      else after == before + [w]
    requires forall m :: Open(before, m) <==> Open(windows[..i], m)
    ensures forall m :: Open(after, m) <==> Open(windows[..i + 1], m)
  {
    var w := windows[i];
    forall m ensures Open(after, m) <==> Open(before, m) || w.start <= m < w.end {
      if Open(before, m) {
        var k :| 0 <= k < |before| && before[k].start <= m < before[k].end;
        assert after[k].start <= m < after[k].end;
      }
      if w.start <= m < w.end {
        assert after[|after| - 1].start <= m < after[|after| - 1].end;
      }
      if Open(after, m) && !(w.start <= m < w.end) {
        var k :| 0 <= k < |after| && after[k].start <= m < after[k].end;
        assert before[k].start <= m < before[k].end;
      }
    }
    forall m ensures Open(windows[..i + 1], m) <==> Open(windows[..i], m) || w.start <= m < w.end {
      if Open(windows[..i], m) {
        var k :| 0 <= k < i && windows[..i][k].start <= m < windows[..i][k].end;
        assert windows[..i + 1][k] == windows[..i][k];
      }
      assert windows[..i + 1][i] == w;
      if Open(windows[..i + 1], m) {
        var k :| 0 <= k < i + 1 && windows[..i + 1][k].start <= m < windows[..i + 1][k].end;
        assert k < i ==> windows[..i][k] == windows[..i + 1][k];
      }
    }
  }

  // Minute m is in a readable shift of the weekday.
  ghost predicate OnShift(entries: seq<Entry>, weekday: string, m: int) {
    exists i :: 0 <= i < |entries| && InShift(entries[i], weekday, m)
  }

  predicate InShift(e: Entry, weekday: string, m: int) {
    && Lower(e.day) == weekday
    && MinutesOf(Some(e.openTime)).Some? && MinutesOf(Some(e.closeTime)).Some?
    && MinutesOf(Some(e.openTime)).value <= m < MinutesOf(Some(e.closeTime)).value
  }

  lemma OpenTogether(a: seq<Window>, b: seq<Window>, m: int)
    ensures Open(a + b, m) <==> Open(a, m) || Open(b, m)
  {
    var c := a + b;
    if Open(a, m) {
      var k :| 0 <= k < |a| && a[k].start <= m < a[k].end;
      assert c[k] == a[k];
    }
    if Open(b, m) {
      var k :| 0 <= k < |b| && b[k].start <= m < b[k].end;
      assert c[|a| + k] == b[k];
    }
  }

  lemma OnShiftStep(entries: seq<Entry>, weekday: string, m: int)
    requires entries != []
    ensures OnShift(entries, weekday, m) <==> InShift(entries[0], weekday, m) || OnShift(entries[1..], weekday, m)
  {
    hide InShift;
    if OnShift(entries[1..], weekday, m) {
      var i :| 0 <= i < |entries[1..]| && InShift(entries[1..][i], weekday, m);
      assert InShift(entries[i + 1], weekday, m);
    }
    if OnShift(entries, weekday, m) {
      var i :| 0 <= i < |entries| && InShift(entries[i], weekday, m);
      assert i > 0 ==> entries[1..][i - 1] == entries[i];
    }
  }

  lemma ShiftIsRead(e: Entry, weekday: string, m: int)
    ensures InShift(e, weekday, m) <==>
      ShiftOn(e, weekday).Some? && ShiftOn(e, weekday).value.start <= m < ShiftOn(e, weekday).value.end
  {
    hide Lower, MinutesOf;
  }

  lemma {:induction false} ShiftsCover(entries: seq<Entry>, weekday: string, m: int)
    ensures Open(Shifts(entries, weekday), m) <==> OnShift(entries, weekday, m)
  {
    if entries != [] {
      var rest := Shifts(entries[1..], weekday);
      ShiftsCover(entries[1..], weekday, m);
      OnShiftStep(entries, weekday, m);
      ShiftIsRead(entries[0], weekday, m);
      hide ShiftOn, OnShift, InShift;
      match ShiftOn(entries[0], weekday) {
        case Some(w) =>
          OpenTogether([w], rest, m);
          assert Open([w], m) <==> w.start <= m < w.end by { assert [w][0] == w; }
        case None =>
      }
    }
  }

  lemma BeforeIsTotal()
    ensures TotalPreorder(Before)
  {
  }

  // salonWindowsOn: increasing windows, apart from each other, that are open
  // at a minute exactly when some readable shift of the weekday is.
  method SalonWindowsOn(raw: Raw, weekday: string) returns (windows: Option<seq<Window>>)
    ensures windows.None? <==> SalonHoursEntries(raw).None?
    ensures windows.Some? ==>
      && Apart(windows.value)
      && forall m :: Open(windows.value, m) <==> OnShift(SalonHoursEntries(raw).value, weekday, m)
  {
    hide SalonHoursEntries, OnShift, Open, ShiftOn;
    var entries := SalonHoursEntries(raw);
    if entries.None? { return None; }
    var shifts := CollectShifts(entries.value, weekday);
    BeforeIsTotal();
    SortSorted(shifts, Before);
    var sorted := Sort(shifts, Before);
    assert forall k :: 0 <= k < |sorted| ==> sorted[k] in sorted;
    var merged := Merge(sorted);
    forall m ensures Open(merged, m) <==> OnShift(entries.value, weekday, m) {
      ShiftsCover(entries.value, weekday, m);
      SameElementsOpen(shifts, sorted, m);
    }
    return Some(merged);
  }

  lemma SameElementsOpen(a: seq<Window>, b: seq<Window>, m: int)
    requires forall w :: w in a <==> w in b
    ensures Open(a, m) <==> Open(b, m)
  {
    if Open(a, m) {
      var k :| 0 <= k < |a| && a[k].start <= m < a[k].end;
      assert a[k] in b;
    }
    if Open(b, m) {
      var k :| 0 <= k < |b| && b[k].start <= m < b[k].end;
      assert b[k] in a;
    }
  }

  // There is only one such list: windows apart from each other are decided by
  // the minutes they are open. So the order, overlap and repetition of the
  // shifts make no difference.
  lemma {:induction false} WindowsAreUnique(a: seq<Window>, b: seq<Window>)
    requires Apart(a) && Apart(b) && forall m :: Open(a, m) <==> Open(b, m)
    ensures a == b
  {
    if a == [] {
      if b != [] { assert Open(b, b[0].start); }
    } else {
      assert Open(a, a[0].start);
      FirstWindow(a, b);
      FirstWindow(b, a);
      assert a == [a[0]] + a[1..] && b == [b[0]] + b[1..];
      RestOpen(a, b);
      WindowsAreUnique(a[1..], b[1..]);
    }
  }

  // The first window of a is inside the first of b.
  lemma FirstWindow(a: seq<Window>, b: seq<Window>)
    requires a != [] && Apart(a) && Apart(b) && forall m :: Open(a, m) <==> Open(b, m)
    ensures b != [] && b[0].start <= a[0].start && a[0].end <= b[0].end
  {
    assert Open(a, a[0].start);
    assert b[0].start <= a[0].start;
    if b[0].end < a[0].end {
      var m := b[0].end;
      assert Open(b, b[0].start);
      assert a[0].start <= b[0].start;
      assert a[0].start <= m < a[0].end;
      assert Open(a, m);
    }
  }

  lemma RestOpen(a: seq<Window>, b: seq<Window>)
    requires a != [] && b != [] && a[0] == b[0]
    requires Apart(a) && Apart(b) && forall m :: Open(a, m) <==> Open(b, m)
    ensures forall m :: Open(a[1..], m) <==> Open(b[1..], m)
  {
    forall m ensures Open(a[1..], m) <==> Open(a, m) && m > a[0].end {
      TailOpen(a, m);
    }
    forall m ensures Open(b[1..], m) <==> Open(b, m) && m > b[0].end {
      TailOpen(b, m);
    }
  }

  lemma TailOpen(a: seq<Window>, m: int)
    requires a != [] && Apart(a)
    ensures Open(a[1..], m) <==> Open(a, m) && m > a[0].end
  {
    if Open(a[1..], m) {
      var k :| 0 <= k < |a[1..]| && a[1..][k].start <= m < a[1..][k].end;
      assert a[k + 1].start <= m < a[k + 1].end;
    }
    if Open(a, m) && m > a[0].end {
      var k :| 0 <= k < |a| && a[k].start <= m < a[k].end;
      assert a[1..][k - 1] == a[k];
    }
  }

  // The old pair of times opens that stretch, read and written again, on
  // every day of the week.
  lemma PairOpensEveryDay(open: string, close: string, start: nat, end: nat, day: nat, m: int)
    requires MinutesOf(Some(open)) == Some(start) && MinutesOf(Some(close)) == Some(end) && start < end
    requires day < |WEEK|
    ensures SalonHoursEntries(Object(Some(open), Some(close))).Some?
    ensures OnShift(SalonHoursEntries(Object(Some(open), Some(close))).value, WEEK[day], m) <==> start <= m < end
  {
    hide MinutesOf, Clock, Lower;
    ClockReadsBack(start);
    ClockReadsBack(end);
    WeekIsLower(day);
    var entries := SalonHoursEntries(Object(Some(open), Some(close))).value;
    assert forall i :: 0 <= i < |entries| ==>
      entries[i].openTime == Clock(start) && entries[i].closeTime == Clock(end) && entries[i].day == WEEK[i];
    assert InShift(entries[day], WEEK[day], m) <==> start <= m < end;
  }

  lemma WeekIsLower(day: nat)
    requires day < |WEEK|
    ensures Lower(WEEK[day]) == WEEK[day]
  {
  }
}
