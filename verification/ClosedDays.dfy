// The closed-days notice of a salon's page (salon-legal.ts,
// closedDayRanges): its closed days ahead, joined into runs.
module ClosedDays {
  import opened Calendar
  import opened Common
  import opened Sorting

  datatype Range = Range(from: string, to: string)

  // dayMs, in days.
  function DayIndex(s: string): (r: int)
    requires IsDay(s)
  {
    var d := Parts(s);
    UtcDay(d.year, d.month - 1, d.day)
  }

  lemma DayIndexIsDay(s: string)
    requires OnCalendar(s)
    ensures IsDay(s) && DayIndex(s) == DayOf(s)
  {
    UtcDayOfParts(s, 0);
    hide UtcDay, DayOf, IsReal;
  }

  // Each text once, in the order of the list.
  function Unique(list: seq<string>, seen: seq<string>): (r: seq<string>)
    requires Distinct(seen)
    ensures Distinct(r) && forall x :: x in r <==> x in seen || x in list
  {
    if list == [] then seen
    else
      assert list == [list[0]] + list[1..];
      if list[0] in seen then Unique(list[1..], seen) else Unique(list[1..], seen + [list[0]])
  }

  predicate NotAfter(s: string, t: string) { !Less(t, s) }

  // The days of the notice: well-written, once each, in the window, in order.
  function Sorted(closedDays: seq<string>, start: int, end: int): (r: seq<string>)
    ensures forall x :: x in r <==> x in closedDays && IsDay(x) && start <= DayIndex(x) <= end
  {
    var days := Unique(Filter(closedDays, IsDay), []);
    Sort(Filter(days, (s: string) => IsDay(s) && start <= DayIndex(s) <= end), NotAfter)
  }

  lemma {:induction false} FilterDistinct(s: seq<string>, p: string -> bool)
    requires Distinct(s)
    ensures Distinct(Filter(s, p))
  {
    if |s| > 0 {
      FilterDistinct(s[1..], p);
      assert forall x :: x in Filter(s[1..], p) ==> x in s[1..];
    }
  }

  lemma {:induction false} LessConnected(s: string, t: string)
    ensures s == t || Less(s, t) || Less(t, s)
    ensures !(Less(s, t) && Less(t, s))
  {
    if s != [] && t != [] {
      LessConnected(s[1..], t[1..]);
      assert s == [s[0]] + s[1..] && t == [t[0]] + t[1..];
    }
  }

  lemma {:induction false} LessTransitive(s: string, t: string, u: string)
    ensures Less(s, t) && Less(t, u) ==> Less(s, u)
  {
    if s != [] && t != [] && u != [] { LessTransitive(s[1..], t[1..], u[1..]); }
  }

  lemma StringsAreOrdered()
    ensures TotalPreorder(NotAfter)
  {
    forall a, b ensures NotAfter(a, b) || NotAfter(b, a) { LessConnected(a, b); }
    forall a, b, c | NotAfter(a, b) && NotAfter(b, c) ensures NotAfter(a, c) {
      LessConnected(a, b);
      LessConnected(b, c);
      LessTransitive(a, b, c);
      LessConnected(a, c);
    }
  }

  // In order, once each, as days.
  lemma SortedIncreases(closedDays: seq<string>, start: int, end: int)
    requires forall x :: x in closedDays && IsDay(x) ==> OnCalendar(x)
    ensures var r := Sorted(closedDays, start, end);
      && (forall i :: 0 <= i < |r| ==> OnCalendar(r[i]))
      && forall i, j :: 0 <= i < j < |r| ==> DayOf(r[i]) < DayOf(r[j])
  {
    var days := Unique(Filter(closedDays, IsDay), []);
    var p := (s: string) => IsDay(s) && start <= DayIndex(s) <= end;
    var r := Sorted(closedDays, start, end);
    StringsAreOrdered();
    SortSorted(Filter(days, p), NotAfter);
    FilterDistinct(days, p);
    SortDistinct(Filter(days, p), NotAfter);
    forall i | 0 <= i < |r| ensures OnCalendar(r[i]) {
      assert r[i] in r;
    }
    forall i, j | 0 <= i < j < |r| ensures DayOf(r[i]) < DayOf(r[j]) {
      assert r[i] in r && r[j] in r && NotAfter(r[i], r[j]);
      StringOrderIsDayOrder(r[i], r[j]);
      StringOrderIsDayOrder(r[j], r[i]);
    }
  }

  // -------------------------------------------------------------------- runs

  ghost predicate Covers(ranges: seq<Range>, n: int) {
    exists k :: 0 <= k < |ranges| && DayOf(ranges[k].from) <= n <= DayOf(ranges[k].to)
  }

  ghost predicate Holds(days: seq<string>, n: int) {
    exists k :: 0 <= k < |days| && DayOf(days[k]) == n
  }

  ghost predicate RealRanges(ranges: seq<Range>) {
    forall k :: 0 <= k < |ranges| ==>
      OnCalendar(ranges[k].from) && OnCalendar(ranges[k].to) && DayOf(ranges[k].from) <= DayOf(ranges[k].to)
  }

  // Increasing, with at least one open day between each run and the next.
  ghost predicate Separated(ranges: seq<Range>) {
    forall j, k :: 0 <= j < k < |ranges| ==> DayOf(ranges[j].to) + 1 < DayOf(ranges[k].from)
  }

  // Consecutive days joined, from the first on.
  function Joined(days: seq<string>): (r: seq<Range>)
    requires forall k :: 0 <= k < |days| ==> IsDay(days[k])
    ensures days == [] <==> r == []
    ensures days != [] ==> r[|r| - 1].to == days[|days| - 1]
  {
    if days == [] then []
    else
      var n := |days| - 1;
      var r := Joined(days[..n]);
      if r != [] && DayIndex(days[n]) - DayIndex(days[n - 1]) == 1 then
        r[|r| - 1 := r[|r| - 1].(to := days[n])]
      else r + [Range(days[n], days[n])]
  }

  // The loop that joins consecutive days.
  method JoinDays(sorted: seq<string>) returns (ranges: seq<Range>)
    requires forall k :: 0 <= k < |sorted| ==> IsDay(sorted[k])
    ensures ranges == Joined(sorted)
  {
    hide IsDay, DayIndex;
    ranges := [];
    for i := 0 to |sorted|
      invariant ranges == Joined(sorted[..i])
    {
      assert sorted[..i + 1][..i] == sorted[..i];
      var d := sorted[i];
      if ranges != [] && DayIndex(d) - DayIndex(ranges[|ranges| - 1].to) == 1 {
        ranges := ranges[|ranges| - 1 := ranges[|ranges| - 1].(to := d)];
      } else {
        ranges := ranges + [Range(d, d)];
      }
    }
    assert sorted[..|sorted|] == sorted;
  }

  lemma {:induction false} JoinedRuns(sorted: seq<string>)
    requires forall k :: 0 <= k < |sorted| ==> IsDay(sorted[k]) && OnCalendar(sorted[k])
    requires forall i, j :: 0 <= i < j < |sorted| ==> DayOf(sorted[i]) < DayOf(sorted[j])
    ensures RealRanges(Joined(sorted)) && Separated(Joined(sorted))
    ensures forall n :: Covers(Joined(sorted), n) <==> Holds(sorted, n)
  {
    hide OnCalendar, IsRealDay, IsDay, DayOf, DayIndex, Covers, Holds;
    NothingCovered(sorted);
    assert sorted == [] ==> sorted[..0] == sorted;
    if sorted != [] {
      var n := |sorted| - 1;
      JoinedRuns(sorted[..n]);
      DayIndexIsDay(sorted[n]);
      if n > 0 { DayIndexIsDay(sorted[n - 1]); }
      assert sorted[..n + 1] == sorted;
      JoinedApart(Joined(sorted[..n]), Joined(sorted), sorted, n);
      hide RealRanges, Separated;
      JoinedOne(Joined(sorted[..n]), Joined(sorted), sorted, n);
    }
  }

  lemma JoinedApart(before: seq<Range>, after: seq<Range>, sorted: seq<string>, i: nat)
    requires i < |sorted| && OnCalendar(sorted[i])
    requires RealRanges(before) && Separated(before)
    requires before != [] ==> DayOf(before[|before| - 1].to) < DayOf(sorted[i])
    requires
      var d := sorted[i]; var last := |before| - 1;
      if before != [] && DayOf(d) - DayOf(before[last].to) == 1 then after == before[last := before[last].(to := d)]
      else after == before + [Range(d, d)]
    ensures RealRanges(after) && Separated(after)
  {
    hide OnCalendar, DayOf;
    var last := |before| - 1;
    assert forall j :: 0 <= j < last ==> DayOf(before[j].to) + 1 < DayOf(before[last].from);
  }

  lemma NothingCovered(sorted: seq<string>)
    ensures forall n :: !Covers([], n) && !Holds(sorted[..0], n)
  {
  }

  lemma JoinedOne(before: seq<Range>, after: seq<Range>, sorted: seq<string>, i: nat)
    requires i < |sorted| && forall k :: 0 <= k < |sorted| ==> OnCalendar(sorted[k])
    requires RealRanges(before) && RealRanges(after)
    requires
      var d := sorted[i]; var last := |before| - 1;
      if before != [] && DayOf(d) - DayOf(before[last].to) == 1 then after == before[last := before[last].(to := d)]
      else after == before + [Range(d, d)]
    requires forall n :: Covers(before, n) <==> Holds(sorted[..i], n)
    ensures forall n :: Covers(after, n) <==> Holds(sorted[..i + 1], n)
  {
    hide OnCalendar, IsRealDay, IsDay, DayOf;
    var d := sorted[i];
    var last := |before| - 1;
    forall n ensures Covers(after, n) <==> Covers(before, n) || n == DayOf(d) {
      if Covers(before, n) {
        var k :| 0 <= k < |before| && DayOf(before[k].from) <= n <= DayOf(before[k].to);
        assert DayOf(after[k].from) <= n <= DayOf(after[k].to);
      }
      assert DayOf(after[|after| - 1].from) <= DayOf(d) <= DayOf(after[|after| - 1].to);
      if Covers(after, n) {
        var k :| 0 <= k < |after| && DayOf(after[k].from) <= n <= DayOf(after[k].to);
        if k < |before| && n <= DayOf(before[k].to) { assert DayOf(before[k].from) <= n; }
      }
    }
    forall n ensures Holds(sorted[..i + 1], n) <==> Holds(sorted[..i], n) || n == DayOf(d) {
      if Holds(sorted[..i], n) {
        var k :| 0 <= k < i && DayOf(sorted[..i][k]) == n;
        assert sorted[..i + 1][k] == sorted[..i][k];
      }
      assert sorted[..i + 1][i] == d;
      if Holds(sorted[..i + 1], n) {
        var k :| 0 <= k < i + 1 && DayOf(sorted[..i + 1][k]) == n;
        assert k < i ==> sorted[..i][k] == sorted[..i + 1][k];
      }
    }
  }

  // Whether day n is closed, of those the notice covers.
  ghost predicate Closed(closedDays: seq<string>, start: int, end: int, n: int) {
    exists x :: x in closedDays && OnCalendar(x) && DayOf(x) == n && start <= n <= end
  }

  // The value of closedDayRanges.
  function RangesAhead(closedDays: seq<string>, today: string, days: int): (r: seq<Range>) {
    if !IsDay(today) then [] else
      var sorted := Sorted(closedDays, DayIndex(today), DayIndex(today) + days);
      assert forall k :: 0 <= k < |sorted| ==> sorted[k] in sorted;
      Joined(sorted)
  }

  // closedDayRanges
  method ClosedDayRanges(closedDays: seq<string>, today: string, days: int) returns (ranges: seq<Range>)
    ensures ranges == RangesAhead(closedDays, today, days)
  {
    hide IsDay, DayIndex, Sorted, Joined;
    if !IsDay(today) { return []; }
    var start := DayIndex(today);
    var end := start + days;
    var sorted := Sorted(closedDays, start, end);
    assert forall k :: 0 <= k < |sorted| ==> sorted[k] in sorted;
    ranges := JoinDays(sorted);
  }

  // Main result: on days that exist, the runs are the closed days of the
  // window and nothing else, in order, and none can be made longer or joined
  // to another, across month ends and leap years.
  lemma RangesAreTheClosedDays(closedDays: seq<string>, today: string, days: int)
    requires OnCalendar(today)
    requires forall x :: x in closedDays && IsDay(x) ==> OnCalendar(x)
    ensures var ranges := RangesAhead(closedDays, today, days);
      && RealRanges(ranges) && Separated(ranges)
      && (forall n :: Covers(ranges, n) <==> Closed(closedDays, DayOf(today), DayOf(today) + days, n))
      && forall k :: 0 <= k < |ranges| ==>
        !Covers(ranges, DayOf(ranges[k].from) - 1) && !Covers(ranges, DayOf(ranges[k].to) + 1)
  {
    hide OnCalendar, IsRealDay, IsDay, DayOf, DayIndex, Covers, Holds, Closed, Sorted, Joined;
    DayIndexIsDay(today);
    var start := DayOf(today);
    var end := start + days;
    var sorted := Sorted(closedDays, start, end);
    assert forall k :: 0 <= k < |sorted| ==> sorted[k] in sorted;
    SortedIncreases(closedDays, start, end);
    JoinedRuns(sorted);
    forall n ensures Holds(sorted, n) <==> Closed(closedDays, start, end, n) {
      HoldsIsClosed(closedDays, start, end, n);
    }
    RunsAreMaximal(Joined(sorted));
  }

  lemma RunsAreMaximal(ranges: seq<Range>)
    requires RealRanges(ranges) && Separated(ranges)
    ensures forall k :: 0 <= k < |ranges| ==>
      !Covers(ranges, DayOf(ranges[k].from) - 1) && !Covers(ranges, DayOf(ranges[k].to) + 1)
  {
    hide OnCalendar, DayOf;
  }

  lemma HoldsIsClosed(closedDays: seq<string>, start: int, end: int, n: int)
    requires forall x :: x in closedDays && IsDay(x) ==> OnCalendar(x)
    requires forall k :: 0 <= k < |Sorted(closedDays, start, end)| ==> OnCalendar(Sorted(closedDays, start, end)[k])
    ensures Holds(Sorted(closedDays, start, end), n) <==> Closed(closedDays, start, end, n)
  {
    hide OnCalendar, IsDay, DayOf, DayIndex, Sorted;
    var sorted := Sorted(closedDays, start, end);
    if Holds(sorted, n) {
      var k :| 0 <= k < |sorted| && DayOf(sorted[k]) == n;
      DayIndexIsDay(sorted[k]);
      assert sorted[k] in sorted;
    }
    if Closed(closedDays, start, end, n) {
      var x :| x in closedDays && OnCalendar(x) && DayOf(x) == n && start <= n <= end;
      DayIndexIsDay(x);
      assert x in sorted;
    }
  }
}
