/** What the statistics mean, told by dates, milliseconds and the rows themselves
    (apps/api/src/modules/incidents/incidents.service.ts). */
module IncidentStatsLaws {
  import opened Calendar
  import opened IncidentStats

  // ---------------------------------------------------------------------------------------------
  // Periods
  // ---------------------------------------------------------------------------------------------

  /** The first moment of a civil day, in local time. */
  predicate StartsDay(local: int, year: int, month: int, date: int) {
    local % 86_400_000 == 0 && FullYear(local) == year && Month(local) == month && Date(local) == date
  }

  /** A week is seven days of 86 400 seconds, from a Monday on: the 5th of January 1970 was one. */
  lemma WeekMeans(value: int, zone: int)
    ensures var range := RangeOf(PerWeek, value, zone);
      && (range.start + zone - 4 * 86_400_000) % (7 * 86_400_000) == 0
      && range.start <= value < range.end && range.end == range.start + 604_800_000
      && range.previousStart == range.start - 604_800_000
  {
    RangeContainsIff(PerWeek, value, zone);
    var day := Day(value + zone);
    MondayMeans(day);
    hide FullYear;
    var monday := FirstDay(PerWeek, day);
    assert RangeOf(PerWeek, value, zone).start + zone - 4 * MS_PER_DAY == MS_PER_DAY * (monday - 4);
    SevenDays(monday - 4);
  }

  lemma MondayMeans(day: int)
    ensures (FirstDay(PerWeek, day) - 4) % 7 == 0
  {
  }

  lemma SevenDays(day: int)
    requires day % 7 == 0
    ensures (MS_PER_DAY * day) % (7 * MS_PER_DAY) == 0
  {
    assert MS_PER_DAY * day == (day / 7) * (7 * MS_PER_DAY);
    MultipleIsWhole(day / 7);
  }

  lemma MultipleIsWhole(weeks: int)
    ensures (weeks * (7 * MS_PER_DAY)) % (7 * MS_PER_DAY) == 0
  {
  }

  lemma FirstOfMonth(month: int)
    ensures StartsDay(MS_PER_DAY * MonthStart(month), month / 12, month % 12, 1)
  {
    hide *;
    DayOfDate(month, 1);
    assert MonthStart(month) + 1 - 1 == MonthStart(month);
    FirstDayStarts(MonthStart(month), month);
  }

  lemma FirstDayStarts(day: int, month: int)
    requires MonthOf(day) == month && DateOf(day) == 1
    ensures StartsDay(MS_PER_DAY * day, month / 12, month % 12, 1)
  {
    hide MonthOf, MonthStart, DateOf, MonthLength, Day;
    MidnightMeans(day);
    MidnightIsWhole(day);
  }

  lemma MidnightIsWhole(day: int)
    ensures (MS_PER_DAY * day) % 86_400_000 == 0
  {
  }

  /** Outside the years 0 to 99, a month lasts from its first day to the first day of the next month. */
  lemma MonthMeans(value: int, zone: int)
    requires !(0 <= FullYear(value + zone) <= 99)
    ensures var range, year, month := RangeOf(PerMonth, value, zone), FullYear(value + zone), Month(value + zone);
      && StartsDay(range.start + zone, year, month, 1)
      && StartsDay(range.end + zone, if month == 11 then year + 1 else year, (month + 1) % 12, 1)
      && range.previousStart == range.start - (range.end - range.start)
  {
    var month := MonthOf(Day(value + zone));
    FirstOfMonth(month);
    FirstOfMonth(month + 1);
    hide MonthOf, MonthStart, StartsDay;
    assert 12 * Built(month / 12) + month % 12 == month;
  }

  /** Unless it or the next one is among the years 0 to 99, a year lasts from its first day to the first day of the
      next. */
  lemma YearMeans(value: int, zone: int)
    requires !(-1 <= FullYear(value + zone) <= 99)
    ensures var range, year := RangeOf(PerYear, value, zone), FullYear(value + zone);
      && StartsDay(range.start + zone, year, 0, 1) && StartsDay(range.end + zone, year + 1, 0, 1)
      && range.previousStart == range.start - (range.end - range.start)
  {
    var year := FullYear(value + zone);
    FirstOfMonth(12 * year);
    FirstOfMonth(12 * (year + 1));
    hide MonthOf, MonthStart, StartsDay;
  }

  // ---------------------------------------------------------------------------------------------
  // Buckets
  // ---------------------------------------------------------------------------------------------

  /** Weeks have seven buckets of a day, months one for each of their days, years one for each month. */
  lemma BucketsMean(value: int, zone: int, i: int)
    requires !(-1 <= FullYear(value + zone) <= 99)
    ensures var week, month, year :=
        RangeOf(PerWeek, value, zone), RangeOf(PerMonth, value, zone), RangeOf(PerYear, value, zone);
      && BucketCount(PerWeek, week) == 7 && BucketCount(PerYear, year) == 12
      && 86_400_000 * BucketCount(PerMonth, month) == month.end - month.start
      && Boundary(PerWeek, week, zone, i) == week.start + 86_400_000 * i
      && Boundary(PerMonth, month, zone, i) == month.start + 86_400_000 * i
      && (0 <= i < 12 ==> StartsDay(Boundary(PerYear, year, zone, i) + zone, FullYear(value + zone), i, 1))
  {
    var month := MonthOf(Day(value + zone));
    hide MonthStart, MonthOf, StartsDay, Boundary;
    MonthStartNext(month);
    WholeDays(MonthLength(month));
    assert 12 * Built(month / 12) + month % 12 == month;
    BoundaryOfYear(RangeOf(PerYear, value, zone), zone, month / 12, i);
    FirstOfMonth(12 * (month / 12) + i);
    DayBoundaries(RangeOf(PerWeek, value, zone), zone, i);
    DayBoundaries(RangeOf(PerMonth, value, zone), zone, i);
  }

  lemma DayBoundaries(range: Range, zone: int, i: int)
    ensures Boundary(PerWeek, range, zone, i) == Boundary(PerMonth, range, zone, i) == range.start + 86_400_000 * i
  {
  }

  /** A bucket counts the rows of its span. */
  lemma {:induction false} CountMeans(times: seq<int>, lo: int, hi: int)
    ensures CountIn(times, lo, hi) == |set i | 0 <= i < |times| && lo <= times[i] < hi|
  {
    if times != [] {
      var n := |times| - 1;
      CountMeans(times[..n], lo, hi);
      var front := set i | 0 <= i < |times[..n]| && lo <= times[..n][i] < hi;
      var whole := set i | 0 <= i < |times| && lo <= times[i] < hi;
      assert whole == if lo <= times[n] < hi then front + {n} else front;
    }
  }

  /** The trend has one number for each bucket, that of the rows reported in it. */
  lemma TrendMeans(trend: seq<nat>, rows: seq<Row>, period: Period, range: Range, zone: int, i: nat)
    requires TrendCounts(trend, rows, period, range, zone)
    ensures |trend| == BucketCount(period, range)
    ensures i < |trend| ==>
      var lo, hi := Boundary(period, range, zone, i), Boundary(period, range, zone, i + 1);
      trend[i] == |set k | 0 <= k < |rows| && lo <= rows[k].reportedAt < hi|
  {
    if i < |trend| {
      var lo, hi := Boundary(period, range, zone, i), Boundary(period, range, zone, i + 1);
      CountMeans(Times(rows), lo, hi);
      var times := Times(rows);
      assert (set k | 0 <= k < |times| && lo <= times[k] < hi) ==
             (set k | 0 <= k < |rows| && lo <= rows[k].reportedAt < hi);
      hide Boundary;
    }
  }

  /** The rows of a span are all those that fall into it, each as often as it is there, in the order they are in. */
  lemma {:induction false} WithinMeans(rows: seq<Row>, lo: int, hi: int, row: Row)
    ensures multiset(Within(rows, lo, hi))[row] == if lo <= row.reportedAt < hi then multiset(rows)[row] else 0
  {
    if rows != [] {
      var front := rows[..|rows| - 1];
      WithinMeans(front, lo, hi, row);
      assert rows == front + [rows[|rows| - 1]];
    }
  }

  lemma WithinNext(rows: seq<Row>, row: Row, lo: int, hi: int)
    ensures Within(rows + [row], lo, hi) ==
      if lo <= row.reportedAt < hi then Within(rows, lo, hi) + [row] else Within(rows, lo, hi)
  {
    assert (rows + [row])[..|rows|] == rows;
  }

  lemma OrderNext(a: seq<Row>, b: seq<Row>, last: Row, lo: int, hi: int)
    requires Within(a + b, lo, hi) == Within(a, lo, hi) + Within(b, lo, hi)
    ensures Within(a + (b + [last]), lo, hi) == Within(a, lo, hi) + Within(b + [last], lo, hi)
  {
    hide Within;
    WithinNext(a + b, last, lo, hi);
    WithinNext(b, last, lo, hi);
    assert a + (b + [last]) == (a + b) + [last];
  }

  lemma {:induction false} WithinKeepsOrder(a: seq<Row>, b: seq<Row>, lo: int, hi: int)
    ensures Within(a + b, lo, hi) == Within(a, lo, hi) + Within(b, lo, hi)
  {
    hide Within;
    if b == [] {
      assert a + b == a;
      NothingWithin(lo, hi);
    } else {
      var front, last := b[..|b| - 1], b[|b| - 1];
      assert b == front + [last];
      WithinKeepsOrder(a, front, lo, hi);
      OrderNext(a, front, last, lo, hi);
    }
  }

  lemma NothingWithin(lo: int, hi: int)
    ensures Within([], lo, hi) == []
  {
  }

  // ---------------------------------------------------------------------------------------------
  // Groupings
  // ---------------------------------------------------------------------------------------------

  lemma {:induction false} FirstMeans(names: seq<string>, name: string)
    ensures First(names, name) <= |names| && name !in names[..First(names, name)]
    ensures name in names <==> First(names, name) < |names| && names[First(names, name)] == name
  {
    if names != [] && names[0] != name {
      FirstMeans(names[1..], name);
      var k := First(names[1..], name);
      assert names[..k + 1] == [names[0]] + names[1..][..k];
    }
  }

  /** One entry for each label there is, with the number of its rows; larger counts first, and of equal counts the label
      that comes up first. */
  lemma GroupingMeans(names: seq<string>, entries: seq<Entry>)
    requires Tallies(entries, multiset(names)) && Ordered(entries, names)
    ensures forall i | 0 <= i < |entries| :: entries[i].count == multiset(names)[entries[i].name] > 0
    ensures forall name | name in names :: exists i :: 0 <= i < |entries| && entries[i].name == name
    ensures forall i, j | 0 <= i < j < |entries| ::
      entries[i].name != entries[j].name && entries[i].count >= entries[j].count
    ensures forall i, j | 0 <= i < j < |entries| && entries[i].count == entries[j].count ::
      ComesUpFirst(names, entries[i].name, entries[j].name)
  {
    hide First, ComesUpFirst;
    forall i | 0 <= i < |entries| ensures entries[i].count == multiset(names)[entries[i].name] > 0 {
      assert entries[i] in entries;
    }
    forall name | name in names ensures exists i :: 0 <= i < |entries| && entries[i].name == name {
      assert Names(entries, name);
    }
    forall i, j | 0 <= i < j < |entries| ensures entries[i].count >= entries[j].count {
      assert Precedes(entries[i], entries[j], names);
    }
    forall i, j | 0 <= i < j < |entries| && entries[i].count == entries[j].count
      ensures ComesUpFirst(names, entries[i].name, entries[j].name)
    {
      assert Precedes(entries[i], entries[j], names);
      EarlierComesUpFirst(names, entries[i].name, entries[j].name);
    }
  }

  ghost predicate ComesUpFirst(names: seq<string>, a: string, b: string) {
    exists p | 0 <= p < |names| :: names[p] == a && b !in names[..p + 1]
  }

  lemma EarlierComesUpFirst(names: seq<string>, a: string, b: string)
    requires a in names && a != b && First(names, a) < First(names, b)
    ensures ComesUpFirst(names, a, b)
  {
    FirstMeans(names, a);
    FirstMeans(names, b);
    var p := First(names, a);
    assert names[p] == a;
    assert names[..p + 1] <= names[..First(names, b)];
  }
}
