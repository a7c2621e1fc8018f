/** Incident statistics over a week, a month or a year (apps/api/src/modules/incidents/incidents.service.ts),
    in a time zone with a fixed offset from UTC. */
module IncidentStats {
  import opened Calendar

  datatype Period = PerWeek | PerMonth | PerYear

  /** Half-open: `end` belongs to the next period. */
  datatype Range = Range(start: int, end: int, previousStart: int)

  /** Days counted from Sunday (section 21.4.1 of ECMA-262; 1 January 1970 was a Thursday). */
  function WeekDay(time: int): int {
    (Day(time) + 4) % 7
  }

  /** setDate on a local time value: months and years carry, the time of day stays. */
  function WithDate(time: int, date: int): int {
    MS_PER_DAY * MakeDay(FullYear(time), Month(time), date) + time % MS_PER_DAY
  }

  /** The year a date is built with: 0 to 99 stand for 1900 to 1999. */
  function Built(year: int): int {
    if 0 <= year <= 99 then 1900 + year else year
  }

  /** First day of the period around a day, and first day of the next one. */
  function FirstDay(period: Period, day: int): int {
    match period
    case PerWeek => day - (day + 3) % 7
    case PerMonth => MonthStart(12 * Built(MonthOf(day) / 12) + MonthOf(day) % 12)
    case PerYear => MonthStart(12 * Built(MonthOf(day) / 12))
  }

  function NextFirstDay(period: Period, day: int): int {
    match period
    case PerWeek => FirstDay(PerWeek, day) + 7
    case PerMonth => MonthStart(12 * Built(MonthOf(day) / 12) + MonthOf(day) % 12 + 1)
    case PerYear => MonthStart(12 * Built(MonthOf(day) / 12 + 1))
  }

  function RangeOf(period: Period, value: int, zone: int): Range {
    var day := Day(value + zone);
    var start, end := MS_PER_DAY * FirstDay(period, day) - zone, MS_PER_DAY * NextFirstDay(period, day) - zone;
    Range(start, end, start - (end - start))
  }

  /** `zone` is what local time adds to UTC, in milliseconds. */
  method FindRange(period: Period, value: int, zone: int) returns (range: Range)
    ensures range == RangeOf(period, value, zone)
  {
    hide MonthOf, MonthStart, DateOf, WithDate;
    var local := value + zone;
    var start, end;
    match period {
      case PerWeek =>
        var day := (WeekDay(local) + 6) % 7;
        var monday := Midnight(WithDate(local, Date(local) - day));
        WeekAround(local);
        start, end := monday - zone, WithDate(monday, Date(monday) + 7) - zone;
      case PerYear =>
        start := DateUTC(FullYear(local), 0, 1) - zone;
        end := DateUTC(FullYear(local) + 1, 0, 1) - zone;
      case PerMonth =>
        start := DateUTC(FullYear(local), Month(local), 1) - zone;
        end := DateUTC(FullYear(local), Month(local) + 1, 1) - zone;
    }
    range := Range(start, end, start - (end - start));
  }

  lemma WeekAround(local: int)
    ensures var monday := Midnight(WithDate(local, Date(local) - (WeekDay(local) + 6) % 7));
      && monday == MS_PER_DAY * FirstDay(PerWeek, Day(local))
      && WithDate(monday, Date(monday) + 7) == MS_PER_DAY * NextFirstDay(PerWeek, Day(local))
  {
    hide MonthOf, MonthStart, DateOf, WithDate;
    var day := (WeekDay(local) + 6) % 7;
    var monday := Midnight(WithDate(local, Date(local) - day));
    assert day == (Day(local) + 3) % 7;
    WithDateMeans(local, Date(local) - day);
    MidnightMeans(Day(local) - day);
    WithDateMeans(monday, Date(monday) + 7);
    assert WithDate(monday, Date(monday) + 7) == monday + MS_PER_DAY * 7;
  }

  lemma MidnightMeans(day: int)
    ensures Day(MS_PER_DAY * day) == day
  {
  }

  lemma WithDateMeans(time: int, date: int)
    ensures WithDate(time, date) == time + MS_PER_DAY * (date - Date(time))
    ensures Day(WithDate(time, date)) == Day(time) + date - Date(time)
  {
    hide MonthOf, MonthStart, DateOf;
    assert time == MS_PER_DAY * Day(time) + time % MS_PER_DAY;
    assert MakeDay(FullYear(time), Month(time), date) == Day(time) + date - Date(time) by { MakeDayOf(time, date); }
    DayOfSum(Day(time) + date - Date(time), time % MS_PER_DAY);
  }

  lemma MakeDayOf(time: int, date: int)
    ensures MakeDay(FullYear(time), Month(time), date) == Day(time) + date - Date(time)
  {
  }

  lemma DayOfSum(day: int, rest: int)
    requires 0 <= rest < MS_PER_DAY
    ensures Day(MS_PER_DAY * day + rest) == day
  {
  }

  /** The period contains the moment it was asked for, except that months and years miss it in the years 0 to 99, which
      are built a millennium and nine centuries later. */
  lemma RangeContainsIff(period: Period, value: int, zone: int)
    ensures RangeOf(period, value, zone).start <= value < RangeOf(period, value, zone).end <==>
      (period == PerWeek || !(0 <= FullYear(value + zone) <= 99))
  {
    var local := value + zone;
    var day, month := Day(local), MonthOf(Day(local));
    assert MS_PER_DAY * day <= local < MS_PER_DAY * (day + 1);
    hide MonthOf, MonthLength;
    InRange(period, day, month);
    var range := RangeOf(period, value, zone);
    assert range.start <= value <==> FirstDay(period, day) <= day;
    assert value < range.end <==> day < NextFirstDay(period, day);
  }

  lemma InRange(period: Period, day: int, month: int)
    requires month == MonthOf(day)
    ensures FirstDay(period, day) <= day < NextFirstDay(period, day) <==>
      (period == PerWeek || !(0 <= month / 12 <= 99))
  {
    hide MonthLength, MonthStart;
    assert MonthStart(month) <= day < MonthStart(month + 1);
    hide MonthOf;
    if period != PerWeek && 0 <= month / 12 <= 99 {
      BuiltLater(period, day, month);
    } else if period == PerMonth {
      assert 12 * Built(month / 12) + month % 12 == month;
    } else if period == PerYear {
      YearAround(day, month);
    }
  }

  lemma BuiltLater(period: Period, day: int, month: int)
    requires period != PerWeek && month == MonthOf(day) && 0 <= month / 12 <= 99 && day < MonthStart(month + 1)
    ensures day < FirstDay(period, day)
  {
    hide MonthLength, MonthStart, MonthOf;
    var first := 12 * (1900 + month / 12) + (if period == PerMonth then month % 12 else 0);
    MonthStartIncreases(month + 1, first);
  }

  lemma YearAround(day: int, month: int)
    requires month == MonthOf(day) && !(0 <= month / 12 <= 99) && MonthStart(month) <= day < MonthStart(month + 1)
    ensures FirstDay(PerYear, day) <= day < NextFirstDay(PerYear, day)
  {
    hide MonthLength, MonthStart, MonthOf;
    MonthStartIncreases(12 * (month / 12), month);
    MonthStartIncreases(month + 1, 12 * Built(month / 12 + 1));
  }

  // ---------------------------------------------------------------------------------------------
  // Trend buckets
  // ---------------------------------------------------------------------------------------------

  function BucketCount(period: Period, range: Range): int {
    match period
    case PerWeek => 7
    case PerMonth => (range.end - range.start + MS_PER_DAY - 1) / MS_PER_DAY
    case PerYear => 12
  }

  /** Where bucket i starts; it ends where the next one starts. */
  function Boundary(period: Period, range: Range, zone: int, i: int): int {
    if period == PerYear then DateUTC(FullYear(range.start + zone), i, 1) - zone else range.start + i * MS_PER_DAY
  }

  ghost predicate Partitions(period: Period, range: Range, zone: int) {
    var n := BucketCount(period, range);
    && n >= 0
    && Boundary(period, range, zone, 0) == range.start
    && Boundary(period, range, zone, n) == range.end
    && forall i | 0 <= i < n :: Boundary(period, range, zone, i) < Boundary(period, range, zone, i + 1)
  }

  lemma StartOfYear(year: int)
    requires !(0 <= year <= 99)
    ensures FullYear(MS_PER_DAY * MonthStart(12 * year)) == year
  {
    hide MonthOf, MonthStart;
    MonthStartNext(12 * year);
    MonthOfUnique(MonthStart(12 * year), 12 * year);
    DayOfSum(MonthStart(12 * year), 0);
  }

  /** The buckets partition the period; for a year they do unless the year or the next one is built in another
      century. */
  lemma BucketsPartitionIff(period: Period, value: int, zone: int)
    ensures Partitions(period, RangeOf(period, value, zone), zone) <==>
      (period == PerYear ==> FullYear(value + zone) != -1 && FullYear(value + zone) != 99)
  {
    hide MonthOf, MonthStart, Partitions;
    var range, month := RangeOf(period, value, zone), MonthOf(Day(value + zone));
    match period {
      case PerWeek => DaysPartition(PerWeek, range, zone, 7);
      case PerMonth =>
        var built := 12 * Built(month / 12) + month % 12;
        MonthStartNext(built);
        WholeDays(MonthLength(built));
        DaysPartition(PerMonth, range, zone, MonthLength(built));
      case PerYear => YearPartitionIff(range, zone, month / 12);
    }
  }

  /** Days partition a period of a whole number of days. */
  lemma DaysPartition(period: Period, range: Range, zone: int, days: nat)
    requires period != PerYear && BucketCount(period, range) == days && range.end == range.start + MS_PER_DAY * days
    ensures Partitions(period, range, zone)
  {
  }

  lemma WholeDays(days: int)
    ensures (MS_PER_DAY * days + MS_PER_DAY - 1) / MS_PER_DAY == days
  {
  }

  lemma YearPartitionIff(range: Range, zone: int, year: int)
    requires range.start == MS_PER_DAY * MonthStart(12 * Built(year)) - zone
    requires range.end == MS_PER_DAY * MonthStart(12 * Built(year + 1)) - zone
    ensures Partitions(PerYear, range, zone) <==> year != -1 && year != 99
  {
    hide MonthStart, MonthOf, Boundary;
    var built := Built(year);
    assert Boundary(PerYear, range, zone, 0) == range.start by { BoundaryOfYear(range, zone, built, 0); }
    forall i | 0 <= i < 12
      ensures Boundary(PerYear, range, zone, i) < Boundary(PerYear, range, zone, i + 1)
    {
      BoundaryOfYear(range, zone, built, i);
      BoundaryOfYear(range, zone, built, i + 1);
      MonthStartIncreases(12 * built + i, 12 * built + i + 1);
    }
    BoundaryOfYear(range, zone, built, 12);
    var next := 12 * Built(year + 1);
    if 12 * built + 12 < next {
      MonthStartIncreases(12 * built + 12, next);
    } else if next < 12 * built + 12 {
      MonthStartIncreases(next, 12 * built + 12);
    }
  }

  lemma BoundaryOfYear(range: Range, zone: int, built: int, i: int)
    requires range.start == MS_PER_DAY * MonthStart(12 * built) - zone && !(0 <= built <= 99)
    ensures Boundary(PerYear, range, zone, i) == MS_PER_DAY * MonthStart(12 * built + i) - zone
  {
    hide MonthStart, FullYear;
    StartOfYear(built);
    assert range.start + zone == MS_PER_DAY * MonthStart(12 * built);
  }

  // ---------------------------------------------------------------------------------------------
  // Counting
  // ---------------------------------------------------------------------------------------------

  function CountIn(times: seq<int>, lo: int, hi: int): (n: nat)
    ensures n <= |times|
  {
    if times == [] then 0
    else CountIn(times[..|times| - 1], lo, hi) + (if lo <= times[|times| - 1] < hi then 1 else 0)
  }

  function Sum(counts: seq<nat>): nat {
    if counts == [] then 0 else Sum(counts[..|counts| - 1]) + counts[|counts| - 1]
  }

  lemma {:induction false} CountSplits(times: seq<int>, lo: int, mid: int, hi: int)
    requires lo <= mid <= hi
    ensures CountIn(times, lo, hi) == CountIn(times, lo, mid) + CountIn(times, mid, hi)
  {
    if times != [] {
      CountSplits(times[..|times| - 1], lo, mid, hi);
    }
  }

  lemma {:induction false} CountsAllIff(times: seq<int>, lo: int, hi: int)
    ensures CountIn(times, lo, hi) == |times| <==> forall i | 0 <= i < |times| :: lo <= times[i] < hi
  {
    if times != [] {
      var front := times[..|times| - 1];
      CountsAllIff(front, lo, hi);
      assert forall i | 0 <= i < |front| :: front[i] == times[i];
    }
  }

  lemma {:induction false} CountEmpty(times: seq<int>, at: int)
    ensures CountIn(times, at, at) == 0
  {
    if times != [] {
      CountEmpty(times[..|times| - 1], at);
    }
  }

  /** In every period the buckets start where it starts and grow. */
  lemma BoundariesGrow(period: Period, value: int, zone: int, i: nat)
    ensures var range := RangeOf(period, value, zone);
      && Boundary(period, range, zone, 0) == range.start
      && Boundary(period, range, zone, i) < Boundary(period, range, zone, i + 1)
  {
    hide MonthOf, MonthStart, FullYear;
    if period == PerYear {
      var range, built := RangeOf(period, value, zone), Built(MonthOf(Day(value + zone)) / 12);
      BoundaryOfYear(range, zone, built, 0);
      BoundaryOfYear(range, zone, built, i);
      BoundaryOfYear(range, zone, built, i + 1);
      MonthStartIncreases(12 * built + i, 12 * built + i + 1);
    }
  }

  /** The buckets reach the end of the period, except in the year -1, which ends with the year 1899. */
  lemma BucketsReachEndIff(period: Period, value: int, zone: int)
    ensures var range := RangeOf(period, value, zone);
      && BucketCount(period, range) >= 0
      && (range.end <= Boundary(period, range, zone, BucketCount(period, range)) <==>
          !(period == PerYear && FullYear(value + zone) == -1))
  {
    hide MonthOf, MonthStart, Boundary;
    BucketsPartitionIff(period, value, zone);
    if period == PerYear {
      var range, year := RangeOf(period, value, zone), MonthOf(Day(value + zone)) / 12;
      BoundaryOfYear(range, zone, Built(year), 12);
      if year == -1 {
        MonthStartIncreases(12 * Built(year) + 12, 12 * Built(year + 1));
      } else if year == 99 {
        MonthStartIncreases(12 * Built(year + 1), 12 * Built(year) + 12);
      }
    }
  }

  /** The number of rows in each bucket of the period. Together they count every row before the end of the last bucket
      once: all rows, except in the year -1. */
  method Trend(period: Period, value: int, zone: int, range: Range, times: seq<int>) returns (trend: seq<nat>)
    requires range == RangeOf(period, value, zone)
    requires forall i | 0 <= i < |times| :: range.start <= times[i] < range.end
    ensures |trend| == BucketCount(period, range)
    ensures forall i | 0 <= i < |trend| ::
      trend[i] == CountIn(times, Boundary(period, range, zone, i), Boundary(period, range, zone, i + 1))
    ensures Sum(trend) == |times| <==> forall i | 0 <= i < |times| :: times[i] < Boundary(period, range, zone, |trend|)
    ensures !(period == PerYear && FullYear(value + zone) == -1) ==> Sum(trend) == |times|
  {
    hide RangeOf, Boundary, BucketCount, FullYear;
    BucketsReachEndIff(period, value, zone);
    BoundariesGrow(period, value, zone, 0);
    trend := [];
    CountEmpty(times, range.start);
    var n := BucketCount(period, range);
    for i := 0 to n
      invariant |trend| == i
      invariant forall k | 0 <= k < i ::
        trend[k] == CountIn(times, Boundary(period, range, zone, k), Boundary(period, range, zone, k + 1))
      invariant range.start <= Boundary(period, range, zone, i)
      invariant Sum(trend) == CountIn(times, range.start, Boundary(period, range, zone, i))
    {
      var bucketStart, bucketEnd := Boundary(period, range, zone, i), Boundary(period, range, zone, i + 1);
      BoundariesGrow(period, value, zone, i);
      var count := CountIn(times, bucketStart, bucketEnd);
      CountSplits(times, range.start, bucketStart, bucketEnd);
      assert (trend + [count])[..i] == trend;
      trend := trend + [count];
    }
    CountsAllIff(times, range.start, Boundary(period, range, zone, n));
  }

  /** Every moment of a partitioned period lies in one bucket and in no other. */
  lemma {:induction false} OneBucket(period: Period, range: Range, zone: int, t: int, n: nat) returns (i: nat)
    requires Partitions(period, range, zone) && n <= BucketCount(period, range)
    requires range.start <= t < Boundary(period, range, zone, n)
    ensures i < n && Boundary(period, range, zone, i) <= t < Boundary(period, range, zone, i + 1)
    ensures forall j | 0 <= j < BucketCount(period, range)
                       && Boundary(period, range, zone, j) <= t < Boundary(period, range, zone, j + 1) :: j == i
    decreases n
  {
    hide Boundary, BucketCount;
    if Boundary(period, range, zone, n - 1) <= t {
      i := n - 1;
    } else {
      i := OneBucket(period, range, zone, t, n - 1);
    }
    forall j | 0 <= j < BucketCount(period, range)
      && Boundary(period, range, zone, j) <= t < Boundary(period, range, zone, j + 1)
      ensures j == i
    {
      if j < i {
        Increasing(period, range, zone, j + 1, i);
      } else if i < j {
        Increasing(period, range, zone, i + 1, j);
      }
    }
  }

  lemma {:induction false} Increasing(period: Period, range: Range, zone: int, i: nat, j: nat)
    requires Partitions(period, range, zone) && i <= j <= BucketCount(period, range)
    ensures Boundary(period, range, zone, i) <= Boundary(period, range, zone, j)
    decreases j
  {
    hide Boundary, BucketCount;
    if i < j {
      Increasing(period, range, zone, i, j - 1);
      assert Boundary(period, range, zone, j - 1) < Boundary(period, range, zone, j - 1 + 1);
    }
  }

  /** A daily bucket is labelled with the UTC date of its start: the local date it counts exactly when local time is
      not ahead of UTC, and the date before in the zones ahead. */
  lemma LabelIsOwnDayIff(period: Period, value: int, zone: int, i: int)
    requires period != PerYear
    ensures var own := FirstDay(period, Day(value + zone)) + i;
      var start := Day(Boundary(period, RangeOf(period, value, zone), zone, i));
      && (start == own <==> -MS_PER_DAY < zone <= 0)
      && (start == own - 1 <==> 0 < zone <= MS_PER_DAY)
  {
    hide FirstDay, NextFirstDay;
    var day := FirstDay(period, Day(value + zone)) + i;
    assert Boundary(period, RangeOf(period, value, zone), zone, i) == MS_PER_DAY * day - zone;
    DayBefore(day, zone);
  }

  lemma DayBefore(day: int, zone: int)
    ensures Day(MS_PER_DAY * day - zone) == day <==> -MS_PER_DAY < zone <= 0
    ensures Day(MS_PER_DAY * day - zone) == day - 1 <==> 0 < zone <= MS_PER_DAY
  {
  }

  /** The "previous period" is as long as the current one, so it is the previous month exactly when that month has as
      many days. */
  lemma PreviousMonthIff(value: int, zone: int)
    requires !(0 <= FullYear(value + zone) <= 99)
    ensures var month := MonthOf(Day(value + zone));
      RangeOf(PerMonth, value, zone).previousStart == MS_PER_DAY * MonthStart(month - 1) - zone <==>
      MonthLength(month - 1) == MonthLength(month)
  {
    hide MonthOf, MonthStart, MonthLength;
    var month := MonthOf(Day(value + zone));
    MonthStartNext(month - 1);
    MonthStartNext(month);
    assert 12 * Built(month / 12) + month % 12 == month;
    var range := RangeOf(PerMonth, value, zone);
    assert range.start == MS_PER_DAY * MonthStart(month) - zone;
    assert range.end == MS_PER_DAY * (MonthStart(month) + MonthLength(month)) - zone;
  }

  // ---------------------------------------------------------------------------------------------
  // Counts by category, status or priority
  // ---------------------------------------------------------------------------------------------

  datatype Entry = Entry(name: string, count: nat)

  function Counts(entries: seq<Entry>): (counts: seq<nat>)
    ensures |counts| == |entries|
  {
    seq(|entries|, i requires 0 <= i < |entries| => entries[i].count)
  }

  predicate DistinctNames(entries: seq<Entry>) {
    forall i, j | 0 <= i < j < |entries| :: entries[i].name != entries[j].name
  }

  /** Where a label occurs first. */
  function First(names: seq<string>, name: string): nat {
    if names == [] || names[0] == name then 0 else 1 + First(names[1..], name)
  }

  lemma {:induction false} FirstIs(names: seq<string>, i: nat)
    requires i < |names| && names[i] !in names[..i]
    ensures First(names, names[i]) == i
  {
    if i > 0 {
      assert names[0] in names[..i];
      assert names[1..][..i - 1] == names[1..i] && forall name | name in names[1..i] :: name in names[..i];
      FirstIs(names[1..], i - 1);
    }
  }

  /** Larger counts come before smaller ones, and equal counts in the order in which their labels occur first. */
  predicate Ordered(entries: seq<Entry>, names: seq<string>) {
    forall i, j | 0 <= i < j < |entries| :: Precedes(entries[i], entries[j], names)
  }

  predicate Precedes(a: Entry, b: Entry, names: seq<string>) {
    a.count > b.count || (a.count == b.count && First(names, a.name) < First(names, b.name))
  }

  function Labels(entries: seq<Entry>): (labels: seq<string>)
    ensures |labels| == |entries|
    ensures forall i | 0 <= i < |entries| :: labels[i] == entries[i].name
  {
    seq(|entries|, i requires 0 <= i < |entries| => entries[i].name)
  }

  /** Labels in the order of their first occurrence. */
  predicate ByFirst(labels: seq<string>, names: seq<string>) {
    forall i, j | 0 <= i < j < |labels| :: First(names, labels[i]) < First(names, labels[j])
  }

  predicate Names(entries: seq<Entry>, name: string) {
    exists entry | entry in entries :: entry.name == name
  }

  /** One entry for each name that occurs, with its number of occurrences. */
  ghost predicate Tallies(entries: seq<Entry>, names: multiset<string>) {
    && DistinctNames(entries)
    && (forall entry | entry in entries :: entry.count == names[entry.name] > 0)
    && (forall name | name in names :: Names(entries, name))
  }

  lemma {:induction false} TotalOfTally(entries: seq<Entry>, names: multiset<string>)
    requires Tallies(entries, names)
    ensures Sum(Counts(entries)) == |names|
  {
    if entries == [] {
      assert names == multiset{} by {
        forall name
          ensures names[name] == 0
        {
          assert !Names(entries, name);
        }
      }
    } else {
      var front, last := entries[..|entries| - 1], entries[|entries| - 1];
      assert entries == front + [last] && last in entries;
      TallyOfFront(front, last, names);
      TotalOfTally(front, names[last.name := 0]);
      assert Counts(entries)[..|front|] == Counts(front);
    }
  }

  lemma TallyOfFront(front: seq<Entry>, last: Entry, names: multiset<string>)
    requires Tallies(front + [last], names)
    ensures Tallies(front, names[last.name := 0])
  {
    var entries := front + [last];
    forall i | 0 <= i < |front|
      ensures front[i].name != last.name && front[i] in entries
    {
      assert entries[i].name != entries[|front|].name;
    }
    assert forall i | 0 <= i < |front| :: entries[i] == front[i];
    forall name | name in names[last.name := 0]
      ensures Names(front, name)
    {
      assert Names(entries, name);
      var entry :| entry in entries && entry.name == name;
      assert entry in front;
    }
  }

  /** Counts one more occurrence of a name; a new name goes to the end. */
  method Add(entries: seq<Entry>, name: string) returns (r: seq<Entry>)
    requires DistinctNames(entries)
    ensures forall names | Tallies(entries, names) :: Tallies(r, names + multiset{name})
    ensures DistinctNames(r)
    ensures Labels(r) == if name in Labels(entries) then Labels(entries) else Labels(entries) + [name]
  {
    for i := 0 to |entries|
      invariant forall k | 0 <= k < i :: entries[k].name != name
    {
      if entries[i].name == name {
        r := entries[i := Entry(name, entries[i].count + 1)];
        assert Labels(entries)[i] == name;
        assert Labels(r) == Labels(entries);
        forall names | Tallies(entries, names)
          ensures Tallies(r, names + multiset{name})
        {
          Counted(entries, i, names);
        }
        return;
      }
    }
    r := entries + [Entry(name, 1)];
    assert Labels(r) == Labels(entries) + [name];
    forall names | Tallies(entries, names)
      ensures Tallies(r, names + multiset{name})
    {
      Appended(entries, name, names);
    }
  }

  lemma Counted(entries: seq<Entry>, i: nat, names: multiset<string>)
    requires Tallies(entries, names) && i < |entries|
    ensures Tallies(entries[i := Entry(entries[i].name, entries[i].count + 1)], names + multiset{entries[i].name})
  {
    var name, r := entries[i].name, entries[i := Entry(entries[i].name, entries[i].count + 1)];
    assert entries[i] in entries;
    forall entry | entry in r
      ensures entry.count == (names + multiset{name})[entry.name] > 0
    {
      var k :| 0 <= k < |r| && r[k] == entry;
      assert k != i ==> entries[k] in entries && entries[k].name != name;
    }
    forall other | other in names + multiset{name}
      ensures Names(r, other)
    {
      assert other in names;
      assert Names(entries, other);
      var entry :| entry in entries && entry.name == other;
      var k :| 0 <= k < |entries| && entries[k] == entry;
      assert r[k] in r && r[k].name == other;
    }
  }

  lemma Appended(entries: seq<Entry>, name: string, names: multiset<string>)
    requires Tallies(entries, names) && forall k | 0 <= k < |entries| :: entries[k].name != name
    ensures Tallies(entries + [Entry(name, 1)], names + multiset{name})
  {
    var r := entries + [Entry(name, 1)];
    assert !Names(entries, name);
    assert name !in names;
    assert Entry(name, 1) in r;
    forall other | other in names + multiset{name}
      ensures Names(r, other)
    {
      if other != name {
        assert Names(entries, other);
        var entry :| entry in entries && entry.name == other;
        assert entry in r;
      }
    }
  }

  predicate SameEntries(a: seq<Entry>, b: seq<Entry>) {
    (forall entry | entry in a :: entry in b) && (forall entry | entry in b :: entry in a)
  }

  lemma TallyOfSame(a: seq<Entry>, b: seq<Entry>, names: multiset<string>)
    requires Tallies(a, names) && SameEntries(a, b) && DistinctNames(b)
    ensures Tallies(b, names)
  {
    forall name | name in names
      ensures Names(b, name)
    {
      assert Names(a, name);
    }
  }

  /** Puts an entry behind the entries with at least its count; those of the same count have occurred earlier. */
  method Insert(sorted: seq<Entry>, entry: Entry, names: seq<string>) returns (r: seq<Entry>)
    requires Ordered(sorted, names) && DistinctNames(sorted)
    requires forall i | 0 <= i < |sorted| :: First(names, sorted[i].name) < First(names, entry.name)
    ensures Ordered(r, names) && DistinctNames(r) && |r| == |sorted| + 1 && SameEntries(r, sorted + [entry])
  {
    var k := |sorted|;
    while k > 0 && sorted[k - 1].count < entry.count
      invariant 0 <= k <= |sorted|
      invariant forall i | k <= i < |sorted| :: sorted[i].count < entry.count
    {
      k := k - 1;
    }
    r := sorted[..k] + [entry] + sorted[k..];
    hide DistinctNames, Ordered, First;
    InsertedDistinct(sorted, entry, k);
    InsertedOrdered(sorted, entry, k, names);
    Inserted(sorted, entry, k);
  }

  lemma InsertedDistinct(sorted: seq<Entry>, entry: Entry, k: nat)
    requires k <= |sorted| && DistinctNames(sorted) && forall i | 0 <= i < |sorted| :: sorted[i].name != entry.name
    ensures DistinctNames(sorted[..k] + [entry] + sorted[k..])
  {
  }

  lemma InsertedOrdered(sorted: seq<Entry>, entry: Entry, k: nat, names: seq<string>)
    requires k <= |sorted| && Ordered(sorted, names)
    requires forall i | k <= i < |sorted| :: sorted[i].count < entry.count
    requires forall i | 0 <= i < |sorted| :: First(names, sorted[i].name) < First(names, entry.name)
    requires k > 0 ==> sorted[k - 1].count >= entry.count
    ensures Ordered(sorted[..k] + [entry] + sorted[k..], names)
  {
    hide First;
    forall i | 0 <= i < k
      ensures Precedes(sorted[i], entry, names)
    {
      assert i < k - 1 ==> Precedes(sorted[i], sorted[k - 1], names);
    }
  }

  lemma Inserted(sorted: seq<Entry>, entry: Entry, k: nat)
    requires k <= |sorted|
    ensures SameEntries(sorted[..k] + [entry] + sorted[k..], sorted + [entry])
  {
    assert sorted == sorted[..k] + sorted[k..];
  }

  method SortByCount(entries: seq<Entry>, names: seq<string>) returns (sorted: seq<Entry>)
    requires DistinctNames(entries) && ByFirst(Labels(entries), names)
    ensures Ordered(sorted, names) && DistinctNames(sorted) && SameEntries(entries, sorted) && |sorted| == |entries|
  {
    hide First, Ordered;
    sorted := [];
    NothingOrdered(names);
    for i := 0 to |entries|
      invariant Ordered(sorted, names) && DistinctNames(sorted) && SameEntries(sorted, entries[..i]) && |sorted| == i
    {
      forall k | 0 <= k < i
        ensures First(names, sorted[k].name) < First(names, entries[i].name)
      {
        EarlierEntry(sorted, entries, i, k, names);
      }
      assert entries[..i + 1] == entries[..i] + [entries[i]];
      sorted := Insert(sorted, entries[i], names);
    }
    assert entries[..|entries|] == entries;
  }

  lemma NothingOrdered(names: seq<string>)
    ensures Ordered([], names)
  {
  }

  lemma EarlierEntry(sorted: seq<Entry>, entries: seq<Entry>, i: nat, k: nat, names: seq<string>)
    requires i < |entries| && k < |sorted| && SameEntries(sorted, entries[..i]) && ByFirst(Labels(entries), names)
    ensures First(names, sorted[k].name) < First(names, entries[i].name)
  {
    hide First;
    assert sorted[k] in entries[..i];
    var j :| 0 <= j < i && entries[j] == sorted[k];
    assert Labels(entries)[j] == entries[j].name && Labels(entries)[i] == entries[i].name;
  }

  /** The label counts of the rows, largest first; equal counts in the order in which the labels first occur. */
  method CountBy(names: seq<string>) returns (entries: seq<Entry>)
    ensures Tallies(entries, multiset(names)) && Ordered(entries, names)
    ensures Sum(Counts(entries)) == |names|
  {
    hide Tallies, Sum, Ordered, First;
    entries := [];
    NothingTallied(names);
    for i := 0 to |names|
      invariant DistinctNames(entries) && Tallies(entries, multiset(names[..i]))
      invariant ByFirst(Labels(entries), names)
      invariant forall name :: name in Labels(entries) <==> name in names[..i]
      invariant forall k | 0 <= k < |entries| :: First(names, entries[k].name) < i
    {
      assert names[..i + 1] == names[..i] + [names[i]];
      if names[i] !in Labels(entries) {
        FirstIs(names, i);
      }
      ghost var before := entries;
      entries := Add(entries, names[i]);
      NextLabels(before, entries, names, i);
    }
    assert names[..|names|] == names;
    var sorted := SortByCount(entries, names);
    TallyOfSame(entries, sorted, multiset(names));
    entries := sorted;
    TotalOfTally(entries, multiset(names));
  }

  lemma NextLabels(before: seq<Entry>, after: seq<Entry>, names: seq<string>, i: nat)
    requires i < |names| && ByFirst(Labels(before), names)
    requires forall k | 0 <= k < |before| :: First(names, before[k].name) < i
    requires names[i] !in Labels(before) ==> First(names, names[i]) == i
    requires Labels(after) == if names[i] in Labels(before) then Labels(before) else Labels(before) + [names[i]]
    ensures ByFirst(Labels(after), names)
    ensures forall k | 0 <= k < |after| :: First(names, after[k].name) < i + 1
  {
    hide First;
    forall k | 0 <= k < |after|
      ensures First(names, after[k].name) < i + 1
    {
      assert after[k].name == Labels(after)[k];
      if k < |before| {
        assert Labels(before)[k] == before[k].name;
      }
    }
  }

  lemma NothingTallied(names: seq<string>)
    ensures Tallies([], multiset(names[..0]))
  {
  }

  // ---------------------------------------------------------------------------------------------
  // The summary
  // ---------------------------------------------------------------------------------------------

  datatype Row = Row(category: string, status: string, priority: string, reportedAt: int)

  datatype Summary = Summary(range: Range, total: nat, previousTotal: nat, byCategory: seq<Entry>, byStatus: seq<Entry>,
                             byPriority: seq<Entry>, trend: seq<nat>)

  function Within(rows: seq<Row>, lo: int, hi: int): (r: seq<Row>)
    ensures forall row | row in r :: lo <= row.reportedAt < hi && row in rows
  {
    if rows == [] then []
    else
      var front, last := Within(rows[..|rows| - 1], lo, hi), rows[|rows| - 1];
      if lo <= last.reportedAt < hi then front + [last] else front
  }

  function Column(rows: seq<Row>, read: Row -> string): (r: seq<string>)
    ensures |r| == |rows|
  {
    seq(|rows|, i requires 0 <= i < |rows| => read(rows[i]))
  }

  function Times(rows: seq<Row>): (r: seq<int>)
    ensures |r| == |rows| && forall i | 0 <= i < |rows| :: r[i] == rows[i].reportedAt
  {
    seq(|rows|, i requires 0 <= i < |rows| => rows[i].reportedAt)
  }

  function CategoryOf(row: Row): string {
    row.category
  }

  function StatusOf(row: Row): string {
    row.status
  }

  function PriorityOf(row: Row): string {
    row.priority
  }

  /** Every bucket counts its rows, and together they count the rows before the end of the last bucket. */
  ghost predicate TrendCounts(trend: seq<nat>, rows: seq<Row>, period: Period, range: Range, zone: int) {
    && |trend| == BucketCount(period, range)
    && (forall i | 0 <= i < |trend| ::
      trend[i] == CountIn(Times(rows), Boundary(period, range, zone, i), Boundary(period, range, zone, i + 1)))
    && (Sum(trend) == |rows| <==> forall i | 0 <= i < |rows| ::
      rows[i].reportedAt < Boundary(period, range, zone, |trend|))
  }

  /** The statistics of a period: each of the three groupings, and the trend unless the period is the year -1, count
      every incident of the period once. */
  method Summarize(incidents: seq<Row>, period: Period, value: int, zone: int) returns (summary: Summary)
    ensures summary.range == RangeOf(period, value, zone)
    ensures summary.total == |Within(incidents, summary.range.start, summary.range.end)|
    ensures summary.previousTotal == |Within(incidents, summary.range.previousStart, summary.range.start)|
    ensures TrendCounts(summary.trend, Within(incidents, summary.range.start, summary.range.end), period,
                        summary.range, zone)
    ensures !(period == PerYear && FullYear(value + zone) == -1) ==> Sum(summary.trend) == summary.total
    ensures Sum(Counts(summary.byCategory)) == Sum(Counts(summary.byStatus)) == Sum(Counts(summary.byPriority)) ==
      summary.total
    ensures var rows := Within(incidents, summary.range.start, summary.range.end);
      && Tallies(summary.byCategory, multiset(Column(rows, CategoryOf)))
      && Tallies(summary.byStatus, multiset(Column(rows, StatusOf)))
      && Tallies(summary.byPriority, multiset(Column(rows, PriorityOf)))
      && Ordered(summary.byCategory, Column(rows, CategoryOf))
      && Ordered(summary.byStatus, Column(rows, StatusOf))
      && Ordered(summary.byPriority, Column(rows, PriorityOf))
  {
    hide Tallies, Sum, RangeOf, Within, Ordered, FullYear, Boundary, BucketCount;
    var range := FindRange(period, value, zone);
    var rows := Within(incidents, range.start, range.end);
    var previous := Within(incidents, range.previousStart, range.start);
    var byCategory := CountBy(Column(rows, CategoryOf));
    var byStatus := CountBy(Column(rows, StatusOf));
    var byPriority := CountBy(Column(rows, PriorityOf));
    forall i | 0 <= i < |rows|
      ensures range.start <= Times(rows)[i] < range.end
    {
      assert rows[i] in rows;
    }
    var trend := Trend(period, value, zone, range, Times(rows));
    assert TrendCounts(trend, rows, period, range, zone);
    summary := Summary(range, |rows|, |previous|, byCategory, byStatus, byPriority, trend);
  }
}
