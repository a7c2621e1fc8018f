/** Civil dates over day numbers, after section 21.4.1 of ECMA-262: a time value is a number of
    milliseconds since 1 January 1970 UTC, a month is the single number 12 * year + month (month 0
    is January), and every date getter is read off the month a day number falls in. */
module Calendar {
  const MS_PER_DAY := 86_400_000

  predicate LeapYear(year: int) {
    year % 4 == 0 && (year % 100 != 0 || year % 400 == 0)
  }

  /** Number of the first day of a year. */
  function DayFromYear(year: int): int {
    365 * (year - 1970) + (year - 1969) / 4 - (year - 1901) / 100 + (year - 1601) / 400
  }

  /** Days of the year that lie before its `month`. */
  function DaysBefore(month: int, leap: bool): int
    requires 0 <= month < 12
  {
    var february := if leap then 29 else 28;
    match month
    case 0 => 0
    case 1 => 31
    case 2 => 31 + february
    case 3 => 62 + february
    case 4 => 92 + february
    case 5 => 123 + february
    case 6 => 153 + february
    case 7 => 184 + february
    case 8 => 215 + february
    case 9 => 245 + february
    case 10 => 276 + february
    case _ => 306 + february
  }

  function MonthLength(month: int): (length: int)
    ensures 28 <= length <= 31
  {
    if month % 12 == 1 then (if LeapYear(month / 12) then 29 else 28)
    else if month % 12 in {3, 5, 8, 10} then 30
    else 31
  }

  const EPOCH := 12 * 1970

  function Distance(a: int, b: int): nat {
    if a < b then b - a else a - b
  }

  /** Number of the first day of a month: the month lengths added up from January 1970. */
  function MonthStart(month: int): int
    decreases Distance(month, EPOCH)
  {
    if month == EPOCH then 0
    else if EPOCH < month then MonthStart(month - 1) + MonthLength(month - 1)
    else MonthStart(month + 1) - MonthLength(month)
  }

  /** The calendar has no gaps: a month starts the day after the previous one ends. */
  lemma {:induction false} MonthStartNext(month: int)
    ensures MonthStart(month + 1) == MonthStart(month) + MonthLength(month)
  {
  }

  lemma LeapCount(year: int)
    ensures (year - 1968) / 4 == (year - 1969) / 4 + (if year % 4 == 0 then 1 else 0)
  {
  }

  lemma CenturyCount(year: int)
    ensures (year - 1900) / 100 == (year - 1901) / 100 + (if year % 100 == 0 then 1 else 0)
  {
  }

  lemma CycleCount(year: int)
    ensures (year - 1600) / 400 == (year - 1601) / 400 + (if year % 400 == 0 then 1 else 0)
  {
  }

  lemma FourDivides(k: int)
    ensures (100 * k) % 4 == 0
  {
    assert 100 * k == 4 * (25 * k);
  }

  lemma HundredDivides(k: int)
    ensures (400 * k) % 100 == 0
  {
    assert 400 * k == 100 * (4 * k);
  }

  lemma YearLength(year: int)
    ensures DayFromYear(year + 1) == DayFromYear(year) + (if LeapYear(year) then 366 else 365)
  {
    LeapCount(year);
    CenturyCount(year);
    CycleCount(year);
    FourDivides(year / 100);
    HundredDivides(year / 400);
  }

  /** Day number of the first of a month in closed form (section 21.4.1.3 of ECMA-262). */
  function ClosedMonthStart(month: int): int {
    DayFromYear(month / 12) + DaysBefore(month % 12, LeapYear(month / 12))
  }

  lemma ClosedMonthStartNext(month: int)
    ensures ClosedMonthStart(month + 1) == ClosedMonthStart(month) + MonthLength(month)
  {
    var year := month / 12;
    if month % 12 == 11 {
      assert (month + 1) / 12 == year + 1 && (month + 1) % 12 == 0;
      YearLength(year);
    } else {
      assert (month + 1) / 12 == year && (month + 1) % 12 == month % 12 + 1;
    }
  }

  /** Adding up month lengths gives the standard's leap-year formula. */
  lemma {:induction false} MonthStartIsClosedForm(month: int)
    ensures MonthStart(month) == ClosedMonthStart(month)
    decreases Distance(month, EPOCH)
  {
    hide ClosedMonthStart, MonthLength;
    if EPOCH < month {
      MonthStartIsClosedForm(month - 1);
      ClosedMonthStartNext(month - 1);
    } else if month < EPOCH {
      MonthStartIsClosedForm(month + 1);
      ClosedMonthStartNext(month);
    } else {
      ClosedAtEpoch();
    }
  }

  lemma ClosedAtEpoch()
    ensures ClosedMonthStart(EPOCH) == 0
  {
  }

  lemma {:induction false} MonthStartIncreases(a: int, b: int)
    requires a <= b
    ensures MonthStart(a) + 28 * (b - a) <= MonthStart(b)
    decreases b - a
  {
    if a < b {
      MonthStartIncreases(a, b - 1);
      MonthStartNext(b - 1);
    }
  }

  /** The month a day falls in, searched from January 1970. */
  function MonthOf(day: int): (month: int)
    ensures MonthStart(month) <= day < MonthStart(month + 1)
    decreases Distance(day, 0)
  {
    if day == 0 then
      23640
    else if day > 0 then
      var before := MonthOf(day - 1);
      MonthStartNext(before); MonthStartNext(before + 1);
      if day < MonthStart(before + 1) then before else before + 1
    else
      var after := MonthOf(day + 1);
      MonthStartNext(after - 1);
      if MonthStart(after) <= day then after else after - 1
  }

  /** No day falls in two months. */
  lemma MonthIsUnique(day: int, a: int, b: int)
    requires MonthStart(a) <= day < MonthStart(b + 1)
    ensures a <= b
  {
    if b < a {
      MonthStartIncreases(b + 1, a);
    }
  }

  lemma MonthOfUnique(day: int, month: int)
    requires MonthStart(month) <= day < MonthStart(month + 1)
    ensures MonthOf(day) == month
  {
    var found := MonthOf(day);
    MonthIsUnique(day, found, month);
    MonthIsUnique(day, month, found);
  }

  /** Day of the month, counted from 1. */
  function DateOf(day: int): (date: int)
    ensures 1 <= date <= MonthLength(MonthOf(day))
  {
    MonthStartNext(MonthOf(day));
    day - MonthStart(MonthOf(day)) + 1
  }

  /** A date given by month and day of the month falls in that month and on that day. */
  lemma DayOfDate(month: int, date: int)
    requires 1 <= date <= MonthLength(month)
    ensures MonthOf(MonthStart(month) + date - 1) == month
    ensures DateOf(MonthStart(month) + date - 1) == date
  {
    MonthStartNext(month);
    MonthOfUnique(MonthStart(month) + date - 1, month);
  }

  function Day(time: int): int {
    time / MS_PER_DAY
  }

  /** The start of the day a time value lies in. */
  function Midnight(time: int): int {
    MS_PER_DAY * Day(time)
  }

  function FullYear(time: int): int {
    MonthOf(Day(time)) / 12
  }

  function Month(time: int): int {
    MonthOf(Day(time)) % 12
  }

  function Date(time: int): int {
    DateOf(Day(time))
  }

  /** MakeDay of ECMA-262: months and dates outside their ranges carry over. */
  function MakeDay(year: int, month: int, date: int): int {
    MonthStart(12 * year + month) + date - 1
  }

  /** Date.UTC, which reads the years 0 to 99 as 1900 to 1999 (section 21.4.3.4). */
  function DateUTC(year: int, month: int, date: int): int {
    MS_PER_DAY * MakeDay(if 0 <= year <= 99 then 1900 + year else year, month, date)
  }

  /** setUTCDate on a midnight time value. */
  function SetDate(time: int, date: int): int {
    MS_PER_DAY * MakeDay(FullYear(time), Month(time), date)
  }
}
