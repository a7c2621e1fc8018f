/** Warranty arithmetic of the asset overview (apps/api/src/modules/assets/asset-overview.ts). */
module AssetOverview {
  import opened Calendar
  import opened Common

  function MonthNumber(time: int): int {
    MonthOf(Day(time))
  }

  function Min(a: int, b: int): int {
    if a < b then a else b
  }

  /** What "plus n months" means: the same date n months on, or the last day of a month too short for it. */
  function Shifted(time: int, months: int): int {
    var target := MonthNumber(time) + months;
    MS_PER_DAY * (MonthStart(target) + Min(Date(time), MonthLength(target)) - 1)
  }

  predicate Clamps(time: int, months: int) {
    MonthLength(MonthNumber(time) + months) < Date(time)
  }

  /** Date.UTC takes the years 0 to 99 for 1900 to 1999, 22800 months later. */
  predicate CenturyRemapped(time: int) {
    0 <= FullYear(time) <= 99
  }

  function AddedMonths(date: int, months: int): int {
    Shifted(date, if CenturyRemapped(date) then months + 22800 else months)
  }

  /** Lets the date overflow into the next month, then steps back to the last day of the one aimed at. */
  method AddMonths(date: int, months: int) returns (result: int)
    ensures result == AddedMonths(date, months)
  {
    result := DateUTC(FullYear(date), Month(date) + months, Date(date));
    DateUTCDay(date, months);
    hide MonthLength, MonthOf, MonthStart;
    ghost var target := MonthNumber(date) + (if CenturyRemapped(date) then months + 22800 else months);
    Repair(target, Date(date), MonthStart(target));
    if Date(result) != Date(date) {
      result := SetDate(result, 0);
    }
  }

  lemma DateUTCDay(date: int, months: int)
    ensures var target := MonthNumber(date) + (if CenturyRemapped(date) then months + 22800 else months);
      DateUTC(FullYear(date), Month(date) + months, Date(date)) == MS_PER_DAY * (MonthStart(target) + Date(date) - 1)
  {
  }

  /** Stepping back to date 0 undoes an overflow, and only an overflow changes the date. */
  lemma Repair(month: int, date: int, start: int)
    requires 1 <= date <= 31 && start == MonthStart(month)
    ensures var raw := MS_PER_DAY * (start + date - 1);
      MS_PER_DAY * (start + Min(date, MonthLength(month)) - 1) == if Date(raw) != date then SetDate(raw, 0) else raw
  {
    hide MonthLength, MonthOf, MonthStart, DaysBefore, DayFromYear, LeapYear;
    var day := start + date - 1;
    OverflowedDate(month, date);
    MidnightDate(day);
    if MonthLength(month) < date {
      var landed := MonthOf(day);
      assert SetDate(MS_PER_DAY * day, 0) == MS_PER_DAY * MakeDay(landed / 12, landed % 12, 0);
      assert landed == month + 1;
      LastDayBefore(month);
    } else {
      assert Date(MS_PER_DAY * day) == date;
    }
  }

  lemma MidnightDate(day: int)
    ensures Date(MS_PER_DAY * day) == DateOf(day)
    ensures SetDate(MS_PER_DAY * day, 0) == MS_PER_DAY * MakeDay(MonthOf(day) / 12, MonthOf(day) % 12, 0)
  {
    assert Day(MS_PER_DAY * day) == day;
  }

  /** Date 0 of the next month. */
  lemma LastDayBefore(month: int)
    ensures MakeDay((month + 1) / 12, (month + 1) % 12, 0) == MonthStart(month) + MonthLength(month) - 1
  {
    MonthStartNext(month);
    assert 12 * ((month + 1) / 12) + (month + 1) % 12 == month + 1;
  }

  /** Where the date overflows to when the month is too short for it. */
  lemma OverflowedDate(month: int, date: int)
    requires 1 <= date <= 31
    ensures var day := MonthStart(month) + date - 1;
      if date <= MonthLength(month) then MonthOf(day) == month && DateOf(day) == date
      else MonthOf(day) == month + 1 && DateOf(day) < date
  {
    hide MonthLength, MonthOf, MonthStart, DateOf;
    if date <= MonthLength(month) {
      DayOfDate(month, date);
    } else {
      MonthStartNext(month);
      DayOfDate(month + 1, date - MonthLength(month));
    }
  }

  /** The month and the date of a shifted time. */
  lemma ShiftedDate(time: int, months: int)
    ensures MonthNumber(Shifted(time, months)) == MonthNumber(time) + months
    ensures Date(Shifted(time, months)) == Min(Date(time), MonthLength(MonthNumber(time) + months))
  {
    hide MonthLength, MonthOf, MonthStart;
    var target := MonthNumber(time) + months;
    DayOfDate(target, Min(Date(time), MonthLength(target)));
  }

  lemma ShiftedIncreases(time: int, a: int, b: int)
    requires a < b
    ensures Shifted(time, a) < Shifted(time, b)
  {
    hide MonthLength, MonthOf, MonthStart;
    MonthStartNext(MonthNumber(time) + a);
    MonthStartIncreases(MonthNumber(time) + a + 1, MonthNumber(time) + b);
  }

  /** The year check of Date.UTC is the one thing that spoils the result. */
  lemma AddMonthsIsExactIff(time: int, months: int)
    ensures AddedMonths(time, months) == Shifted(time, months) <==> !CenturyRemapped(time)
  {
    ShiftedIncreases(time, months, months + 22800);
  }

  /** Two shifts in a row never overshoot the one long shift, and meet it unless the stop in between
      was the shorter month and cut the date. */
  lemma ShiftedTwice(time: int, a: int, b: int)
    ensures Shifted(Shifted(time, a), b) <= Shifted(time, a + b)
    ensures !Clamps(time, a) ==> Shifted(Shifted(time, a), b) == Shifted(time, a + b)
    ensures Shifted(Shifted(time, a), b) == Shifted(time, a + b) <==>
      !Clamps(time, a) || MonthLength(MonthNumber(time) + a + b) <= MonthLength(MonthNumber(time) + a)
  {
    hide MonthLength;
    ShiftedDate(time, a);
    assert MonthNumber(time) + a + b == MonthNumber(time) + (a + b);
  }

  function WholeMonths(from: int, to: int): nat {
    var months := MonthNumber(to) - MonthNumber(from) - (if Date(to) < Date(from) then 1 else 0);
    if months < 0 then 0 else months
  }

  method MonthsBetween(from: int, to: int) returns (months: int)
    ensures months == WholeMonths(from, to)
  {
    months := (FullYear(to) - FullYear(from)) * 12 + (Month(to) - Month(from));
    if Date(to) < Date(from) {
      months := months - 1;
    }
    months := if months < 0 then 0 else months;
  }

  /** `to` is the last day of a month too short to hold the date of `from`. */
  predicate EndsShortMonth(from: int, to: int) {
    Date(to) == MonthLength(MonthNumber(to)) < Date(from)
  }

  lemma DayOrder(from: int, to: int)
    ensures Day(from) <= Day(to) <==>
      MonthNumber(from) < MonthNumber(to) || (MonthNumber(from) == MonthNumber(to) && Date(from) <= Date(to))
  {
    var a, b := MonthNumber(from), MonthNumber(to);
    if a < b {
      MonthStartIncreases(a + 1, b);
    } else if b < a {
      MonthStartIncreases(b + 1, a);
    }
  }

  /** Shifted times are midnights, so they compare with another midnight as their dates do. */
  lemma ShiftedOrder(from: int, months: int, to: int)
    ensures Shifted(from, months) <= Midnight(to) <==>
      MonthNumber(from) + months < MonthNumber(to)
      || (MonthNumber(from) + months == MonthNumber(to) && Min(Date(from), MonthLength(MonthNumber(to))) <= Date(to))
  {
    var shifted := Shifted(from, months);
    ShiftedDate(from, months);
    DayOrder(shifted, to);
    assert Midnight(shifted) == shifted;
  }

  /** Counting months never overshoots, and counts every whole month except when `to` ends a short month. */
  lemma WholeMonthsBracket(from: int, to: int)
    requires Day(from) <= Day(to)
    ensures Shifted(from, WholeMonths(from, to)) <= Midnight(to)
    ensures Midnight(to) < Shifted(from, WholeMonths(from, to) + 1) <==> !EndsShortMonth(from, to)
  {
    DayOrder(from, to);
    ShiftedOrder(from, WholeMonths(from, to), to);
    ShiftedNotBefore(from, WholeMonths(from, to) + 1, to);
  }

  lemma ShiftedNotBefore(from: int, months: int, to: int)
    ensures Midnight(to) < Shifted(from, months) <==>
      MonthNumber(to) < MonthNumber(from) + months
      || (MonthNumber(from) + months == MonthNumber(to) && Date(to) < Min(Date(from), MonthLength(MonthNumber(to))))
  {
    ShiftedOrder(from, months, to);
  }

  lemma WholeMonthsOfReversed(from: int, to: int)
    requires Day(to) <= Day(from)
    ensures WholeMonths(from, to) == 0
  {
    DayOrder(to, from);
  }

  /** Counting the months just added gives them back, one short when the date was cut. */
  lemma WholeMonthsOfShifted(time: int, months: int)
    ensures WholeMonths(time, Shifted(time, months)) ==
      if months <= 0 then 0 else if Clamps(time, months) then months - 1 else months
  {
    ShiftedDate(time, months);
    assert !Clamps(time, 0);
  }

  datatype WarrantyState = Active | Expiring | Expired | Unknown

  datatype Warranty = Warranty(expiry: Option<int>, state: WarrantyState, daysLeft: Option<int>)

  /** Least whole number of days that covers a span of time. */
  function CeilDays(span: int): (days: int)
    ensures MS_PER_DAY * (days - 1) < span <= MS_PER_DAY * days
  {
    -((-span) / MS_PER_DAY)
  }

  /** An explicit expiry wins over the purchase date plus the recorded months. */
  method WarrantyStatus(purchaseDate: Option<int>, warrantyMonths: Option<int>, warrantyExpiry: Option<int>, now: int)
    returns (status: Warranty)
    ensures status.expiry ==
      if warrantyExpiry.Some? then warrantyExpiry
      else if purchaseDate.Some? && warrantyMonths.Some? && warrantyMonths.value != 0
        then Some(AddedMonths(purchaseDate.value, warrantyMonths.value))
      else None
    ensures status.state.Unknown? <==> status.expiry.None?
    ensures status.daysLeft.Some? <==> status.expiry.Some?
    ensures status.expiry.Some? ==> status.state == StateAt(status.expiry.value, now)
    ensures status.state == Expired <==> status.daysLeft.Some? && status.daysLeft.value < 0
    ensures status.state == Expiring <==> status.daysLeft.Some? && 0 <= status.daysLeft.value <= 90
    ensures status.state == Active <==> status.daysLeft.Some? && status.daysLeft.value > 90
    ensures status.expiry.Some? ==>
      MS_PER_DAY * (status.daysLeft.value - 1) < status.expiry.value - now <= MS_PER_DAY * status.daysLeft.value
  {
    var expiry := warrantyExpiry;
    if expiry.None? && purchaseDate.Some? && warrantyMonths.Some? && warrantyMonths.value != 0 {
      var end := AddMonths(purchaseDate.value, warrantyMonths.value);
      expiry := Some(end);
    }
    if expiry.None? {
      return Warranty(None, Unknown, None);
    }
    var daysLeft := CeilDays(expiry.value - now);
    var state := if daysLeft < 0 then Expired else if daysLeft <= 90 then Expiring else Active;
    status := Warranty(expiry, state, Some(daysLeft));
  }

  /** The state by time alone: cover lasts through the whole day of expiry. */
  function StateAt(expiry: int, now: int): WarrantyState {
    if expiry + MS_PER_DAY <= now then Expired
    else if expiry - 90 * MS_PER_DAY <= now then Expiring
    else Active
  }

  /** Cover is over one day of 86 400 seconds after the moment of expiry, and about to be for 90 days before it. */
  lemma StateMeans(expiry: int, now: int)
    ensures StateAt(expiry, now) == Expired <==> now - expiry >= 86_400_000
    ensures StateAt(expiry, now) == Expiring <==> -7_776_000_000 <= now - expiry < 86_400_000
    ensures StateAt(expiry, now) == Active <==> now - expiry < -7_776_000_000
  {
  }

  function Rank(state: WarrantyState): nat {
    match state case Active => 0 case Expiring => 1 case Expired => 2 case Unknown => 3
  }

  /** A warranty bought with more months is never in a worse state, at any earlier or equal moment. */
  lemma LongerWarrantyIsNoWorse(purchaseDate: int, months: int, more: int, now: int, earlier: int)
    requires months <= more && earlier <= now
    ensures AddedMonths(purchaseDate, months) <= AddedMonths(purchaseDate, more)
    ensures Rank(StateAt(AddedMonths(purchaseDate, more), earlier)) <=
      Rank(StateAt(AddedMonths(purchaseDate, months), now))
  {
    hide Shifted, CenturyRemapped, StateAt, Rank;
    if months < more {
      ShiftedIncreases(purchaseDate, months, more);
      ShiftedIncreases(purchaseDate, months + 22800, more + 22800);
    }
    LaterExpiryIsNoWorse(AddedMonths(purchaseDate, months), AddedMonths(purchaseDate, more), now, earlier);
  }

  lemma LaterExpiryIsNoWorse(expiry: int, later: int, now: int, earlier: int)
    requires expiry <= later && earlier <= now
    ensures Rank(StateAt(later, earlier)) <= Rank(StateAt(expiry, now))
  {
  }
}
