/**
 * Proleptic Gregorian calendar dates and the normalisation that
 * JavaScript's `new Date(year, monthIndex, day)` applies to out-of-range
 * month indices and day numbers. `getposts` uses it to compute the date one
 * calendar month before today.
 */
module Calendar {

  /** A calendar date; `month` is 1-based (January is 1). */
  datatype Date = Date(year: int, month: int, day: int)

  predicate IsLeapYear(y: int) {
    y % 4 == 0 && (y % 100 != 0 || y % 400 == 0)
  }

  function DaysInMonth(y: int, m: int): (n: int)
    requires 1 <= m <= 12
    ensures 28 <= n <= 31
    ensures n == 31 <==> m in {1, 3, 5, 7, 8, 10, 12}
    ensures m == 2 ==> (n == 29 <==> IsLeapYear(y))
    ensures m == 2 && !IsLeapYear(y) ==> n == 28
    ensures m in {4, 6, 9, 11} ==> n == 30
  {
    if m == 2 then (if IsLeapYear(y) then 29 else 28)
    else if m in {4, 6, 9, 11} then 30
    else 31
  }

  predicate Valid(d: Date) {
    1 <= d.month <= 12 && 1 <= d.day <= DaysInMonth(d.year, d.month)
  }

  /** Strict chronological order. */
  predicate Before(a: Date, b: Date) {
    a.year < b.year
    || (a.year == b.year && a.month < b.month)
    || (a.year == b.year && a.month == b.month && a.day < b.day)
  }

  /** Chronological order, allowing equality. */
  predicate NotAfter(a: Date, b: Date) {
    a == b || Before(a, b)
  }

  /**
   * Day `day` counted from the first of month `m` of year `y`, rolled into a
   * valid date: a day past the end of the month continues into the next one,
   * a day before the first goes back into the previous one.
   */
  function RollDay(y: int, m: int, day: int): (r: Date)
    requires 1 <= m <= 12
    ensures Valid(r)
    ensures 1 <= day <= DaysInMonth(y, m) ==> r == Date(y, m, day)
    decreases if day < 1 then 1 else 0, if day < 1 then -day else day
  {
    if day < 1 then
      var (py, pm) := if m == 1 then (y - 1, 12) else (y, m - 1);
      RollDay(py, pm, day + DaysInMonth(py, pm))
    else if day > DaysInMonth(y, m) then
      var (ny, nm) := if m == 12 then (y + 1, 1) else (y, m + 1);
      RollDay(ny, nm, day - DaysInMonth(y, m))
    else
      Date(y, m, day)
  }

  /** The day after a valid date. */
  function NextDay(d: Date): (r: Date)
    requires Valid(d)
    ensures Valid(r) && Before(d, r)
  {
    if d.day < DaysInMonth(d.year, d.month) then Date(d.year, d.month, d.day + 1)
    else if d.month < 12 then Date(d.year, d.month + 1, 1)
    else Date(d.year + 1, 1, 1)
  }

  /**
   * One more day number gives the next day. With `RollDay` keeping a day
   * that fits, this fixes where every day number before the first or past
   * the end of the month lands.
   */
  lemma {:induction false} RollDayNext(y: int, m: int, day: int)
    requires 1 <= m <= 12
    ensures RollDay(y, m, day + 1) == NextDay(RollDay(y, m, day))
    decreases if day < 1 then 1 else 0, if day < 1 then -day else day
  {
    if day < 1 {
      var (py, pm) := if m == 1 then (y - 1, 12) else (y, m - 1);
      if day + 1 < 1 {
        RollDayNext(py, pm, day + DaysInMonth(py, pm));
      }
    } else if day > DaysInMonth(y, m) {
      var (ny, nm) := if m == 12 then (y + 1, 1) else (y, m + 1);
      RollDayNext(ny, nm, day - DaysInMonth(y, m));
    }
  }

  /** A year argument from 0 to 99 means 1900 to 1999 to `new Date`. */
  function FullYear(year: int): (y: int)
    ensures 0 <= year <= 99 ==> y == 1900 + year
    ensures !(0 <= year <= 99) ==> y == year
  {
    if 0 <= year <= 99 then 1900 + year else year
  }

  /**
   * `new Date(year, monthIndex, day)` with a 0-based month index: a
   * two-digit year is read as 19xx, the month index is brought into 0..11
   * by moving whole years (floor division), then the day is rolled.
   */
  function MakeDate(year: int, monthIndex: int, day: int): (r: Date)
    ensures Valid(r)
  {
    var y := FullYear(year);
    RollDay(y + monthIndex / 12, monthIndex % 12 + 1, day)
  }

  /**
   * A valid date outside the years 0 to 99, given back as its year, 0-based
   * month and day, is itself.
   */
  lemma MakeDateOfValid(d: Date)
    requires Valid(d) && !(0 <= d.year <= 99)
    ensures MakeDate(d.year, d.month - 1, d.day) == d
  {
  }

  /** A month index from 0 to 11 is a month of the year given. */
  lemma MakeDateInYear(year: int, monthIndex: int, day: int)
    requires 0 <= monthIndex <= 11
    ensures MakeDate(year, monthIndex, day) == RollDay(FullYear(year), monthIndex + 1, day)
  {
  }

  /**
   * Twelve more months are one more year, for years `new Date` reads
   * literally (the year and the one after it both outside 0 to 99).
   */
  lemma MakeDateCarry(year: int, monthIndex: int, day: int)
    requires year >= 100 || year <= -2
    ensures MakeDate(year, monthIndex + 12, day) == MakeDate(year + 1, monthIndex, day)
  {
    assert (monthIndex + 12) / 12 == monthIndex / 12 + 1;
    assert (monthIndex + 12) % 12 == monthIndex % 12;
  }

  /** The years 0 to 99 are read as 1900 to 1999. */
  lemma MakeDateTwoDigitYear(year: int, monthIndex: int, day: int)
    requires 0 <= year <= 99
    ensures MakeDate(year, monthIndex, day) == MakeDate(1900 + year, monthIndex, day)
  {
  }

  /**
   * `new Date(now.getFullYear(), now.getMonth() - 1, now.getDate())`, where
   * `getMonth()` is 0-based.
   */
  function OneMonthAgo(today: Date): (r: Date)
    requires Valid(today)
    ensures Valid(r)
  {
    MakeDate(today.year, (today.month - 1) - 1, today.day)
  }

  /** In January the result is the same day of December of the previous year. */
  lemma OneMonthAgoInJanuary(today: Date)
    requires Valid(today) && !(0 <= today.year <= 99) && today.month == 1
    ensures OneMonthAgo(today) == Date(today.year - 1, 12, today.day)
  {
    assert -1 / 12 == -1 && -1 % 12 == 11;
  }

  /** Otherwise it is the same day of the previous month, when that month has it. */
  lemma OneMonthAgoDayFits(today: Date)
    requires Valid(today) && !(0 <= today.year <= 99) && today.month > 1
    requires today.day <= DaysInMonth(today.year, today.month - 1)
    ensures OneMonthAgo(today) == Date(today.year, today.month - 1, today.day)
  {
    assert (today.month - 2) / 12 == 0 && (today.month - 2) % 12 == today.month - 2;
  }

  /**
   * When the previous month is too short, the surplus days roll forward into
   * the current month.
   */
  lemma OneMonthAgoRollsForward(today: Date)
    requires Valid(today) && !(0 <= today.year <= 99) && today.month > 1
    requires today.day > DaysInMonth(today.year, today.month - 1)
    ensures OneMonthAgo(today)
         == Date(today.year, today.month, today.day - DaysInMonth(today.year, today.month - 1))
  {
    var y, m, d := today.year, today.month, today.day;
    assert (m - 2) / 12 == 0 && (m - 2) % 12 == m - 2;
    var surplus := d - DaysInMonth(y, m - 1);
    assert 1 <= surplus <= 3;
    assert RollDay(y, m, surplus) == Date(y, m, surplus);
  }

  /**
   * The result is always strictly earlier than today, for every year a
   * clock can give (the years 0 to 99 would be read as 19xx).
   */
  lemma OneMonthAgoIsEarlier(today: Date)
    requires Valid(today) && !(0 <= today.year <= 99)
    ensures Before(OneMonthAgo(today), today)
  {
    if today.month == 1 {
      OneMonthAgoInJanuary(today);
    } else if today.day <= DaysInMonth(today.year, today.month - 1) {
      OneMonthAgoDayFits(today);
    } else {
      OneMonthAgoRollsForward(today);
    }
  }

  /** 31 March of a common year: one month earlier is 3 March. */
  lemma OneMonthAgoMarch31Common()
    ensures OneMonthAgo(Date(2023, 3, 31)) == Date(2023, 3, 3)
  {
    OneMonthAgoRollsForward(Date(2023, 3, 31));
  }

  /** 31 March of a leap year: one month earlier is 2 March. */
  lemma OneMonthAgoMarch31Leap()
    ensures OneMonthAgo(Date(2024, 3, 31)) == Date(2024, 3, 2)
  {
    OneMonthAgoRollsForward(Date(2024, 3, 31));
  }

  /** A today in year 50 would give a date in 1950: the two-digit rule at work. */
  lemma OneMonthAgoTwoDigitYear()
    ensures OneMonthAgo(Date(50, 3, 15)) == Date(1950, 2, 15)
  {
  }
}
