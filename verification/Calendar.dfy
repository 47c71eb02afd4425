/** The proleptic Gregorian calendar behind Go's time package, in a zone with a fixed offset.
    Day 0 is Monday 1 January of year 1; a minute number counts minutes from its midnight. */
module Calendar {
  import opened Arithmetic

  datatype Date = Date(year: int, month: int, day: int)

  predicate Leap(y: int) { y % 4 == 0 && (y % 100 != 0 || y % 400 == 0) }

  /** Month lengths of a common (365-day) year. */
  function CommonLength(m: int): (n: int)
    requires 1 <= m <= 12
    ensures 28 <= n <= 31
  {
    if m == 2 then 28 else if m in {4, 6, 9, 11} then 30 else 31
  }

  function MonthLength(y: int, m: int): (n: int)
    requires 1 <= m <= 12
    ensures 28 <= n <= 31
  {
    if m == 2 && Leap(y) then 29 else CommonLength(m)
  }

  predicate Valid(d: Date)
  {
    1 <= d.month <= 12 && 1 <= d.day <= MonthLength(d.year, d.month)
  }

  function YearLength(y: int): int { if Leap(y) then 366 else 365 }

  function DaysBeforeYear(y: int): int
  {
    365 * (y - 1) + (y - 1) / 4 - (y - 1) / 100 + (y - 1) / 400
  }

  /** Days of year y before month m; month 13 stands for the end of the year. */
  function DaysBeforeMonth(y: int, m: int): (n: int)
    requires 1 <= m <= 13
    ensures 28 * (m - 1) <= n <= 31 * (m - 1)
  {
    if m == 1 then 0 else DaysBeforeMonth(y, m - 1) + MonthLength(y, m - 1)
  }

  function DayNumber(d: Date): int
    requires Valid(d)
  {
    DaysBeforeYear(d.year) + DaysBeforeMonth(d.year, d.month) + d.day - 1
  }

  lemma NextYear(y: int)
    ensures DaysBeforeYear(y + 1) == DaysBeforeYear(y) + YearLength(y)
  {
    DivStep(y, 4);
    DivStep(y, 100);
    DivStep(y, 400);
  }

  lemma DivStep(y: int, k: int)
    requires k > 0
    ensures y / k == (y - 1) / k + (if y % k == 0 then 1 else 0)
  {
    var q, r := (y - 1) / k, (y - 1) % k;
    assert y == q * k + (r + 1);
    if r + 1 < k {
      DivUnique(y, k, q, r + 1);
    } else {
      assert y == (q + 1) * k + 0;
      DivUnique(y, k, q + 1, 0);
    }
  }

  lemma YearEnds(y: int)
    ensures DaysBeforeMonth(y, 13) == YearLength(y)
  {
    assert DaysBeforeMonth(y, 3) == 31 + MonthLength(y, 2);
    assert DaysBeforeMonth(y, 5) == DaysBeforeMonth(y, 3) + 61;
    assert DaysBeforeMonth(y, 7) == DaysBeforeMonth(y, 5) + 61;
    assert DaysBeforeMonth(y, 9) == DaysBeforeMonth(y, 7) + 62;
    assert DaysBeforeMonth(y, 11) == DaysBeforeMonth(y, 9) + 61;
    assert DaysBeforeMonth(y, 13) == DaysBeforeMonth(y, 11) + 61;
  }

  lemma {:induction false} MonthsOrdered(y: int, m1: int, m2: int)
    requires 1 <= m1 < m2 <= 13
    ensures DaysBeforeMonth(y, m1) + MonthLength(y, m1) <= DaysBeforeMonth(y, m2)
    decreases m2
  {
  }

  lemma {:induction false} YearsOrdered(y1: int, y2: int)
    requires y1 < y2
    ensures DaysBeforeYear(y1) + YearLength(y1) <= DaysBeforeYear(y2)
    decreases y2 - y1
  {
    NextYear(y2 - 1);
    if y1 < y2 - 1 {
      YearsOrdered(y1, y2 - 1);
    }
  }

  /** The day number of a date lies inside its own year. */
  lemma WithinYear(d: Date)
    requires Valid(d)
    ensures DaysBeforeYear(d.year) <= DayNumber(d) < DaysBeforeYear(d.year) + YearLength(d.year)
  {
    YearEnds(d.year);
    MonthsOrdered(d.year, d.month, 13);
  }

  /** Later dates have larger day numbers, so no two dates share one. */
  lemma DayNumberIncreases(a: Date, b: Date)
    requires Valid(a) && Valid(b)
    requires a.year < b.year || (a.year == b.year && (a.month < b.month || (a.month == b.month && a.day < b.day)))
    ensures DayNumber(a) < DayNumber(b)
  {
    if a.year < b.year {
      WithinYear(a);
      WithinYear(b);
      YearsOrdered(a.year, b.year);
    } else if a.month < b.month {
      MonthsOrdered(a.year, a.month, b.month);
    }
  }

  /** The year a day falls in, by 400-, 100-, 4- and 1-year cycles as in Go's time package. */
  function YearOf(n: int): (y: int)
    ensures DaysBeforeYear(y) <= n < DaysBeforeYear(y) + YearLength(y)
  {
    var n400 := n / 146097;
    var r400 := n % 146097;
    var n100 := if r400 / 36524 == 4 then 3 else r400 / 36524;
    var r100 := r400 - 36524 * n100;
    var n4 := r100 / 1461;
    var r4 := r100 - 1461 * n4;
    var n1 := if r4 / 365 == 4 then 3 else r4 / 365;
    var y := 400 * n400 + 100 * n100 + 4 * n4 + n1 + 1;
    CycleYear(n400, n100, n4, n1);
    y
  }

  lemma CycleYear(n400: int, n100: int, n4: int, n1: int)
    requires 0 <= n100 <= 3 && 0 <= n4 <= 24 && 0 <= n1 <= 3
    ensures var y := 400 * n400 + 100 * n100 + 4 * n4 + n1 + 1;
      && DaysBeforeYear(y) == 146097 * n400 + 36524 * n100 + 1461 * n4 + 365 * n1
      && YearLength(y) == if n1 == 3 && (n4 < 24 || n100 == 3) then 366 else 365
  {
    var y0 := 400 * n400 + 100 * n100 + 4 * n4 + n1;
    DivUnique(y0, 4, 100 * n400 + 25 * n100 + n4, n1);
    DivUnique(y0, 100, 4 * n400 + n100, 4 * n4 + n1);
    DivUnique(y0, 400, n400, 100 * n100 + 4 * n4 + n1);
    DivStep(y0 + 1, 4);
    DivStep(y0 + 1, 100);
    DivStep(y0 + 1, 400);
    if n1 < 3 {
      DivUnique(y0 + 1, 4, 100 * n400 + 25 * n100 + n4, n1 + 1);
    } else {
      DivUnique(y0 + 1, 4, 100 * n400 + 25 * n100 + n4 + 1, 0);
      if n4 < 24 {
        DivUnique(y0 + 1, 100, 4 * n400 + n100, 4 * n4 + n1 + 1);
      } else {
        DivUnique(y0 + 1, 100, 4 * n400 + n100 + 1, 0);
        if n100 < 3 {
          DivUnique(y0 + 1, 400, n400, 100 * (n100 + 1));
        } else {
          DivUnique(y0 + 1, 400, n400 + 1, 0);
        }
      }
    }
  }

  /** The month at or after m that holds a day of the year. */
  function MonthFrom(y: int, dayOfYear: int, m: int): (r: int)
    requires 1 <= m <= 12
    requires DaysBeforeMonth(y, m) <= dayOfYear < DaysBeforeMonth(y, 13)
    ensures 1 <= r <= 12
    ensures DaysBeforeMonth(y, r) <= dayOfYear < DaysBeforeMonth(y, r) + MonthLength(y, r)
    decreases 12 - m
  {
    if dayOfYear < DaysBeforeMonth(y, m + 1) then m else MonthFrom(y, dayOfYear, m + 1)
  }

  /** The calendar date of a day number: the inverse of DayNumber. */
  function DateOf(n: int): (d: Date)
    ensures Valid(d) && DayNumber(d) == n
  {
    var y := YearOf(n);
    var doy := n - DaysBeforeYear(y);
    YearEnds(y);
    var m := MonthFrom(y, doy, 1);
    Date(y, m, doy - DaysBeforeMonth(y, m) + 1)
  }

  lemma DateOfDayNumber(d: Date)
    requires Valid(d)
    ensures DateOf(DayNumber(d)) == d
  {
    var e := DateOf(DayNumber(d));
    if e.year < d.year || (e.year == d.year && (e.month < d.month || (e.month == d.month && e.day < d.day))) {
      DayNumberIncreases(e, d);
    } else if e != d {
      DayNumberIncreases(d, e);
    }
  }

  /** time.Weekday of a day: 0 is Sunday. */
  function Weekday(n: int): (w: int)
    ensures 0 <= w <= 6
  {
    (n + 1) % 7
  }

  // Clock fields of a minute number.
  function Day(t: int): int { t / 1440 }
  function Hour(t: int): (h: int) ensures 0 <= h <= 23 { t % 1440 / 60 }
  function Minute(t: int): (m: int) ensures 0 <= m <= 59 { t % 60 }

  /** time.Date with zero seconds: month and day overflow are carried as Go normalizes them. */
  function TimeDate(year: int, month: int, day: int, hour: int, minute: int): int
  {
    var y := year + (month - 1) / 12;
    var m := (month - 1) % 12 + 1;
    (DayNumber(Date(y, m, 1)) + day - 1) * 1440 + hour * 60 + minute
  }

  /** time.Time.AddDate. */
  function AddDate(t: int, years: int, months: int, days: int): int
  {
    var d := DateOf(Day(t));
    TimeDate(d.year + years, d.month + months, d.day + days, Hour(t), Minute(t))
  }

  /** For a valid date TimeDate carries nothing. */
  lemma TimeDateOfValid(d: Date, hour: int, minute: int)
    requires Valid(d)
    ensures TimeDate(d.year, d.month, d.day, hour, minute) == DayNumber(d) * 1440 + hour * 60 + minute
  {
    assert (d.month - 1) / 12 == 0 && (d.month - 1) % 12 == d.month - 1;
    assert DayNumber(Date(d.year, d.month, 1)) + d.day - 1 == DayNumber(d);
  }

  /** Reading the fields of a time and building a time from them are inverse. */
  lemma TimeDateOfFields(t: int)
    ensures var d := DateOf(Day(t)); TimeDate(d.year, d.month, d.day, Hour(t), Minute(t)) == t
  {
    var d := DateOf(Day(t));
    TimeDateOfValid(d, Hour(t), Minute(t));
    ClockOfMinutes(Day(t), Hour(t), Minute(t), t);
  }

  lemma FieldsOfTimeDate(d: Date, hour: int, minute: int)
    requires Valid(d) && 0 <= hour <= 23 && 0 <= minute <= 59
    ensures var t := TimeDate(d.year, d.month, d.day, hour, minute);
      DateOf(Day(t)) == d && Hour(t) == hour && Minute(t) == minute
  {
    var t := TimeDate(d.year, d.month, d.day, hour, minute);
    TimeDateOfValid(d, hour, minute);
    ClockOfMinutes(DayNumber(d), hour, minute, t);
    DateOfDayNumber(d);
  }

  /** Days, hours and minutes are the mixed-radix digits of a minute number. */
  lemma ClockOfMinutes(day: int, hour: int, minute: int, t: int)
    requires 0 <= hour <= 23 && 0 <= minute <= 59
    ensures t == day * 1440 + hour * 60 + minute <==> Day(t) == day && Hour(t) == hour && Minute(t) == minute
  {
    if t == day * 1440 + hour * 60 + minute {
      DivUnique(t, 1440, day, hour * 60 + minute);
      DivUnique(hour * 60 + minute, 60, hour, minute);
      DivUnique(t, 60, day * 24 + hour, minute);
    } else if Day(t) == day && Hour(t) == hour {
      DivMod(t, 1440);
      DivMod(t % 1440, 60);
      DivUnique(t, 60, day * 24 + hour, t % 1440 % 60);
    }
  }
}
