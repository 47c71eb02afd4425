/** The next fire time of a cron schedule: the jumping search against the minute scan. */
module CronNext {
  import opened Wrappers
  import opened Calendar
  import opened CronParse

  const NANOS_PER_MINUTE: int := 60_000_000_000

  /** 5 * 365 * 24 hours, in minutes. */
  const HORIZON_MINUTES: int := 5 * 365 * 24 * 60

  predicate ValidTables(s: Schedule)
  {
    |s.minute| == |s.hour| == |s.dom| == |s.mon| == |s.dow| == TABLE_SIZE
  }

  /** The day rule on a day of month and a weekday. */
  predicate DayRule(s: Schedule, dom: int, dow: int)
    requires ValidTables(s) && 1 <= dom <= 31 && 0 <= dow <= 6
  {
    if s.domStar && s.dowStar then true
    else if s.domStar then s.dow[dow]
    else if s.dowStar then s.dom[dom]
    else s.dom[dom] || s.dow[dow]
  }

  predicate DayMatches(s: Schedule, t: int)
    requires ValidTables(s)
  {
    DayRule(s, DateOf(Day(t)).day, Weekday(Day(t)))
  }

  predicate MonthMatches(s: Schedule, t: int)
    requires ValidTables(s)
  {
    s.mon[DateOf(Day(t)).month]
  }

  /** A minute fires when all of its fields match. */
  predicate Matches(s: Schedule, t: int)
    requires ValidTables(s)
  {
    MonthMatches(s, t) && DayMatches(s, t) && s.hour[Hour(t)] && s.minute[Minute(t)]
  }

  /** The minute-by-minute scan of [t, limit). */
  function Scan(fires: int -> bool, t: int, limit: int): (r: Option<int>)
    ensures r.Some? ==> t <= r.value < limit && fires(r.value)
    ensures r.Some? ==> forall u | t <= u < r.value :: !fires(u)
    ensures r.None? ==> forall u | t <= u < limit :: !fires(u)
    decreases limit - t
  {
    if t >= limit then None
    else if fires(t) then Some(t)
    else Scan(fires, t + 1, limit)
  }

  /** Skipping minutes that do not fire changes nothing. */
  lemma {:induction false} ScanSkips(fires: int -> bool, t: int, t': int, limit: int)
    requires t <= t'
    requires forall u | t <= u < t' :: !fires(u)
    ensures Scan(fires, t, limit) == Scan(fires, t', limit)
    decreases t' - t
  {
  }

  function Firing(s: Schedule): int -> bool
    requires ValidTables(s)
  {
    t => Matches(s, t)
  }

  /** Go's t.Before(after.Add(maxHorizon)) for the start of minute t; after is in nanoseconds. */
  predicate BeforeLimit(t: int, after: int)
  {
    t * NANOS_PER_MINUTE < after + HORIZON_MINUTES * NANOS_PER_MINUTE
  }

  /** The first minute that is not before the horizon. */
  function LimitMinute(after: int): (limit: int)
    ensures forall t :: BeforeLimit(t, after) <==> t < limit
  {
    HORIZON_MINUTES + (after + NANOS_PER_MINUTE - 1) / NANOS_PER_MINUTE
  }

  /** The search's answer: the scan from the minute after `after` up to the horizon. */
  function NextFire(s: Schedule, after: int): Option<int>
    requires ValidTables(s)
  {
    Scan(Firing(s), after / NANOS_PER_MINUTE + 1, LimitMinute(after))
  }

  /** First minute of the month after t's month. */
  function NextMonthStart(t: int): int
  {
    var d := DateOf(Day(t));
    AddDate(TimeDate(d.year, d.month, 1, 0, 0), 0, 1, 0)
  }

  function NextDayStart(t: int): int
  {
    var d := DateOf(Day(t));
    AddDate(TimeDate(d.year, d.month, d.day, 0, 0), 0, 0, 1)
  }

  function NextHourStart(t: int): int
  {
    var d := DateOf(Day(t));
    TimeDate(d.year, d.month, d.day, Hour(t), 0) + 60
  }

  /** TimeDate carries month 13 into January. */
  lemma NextMonthDay(d: Date)
    requires Valid(d)
    ensures TimeDate(d.year, d.month + 1, 1, 0, 0)
         == (DayNumber(Date(d.year, d.month, 1)) + MonthLength(d.year, d.month)) * 1440
  {
    if d.month == 12 {
      NextYear(d.year);
      YearEnds(d.year);
    } else {
      assert d.month / 12 == 0 && d.month % 12 == d.month;
    }
  }

  lemma NextMonthStartIs(t: int)
    ensures var d := DateOf(Day(t));
      NextMonthStart(t) == (DayNumber(Date(d.year, d.month, 1)) + MonthLength(d.year, d.month)) * 1440
  {
    hide DateOf, TimeDate, DayNumber, MonthLength;
    var d := DateOf(Day(t));
    FieldsOfTimeDate(Date(d.year, d.month, 1), 0, 0);
    NextMonthDay(d);
  }

  /** Days of one month share its month number. */
  lemma SameMonth(d: Date, n: int)
    requires Valid(d)
    requires DayNumber(d) <= n < DayNumber(Date(d.year, d.month, 1)) + MonthLength(d.year, d.month)
    ensures DateOf(n).month == d.month
  {
    hide DateOf, MonthLength, DaysBeforeYear, DaysBeforeMonth;
    DateOfDayNumber(Date(d.year, d.month, n - DayNumber(Date(d.year, d.month, 1)) + 1));
  }

  lemma DaysInOrder(t: int, u: int, next: int)
    requires t <= u < next * 1440
    ensures Day(t) <= Day(u) < next
  {
  }

  /** Jumping to the next month passes only minutes of t's own month. */
  lemma MonthJump(t: int)
    ensures t < NextMonthStart(t)
    ensures forall u | t <= u < NextMonthStart(t) :: DateOf(Day(u)).month == DateOf(Day(t)).month
  {
    var d := DateOf(Day(t));
    var next := DayNumber(Date(d.year, d.month, 1)) + MonthLength(d.year, d.month);
    NextMonthStartIs(t);
    assert Day(t) < next;
    forall u | t <= u < next * 1440
      ensures DateOf(Day(u)).month == d.month
    {
      DaysInOrder(t, u, next);
      SameMonth(d, Day(u));
    }
  }

  lemma DayJump(t: int)
    ensures NextDayStart(t) == (Day(t) + 1) * 1440
    ensures t < NextDayStart(t)
    ensures forall u | t <= u < NextDayStart(t) :: Day(u) == Day(t)
  {
    hide DateOf, DayNumber;
    var d := DateOf(Day(t));
    FieldsOfTimeDate(d, 0, 0);
    NextDayOf(d);
    assert NextDayStart(t) == (Day(t) + 1) * 1440;
    forall u | t <= u < NextDayStart(t)
      ensures Day(u) == Day(t)
    {
      DaysInOrder(t, u, Day(t) + 1);
    }
  }

  lemma NextDayOf(d: Date)
    requires Valid(d)
    ensures TimeDate(d.year, d.month, d.day + 1, 0, 0) == (DayNumber(d) + 1) * 1440
  {
    assert (d.month - 1) / 12 == 0 && (d.month - 1) % 12 == d.month - 1;
  }

  lemma HourJump(t: int)
    ensures t < NextHourStart(t)
    ensures forall u | t <= u < NextHourStart(t) :: Day(u) == Day(t) && Hour(u) == Hour(t)
  {
    hide DateOf, TimeDate;
    var d := DateOf(Day(t));
    TimeDateOfValid(d, Hour(t), 0);
    assert Day(t) * 1440 + Hour(t) * 60 + Minute(t) == t by { ClockOfMinutes(Day(t), Hour(t), Minute(t), t); }
    assert NextHourStart(t) == t - Minute(t) + 60;
    forall u | t <= u < NextHourStart(t)
      ensures Day(u) == Day(t) && Hour(u) == Hour(t)
    {
      ClockOfMinutes(Day(t), Hour(t), Minute(t) + (u - t), u);
    }
  }

  lemma SkipMonth(s: Schedule, t: int, limit: int)
    requires ValidTables(s) && !MonthMatches(s, t)
    ensures t < NextMonthStart(t)
    ensures Scan(Firing(s), t, limit) == Scan(Firing(s), NextMonthStart(t), limit)
  {
    hide DateOf, NextMonthStart, Hour, Minute, DayMatches;
    MonthJump(t);
    ScanSkips(Firing(s), t, NextMonthStart(t), limit);
  }

  lemma SkipDay(s: Schedule, t: int, limit: int)
    requires ValidTables(s) && !DayMatches(s, t)
    ensures t < NextDayStart(t)
    ensures Scan(Firing(s), t, limit) == Scan(Firing(s), NextDayStart(t), limit)
  {
    hide DateOf, NextDayStart, Hour, Minute, MonthMatches;
    DayJump(t);
    ScanSkips(Firing(s), t, NextDayStart(t), limit);
  }

  lemma SkipHour(s: Schedule, t: int, limit: int)
    requires ValidTables(s) && !s.hour[Hour(t)]
    ensures t < NextHourStart(t)
    ensures Scan(Firing(s), t, limit) == Scan(Firing(s), NextHourStart(t), limit)
  {
    hide DateOf, NextHourStart, Hour, Minute, MonthMatches, DayMatches;
    HourJump(t);
    ScanSkips(Firing(s), t, NextHourStart(t), limit);
  }

  lemma SkipMinute(s: Schedule, t: int, limit: int)
    requires ValidTables(s) && !s.minute[Minute(t)]
    ensures Scan(Firing(s), t, limit) == Scan(Firing(s), t + 1, limit)
  {
  }

  lemma FiresHere(s: Schedule, t: int, limit: int)
    requires ValidTables(s) && t < limit
    requires MonthMatches(s, t) && DayMatches(s, t) && s.hour[Hour(t)] && s.minute[Minute(t)]
    ensures Scan(Firing(s), t, limit) == Some(t)
  {
    hide MonthMatches, DayMatches, Hour, Minute;
  }

  lemma ScanPastEnd(fires: int -> bool, t: int, limit: int)
    requires limit <= t
    ensures Scan(fires, t, limit) == None
  {
  }

  /** Next: jumps over months, days and hours that cannot match; None stands for the zero time. */
  method Next(s: Schedule, after: int) returns (r: Option<int>)
    requires ValidTables(s)
    ensures r == NextFire(s, after)
  {
    hide MonthMatches, DayMatches, NextMonthStart, NextDayStart, NextHourStart, Firing, Hour, Minute;
    hide LimitMinute, BeforeLimit, NextMinute, Scan, NextFire;
    var t := NextMinute(after);
    NextFireStarts(s, after);
    while BeforeLimit(t, after)
      invariant Scan(Firing(s), t, LimitMinute(after)) == NextFire(s, after)
      decreases LimitMinute(after) - t
    {
      if !MonthMatches(s, t) {
        SkipMonth(s, t, LimitMinute(after));
        t := NextMonthStart(t);
        continue;
      }
      if !DayMatches(s, t) {
        SkipDay(s, t, LimitMinute(after));
        t := NextDayStart(t);
        continue;
      }
      if !s.hour[Hour(t)] {
        SkipHour(s, t, LimitMinute(after));
        t := NextHourStart(t);
        continue;
      }
      if !s.minute[Minute(t)] {
        SkipMinute(s, t, LimitMinute(after));
        t := t + 1;
        continue;
      }
      FiresHere(s, t, LimitMinute(after));
      return Some(t);
    }
    ScanPastEnd(Firing(s), t, LimitMinute(after));
    return None;
  }

  lemma NextFireStarts(s: Schedule, after: int)
    requires ValidTables(s)
    ensures NextFire(s, after) == Scan(Firing(s), NextMinute(after), LimitMinute(after))
  {
  }

  /** The top of the minute after `after`, rebuilt from its calendar fields. */
  function NextMinute(after: int): (t: int)
    ensures t == after / NANOS_PER_MINUTE + 1
  {
    var m := after / NANOS_PER_MINUTE;
    var d := DateOf(Day(m));
    TimeDateOfFields(m);
    TimeDate(d.year, d.month, d.day, Hour(m), Minute(m)) + 1
  }

  /** The answer is the earliest matching minute strictly after the start and before the horizon. */
  lemma NextFireIsEarliest(s: Schedule, after: int, t: int)
    requires ValidTables(s)
    ensures NextFire(s, after) == Some(t) <==>
      && t * NANOS_PER_MINUTE > after
      && BeforeLimit(t, after)
      && Matches(s, t)
      && forall u | after < u * NANOS_PER_MINUTE && u < t :: !Matches(s, u)
    ensures NextFire(s, after) == None <==>
      forall u | after < u * NANOS_PER_MINUTE && BeforeLimit(u, after) :: !Matches(s, u)
  {
    hide Matches, Scan;
    var from, limit := after / NANOS_PER_MINUTE + 1, LimitMinute(after);
    assert forall u :: after < u * NANOS_PER_MINUTE <==> from <= u;
    ScanIsEarliest(Firing(s), from, limit, t);
    forall u
      ensures Firing(s)(u) == Matches(s, u)
    {
    }
  }

  lemma ScanIsEarliest(fires: int -> bool, from: int, limit: int, t: int)
    ensures Scan(fires, from, limit) == Some(t) <==>
      from <= t < limit && fires(t) && forall u | from <= u < t :: !fires(u)
    ensures Scan(fires, from, limit) == None <==> forall u | from <= u < limit :: !fires(u)
  {
  }
}
