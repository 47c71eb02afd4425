/** Two statements of the cron package's comments, each with the condition under which the code meets it:
    the day rule, and the claim that only impossible schedules reach the search horizon. */
module CronHorizon {
  import opened Wrappers
  import opened Text
  import opened Calendar
  import opened CronParse
  import opened CronNext

  // ---- The day rule ----

  /** A field that is nothing but wildcards without a step. */
  ghost predicate Bare(field: string)
  {
    forall part | part in SplitOn(field, ',') :: part == "*"
  }

  /** The comments' rule: a field is unrestricted only when it is bare, and a stepped wildcard still counts
      as restricted. Two restricted fields may match either way, one alone must match. */
  predicate CommentedDayRule(s: Schedule, bareDom: bool, bareDow: bool, dom: int, dow: int)
    requires ValidTables(s) && 1 <= dom <= 31 && 0 <= dow <= 6
  {
    if bareDom && bareDow then true
    else if bareDom then s.dow[dow]
    else if bareDow then s.dom[dom]
    else s.dom[dom] || s.dow[dow]
  }

  predicate Full(table: seq<bool>, lo: int, hi: int)
    requires 0 <= lo <= hi < |table|
  {
    forall v | lo <= v <= hi :: table[v]
  }

  /** When the code's star flags give the comments' rule: they mean bareness, or the fields that they
      judge differently leave out no day that matters. */
  predicate StarsHarmless(s: Schedule, bareDom: bool, bareDow: bool)
    requires ValidTables(s)
  {
    if s.domStar == bareDom && s.dowStar == bareDow then true
    else if s.domStar && s.dowStar then
      (bareDom || bareDow || Full(s.dom, 1, 31) || Full(s.dow, 0, 6)) &&
      (bareDom ==> Full(s.dow, 0, 6)) && (bareDow ==> Full(s.dom, 1, 31))
    else if s.domStar then Full(s.dow, 0, 6)
    else Full(s.dom, 1, 31)
  }

  ghost predicate SameDays(s: Schedule, bareDom: bool, bareDow: bool)
    requires ValidTables(s)
  {
    forall dom, dow | 1 <= dom <= 31 && 0 <= dow <= 6 ::
      DayRule(s, dom, dow) == CommentedDayRule(s, bareDom, bareDow, dom, dow)
  }

  lemma DayRuleByFlags(s: Schedule, bareDom: bool, bareDow: bool)
    requires WellFormed(s)
    requires bareDom ==> s.domStar && Full(s.dom, 1, 31)
    requires bareDow ==> s.dowStar && Full(s.dow, 0, 6)
    ensures SameDays(s, bareDom, bareDow) <==> StarsHarmless(s, bareDom, bareDow)
  {
    var d :| 0 <= d < TABLE_SIZE && s.dom[d];
    var w :| 0 <= w < TABLE_SIZE && s.dow[w];
    assert 1 <= d <= 31 && 0 <= w <= 6;
    if !StarsHarmless(s, bareDom, bareDow) {
      var a := Missing(s.dom, 1, 31, d);
      var b := Missing(s.dow, 0, 6, w);
      assert DayRule(s, a, b) != CommentedDayRule(s, bareDom, bareDow, a, b) ||
             DayRule(s, d, b) != CommentedDayRule(s, bareDom, bareDow, d, b) ||
             DayRule(s, a, w) != CommentedDayRule(s, bareDom, bareDow, a, w);
    }
  }

  /** A value that the table leaves out, or the given one. */
  lemma Missing(table: seq<bool>, lo: int, hi: int, v: int) returns (r: int)
    requires 0 <= lo <= v <= hi < |table|
    ensures lo <= r <= hi && (Full(table, lo, hi) || !table[r])
  {
    r := v;
    if !Full(table, lo, hi) {
      r :| lo <= r <= hi && !table[r];
    }
  }

  lemma BareIsFullStar(field: string, lo: int, hi: int, table: seq<bool>, star: bool)
    requires 0 <= lo <= hi < TABLE_SIZE && Bare(field) && Union(Terms(field, lo, hi), table, star)
    ensures star && Full(table, lo, hi)
  {
    WildcardTerm(lo, hi);
    hide ParseTerm, SplitOn;
    var ts, parts := Terms(field, lo, hi), SplitOn(field, ',');
    forall i | 0 <= i < |ts|
      ensures ts[i] == Range(lo, hi, 1, true)
    {
      assert parts[i] in parts;
    }
    assert ts[0] in ts;
    forall v | lo <= v <= hi
      ensures table[v]
    {
      assert InTerm(ts[0], v);
    }
  }

  lemma WildcardTerm(lo: int, hi: int)
    requires lo <= hi
    ensures ParseTerm("*", lo, hi) == Range(lo, hi, 1, true)
  {
  }

  /** For a parsed expression the code follows the comments' rule on every day exactly when its stars are
      harmless. */
  lemma DayRuleAsCommented(expr: string, s: Schedule)
    requires ParsesTo(expr, Parsed(s))
    ensures WellFormed(s)
    ensures SameDays(s, Bare(Fields(expr)[2]), Bare(Fields(expr)[4])) <==>
              StarsHarmless(s, Bare(Fields(expr)[2]), Bare(Fields(expr)[4]))
  {
    ParsedIsWellFormed(expr, s);
    hide Terms, Union, AllStar, Bare, SameDays, StarsHarmless, Full, WellFormed;
    var f := Fields(expr);
    if Bare(f[2]) {
      BareIsFullStar(f[2], 1, 31, s.dom, s.domStar);
    }
    if Bare(f[4]) {
      BareIsFullStar(f[4], 0, 6, s.dow, s.dowStar);
    }
    DayRuleByFlags(s, Bare(f[2]), Bare(f[4]));
  }

  /** A stepped wildcard counts as a star although it leaves out half the days. */
  lemma SteppedWildcardIsStar()
    ensures Terms("*/2", 1, 31) == [Range(1, 31, 2, true)]
    ensures !InTerm(Range(1, 31, 2, true), 2)
  {
  }

  /** For a stepped wildcard and Mondays the comments' rule fires on a Tuesday the 3rd, and the code does not. */
  lemma SteppedWildcardDiffers(expr: string, s: Schedule)
    requires ParsesTo(expr, Parsed(s)) && Fields(expr)[2] == "*/2" && Fields(expr)[4] == "1"
    ensures !Bare(Fields(expr)[2]) && !Bare(Fields(expr)[4]) && ValidTables(s)
    ensures CommentedDayRule(s, false, false, 3, 2) && !DayRule(s, 3, 2)
  {
    SteppedWildcardIsStar();
    MondayTerm();
    NotBare();
    hide Fields, ParseTerm, Terms, Bare;
    OneTermUnion(Terms("*/2", 1, 31), Range(1, 31, 2, true), s.dom, s.domStar);
    OneTermUnion(Terms("1", 0, 6), Range(1, 1, 1, false), s.dow, s.dowStar);
    assert InTerm(Range(1, 31, 2, true), 3) && !InTerm(Range(1, 1, 1, false), 2);
  }

  lemma OneTermUnion(ts: seq<Term>, t: Term, table: seq<bool>, star: bool)
    requires ts == [t] && Union(ts, table, star) && t.Range?
    ensures |table| == TABLE_SIZE && star == t.star && forall v | 0 <= v < TABLE_SIZE :: table[v] == InTerm(t, v)
  {
    assert ts[0] in ts;
  }

  lemma NotBare()
    ensures !Bare("*/2") && !Bare("1")
  {
    SplitOnNothing("*/2", ',');
    SplitOnNothing("1", ',');
    assert "*/2" in SplitOn("*/2", ',') && |"*/2"| != |"*"|;
    assert "1" in SplitOn("1", ',') && "1"[0] != "*"[0];
  }

  lemma MondayTerm()
    ensures Terms("1", 0, 6) == [Range(1, 1, 1, false)]
  {
    OneIsRead();
    OneTerm("1", 0, 6);
    hide Atoi, Terms;
  }

  /** There is such an expression, and it parses. */
  lemma SteppedWildcardExample() returns (expr: string, s: Schedule)
    ensures ParsesTo(expr, Parsed(s)) && Fields(expr)[2] == "*/2" && Fields(expr)[4] == "1"
  {
    var words := ["*", "*", "*/2", "*", "1"];
    expr := JoinWith(words, ' ');
    hide Fields, JoinWith, Terms, ParseTerm;
    FieldsOfJoin(words);
    SteppedWildcardIsStar();
    MondayTerm();
    forall i: nat | i < 5 && words[i] == "*"
      ensures CleanField(words, i)
    {
      WildcardTerm(LowOf(i), HighOf(i));
      OneTerm("*", LowOf(i), HighOf(i));
    }
    assert CleanField(words, 2) && CleanField(words, 4);
    s := CleanParses(expr);
  }

  // ---- The horizon ----

  ghost predicate Impossible(s: Schedule)
    requires ValidTables(s)
  {
    forall t :: !Matches(s, t)
  }

  /** Some allowed month offers an allowed day in every year. */
  ghost predicate FiresEveryYear(s: Schedule)
    requires ValidTables(s)
  {
    exists m :: 1 <= m <= 12 && s.mon[m] && YearlyDay(s, m)
  }

  ghost predicate YearlyDay(s: Schedule, m: int)
    requires ValidTables(s) && 1 <= m <= 12
  {
    s.domStar || !s.dowStar || exists d :: 1 <= d <= CommonLength(m) && s.dom[d]
  }

  /** Only 29 February is left. */
  ghost predicate LeapDayOnly(s: Schedule)
    requires ValidTables(s)
  {
    !FiresEveryYear(s) && s.mon[2] && s.dom[29]
  }

  /** The first seven days of a month cover every weekday. */
  lemma WeekdayInFirstWeek(first: int, w: int) returns (d: int)
    requires 0 <= w <= 6
    ensures 1 <= d <= 7 && Weekday(first + d - 1) == w
  {
    d := (w - Weekday(first)) % 7 + 1;
  }

  /** A schedule that fires every year has a matching date in each year. */
  lemma DateInYear(s: Schedule, y: int) returns (d: Date)
    requires WellFormed(s) && FiresEveryYear(s)
    ensures Valid(d) && d.year == y && s.mon[d.month] && DayRule(s, d.day, Weekday(DayNumber(d)))
  {
    var m :| 1 <= m <= 12 && s.mon[m] && YearlyDay(s, m);
    if s.domStar || !s.dowStar {
      var w :| 0 <= w < TABLE_SIZE && s.dow[w];
      var day := WeekdayInFirstWeek(DayNumber(Date(y, m, 1)), w);
      d := Date(y, m, day);
      assert DayNumber(d) == DayNumber(Date(y, m, 1)) + day - 1;
    } else {
      var day :| 1 <= day <= CommonLength(m) && s.dom[day];
      d := Date(y, m, day);
    }
  }

  /** A matching date gives a matching minute on that day. */
  lemma MinuteOnDate(s: Schedule, d: Date) returns (t: int)
    requires WellFormed(s) && Valid(d)
    requires s.mon[d.month] && DayRule(s, d.day, Weekday(DayNumber(d)))
    ensures Matches(s, t) && Day(t) == DayNumber(d)
  {
    hide DateOf, DayNumber, TimeDate, DayRule, Weekday, Hour, Minute;
    var h :| 0 <= h < TABLE_SIZE && s.hour[h];
    var mi :| 0 <= mi < TABLE_SIZE && s.minute[mi];
    t := DayNumber(d) * 1440 + h * 60 + mi;
    ClockOfMinutes(DayNumber(d), h, mi, t);
    DateOfDayNumber(d);
  }

  /** All of year y+1 lies within the horizon of any start in year y. */
  lemma NextYearInHorizon(after: int, y: int, t: int)
    requires y == DateOf(Day(after / NANOS_PER_MINUTE)).year
    requires DateOf(Day(t)).year == y + 1
    ensures after < t * NANOS_PER_MINUTE && BeforeLimit(t, after)
  {
    hide DateOf, DaysBeforeYear, DayNumber;
    var m := after / NANOS_PER_MINUTE;
    WithinYear(DateOf(Day(m)));
    WithinYear(DateOf(Day(t)));
    NextYear(y);
    assert 0 < Day(t) - Day(m) < 732;
    assert m < t < m + 732 * 1440;
  }

  /** A schedule with a yearly date never reaches the horizon. */
  lemma YearlyNeverExhausts(s: Schedule, after: int)
    requires WellFormed(s) && FiresEveryYear(s)
    ensures NextFire(s, after).Some?
  {
    hide Matches, DayRule, DateOf, FiresEveryYear, DayNumber, BeforeLimit, NextFire;
    var y := DateOf(Day(after / NANOS_PER_MINUTE)).year;
    var d := DateInYear(s, y + 1);
    var t := MinuteOnDate(s, d);
    DateOfDayNumber(d);
    NextYearInHorizon(after, y, t);
    NextFireIsEarliest(s, after, t);
  }

  /** Without a yearly date every match falls on 29 February. */
  lemma OtherwiseLeapDay(s: Schedule, t: int)
    requires WellFormed(s) && !FiresEveryYear(s) && Matches(s, t)
    ensures DateOf(Day(t)).month == 2 && DateOf(Day(t)).day == 29 && s.dowStar && !s.domStar && s.dom[29]
  {
    hide DateOf, Hour, Minute, Weekday;
    var d := DateOf(Day(t));
    assert !YearlyDay(s, d.month);
  }

  /** Midnight of 1 March 2096, in nanoseconds. */
  function AfterLeapDay(): int
  {
    DayNumber(Date(2096, 3, 1)) * 1440 * NANOS_PER_MINUTE
  }

  /** Between the leap days of 2096 and 2104 a schedule bound to 29 February exhausts the horizon. */
  lemma LeapDayExhausts(s: Schedule)
    requires WellFormed(s) && LeapDayOnly(s)
    ensures NextFire(s, AfterLeapDay()) == None
  {
    hide Matches, NextFire, FiresEveryYear, DateOf, DayNumber;
    forall t | AfterLeapDay() < t * NANOS_PER_MINUTE && BeforeLimit(t, AfterLeapDay())
      ensures !Matches(s, t)
    {
      if Matches(s, t) {
        NoLeapDayInWindow(t);
        OtherwiseLeapDay(s, t);
      }
    }
    NextFireIsEarliest(s, AfterLeapDay(), 0);
  }

  lemma LeapDayFires(s: Schedule)
    requires WellFormed(s) && LeapDayOnly(s)
    ensures !Impossible(s)
  {
    hide Matches, DateOf, DayNumber;
    LeapDayStars(s);
    var t := MinuteOnDate(s, Date(2096, 2, 29));
  }

  lemma LeapDayStars(s: Schedule)
    requires WellFormed(s) && LeapDayOnly(s)
    ensures s.dowStar && !s.domStar
  {
  }

  lemma NoLeapDayInWindow(t: int)
    requires DayNumber(Date(2096, 3, 1)) * 1440 <= t
    requires t < DayNumber(Date(2096, 3, 1)) * 1440 + HORIZON_MINUTES
    ensures !(DateOf(Day(t)).month == 2 && DateOf(Day(t)).day == 29)
  {
    hide DateOf;
    var d := DateOf(Day(t));
    var a, b := Date(2096, 3, 1), Date(2104, 2, 29);
    if d.month == 2 && d.day == 29 {
      if d.year <= 2096 {
        DayNumberIncreases(d, a);
      } else if d != b {
        DayNumberIncreases(b, d);
      }
    }
  }

  /** "Only impossible schedules hit the horizon" holds exactly when the schedule is not bound to 29 February. */
  lemma HorizonMeansImpossible(s: Schedule)
    requires WellFormed(s)
    ensures (forall after :: NextFire(s, after) == None ==> Impossible(s)) <==> !LeapDayOnly(s)
  {
    hide Matches, NextFire;
    if LeapDayOnly(s) {
      LeapDayExhausts(s);
      LeapDayFires(s);
    } else if FiresEveryYear(s) {
      forall after
        ensures NextFire(s, after) != None
      {
        YearlyNeverExhausts(s, after);
      }
    } else {
      forall t
        ensures !Matches(s, t)
      {
        if Matches(s, t) {
          LeapMonth(s, t);
          OtherwiseLeapDay(s, t);
        }
      }
    }
  }

  predicate IsLeapDay(t: int)
  {
    DateOf(Day(t)).month == 2 && DateOf(Day(t)).day == 29
  }

  /** One call reports no fire time although there is one exactly when the schedule is bound to 29 February
      and no minute of a 29 February at an allowed time of day lies before the horizon. */
  lemma ExhaustsExactly(s: Schedule, after: int)
    requires WellFormed(s)
    ensures NextFire(s, after) == None && !Impossible(s) <==>
            LeapDayOnly(s) && forall t | after < t * NANOS_PER_MINUTE && BeforeLimit(t, after) ::
                                !(IsLeapDay(t) && s.hour[Hour(t)] && s.minute[Minute(t)])
  {
    hide Matches, NextFire, LeapDayOnly, IsLeapDay, Hour, Minute, BeforeLimit;
    NextFireIsEarliest(s, after, 0);
    if LeapDayOnly(s) {
      LeapDayFires(s);
      forall t
        ensures Matches(s, t) <==> IsLeapDay(t) && s.hour[Hour(t)] && s.minute[Minute(t)]
      {
        LeapDayMatches(s, t);
      }
    } else {
      HorizonMeansImpossible(s);
    }
  }

  lemma LeapDayMatches(s: Schedule, t: int)
    requires WellFormed(s) && LeapDayOnly(s)
    ensures Matches(s, t) <==> IsLeapDay(t) && s.hour[Hour(t)] && s.minute[Minute(t)]
  {
    hide DateOf, Hour, Minute, Weekday, FiresEveryYear;
    LeapDayStars(s);
    if Matches(s, t) {
      OtherwiseLeapDay(s, t);
    }
  }

  lemma LeapMonth(s: Schedule, t: int)
    requires WellFormed(s) && Matches(s, t)
    ensures s.mon[DateOf(Day(t)).month]
  {
  }
}
