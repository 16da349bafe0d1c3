/**
 ISO week dates as utils/date.h prints them (%G, %V) and as its parser puts a date back
 together from them. The reference is section 4.1.4 of ISO 8601:2004: weeks start on
 Monday, and a week belongs to the calendar year of its Thursday.
 */
module IsoWeek {
  import opened MachineInts
  import opened Civil
  import opened Weekdays

  /** The Monday that the code takes for the start of ISO year y: four days after the last Thursday of the year
      before. */
  function Start(y: short): int {
    LastToDays(LastWeekday(I16(y - 1), 12, THURSDAY)) + Diff(MONDAY, THURSDAY)
  }

  datatype WeekDate = WeekDate(year: int, week: int, weekday: uchar)

  /** %G, %V and the weekday of a date */
  function Print(d: Date): WeekDate {
    var ld := ToDays(d);
    var y := FromDays(I32(ld + 3)).year;
    var start := Start(y);
    var g := if ld < start then I16(y - 1) else y;
    var st := if ld < start then Start(I16(y - 1)) else start;
    WeekDate(g, Quot7(ld - st) + 1, WeekdayFromDays(ld))
  }

  /** duration_cast<weeks> truncates. */
  function Quot7(n: int): int { Quot(n, 7) }

  /** The day number that from_stream() computes from year, week and weekday. */
  function IsoToDays(g: int, v: int, wd: int): int {
    LastToDays(LastWeekday(I16(g - 1), 12, THURSDAY)) + Diff(MONDAY, THURSDAY) + 7 * (v - 1)
    + Diff(MakeWeekday(U32(wd)), MONDAY)
  }

  // ---------------------------------------------------------------------------
  // The ISO reference
  // ---------------------------------------------------------------------------

  /** The Thursday of the Monday-based week of a day. */
  function ThursdayOf(n: int): int {
    n - (n + 3) % 7 + 3
  }

  /** (g, v) names the week of day n. */
  ghost predicate IsWeekOf(n: int, g: int, v: int) {
    var th := ThursdayOf(n);
    InCalendar(th) && g == FromDays(th).year && v == (th - FirstOf(FromDays(th).year, 1)) / 7 + 1
  }

  /** The Monday of the first week of a year: its Thursday is one of the first seven days of January. */
  ghost predicate IsFirstMonday(s: int, y: short) {
    (s + 3) % 7 == 0 && FirstOf(y, 1) <= s + 3 <= FirstOf(y, 1) + 6
  }

  lemma NewYear(y: short)
    requires -32767 < y
    ensures LastOf(y - 1, 12) + 1 == FirstOf(y, 1)
  {
    hide ToDays;
    NextCounts(Date(y - 1, 12, 31));
  }

  lemma YearBeforeFirst()
    ensures LastOf(NOT_A_YEAR, 12) == FIRST_DAY - 1
  {
    assert ToDaysRun(Date(-32768, 12, 31)) == ToDaysLocals(-32768, -82, 32, 305, 11993, -12687429);
  }

  lemma StartIsFirstMonday(y: short)
    requires YearOk(y)
    ensures IsFirstMonday(Start(y), y)
  {
    hide ToDays, LastToDays;
    var w := LastWeekday(I16(y - 1), 12, THURSDAY);
    assert Diff(MONDAY, THURSDAY) == 4;
    assert Start(y) == LastToDays(w) + 4;
    ThursdayIsMultiple(LastToDays(w));
    if y == -32767 {
      YearBeforeFirst();
      EndsOfCalendar();
      assert LastToDays(w) == FIRST_DAY - 2 by { LastBeforeFirst(); }
    } else {
      LastIsLast(w);
      NewYear(y);
    }
  }

  lemma ThursdayIsMultiple(n: int)
    ensures FallsOn(n, THURSDAY) <==> n % 7 == 0
    ensures n % 7 == 0 <==> (n + 7) % 7 == 0
  {
  }

  lemma LastBeforeFirst()
    ensures LastToDays(LastWeekday(NOT_A_YEAR, 12, THURSDAY)) == FIRST_DAY - 2
  {
    hide ToDays;
    YearBeforeFirst();
    WeekdayIsMod7(FIRST_DAY - 1);
  }

  // ---------------------------------------------------------------------------
  // Printing
  // ---------------------------------------------------------------------------

  /** The only dates whose ISO year is not a year of the calendar. */
  predicate BeforeFirstWeek(d: Date) {
    d.year == -32767 && d.month == 1 && d.day <= 2
  }

  lemma FirstWeek()
    ensures Start(-32767) == FIRST_DAY + 2
    ensures FirstOf(-32767, 1) == FIRST_DAY
  {
    hide ToDays, LastToDays;
    LastBeforeFirst();
    EndsOfCalendar();
  }

  lemma BeforeFirstWeekByDay(d: Date)
    requires Ok(d)
    ensures BeforeFirstWeek(d) <==> ToDays(d) <= FIRST_DAY + 1
    ensures !BeforeFirstWeek(d) <==> FIRST_DAY <= ThursdayOf(ToDays(d))
  {
    hide ToDays;
    EndsOfCalendar();
    ToDaysBounds(d);
    ToDaysMonotone(d, Date(-32767, 1, 3));
    DayInMonth(-32767, 1, 3);
  }

  /** The last week of the calendar ends on its last day, a Sunday. */
  lemma LastWeek(n: int)
    requires InCalendar(n)
    ensures ThursdayOf(n) <= LAST_DAY
  {
  }

  /** Three days on, the code meets the ISO year or the year after it. */
  lemma YearNearThursday(n: int, th: int)
    requires InCalendar(n) && InCalendar(n + 3) && InCalendar(th) && th == ThursdayOf(n)
    ensures var y := FromDays(n + 3).year;
            var g := FromDays(th).year;
            && YearOk(y) && YearOk(g) && (g == y || g == y - 1)
            && (n < Start(y) <==> g == y - 1)
  {
    hide ToDays, FromDays, Start;
    var y := FromDays(n + 3).year;
    var g := FromDays(th).year;
    YearSpan(n + 3);
    YearSpan(th);
    StartIsFirstMonday(y);
    WeekGrid(n, th, Start(y));
    if g < y { YearsApart(g, y); }
    if y < g { YearsApart(y, g); }
  }

  /** A Monday is after a day exactly when it is after the Monday of that day's week. */
  lemma WeekGrid(n: int, th: int, s: int)
    requires th == ThursdayOf(n) && (s + 3) % 7 == 0
    ensures n < s <==> th < s + 3
    ensures n >= s ==> Quot7(n - s) == (th - (s + 3)) / 7
  {
    var k := (n + 3) / 7;
    var j := (s + 3) / 7;
    assert n + 3 == 7 * k + (n + 3) % 7 && th == 7 * k && s + 3 == 7 * j;
  }

  /** A day of the calendar lies between January 1st and December 31st of its year. */
  lemma YearSpan(n: int)
    requires InCalendar(n)
    ensures var y := FromDays(n).year; YearOk(y) && FirstOf(y, 1) <= n <= LastOf(y, 12) <= LAST_DAY
  {
    hide ToDays, FromDays;
    var d := FromDays(n);
    ToDaysOfFromDays(n);
    ToDaysMonotone(d, Date(d.year, 1, 1));
    ToDaysMonotone(Date(d.year, 12, 31), d);
    ToDaysBounds(Date(d.year, 12, 31));
  }

  /** Years are between 365 and 366 days apart. */
  lemma YearsApart(y: short, y': short)
    requires YearOk(y) && y < y'
    ensures LastOf(y, 12) < FirstOf(y', 1)
    ensures y < y' - 1 ==> LastOf(y, 12) + 365 < FirstOf(y', 1)
  {
    hide ToDays;
    ToDaysMonotone(Date(y, 12, 31), Date(y', 1, 1));
    if y < y' - 1 {
      YearLength(y + 1);
      ToDaysMonotone(Date(y, 12, 31), Date(y + 1, 1, 1));
      ToDaysMonotone(Date(y + 1, 12, 31), Date(y', 1, 1));
    }
  }

  lemma YearLength(y: short)
    requires YearOk(y)
    ensures LastOf(y, 12) == FirstOf(y, 1) + (if IsLeap(y) then 365 else 364)
  {
    hide ToDays;
    var era, yoe, doy := LocateDate(Date(y, 12, 31));
    var era', yoe', doy' := LocateDate(Date(y, 1, 1));
    YearSplits(era', yoe', era, yoe);
    YearTurns(era', yoe');
    LeapInEra(era', yoe' + 1);
  }

  /** Past the last day, the year wraps to the one that is not a year. */
  lemma YearAfterLast(n: int32)
    requires LAST_DAY < n <= LAST_DAY + 3
    ensures FromDays(n).year == NOT_A_YEAR
  {
    var k := n - LAST_DAY;
    assert FromDaysRun(n) == FromDaysLocals(11968205 + k, 81, 134348 + k, 367, 32767, 305 + k, 10, k, 1);
  }

  lemma YearPastLast(yoe: nat, doy: nat)
    requires yoe < 400 && doy <= 365 && 134348 < DayOfEra(yoe, doy) <= 135348
    ensures 367 <= yoe <= 370 && (yoe == 367 ==> doy >= 306)
  {
  }

  lemma YearPastFirst(yoe: nat, doy: nat)
    requires yoe < 400 && doy <= 365 && 10994 <= DayOfEra(yoe, doy) < 11994
    ensures 29 <= yoe <= 32 && (yoe == 32 ==> doy <= 305)
  {
  }

  /** January starts on day 306 of the March-based year. */
  lemma JanuaryAt(doy: nat)
    requires doy <= 365
    ensures (5 * doy + 2) / 153 >= 10 <==> doy >= 306
  {
  }

  lemma EarlyMonth(doy: nat, mp: int, m: int)
    requires doy <= 365 && mp == (5 * doy + 2) / 153 && 0 <= mp <= 11 && m == if mp < 10 then mp + 3 else mp - 9
    ensures m <= 2 <==> doy >= 306
  {
    JanuaryAt(doy);
  }

  lemma DayOfEraAdds(yoe: nat, doy: nat)
    ensures DayOfEra(yoe, doy) == DayOfEra(yoe, 0) + doy
  {
  }

  lemma YearOfRun(n: int32)
    requires ShiftFits(n)
    ensures var l := FromDaysRun(n);
            FromDays(n).year == I16(l.y + (if l.doy >= 306 then 1 else 0)) && l.y == l.yoe + 400 * l.era && l.doy <= 365
  {
    hide FromDaysRun, DayOfEra, YearOfEra, MonthStart, MarchDay, I16, U8;
    FromDaysLocalsExact(n);
    var l := FromDaysRun(n);
    EarlyMonth(l.doy, l.mp, l.m);
  }

  lemma DayOfRun(n: int32)
    requires ShiftFits(n)
    ensures var l := FromDaysRun(n);
            n + 719468 == 146097 * l.era + DayOfEra(l.yoe, l.doy) && 0 <= DayOfEra(l.yoe, l.doy) <= 146096
                && l.yoe < 400
  {
    FromDaysLocalsExact(n);
    var l := FromDaysRun(n);
    DayOfEraAdds(l.yoe, l.doy);
    hide FromDaysRun, DayOfEra, YearOfEra, MonthStart, MarchDay;
  }

  /** Era, year of the era and day of the year of a day number, and the year that from_days() gives */
  lemma YearParts(n: int32) returns (era: int, yoe: nat, doy: nat)
    requires ShiftFits(n)
    ensures yoe < 400 && doy <= 365 && n + 719468 == 146097 * era + DayOfEra(yoe, doy)
            && 0 <= DayOfEra(yoe, doy) <= 146096
    ensures FromDays(n).year == I16(400 * era + yoe + (if doy >= 306 then 1 else 0))
  {
    hide FromDays, FromDaysRun, DayOfEra, I16;
    YearOfRun(n);
    DayOfRun(n);
    var l := FromDaysRun(n);
    era, yoe, doy := l.era, l.yoe, l.doy;
  }

  /** Just outside the calendar the year that comes out is one of the far end, or none. */
  lemma YearOutside(n: int32)
    requires LAST_DAY < n <= LAST_DAY + 1000 || FIRST_DAY - 1000 <= n < FIRST_DAY
    ensures n > LAST_DAY ==> FromDays(n).year < 0
    ensures n < FIRST_DAY ==> FromDays(n).year == NOT_A_YEAR || FromDays(n).year > 0
  {
    hide FromDays, DayOfEra;
    var era, yoe, doy := YearParts(n);
    if n > LAST_DAY {
      SameEra(era, DayOfEra(yoe, doy), 81, n - LAST_DAY + 134348);
      YearPastLast(yoe, doy);
    } else {
      SameEra(era, DayOfEra(yoe, doy), -82, n - FIRST_DAY + 11994);
      YearPastFirst(yoe, doy);
    }
  }

  lemma StartAfterLast()
    ensures Start(NOT_A_YEAR) == LAST_DAY + 1
  {
    hide ToDays;
    EndsOfCalendar();
    WeekdayIsMod7(LAST_DAY);
    assert LastToDays(LastWeekday(32767, 12, THURSDAY)) == LAST_DAY - 3;
  }

  /** The year the code settles on is the year of the week's Thursday. */
  lemma PrintedYear(d: Date)
    requires Ok(d) && !BeforeFirstWeek(d)
    ensures var th := ThursdayOf(ToDays(d));
            InCalendar(th) && Print(d).year == FromDays(th).year
                && Print(d).week == Quot7(ToDays(d) - Start(FromDays(th).year)) + 1
  {
    hide ToDays, FromDays, Start;
    var n := ToDays(d);
    var th := ThursdayOf(n);
    ToDaysBounds(d);
    BeforeFirstWeekByDay(d);
    LastWeek(n);
    if n + 3 <= LAST_DAY {
      YearNearThursday(n, th);
    } else {
      YearAfterLast(n + 3);
      StartAfterLast();
      YearSpan(th);
      EndsOfCalendar();
      ThursdayOfLastWeek(n);
      LastYear(th);
    }
  }

  lemma ThursdayOfLastWeek(n: int)
    requires LAST_DAY - 3 < n <= LAST_DAY
    ensures ThursdayOf(n) == LAST_DAY - 3
  {
  }

  lemma LastYear(n: int)
    requires LAST_DAY - 30 <= n <= LAST_DAY
    ensures FromDays(n).year == 32767
  {
    hide ToDays, FromDays;
    EndsOfCalendar();
    DayInMonth(32767, 12, 31);
    MonthOfDay(n, 32767, 12);
  }

  /** Weeks counted from the first Monday and from the first Thursday agree. */
  lemma SameWeekNumber(th: int, first: int, s: int, last: int)
    requires th % 7 == 0 && (s + 3) % 7 == 0 && first <= s + 3 <= first + 6
    requires first <= th <= last <= first + 365
    ensures (th - (s + 3)) / 7 == (th - first) / 7
    ensures 0 <= (th - first) / 7 <= 52
  {
    var a, b := th / 7, (s + 3) / 7;
    assert th == 7 * a && s + 3 == 7 * b && a >= b;
  }

  /** %G and %V name the week of the date and its number lies in 1..53, except on the first two days of the calendar. */
  lemma PrintIsWeekDate(d: Date)
    requires Ok(d)
    ensures IsWeekOf(ToDays(d), Print(d).year, Print(d).week) <==> !BeforeFirstWeek(d)
    ensures 1 <= Print(d).week <= 53 <==> !BeforeFirstWeek(d)
    ensures Print(d).weekday == (ToDays(d) + 4) % 7
  {
    hide ToDays, FromDays, Start;
    var n := ToDays(d);
    WeekdayIsMod7(n);
    BeforeFirstWeekByDay(d);
    if BeforeFirstWeek(d) {
      BeforeFirstWeekPrints(d);
    } else {
      PrintedYear(d);
      var th := ThursdayOf(n);
      var g := FromDays(th).year;
      YearSpan(th);
      YearLength(g);
      StartIsFirstMonday(g);
      WeekGrid(n, th, Start(g));
      WeekNotBefore(n, th, Start(g));
      SameWeekNumber(th, FirstOf(g, 1), Start(g), LastOf(g, 12));
    }
  }

  lemma WeekNotBefore(n: int, th: int, s: int)
    requires th == ThursdayOf(n) && (s + 3) % 7 == 0 && th >= s - 3
    ensures n >= s && th % 7 == 0
  {
    var k := (n + 3) / 7;
    var j := (s + 3) / 7;
    assert n + 3 == 7 * k + (n + 3) % 7 && th == 7 * k && s + 3 == 7 * j;
  }

  /** On January 1st and 2nd of year -32767 the year before wraps to the end of the calendar. */
  lemma BeforeFirstWeekPrints(d: Date)
    requires Ok(d) && BeforeFirstWeek(d)
    ensures Print(d).year == NOT_A_YEAR && Print(d).week < -3_000_000
  {
    hide ToDays, FromDays, Start;
    var n := ToDays(d);
    EndsOfCalendar();
    BeforeFirstWeekByDay(d);
    ToDaysBounds(d);
    FirstWeek();
    StartAfterLast();
    DayInMonth(-32767, 1, 31);
    MonthOfDay(n + 3, -32767, 1);
  }

  // ---------------------------------------------------------------------------
  // Parsing
  // ---------------------------------------------------------------------------

  lemma WeekdayFromMonday(n: int, s: int)
    requires (s + 3) % 7 == 0 && n >= s
    ensures n == s + 7 * Quot7(n - s) + ((n + 4) % 7 - 1) % 7
  {
    var k, r := (n + 3) / 7, (n + 3) % 7;
    assert n + 3 == 7 * k + r && s + 3 == 7 * ((s + 3) / 7);
    assert (n + 4) % 7 == (r + 1) % 7;
  }

  /** The day number put together from a printed week date is the date's own. */
  lemma IsoToDaysOfPrint(d: Date)
    requires Ok(d) && !BeforeFirstWeek(d)
    ensures var p := Print(d); IsoToDays(p.year, p.week, p.weekday) == ToDays(d)
  {
    hide ToDays, FromDays, LastToDays, Print;
    var n := ToDays(d);
    var p := Print(d);
    PrintedYear(d);
    PrintIsWeekDate(d);
    YearSpan(ThursdayOf(n));
    var s := Start(p.year);
    StartIsFirstMonday(p.year);
    WeekNotBefore(n, ThursdayOf(n), s);
    WeekdayFromMonday(n, s);
    DiffIsMod7(p.weekday, MONDAY);
  }

  lemma DayInYear(n: int, y: short)
    requires YearOk(y) && FirstOf(y, 1) <= n <= LastOf(y, 12)
    ensures InCalendar(n) && FromDays(n).year == y
  {
    hide ToDays, FromDays;
    ToDaysBounds(Date(y, 1, 1));
    ToDaysBounds(Date(y, 12, 31));
    YearSpan(n);
    var g := FromDays(n).year;
    if g < y { YearsApart(g, y); }
    if y < g { YearsApart(y, g); }
  }

  /** A year has a 53rd week when it starts or ends on a Thursday. */
  predicate HasWeek53(y: short) {
    FallsOn(FirstOf(y, 1), THURSDAY) || FallsOn(LastOf(y, 12), THURSDAY)
  }

  lemma Week53(first: int, s: int, leap: bool)
    requires (s + 3) % 7 == 0 && first <= s + 3 <= first + 6
    ensures var last := first + (if leap then 365 else 364);
            && s + 3 + 51 * 7 <= last < s + 3 + 53 * 7
            && (s + 3 + 52 * 7 <= last <==> FallsOn(first, THURSDAY) || FallsOn(last, THURSDAY))
  {
    ThursdayIsMultiple(first);
    SevenApart(first, s + 3);
    if leap {
      ThursdayIsMultiple(first + 365);
      SevenApart(first + 1, s + 3);
    } else {
      ThursdayIsMultiple(first + 364);
    }
  }

  lemma SevenApart(a: int, b: int)
    requires b % 7 == 0 && a - 1 <= b <= a + 6
    ensures a % 7 == 0 <==> a == b || b == a - 7
    ensures (a + 364) % 7 == a % 7
  {
  }

  /** Reading back a week date (g, v, wd) and printing it again gives (g, v, wd) exactly when year g has week v. */
  lemma PrintOfIsoToDays(g: short, v: int, wd: uchar)
    requires YearOk(g) && WeekdayOk(wd) && InCalendar(IsoToDays(g, v, wd))
    ensures Print(FromDays(IsoToDays(g, v, wd))) == WeekDate(g, v, wd)
            <==> 1 <= v <= (if HasWeek53(g) then 53 else 52)
  {
    hide ToDays, FromDays, LastToDays, Print, HasWeek53;
    var n := IsoToDays(g, v, wd);
    var d := FromDays(n);
    ToDaysOfFromDays(n);
    var s := Start(g);
    StartIsFirstMonday(g);
    YearLength(g);
    Week53(FirstOf(g, 1), s, IsLeap(g));
    var weeks := if HasWeek53(g) then 53 else 52;
    HasWeek53Means(g);
    DiffIsMod7(wd, MONDAY);
    var th := s + 3 + 7 * (v - 1);
    ThursdayOfWeek(n, s, v, wd);
    assert 1 <= v <= weeks <==> FirstOf(g, 1) <= th <= LastOf(g, 12) by {
      WeeksSpan(FirstOf(g, 1), LastOf(g, 12), s + 3, v, weeks);
    }
    if 1 <= v <= weeks {
      DayInYear(th, g);
      BeforeFirstWeekByDay(d);
      PrintedYear(d);
      PrintIsWeekDate(d);
    } else if Print(d).year == g {
      PrintIsWeekDate(d);
      if BeforeFirstWeek(d) {
        BeforeFirstWeekPrints(d);
      } else {
        YearSpan(th);
      }
    }
  }

  lemma HasWeek53Means(y: short)
    ensures HasWeek53(y) <==> FallsOn(FirstOf(y, 1), THURSDAY) || FallsOn(LastOf(y, 12), THURSDAY)
  {
  }

  lemma WeeksSpan(first: int, last: int, thursday: int, v: int, weeks: int)
    requires first <= thursday <= first + 6
    requires thursday + 7 * (weeks - 1) <= last < thursday + 7 * weeks
    ensures 1 <= v <= weeks <==> first <= thursday + 7 * (v - 1) <= last
  {
  }

  lemma ThursdayOfWeek(n: int, s: int, v: int, wd: uchar)
    requires WeekdayOk(wd) && (s + 3) % 7 == 0 && n == s + 7 * (v - 1) + (wd - 1) % 7
    ensures ThursdayOf(n) == s + 3 + 7 * (v - 1)
    ensures (n + 4) % 7 == wd
    ensures v >= 1 ==> Quot7(n - s) + 1 == v
  {
    var j, k := (s + 3) / 7, (wd - 1) % 7;
    assert n + 3 == 7 * (j + v - 1) + k && s + 3 == 7 * j;
    assert (n + 3) % 7 == k;
    assert (n + 4) % 7 == (k + 1) % 7;
  }
}
