/**
 The last part of from_stream() in utils/date.h: a date put together from the fields the
 conversion letters have read, each of which may be missing, with every redundant field
 checked against the date.
 */
module ParseFields {
  import opened MachineInts
  import opened Options
  import opened Civil
  import opened Weekdays
  import opened IsoWeek

  /** Year, month, day, ISO year and week, weeks from the first Sunday and Monday, day of the year, weekday. */
  datatype Fields = Fields(Y: int, m: int, d: int, G: int, V: int, U: int, W: int, j: int, wd: int)

  // the values that mean a field was not read
  const NO_YEAR := -0x8000
  const NO_MONTH := 0
  const NO_DAY := 0
  const NO_WEEK := 100
  const NO_DAY_OF_YEAR := -1
  const NO_WEEKDAY := 8

  const NOTHING := Fields(NO_YEAR, NO_MONTH, NO_DAY, NO_YEAR, NO_WEEK, NO_WEEK, NO_WEEK, NO_DAY_OF_YEAR, NO_WEEKDAY)

  /** Takes month and day from a trial date where they are missing, and fails where they differ. */
  function MergeMonthDay(f: Fields, trial: Date): Option<Fields> {
    if f.m != NO_MONTH && U8(f.m) != trial.month then None
    else if f.d != NO_DAY && U8(f.d) != trial.day then None
    else Some(f.(m := if f.m == NO_MONTH then trial.month else f.m, d := if f.d == NO_DAY then trial.day else f.d))
  }

  predicate HasIsoWeek(f: Fields) {
    f.G != NO_YEAR && f.V != NO_WEEK && f.wd != NO_WEEKDAY
  }

  function ByIsoWeek(f: Fields): Option<Fields> {
    if !HasIsoWeek(f) then Some(f)
    else
      var trial := FromDays(I32(IsoToDays(f.G, f.V, f.wd)));
      if f.Y != NO_YEAR && I16(f.Y) != trial.year then None
      else MergeMonthDay(f.(Y := if f.Y == NO_YEAR then trial.year else f.Y), trial)
  }

  /** Day number from a week counted from the first Sunday or Monday of the year. */
  function WeekToDays(y: int, start: nibble, week: int, wd: int): int {
    NthToDays(NthWeekday(I16(y), 1, start, 1)) + 7 * (week - 1) + Diff(MakeWeekday(U32(wd)), start)
  }

  predicate HasWeek(f: Fields, week: int) {
    f.Y != NO_YEAR && week != NO_WEEK && f.wd != NO_WEEKDAY
  }

  function ByWeek(f: Fields, start: nibble, week: int): Option<Fields> {
    if !HasWeek(f, week) then Some(f)
    else
      var trial := FromDays(I32(WeekToDays(f.Y, start, week, f.wd)));
      if I16(f.Y) != trial.year then None else MergeMonthDay(f, trial)
  }

  function ByDayOfYear(f: Fields): Option<Fields> {
    if f.j == NO_DAY_OF_YEAR || f.Y == NO_YEAR then Some(f)
    else MergeMonthDay(f, FromDays(I32(FirstOf(I16(f.Y), 1) + f.j - 1)))
  }

  /** The number the code prints for %U (start Sunday) and %W (start Monday) */
  function WeekOf(d: Date, start: nibble): int {
    var ld := ToDays(d);
    var st := NthToDays(NthWeekday(d.year, 1, start, 1));
    if ld < st then 0 else Quot7(ld - st) + 1
  }

  /** floor<weeks> of the parser */
  function WeekTrial(d: Date, start: nibble): int {
    (ToDays(d) - NthToDays(NthWeekday(d.year, 1, start, 1))) / 7 + 1
  }

  /** The checks of a complete date against the remaining fields. */
  predicate Consistent(f: Fields, d: Date, computed: bool) {
    && (f.wd == NO_WEEKDAY || f.wd == Diff(WeekdayFromDays(ToDays(d)), SUNDAY))
    && (f.G == NO_YEAR || computed || f.G == Print(d).year)
    && (f.V == NO_WEEK || computed || f.V == Print(d).week)
    && (f.U == NO_WEEK || computed || f.U == WeekTrial(d, SUNDAY))
    && (f.W == NO_WEEK || computed || f.W == WeekTrial(d, MONDAY))
  }

  /** A year that no date has counts as not read. */
  function Normal(f: Fields): Fields {
    if f.Y < -32767 || f.Y > 32767 then f.(Y := NO_YEAR) else f
  }

  /** The date and weekday that are stored; None where the code fails the stream. */
  function Resolve(f: Fields): Option<(Date, int)> {
    var f0 := Normal(f);
    var s1 := ByIsoWeek(f0);
    if s1.None? then None else
    var s2 := ByWeek(s1.value, SUNDAY, f.U);
    if s2.None? then None else
    var s3 := ByWeek(s2.value, MONDAY, f.W);
    if s3.None? then None else
    var s4 := ByDayOfYear(s3.value);
    if s4.None? then None else
    var r := s4.value;
    var computed := HasIsoWeek(f0) || HasWeek(s1.value, f.U) || HasWeek(s2.value, f.W);
    var d := Date(I16(r.Y), U8(r.m), U8(r.d));
    if !Ok(d) then Some((d, r.wd))
    else if Consistent(r, d, computed) then
      Some((d, if r.wd == NO_WEEKDAY then Diff(WeekdayFromDays(ToDays(d)), SUNDAY) else r.wd))
    else None
  }

  // ---------------------------------------------------------------------------
  // Any sufficient selection of a date's own fields gives the date back
  // ---------------------------------------------------------------------------

  /** All fields of a date, as to_stream() prints them. */
  function AllFields(d: Date): Fields {
    Fields(d.year, d.month, d.day, Print(d).year, Print(d).week, WeekOf(d, SUNDAY), WeekOf(d, MONDAY),
           ToDays(d) - FirstOf(d.year, 1) + 1, WeekdayFromDays(ToDays(d)))
  }

  predicate GivenOrMissing(value: int, own: int, missing: int) {
    value == own || value == missing
  }

  /** Every field that was read is the date's own. */
  ghost predicate Agrees(f: Fields, d: Date) {
    var a := AllFields(d);
    && GivenOrMissing(f.Y, a.Y, NO_YEAR) && GivenOrMissing(f.m, a.m, NO_MONTH) && GivenOrMissing(f.d, a.d, NO_DAY)
    && GivenOrMissing(f.G, a.G, NO_YEAR) && GivenOrMissing(f.V, a.V, NO_WEEK)
    && GivenOrMissing(f.U, a.U, NO_WEEK) && GivenOrMissing(f.W, a.W, NO_WEEK)
    && GivenOrMissing(f.j, a.j, NO_DAY_OF_YEAR) && GivenOrMissing(f.wd, a.wd, NO_WEEKDAY)
  }

  predicate HasDate(f: Fields) {
    f.Y != NO_YEAR && f.m != NO_MONTH && f.d != NO_DAY
  }

  /** The fields that were read determine a date. */
  predicate Sufficient(f: Fields) {
    HasDate(f) || HasIsoWeek(f) || HasWeek(f, f.U) || HasWeek(f, f.W) || (f.Y != NO_YEAR && f.j != NO_DAY_OF_YEAR)
  }

  lemma WeekSpan(n: int, st: int, first: int)
    requires first <= st <= first + 6 && first <= n
    ensures var week := if n < st then 0 else Quot7(n - st) + 1;
            && st + 7 * (week - 1) + (((n + 4) % 7 - (st + 4) % 7) % 7) == n
            && week == (n - st) / 7 + 1
  {
    var k, r := (n - st) / 7, (n - st) % 7;
    assert n - st == 7 * k + r;
    assert n < st ==> k == -1;
    ResidueOfDifference(n + 4, st + 4);
  }

  lemma ResidueOfDifference(a: int, b: int)
    ensures (a % 7 - b % 7) % 7 == (a - b) % 7
  {
    assert a - b == a % 7 - b % 7 + 7 * (a / 7 - b / 7);
  }

  /** %U and %W with the weekday lead back to the day, week 0 included. */
  lemma WeekRoundTrip(d: Date, start: nibble)
    requires Ok(d) && WeekdayOk(start)
    ensures WeekToDays(d.year, start, WeekOf(d, start), WeekdayFromDays(ToDays(d))) == ToDays(d)
    ensures WeekOf(d, start) == WeekTrial(d, start) && 0 <= WeekOf(d, start) <= 53
  {
    hide ToDays, FromDays, NthToDays;
    var n := ToDays(d);
    var w := NthWeekday(d.year, 1, start, 1);
    var st := NthToDays(w);
    NthOkExactlyWhenItExists(w);
    ToDaysBounds(d);
    FromDaysOfToDays(d);
    YearSpan(n);
    YearLength(d.year);
    WeekdayIsMod7(n);
    DiffIsMod7(WeekdayFromDays(n), start);
    WeekSpan(n, st, FirstOf(d.year, 1));
    assert WeekTrial(d, start) == WeekOf(d, start);
  }

  /** A trial date that is the date itself never fails, and fills month and day. */
  lemma MergeOwn(f: Fields, d: Date)
    requires Ok(d) && Agrees(f, d)
    ensures MergeMonthDay(f, d) == Some(f.(m := d.month, d := d.day))
    ensures Agrees(f.(m := d.month, d := d.day), d)
  {
    hide ToDays, FromDays, Print, WeekOf;
  }

  lemma IsoStep(f: Fields, d: Date)
    requires Ok(d) && Agrees(f, d) && (BeforeFirstWeek(d) ==> f.V == NO_WEEK)
    ensures ByIsoWeek(f) == Some(if HasIsoWeek(f) then f.(Y := d.year, m := d.month, d := d.day) else f)
    ensures Agrees(f.(Y := d.year, m := d.month, d := d.day), d)
  {
    hide ToDays, FromDays, Print, WeekOf, IsoToDays;
    if HasIsoWeek(f) {
      IsoToDaysOfPrint(d);
      PrintIsWeekDate(d);
      WeekdayIsMod7(ToDays(d));
      ToDaysBounds(d);
      FromDaysOfToDays(d);
      MergeOwn(f.(Y := d.year), d);
    }
  }

  lemma WeekStep(f: Fields, d: Date, start: nibble, week: int)
    requires Ok(d) && Agrees(f, d) && WeekdayOk(start) && GivenOrMissing(week, WeekOf(d, start), NO_WEEK)
    ensures ByWeek(f, start, week) == Some(if HasWeek(f, week) then f.(m := d.month, d := d.day) else f)
    ensures Agrees(f.(m := d.month, d := d.day), d)
  {
    hide ToDays, FromDays, Print, WeekOf, WeekToDays;
    if HasWeek(f, week) {
      WeekRoundTrip(d, start);
      ToDaysBounds(d);
      FromDaysOfToDays(d);
      MergeOwn(f, d);
    }
  }

  lemma DayOfYearStep(f: Fields, d: Date)
    requires Ok(d) && Agrees(f, d)
    ensures ByDayOfYear(f) == Some(if f.j != NO_DAY_OF_YEAR && f.Y != NO_YEAR then f.(m := d.month, d := d.day) else f)
    ensures Agrees(f.(m := d.month, d := d.day), d)
  {
    hide ToDays, FromDays, Print, WeekOf;
    ToDaysBounds(d);
    FromDaysOfToDays(d);
    MergeOwn(f, d);
  }

  lemma OwnFieldsConsistent(f: Fields, d: Date, computed: bool)
    requires Ok(d) && Agrees(f, d)
    ensures Consistent(f, d, computed)
    ensures Diff(WeekdayFromDays(ToDays(d)), SUNDAY) == WeekdayFromDays(ToDays(d))
  {
    hide ToDays, FromDays, Print, WeekOf, WeekTrial;
    WeekRoundTrip(d, SUNDAY);
    WeekRoundTrip(d, MONDAY);
    WeekdayIsMod7(ToDays(d));
    DiffIsMod7(WeekdayFromDays(ToDays(d)), SUNDAY);
  }

  /** Whichever of its fields are read, as long as they determine the date, the parser returns that date and its
      weekday. */
  lemma ResolveFindsDate(f: Fields, d: Date)
    requires Ok(d) && Agrees(f, d) && Sufficient(f)
    requires BeforeFirstWeek(d) ==> f.V == NO_WEEK
    ensures Resolve(f) == Some((d, WeekdayFromDays(ToDays(d)) as int))
  {
    hide ToDays, FromDays, Print, WeekOf, Consistent, ByIsoWeek, ByWeek, ByDayOfYear;
    IsoStep(f, d);
    var f1 := if HasIsoWeek(f) then f.(Y := d.year, m := d.month, d := d.day) else f;
    WeekStep(f1, d, SUNDAY, f.U);
    var f2 := if HasWeek(f1, f.U) then f1.(m := d.month, d := d.day) else f1;
    WeekStep(f2, d, MONDAY, f.W);
    var f3 := if HasWeek(f2, f.W) then f2.(m := d.month, d := d.day) else f2;
    DayOfYearStep(f3, d);
    var f4 := if f3.j != NO_DAY_OF_YEAR && f3.Y != NO_YEAR then f3.(m := d.month, d := d.day) else f3;
    OwnFieldsConsistent(f4, d, HasIsoWeek(f) || HasWeek(f1, f.U) || HasWeek(f2, f.W));
  }

  /** The printed week date alone, read back, is the date. */
  lemma WeekDateRoundTrip(d: Date)
    requires Ok(d)
    ensures var p := Print(d);
            var r := Resolve(NOTHING.(G := p.year, V := p.week, wd := p.weekday));
            r == Some((d, p.weekday as int)) <==> !BeforeFirstWeek(d)
  {
    hide ToDays, FromDays, Print, WeekOf, Consistent, ByIsoWeek, ByWeek, ByDayOfYear;
    var p := Print(d);
    var f := NOTHING.(G := p.year, V := p.week, wd := p.weekday);
    PrintIsWeekDate(d);
    WeekdayIsMod7(ToDays(d));
    if BeforeFirstWeek(d) {
      BeforeFirstWeekPrints(d);
      NoFieldsNoDate(f);
    } else {
      hide Resolve, AllFields;
      YearSpan(ThursdayOf(ToDays(d)));
      WeekDateAgrees(d, p);
      ResolveFindsDate(f, d);
    }
  }

  lemma WeekDateAgrees(d: Date, p: WeekDate)
    requires Ok(d) && p == Print(d) && p.weekday == WeekdayFromDays(ToDays(d)) && 1 <= p.week <= 53 && p.year != NO_YEAR
    ensures Agrees(NOTHING.(G := p.year, V := p.week, wd := p.weekday), d)
    ensures Sufficient(NOTHING.(G := p.year, V := p.week, wd := p.weekday))
  {
    hide ToDays, FromDays, Print, WeekOf;
    WeekdayIsMod7(ToDays(d));
  }

  /** Without a year, nothing is put together. */
  lemma NoFieldsNoDate(f: Fields)
    requires f.Y == NO_YEAR && f.G == NO_YEAR
    ensures Resolve(f).Some? ==> !Ok(Resolve(f).value.0)
  {
  }

  // ---------------------------------------------------------------------------
  // A year and a day of the year
  // ---------------------------------------------------------------------------

  /** The parser takes month and day of the day it counts to, and leaves the year as it was read. */
  lemma DayOfYearOnly(y: short, j: int)
    requires YearOk(y) && j != NO_DAY_OF_YEAR
    ensures var trial := FromDays(I32(FirstOf(y, 1) + j - 1));
            var r := Resolve(NOTHING.(Y := y, j := j));
            r.Some? && r.value.0 == Date(y, trial.month, trial.day)
  {
    hide ToDays, FromDays, Print, WeekOf, WeekTrial;
  }

  lemma OwnYear(d: Date)
    requires Ok(d)
    ensures FirstOf(d.year, 1) <= ToDays(d) <= LastOf(d.year, 12)
  {
    hide ToDays, FromDays;
    ToDaysBounds(d);
    FromDaysOfToDays(d);
    YearSpan(ToDays(d));
  }

  /** Day j of a year is found exactly when the year has a day j. */
  lemma DayOfYearFound(y: short, j: int)
    requires YearOk(y) && 0 <= j <= 999
    ensures var r := Resolve(NOTHING.(Y := y, j := j));
            r.Some? && Ok(r.value.0) && ToDays(r.value.0) == FirstOf(y, 1) + j - 1
            <==> 1 <= j <= if IsLeap(y) then 366 else 365
  {
    hide ToDays, FromDays, Resolve;
    var first := FirstOf(y, 1);
    DayOfYearOnly(y, j);
    YearLength(y);
    ToDaysBounds(Date(y, 1, 1));
    var d := Resolve(NOTHING.(Y := y, j := j)).value.0;
    if 1 <= j <= (if IsLeap(y) then 366 else 365) {
      DayInYear(first + j - 1, y);
      ToDaysOfFromDays(first + j - 1);
    } else if Ok(d) {
      OwnYear(d);
    }
  }

  /** Beyond the end, the count runs into the next year and the date comes out in the year that was read:
      day 366 of 2021 is taken for January 1st, 2021. */
  lemma DayOfYearRunsOver()
    ensures Resolve(NOTHING.(Y := 2021, j := 366)).Some?
            && Resolve(NOTHING.(Y := 2021, j := 366)).value.0 == Date(2021, 1, 1)
  {
    hide ToDays, FromDays, Resolve;
    DayOfYearOnly(2021, 366);
    YearLength(2021);
    NewYear(2022);
    FromDaysOfToDays(Date(2022, 1, 1));
    ToDaysBounds(Date(2022, 1, 1));
  }

  // ---------------------------------------------------------------------------
  // Fields that contradict the date are not accepted
  // ---------------------------------------------------------------------------

  /** What a step leaves alone: fields that were read. */
  ghost predicate Keeps(f: Fields, g: Fields) {
    && (f.Y != NO_YEAR ==> g.Y == f.Y) && (f.m != NO_MONTH ==> g.m == f.m) && (f.d != NO_DAY ==> g.d == f.d)
    && g.G == f.G && g.V == f.V && g.U == f.U && g.W == f.W && g.j == f.j && g.wd == f.wd
  }

  lemma SinceSunday(z: int32)
    ensures Diff(WeekdayFromDays(z), SUNDAY) == WeekdayFromDays(z)
  {
    hide WeekdayFromDays;
    WeekdayIsMod7(z);
    DiffIsMod7(WeekdayFromDays(z), SUNDAY);
  }

  /** The year was read, or a complete ISO week date that gives one. */
  predicate HasYear(f: Fields) {
    f.Y != NO_YEAR || HasIsoWeek(f)
  }

  /** A complete week: year, week and weekday */
  predicate HasTriple(f: Fields, week: int) {
    HasYear(f) && week != NO_WEEK && f.wd != NO_WEEKDAY
  }

  /** Some complete week served to compute the date: then the code compares no week field that did not. */
  predicate Computed(f: Fields) {
    HasIsoWeek(f) || HasTriple(f, f.U) || HasTriple(f, f.W)
  }

  /** When a date is accepted, the weekday that was read is its own, and so are a year of the calendar and, modulo 256,
      month and day; and so is every week field, as long as no complete week was read. */
  lemma ResolveRejectsContradictions(f: Fields)
    requires Resolve(f).Some? && Ok(Resolve(f).value.0)
    ensures var (d, wd) := Resolve(f).value;
            && wd == WeekdayFromDays(ToDays(d))
            && (-32767 <= f.Y <= 32767 ==> d.year == f.Y)
            && (f.m != NO_MONTH ==> d.month == U8(f.m)) && (f.d != NO_DAY ==> d.day == U8(f.d))
            && (f.wd != NO_WEEKDAY ==> f.wd == wd)
            && (!Computed(Normal(f)) ==> && GivenOrMissing(f.G, Print(d).year, NO_YEAR)
                                         && GivenOrMissing(f.V, Print(d).week, NO_WEEK)
                                         && GivenOrMissing(f.U, WeekOf(d, SUNDAY), NO_WEEK)
                                         && GivenOrMissing(f.W, WeekOf(d, MONDAY), NO_WEEK))
  {
    hide ToDays, FromDays, Print, WeekOf, WeekTrial, Resolve, WeekdayFromDays, Diff;
    var r, computed := ResolveKeeps(f);
    var d := Resolve(f).value.0;
    SinceSunday(ToDays(d));
    WeekRoundTrip(d, SUNDAY);
    WeekRoundTrip(d, MONDAY);
  }

  /** The fields after every step still hold what was read, and passed the checks. */
  lemma ResolveKeeps(f: Fields) returns (r: Fields, computed: bool)
    requires Resolve(f).Some? && Ok(Resolve(f).value.0)
    ensures Keeps(Normal(f), r) && computed == Computed(Normal(f))
    ensures var (d, wd) := Resolve(f).value;
            && d == Date(I16(r.Y), U8(r.m), U8(r.d)) && Consistent(r, d, computed)
            && wd == (if r.wd == NO_WEEKDAY then Diff(WeekdayFromDays(ToDays(d)), SUNDAY) else r.wd)
  {
    hide ToDays, FromDays, Print, WeekOf, Consistent, ByIsoWeek, ByWeek, ByDayOfYear;
    var f0 := Normal(f);
    StepsKeep(f0, SUNDAY, f.U);
    StepsAddNoYear(f0, SUNDAY, f.U);
    var f1 := ByIsoWeek(f0).value;
    StepsKeep(f1, SUNDAY, f.U);
    StepsAddNoYear(f1, SUNDAY, f.U);
    var f2 := ByWeek(f1, SUNDAY, f.U).value;
    StepsKeep(f2, MONDAY, f.W);
    var f3 := ByWeek(f2, MONDAY, f.W).value;
    StepsKeep(f3, MONDAY, f.W);
    r := ByDayOfYear(f3).value;
    computed := HasIsoWeek(f0) || HasWeek(f1, f.U) || HasWeek(f2, f.W);
  }

  /** Where the fields give no date, the parser does not look at the weekday: it comes back as it was read, and so do
      month and day, modulo 256, and a year of the calendar. */
  lemma WeekdayAloneKept(f: Fields)
    requires Resolve(f).Some? && !Ok(Resolve(f).value.0)
    ensures var (d, wd) := Resolve(f).value;
            && wd == f.wd && (-32767 <= f.Y <= 32767 ==> d.year == f.Y)
            && (f.m != NO_MONTH ==> d.month == U8(f.m)) && (f.d != NO_DAY ==> d.day == U8(f.d))
  {
    hide ToDays, FromDays, Print, WeekOf, Consistent, ByIsoWeek, ByWeek, ByDayOfYear;
    var f0 := Normal(f);
    StepsKeep(f0, SUNDAY, f.U);
    var f1 := ByIsoWeek(f0).value;
    StepsKeep(f1, SUNDAY, f.U);
    var f2 := ByWeek(f1, SUNDAY, f.U).value;
    StepsKeep(f2, MONDAY, f.W);
    var f3 := ByWeek(f2, MONDAY, f.W).value;
    StepsKeep(f3, MONDAY, f.W);
  }

  /** A weekday read alone is such a case, whatever it is. */
  lemma LoneWeekday(wd: int)
    ensures Resolve(NOTHING.(wd := wd)).Some? && Resolve(NOTHING.(wd := wd)).value.1 == wd
            && !Ok(Resolve(NOTHING.(wd := wd)).value.0)
  {
    hide ToDays, FromDays, Print, WeekOf;
  }

  lemma StepsAddNoYear(f: Fields, start: nibble, week: int)
    ensures !HasIsoWeek(f) ==> ByIsoWeek(f) == Some(f)
    ensures ByWeek(f, start, week).Some? ==> ByWeek(f, start, week).value.Y == f.Y
  {
    hide FromDays, IsoToDays, WeekToDays;
  }

  lemma StepsKeep(f: Fields, start: nibble, week: int)
    ensures ByIsoWeek(f).Some? ==> Keeps(f, ByIsoWeek(f).value)
    ensures ByWeek(f, start, week).Some? ==> Keeps(f, ByWeek(f, start, week).value)
    ensures ByDayOfYear(f).Some? ==> Keeps(f, ByDayOfYear(f).value)
  {
    hide FromDays, IsoToDays, WeekToDays;
  }
}
