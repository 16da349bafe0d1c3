/**
 Exactly which fields the parser of utils/date.h accepts for a date, and which it does not
 compare although they were read.
 */
module ParseAccepts {
  import opened MachineInts
  import opened Options
  import opened Civil
  import opened Weekdays
  import opened IsoWeek
  import opened ParseFields

  /** The dates that complete fields are turned into, given the year. */
  function IsoTrial(f: Fields): Date {
    FromDays(I32(IsoToDays(f.G, f.V, f.wd)))
  }

  function WeekTrialDate(y: int, start: nibble, week: int, wd: int): Date {
    FromDays(I32(WeekToDays(y, start, week, wd)))
  }

  function DayTrial(y: int, j: int): Date {
    FromDays(I32(FirstOf(I16(y), 1) + j - 1))
  }

  predicate HasDayOfYear(f: Fields) {
    HasYear(f) && f.j != NO_DAY_OF_YEAR
  }

  predicate SameMonthDay(x: Date, y: Date) {
    x.month == y.month && x.day == y.day
  }

  /** Year, month and day that were read are the date's. */
  predicate Matches(f: Fields, d: Date) {
    && (f.Y == NO_YEAR || f.Y == d.year)
    && (f.m == NO_MONTH || U8(f.m) == d.month) && (f.d == NO_DAY || U8(f.d) == d.day)
  }

  /** What the fields must be for the date to come out. */
  ghost predicate Supports(f: Fields, d: Date) {
    && Matches(f, d)
    && (HasIsoWeek(f) ==> IsoTrial(f) == d)
    && (HasTriple(f, f.U) ==> WeekTrialDate(d.year, SUNDAY, f.U, f.wd) == d)
    && (HasTriple(f, f.W) ==> WeekTrialDate(d.year, MONDAY, f.W, f.wd) == d)
    && (HasDayOfYear(f) ==> SameMonthDay(DayTrial(d.year, f.j), d))
    && GivenOrMissing(f.wd, WeekdayFromDays(ToDays(d)), NO_WEEKDAY)
    && (!Computed(f) ==> WeekFieldsOwn(f, d))
    && HasYear(f) && (HasSource(f) || (f.m != NO_MONTH && f.d != NO_DAY))
  }

  predicate HasSource(f: Fields) {
    Computed(f) || HasDayOfYear(f)
  }

  predicate WeekFieldsOwn(f: Fields, d: Date) {
    && GivenOrMissing(f.G, Print(d).year, NO_YEAR) && GivenOrMissing(f.V, Print(d).week, NO_WEEK)
    && GivenOrMissing(f.U, WeekOf(d, SUNDAY), NO_WEEK) && GivenOrMissing(f.W, WeekOf(d, MONDAY), NO_WEEK)
  }

  /** The day numbers that complete fields give stay where the calendar's arithmetic is exact. */
  predicate TrialsFit(f: Fields, y: int) {
    && (HasIsoWeek(f) ==> DayFits(IsoToDays(f.G, f.V, f.wd)))
    && (HasTriple(f, f.U) ==> DayFits(WeekToDays(y, SUNDAY, f.U, f.wd)))
    && (HasTriple(f, f.W) ==> DayFits(WeekToDays(y, MONDAY, f.W, f.wd)))
    && (HasDayOfYear(f) ==> DayFits(FirstOf(I16(y), 1) + f.j - 1))
  }

  predicate DayFits(n: int) {
    -0x8000_0000 <= n && ShiftFits(n)
  }

  lemma TrialMonth(n: int)
    requires DayFits(n)
    ensures 1 <= FromDays(I32(n)).month <= 12 && 1 <= FromDays(I32(n)).day <= 31
  {
    FromDaysLocalsExact(n);
    hide FromDaysRun;
  }

  /** A trial date passes and leads to d exactly when it has d's month and day. */
  lemma MergeMatches(f: Fields, trial: Date, d: Date)
    requires Ok(d) && 1 <= trial.month && 1 <= trial.day
    ensures var g := MergeMonthDay(f, trial);
            g.Some? && Matches(g.value, d) <==> Matches(f, d) && SameMonthDay(trial, d)
    ensures var g := MergeMonthDay(f, trial);
            g.Some? ==> g.value == f.(m := g.value.m, d := g.value.d) && g.value.m != NO_MONTH && g.value.d != NO_DAY
  {
  }

  lemma MergeKeepsYear(f: Fields, trial: Date)
    ensures MergeMonthDay(f, trial).Some? ==> MergeMonthDay(f, trial).value.Y == f.Y
  {
  }

  /** What a step leaves of the fields: it fills year, month and day, and only if it has what it needs. */
  ghost predicate Filled(f: Fields, g: Fields, year: bool, full: bool) {
    && g == f.(Y := g.Y, m := g.m, d := g.d)
    && (f.Y != NO_YEAR ==> g.Y == f.Y) && (!year ==> g.Y == f.Y)
    && (!full ==> g == f) && (full ==> g.m != NO_MONTH && g.d != NO_DAY)
  }

  lemma IsoMatches(f: Fields, d: Date)
    requires Ok(d) && (HasIsoWeek(f) ==> DayFits(IsoToDays(f.G, f.V, f.wd)))
    ensures var g := ByIsoWeek(f);
            g.Some? && Matches(g.value, d) && (HasYear(f) ==> g.value.Y != NO_YEAR)
            <==> Matches(f, d) && (HasIsoWeek(f) ==> IsoTrial(f) == d)
    ensures ByIsoWeek(f).Some? ==> Filled(f, ByIsoWeek(f).value, HasIsoWeek(f), HasIsoWeek(f))
  {
    hide FromDays, IsoToDays, DayFits;
    if HasIsoWeek(f) {
      var trial := IsoTrial(f);
      TrialMonth(IsoToDays(f.G, f.V, f.wd));
      MergeMatches(f.(Y := if f.Y == NO_YEAR then trial.year else f.Y), trial, d);
    }
  }

  lemma WeekMatches(f: Fields, d: Date, start: nibble, week: int)
    requires Ok(d) && -32768 <= f.Y <= 32767 && (HasWeek(f, week) ==> DayFits(WeekToDays(d.year, start, week, f.wd)))
    ensures var g := ByWeek(f, start, week);
            g.Some? && Matches(g.value, d)
            <==> Matches(f, d) && (HasWeek(f, week) ==> WeekTrialDate(d.year, start, week, f.wd) == d)
    ensures ByWeek(f, start, week).Some? && Matches(f, d) ==>
      Filled(f, ByWeek(f, start, week).value, false, HasWeek(f, week))
  {
    hide FromDays, WeekToDays, DayFits;
    if HasWeek(f, week) {
      if f.Y == d.year {
        TrialMonth(WeekToDays(f.Y, start, week, f.wd));
        MergeMatches(f, WeekTrialDate(f.Y, start, week, f.wd), d);
      } else {
        MergeKeepsYear(f, WeekTrialDate(f.Y, start, week, f.wd));
      }
    }
  }

  lemma DayMatches(f: Fields, d: Date)
    requires Ok(d) && -32768 <= f.Y <= 32767
    requires f.Y != NO_YEAR && f.j != NO_DAY_OF_YEAR ==> DayFits(FirstOf(I16(d.year), 1) + f.j - 1)
    ensures var g := ByDayOfYear(f);
            g.Some? && Matches(g.value, d)
            <==> Matches(f, d) && (f.Y != NO_YEAR && f.j != NO_DAY_OF_YEAR ==> SameMonthDay(DayTrial(d.year, f.j), d))
    ensures ByDayOfYear(f).Some? && Matches(f, d) ==>
      Filled(f, ByDayOfYear(f).value, false, f.Y != NO_YEAR && f.j != NO_DAY_OF_YEAR)
  {
    hide FromDays, ToDays, DayFits;
    if f.Y != NO_YEAR && f.j != NO_DAY_OF_YEAR {
      if f.Y == d.year {
        TrialMonth(FirstOf(I16(d.year), 1) + f.j - 1);
        MergeMatches(f, DayTrial(d.year, f.j), d);
      } else {
        MergeKeepsYear(f, DayTrial(f.Y, f.j));
      }
    }
  }

  /** The checks at the end, for a date the fields match */
  lemma ConsistentWhen(r: Fields, d: Date, computed: bool)
    requires Ok(d)
    ensures Consistent(r, d, computed)
            <==> GivenOrMissing(r.wd, WeekdayFromDays(ToDays(d)), NO_WEEKDAY) && (!computed ==> WeekFieldsOwn(r, d))
  {
    hide ToDays, FromDays, Print, WeekOf, WeekTrial, WeekdayFromDays, Diff;
    SinceSunday(ToDays(d));
    WeekRoundTrip(d, SUNDAY);
    WeekRoundTrip(d, MONDAY);
  }

  /** The date at the end is d exactly when the fields match it and none of the three is missing. */
  lemma DateWhen(r: Fields, d: Date)
    requires Ok(d) && -32768 <= r.Y <= 32767
    ensures Date(I16(r.Y), U8(r.m), U8(r.d)) == d
            <==> Matches(r, d) && r.Y != NO_YEAR && r.m != NO_MONTH && r.d != NO_DAY
  {
  }

  /** The steps of Resolve, up to the date */
  ghost predicate Steps(f: Fields, f1: Fields, f2: Fields, f3: Fields, r: Fields) {
    && ByIsoWeek(f) == Some(f1) && ByWeek(f1, SUNDAY, f.U) == Some(f2) && ByWeek(f2, MONDAY, f.W) == Some(f3)
    && ByDayOfYear(f3) == Some(r)
  }

  /** Fields that support a date pass every step. */
  lemma StepsPass(f: Fields, d: Date) returns (f1: Fields, f2: Fields, f3: Fields, r: Fields)
    requires Ok(d) && -32768 <= f.Y <= 32767 && TrialsFit(f, d.year) && Supports(f, d)
    ensures Steps(f, f1, f2, f3, r) && Matches(r, d) && r.Y != NO_YEAR && r.m != NO_MONTH && r.d != NO_DAY
  {
    hide ToDays, FromDays, Print, WeekOf, ByIsoWeek, ByWeek, ByDayOfYear, WeekToDays, IsoToDays, DayFits;
    IsoMatches(f, d);
    f1 := ByIsoWeek(f).value;
    WeekMatches(f1, d, SUNDAY, f.U);
    f2 := ByWeek(f1, SUNDAY, f.U).value;
    WeekMatches(f2, d, MONDAY, f.W);
    f3 := ByWeek(f2, MONDAY, f.W).value;
    DayMatches(f3, d);
    r := ByDayOfYear(f3).value;
  }

  /** And fields that pass every step to a date support it. */
  lemma StepsTell(f: Fields, d: Date, f1: Fields, f2: Fields, f3: Fields, r: Fields)
    requires Ok(d) && -32768 <= f.Y <= 32767 && TrialsFit(f, d.year)
    requires Steps(f, f1, f2, f3, r) && Matches(r, d) && r.Y != NO_YEAR && r.m != NO_MONTH && r.d != NO_DAY
    requires GivenOrMissing(r.wd, WeekdayFromDays(ToDays(d)), NO_WEEKDAY) && (!Computed(f) ==> WeekFieldsOwn(r, d))
    ensures Supports(f, d)
  {
    hide ToDays, FromDays, Print, WeekOf, ByIsoWeek, ByWeek, ByDayOfYear, WeekToDays, IsoToDays, DayFits;
    YearStays(f, f1, f2, f3, r);
    DayMatches(f3, d);
    WeekMatches(f2, d, MONDAY, f.W);
    WeekMatches(f1, d, SUNDAY, f.U);
    IsoMatches(f, d);
  }

  lemma YearStays(f: Fields, f1: Fields, f2: Fields, f3: Fields, r: Fields)
    requires Steps(f, f1, f2, f3, r) && r.Y != NO_YEAR && -32768 <= f.Y <= 32767
    ensures f1.Y == f2.Y == f3.Y == r.Y && HasYear(f) && (f.Y != NO_YEAR ==> f1.Y == f.Y) && -32768 <= f1.Y <= 32767
    ensures f1 == f.(Y := f1.Y, m := f1.m, d := f1.d) && f2 == f.(Y := f2.Y, m := f2.m, d := f2.d)
    ensures f3 == f.(Y := f3.Y, m := f3.m, d := f3.d)
  {
  }

  /** Resolve, by its steps */
  lemma ResolveSteps(f: Fields, f1: Fields, f2: Fields, f3: Fields, r: Fields)
    requires Steps(Normal(f), f1, f2, f3, r)
    ensures var d := Date(I16(r.Y), U8(r.m), U8(r.d));
            && (Ok(d) && Consistent(r, d, Computed(Normal(f))) ==> Resolve(f).Some? && Resolve(f).value.0 == d)
            && (Ok(d) && !Consistent(r, d, Computed(Normal(f))) ==> Resolve(f).None?)
  {
    hide ToDays, FromDays, Print, WeekOf, Consistent, ByIsoWeek, ByWeek, ByDayOfYear;
    var f0 := Normal(f);
    StepsAddNoYear(f0, SUNDAY, f.U);
    StepsAddNoYear(f1, SUNDAY, f.U);
    StepsKeep(f0, SUNDAY, f.U);
    StepsKeep(f1, SUNDAY, f.U);
    assert Computed(f0) == (HasIsoWeek(f0) || HasWeek(f1, f.U) || HasWeek(f2, f.W));
  }

  lemma StepsOf(f: Fields) returns (f1: Fields, f2: Fields, f3: Fields, r: Fields)
    requires Resolve(f).Some?
    ensures Steps(Normal(f), f1, f2, f3, r) && Resolve(f).value.0 == Date(I16(r.Y), U8(r.m), U8(r.d))
    ensures Normal(f).Y == f.Y || Normal(f).Y == NO_YEAR
  {
    hide ToDays, FromDays, Print, WeekOf, Consistent, ByIsoWeek, ByWeek, ByDayOfYear;
    f1 := ByIsoWeek(Normal(f)).value;
    f2 := ByWeek(f1, SUNDAY, f.U).value;
    f3 := ByWeek(f2, MONDAY, f.W).value;
    r := ByDayOfYear(f3).value;
  }

  lemma StepsKeepRest(f: Fields, f1: Fields, f2: Fields, f3: Fields, r: Fields)
    requires Steps(f, f1, f2, f3, r)
    ensures r.G == f.G && r.V == f.V && r.U == f.U && r.W == f.W && r.wd == f.wd
    ensures -32768 <= f.Y <= 32767 ==> -32768 <= r.Y <= 32767
  {
    hide FromDays, ToDays, IsoToDays, WeekToDays;
  }

  lemma NormalYear(f: Fields)
    ensures -32768 <= Normal(f).Y <= 32767
  {
  }

  /** For every valid date and all fields: the parser accepts the fields and returns the date exactly when they
      support it. */
  lemma AcceptsExactly(f: Fields, d: Date)
    requires Ok(d) && TrialsFit(Normal(f), d.year)
    ensures Resolve(f).Some? && Resolve(f).value.0 == d <==> Supports(Normal(f), d)
  {
    hide ToDays, FromDays, Print, WeekOf, Consistent, Resolve, Steps, Supports, TrialsFit, Matches, Normal;
    var f0 := Normal(f);
    NormalYear(f);
    if Supports(f0, d) {
      var f1, f2, f3, r := StepsPass(f0, d);
      ResolveSteps(f, f1, f2, f3, r);
      StepsKeepRest(f0, f1, f2, f3, r);
      DateWhen(r, d);
      ConsistentWhen(r, d, Computed(f0));
      SupportsRest(f0, r, d);
    } else if Resolve(f).Some? && Resolve(f).value.0 == d {
      var f1, f2, f3, r := StepsOf(f);
      ResolveSteps(f, f1, f2, f3, r);
      StepsKeepRest(f0, f1, f2, f3, r);
      DateWhen(r, d);
      ConsistentWhen(r, d, Computed(f0));
      StepsTell(f0, d, f1, f2, f3, r);
    }
  }

  lemma SupportsRest(f: Fields, r: Fields, d: Date)
    requires Supports(f, d) && r.G == f.G && r.V == f.V && r.U == f.U && r.W == f.W && r.wd == f.wd
    ensures GivenOrMissing(r.wd, WeekdayFromDays(ToDays(d)), NO_WEEKDAY) && (!Computed(f) ==> WeekFieldsOwn(r, d))
  {
    hide ToDays, FromDays, Print, WeekOf, Matches;
  }

  // ---------------------------------------------------------------------------
  // Fields that are not compared
  // ---------------------------------------------------------------------------

  /** The parser accepts the fields and returns d. */
  predicate Accepts(f: Fields, d: Date) {
    Resolve(f).Some? && Resolve(f).value.0 == d
  }

  /** When a complete week other than an ISO one was read, a lone ISO year or week makes no difference at all. */
  lemma LoneFieldsIgnored(f: Fields, g: int, v: int)
    requires !HasIsoWeek(f) && !HasIsoWeek(f.(G := g, V := v))
    requires HasTriple(Normal(f), f.U) || HasTriple(Normal(f), f.W)
    ensures Resolve(f.(G := g, V := v)) == Resolve(f)
  {
    hide ToDays, FromDays, Print, WeekOf, WeekTrial, WeekToDays;
    var f0, h0 := Normal(f), Normal(f.(G := g, V := v));
    assert ByIsoWeek(f0) == Some(f0) && ByIsoWeek(h0) == Some(h0);
    StepIgnores(f0, g, v, SUNDAY, f.U);
    if ByWeek(f0, SUNDAY, f.U).Some? {
      var f2 := ByWeek(f0, SUNDAY, f.U).value;
      StepIgnores(f2, g, v, MONDAY, f.W);
      if ByWeek(f2, MONDAY, f.W).Some? {
        StepIgnores(ByWeek(f2, MONDAY, f.W).value, g, v, MONDAY, f.W);
      }
    }
  }

  /** The later steps look at neither ISO year nor ISO week. */
  lemma StepIgnores(f: Fields, g: int, v: int, start: nibble, week: int)
    ensures ByWeek(f, start, week).None? ==> ByWeek(f.(G := g, V := v), start, week).None?
    ensures ByWeek(f, start, week).Some? ==>
      ByWeek(f.(G := g, V := v), start, week) == Some(ByWeek(f, start, week).value.(G := g, V := v))
    ensures ByDayOfYear(f).None? ==> ByDayOfYear(f.(G := g, V := v)).None?
    ensures ByDayOfYear(f).Some? ==> ByDayOfYear(f.(G := g, V := v)) == Some(ByDayOfYear(f).value.(G := g, V := v))
  {
    hide FromDays, WeekToDays, ToDays;
  }

  /** A lone ISO year is compared with the date exactly when no complete week was read. */
  lemma LoneYearCompared(f: Fields, d: Date)
    requires Ok(d) && TrialsFit(Normal(f), d.year) && Accepts(f, d) && f.G == NO_YEAR && f.V == NO_WEEK
    ensures (forall g :: g != NO_YEAR && Accepts(f.(G := g), d) ==> g == Print(d).year) <==> !Computed(Normal(f))
  {
    hide ToDays, FromDays, Print, WeekOf, Resolve, Supports, TrialsFit;
    if Computed(Normal(f)) {
      var g := if Print(d).year == 2000 then 2001 else 2000;
      LoneFieldsIgnored(f, g, NO_WEEK);
      assert f.(G := g, V := NO_WEEK) == f.(G := g);
      assert Accepts(f.(G := g), d);
    } else {
      forall g | g != NO_YEAR && Accepts(f.(G := g), d)
        ensures g == Print(d).year
      {
        ResolveRejectsContradictions(f.(G := g));
      }
    }
  }

  /** So is a lone ISO week. */
  lemma LoneWeekCompared(f: Fields, d: Date)
    requires Ok(d) && TrialsFit(Normal(f), d.year) && Accepts(f, d) && f.G == NO_YEAR && f.V == NO_WEEK
    ensures (forall v :: v != NO_WEEK && Accepts(f.(V := v), d) ==> v == Print(d).week) <==> !Computed(Normal(f))
  {
    hide ToDays, FromDays, Print, WeekOf, Resolve, Supports, TrialsFit;
    if Computed(Normal(f)) {
      var v := if Print(d).week == 1 then 2 else 1;
      LoneFieldsIgnored(f, NO_YEAR, v);
      assert f.(G := NO_YEAR, V := v) == f.(V := v);
      assert Accepts(f.(V := v), d);
    } else {
      forall v | v != NO_WEEK && Accepts(f.(V := v), d)
        ensures v == Print(d).week
      {
        ResolveRejectsContradictions(f.(V := v));
      }
    }
  }

  /** Every valid date is read back from year, week and weekday together with any ISO year whatever. */
  lemma AnyIsoYearPasses(d: Date, g: int)
    requires Ok(d) && g != NO_YEAR
    ensures Accepts(NOTHING.(Y := d.year, U := WeekOf(d, SUNDAY), wd := WeekdayFromDays(ToDays(d)), G := g), d)
  {
    hide ToDays, FromDays, Print, WeekOf, Resolve, AllFields, WeekdayFromDays;
    WeekRoundTrip(d, SUNDAY);
    WeekdayIsMod7(ToDays(d));
    var f := NOTHING.(Y := d.year, U := WeekOf(d, SUNDAY), wd := WeekdayFromDays(ToDays(d)));
    OwnWeekAgrees(d);
    ResolveFindsDate(f, d);
    LoneFieldsIgnored(f, g, NO_WEEK);
    assert f.(G := g, V := NO_WEEK) == f.(G := g);
  }

  lemma OwnWeekAgrees(d: Date)
    requires Ok(d)
    ensures var f := NOTHING.(Y := d.year, U := WeekOf(d, SUNDAY), wd := WeekdayFromDays(ToDays(d)));
            Agrees(f, d) && Sufficient(f)
  {
    hide ToDays, FromDays, Print, WeekOf;
    WeekRoundTrip(d, SUNDAY);
    WeekdayIsMod7(ToDays(d));
  }

  /** Of a day of the year the parser compares month and day only: the number is the date's own exactly when the year
      has that day. */
  lemma DayOfYearCompared(f: Fields, d: Date)
    requires Ok(d) && TrialsFit(Normal(f), d.year) && Accepts(f, d) && HasDayOfYear(Normal(f)) && 0 <= f.j <= 999
    ensures ToDays(d) == FirstOf(d.year, 1) + f.j - 1 <==> 1 <= f.j <= if IsLeap(d.year) then 366 else 365
  {
    hide ToDays, FromDays, Print, WeekOf, Resolve, TrialsFit;
    AcceptsExactly(f, d);
    DayTrialInYear(f.j, d);
  }

  lemma DayTrialInYear(j: int, d: Date)
    requires Ok(d) && SameMonthDay(DayTrial(d.year, j), d)
    ensures ToDays(d) == FirstOf(d.year, 1) + j - 1 <==> 1 <= j <= if IsLeap(d.year) then 366 else 365
  {
    hide ToDays, FromDays;
    var n := FirstOf(d.year, 1) + j - 1;
    YearLength(d.year);
    OwnYear(d);
    ToDaysBounds(Date(d.year, 1, 1));
    if 1 <= j <= (if IsLeap(d.year) then 366 else 365) {
      DayInYear(n, d.year);
      ToDaysOfFromDays(n);
      assert FromDays(n) == d;
    }
  }

  /** A day of the year that contradicts month and day can pass: January 1st, 2021 with day 366 */
  lemma ContradictingDayPasses()
    ensures Accepts(NOTHING.(Y := 2021, m := 1, d := 1, j := 366), Date(2021, 1, 1))
    ensures ToDays(Date(2021, 1, 1)) != FirstOf(2021, 1) + 366 - 1
  {
    hide ToDays, FromDays, Print, WeekOf, Resolve;
    var f, d := NOTHING.(Y := 2021, m := 1, d := 1, j := 366), Date(2021, 1, 1);
    YearLength(2021);
    NewYear(2022);
    FromDaysOfToDays(Date(2022, 1, 1));
    ToDaysBounds(Date(2022, 1, 1));
    AcceptsExactly(f, d);
  }

  // ---------------------------------------------------------------------------
  // Fields too large for a date
  // ---------------------------------------------------------------------------

  /** What was read of an accepted date is its own exactly if it fits: month and day are compared modulo 256, and a year
      outside the calendar counts as not read. */
  lemma ReadFieldsOwnExactly(f: Fields, d: Date)
    requires Ok(d) && Accepts(f, d)
    ensures f.Y != NO_YEAR ==> (f.Y == d.year <==> -32767 <= f.Y <= 32767)
    ensures f.m != NO_MONTH ==> (f.m == d.month <==> 0 <= f.m <= 255)
    ensures f.d != NO_DAY ==> (f.d == d.day <==> 0 <= f.d <= 255)
  {
    hide Resolve;
    ResolveRejectsContradictions(f);
  }

  /** Every valid date is accepted from its year and any month and day that are its own modulo 256. */
  lemma WideFieldsPass(d: Date, i: int, j: int)
    requires Ok(d)
    ensures Accepts(NOTHING.(Y := d.year, m := d.month + 256 * i, d := d.day + 256 * j), d)
  {
    hide ToDays, FromDays, Print, WeekOf, Resolve, WeekdayFromDays;
    var f := NOTHING.(Y := d.year, m := d.month + 256 * i, d := d.day + 256 * j);
    U8Wide(d.month, i);
    U8Wide(d.day, j);
    assert Matches(Normal(f), d);
    AcceptsExactly(f, d);
  }

  lemma U8Wide(c: uchar, i: int)
    requires c > 0
    ensures U8(c + 256 * i) == c && c + 256 * i != 0
  {
  }

  /** A year outside the calendar, other than the value that means none, is read as none. */
  lemma YearOutsideIgnored(f: Fields, y: int)
    requires (y < -32767 || y > 32767) && f.Y == NO_YEAR
    ensures Resolve(f.(Y := y)) == Resolve(f)
  {
    assert Normal(f.(Y := y)) == Normal(f);
  }

  /** The values that stand for a field not read are read as none: month 0 and day 0, week 100, weekday 8, day of the
      year -1, year -32768. Every valid date is accepted beside all those that leave it determined. */
  lemma NoneValuesIgnored(d: Date)
    requires Ok(d)
    ensures Accepts(Fields(d.year, d.month, d.day, -32768, 100, 100, 100, -1, 8), d)
    ensures Accepts(Fields(d.year, 0, 0, -32768, 100, 100, 100, ToDays(d) - ToDays(Date(d.year, 1, 1)) + 1, 8), d)
  {
    hide ToDays, FromDays, Print, WeekOf, Resolve, WeekdayFromDays;
    ResolveFindsDate(NOTHING.(Y := d.year, m := d.month, d := d.day), d);
    OwnYear(d);
    ResolveFindsDate(NOTHING.(Y := d.year, j := ToDays(d) - FirstOf(d.year, 1) + 1), d);
  }

  /** For example: day 257 and month 258 of 2021, and year 40000 beside week 53 of 2021 */
  lemma TooLargePasses()
    ensures Accepts(NOTHING.(Y := 2021, m := 1, d := 257), Date(2021, 1, 1))
    ensures Accepts(NOTHING.(Y := 2021, m := 258, d := 1), Date(2021, 2, 1))
    ensures Accepts(NOTHING.(Y := 40000, G := 2021, V := 53, wd := 1), Date(2022, 1, 3))
  {
    hide ToDays, FromDays, Print, Resolve;
    WideFieldsPass(Date(2021, 1, 1), 0, 1);
    WideFieldsPass(Date(2021, 2, 1), 1, 0);
    Week53Of2021();
    YearOutsideIgnored(NOTHING.(G := 2021, V := 53, wd := 1), 40000);
  }

  // ---------------------------------------------------------------------------
  // Weeks that a year does not have
  // ---------------------------------------------------------------------------

  /** The parser accepts every ISO week date whose day is in the calendar, whether or not the year has the week. */
  lemma IsoWeekAccepted(g: short, v: int, wd: uchar)
    requires YearOk(g) && v != NO_WEEK && WeekdayOk(wd) && InCalendar(IsoToDays(g, v, wd))
    ensures Resolve(NOTHING.(G := g, V := v, wd := wd)) == Some((FromDays(IsoToDays(g, v, wd)), wd as int))
  {
    hide ToDays, FromDays, Print, WeekOf, Resolve, IsoToDays, WeekdayFromDays;
    var f, n := NOTHING.(G := g, V := v, wd := wd), IsoToDays(g, v, wd);
    var d := FromDays(n);
    ToDaysOfFromDays(n);
    IsoWeekday(g, v, wd);
    WeekdayIsMod7(n);
    AcceptsExactly(f, d);
    ResolveRejectsContradictions(f);
  }

  lemma IsoWeekday(g: short, v: int, wd: uchar)
    requires YearOk(g) && WeekdayOk(wd)
    ensures (IsoToDays(g, v, wd) + 4) % 7 == wd
  {
    hide ToDays, LastToDays;
    StartIsFirstMonday(g);
    DiffIsMod7(wd, MONDAY);
    ThursdayOfWeek(IsoToDays(g, v, wd), Start(g), v, wd);
  }

  /** What is accepted prints as it was read exactly when the year has the week. */
  lemma IsoWeekKept(g: short, v: int, wd: uchar)
    requires YearOk(g) && v != NO_WEEK && WeekdayOk(wd) && InCalendar(IsoToDays(g, v, wd))
    ensures var r := Resolve(NOTHING.(G := g, V := v, wd := wd));
            r.Some? && Ok(r.value.0)
            && (Print(r.value.0) == WeekDate(g, v, wd) <==> 1 <= v <= if HasWeek53(g) then 53 else 52)
  {
    hide ToDays, FromDays, Print, Resolve, IsoToDays, HasWeek53;
    IsoWeekAccepted(g, v, wd);
    PrintOfIsoToDays(g, v, wd);
    ToDaysOfFromDays(IsoToDays(g, v, wd));
  }

  /** Monday of week 53 of 2021, which has 52, is taken for January 3rd, 2022. */
  lemma Week53Of2021()
    ensures !HasWeek53(2021)
    ensures Resolve(NOTHING.(G := 2021, V := 53, wd := 1)) == Some((Date(2022, 1, 3), 1))
  {
    hide ToDays, FromDays, Print, Resolve, LastToDays;
    DaysOf2021();
    StartIsFirstMonday(2021);
    YearLength(2021);
    assert Start(2021) == 18631;
    assert IsoToDays(2021, 53, 1) == 18995;
    FromDaysOfToDays(Date(2022, 1, 3));
    IsoWeekAccepted(2021, 53, 1);
  }

  lemma DaysOf2021()
    ensures ToDays(Date(2021, 1, 1)) == 18628 && ToDays(Date(2022, 1, 3)) == 18995
  {
    assert ToDaysRun(Date(2021, 1, 1)) == ToDaysLocals(2020, 5, 20, 306, 7611, 18628);
    assert ToDaysRun(Date(2022, 1, 3)) == ToDaysLocals(2021, 5, 21, 308, 7978, 18995);
  }

  // ---------------------------------------------------------------------------
  // Weeks from the first Sunday or Monday
  // ---------------------------------------------------------------------------

  /** Year, %U or %W, and weekday */
  function WeekOnly(y: int, start: nibble, week: int, wd: int): Fields {
    if start == SUNDAY then NOTHING.(Y := y, U := week, wd := wd) else NOTHING.(Y := y, W := week, wd := wd)
  }

  /** The day that a week and a weekday give falls on the weekday, near the year. */
  lemma WeekDay(y: short, start: nibble, week: int, wd: uchar)
    requires YearOk(y) && WeekdayOk(start) && WeekdayOk(wd)
    ensures var n := WeekToDays(y, start, week, wd);
            (n + 4) % 7 == wd && 7 * (week - 1) <= n - FirstOf(y, 1) <= 7 * (week - 1) + 12
  {
    hide ToDays, NthToDays;
    var w := NthWeekday(y, 1, start, 1);
    var st := NthToDays(w);
    NthOkExactlyWhenItExists(w);
    MonthEnds(y, 1);
    DiffIsMod7(wd, start);
    WeekdayAfter(st + 4, week - 1, wd);
  }

  lemma WeekdayAfter(a: int, weeks: int, wd: uchar)
    requires WeekdayOk(wd)
    ensures (a + 7 * weeks + (wd - a % 7) % 7) % 7 == wd
  {
    NextOnWeekday(a, wd);
    ModSeven(a + (wd - a % 7) % 7, -weeks);
  }

  /** Near a year, the year that from_days() gives is that year exactly within it. */
  lemma YearNear(n: int, y: short)
    requires YearOk(y) && FirstOf(y, 1) - 20 <= n <= FirstOf(y, 1) + 720
    ensures DayFits(n) && (FromDays(I32(n)).year == y <==> FirstOf(y, 1) <= n <= LastOf(y, 12))
  {
    hide ToDays, FromDays;
    ToDaysBounds(Date(y, 1, 1));
    ToDaysBounds(Date(y, 12, 31));
    YearLength(y);
    if InCalendar(n) {
      YearSpan(n);
      if FirstOf(y, 1) <= n <= LastOf(y, 12) {
        DayInYear(n, y);
      }
    } else {
      YearOutside(n);
      FarYears(y);
    }
  }

  /** Years at the ends of the calendar have the sign of their end. */
  lemma FarYears(y: short)
    requires YearOk(y)
    ensures FirstOf(y, 1) > LAST_DAY - 1000 ==> y >= 0
    ensures FirstOf(y, 1) < FIRST_DAY + 1000 ==> y < 0
  {
    hide ToDays;
    EndsOfCalendar();
    ToDaysMonotone(Date(y, 1, 1), EPOCH);
    YearZero();
    ToDaysMonotone(Date(y, 1, 1), Date(0, 1, 1));
  }

  lemma YearZero()
    ensures ToDays(Date(0, 1, 1)) == -719528
  {
    assert ToDaysRun(Date(0, 1, 1)) == ToDaysLocals(-1, -1, 399, 306, 146037, -719528);
  }

  /** A year, a week number and a weekday are accepted exactly when the day they give lies in the year; the date is
      that day, and prints the same week. */
  lemma WeekFound(y: short, start: nibble, week: int, wd: uchar)
    requires YearOk(y) && start <= 1 && 0 <= week <= 99 && WeekdayOk(wd)
    ensures var r, n := Resolve(WeekOnly(y, start, week, wd)), WeekToDays(y, start, week, wd);
            && (r.Some? <==> FirstOf(y, 1) <= n <= LastOf(y, 12))
            && (r.Some? ==> DayFits(n) && r.value == (FromDays(n), wd as int) && WeekOf(r.value.0, start) == week)
  {
    hide ToDays, FromDays, Print, WeekOf, Resolve, WeekToDays, WeekdayFromDays;
    var f, n := WeekOnly(y, start, week, wd), WeekToDays(y, start, week, wd);
    WeekDay(y, start, week, wd);
    YearNear(n, y);
    if FirstOf(y, 1) <= n <= LastOf(y, 12) {
      DayInYear(n, y);
      ToDaysOfFromDays(n);
      var d := FromDays(n);
      WeekdayIsMod7(n);
      AcceptsExactly(f, d);
      ResolveRejectsContradictions(f);
      SameWeek(d, start, week, wd);
    } else {
      YearRejected(y, start, week, wd);
    }
  }

  lemma SameWeek(d: Date, start: nibble, week: int, wd: uchar)
    requires Ok(d) && WeekdayOk(start) && wd == WeekdayFromDays(ToDays(d))
             && WeekToDays(d.year, start, week, wd) == ToDays(d)
    ensures WeekOf(d, start) == week
  {
    hide ToDays, FromDays, WeekOf, NthToDays, WeekdayFromDays;
    WeekRoundTrip(d, start);
  }

  lemma YearRejected(y: short, start: nibble, week: int, wd: uchar)
    requires YearOk(y) && start <= 1 && week != NO_WEEK && WeekdayOk(wd)
    requires FromDays(I32(WeekToDays(y, start, week, wd))).year != y
    ensures Resolve(WeekOnly(y, start, week, wd)).None?
  {
    hide ToDays, FromDays, WeekToDays;
  }
}
