/**
 The civil calendar of utils/date.h: dates as (year, month, day), day numbers counted
 from 1970-01-01, and the closed forms that convert between them. The reference is the
 Gregorian calendar of section 3.2.1 of ISO 8601:2004, walked one day at a time.
 */
module Civil {
  import opened MachineInts

  /** year_month_day: a `short` year, `unsigned char` month and day. */
  datatype Date = Date(year: short, month: uchar, day: uchar)

  /** The year value that year::ok() rejects. */
  const NOT_A_YEAR: short := -0x8000

  const EPOCH := Date(1970, 1, 1)
  const FIRST_DATE := Date(-32767, 1, 1)
  const LAST_DATE := Date(32767, 12, 31)

  /** The day numbers of FIRST_DATE and LAST_DATE. */
  const FIRST_DAY := -12687428
  const LAST_DAY := 11248737

  predicate InCalendar(n: int) {
    FIRST_DAY <= n <= LAST_DAY
  }

  predicate IsLeap(y: int) {
    y % 4 == 0 && (y % 100 != 0 || y % 400 == 0)
  }

  /** year_month_day_last::day(); 29 for a month that is not one. */
  function LastDay(y: int, m: uchar): uchar {
    if (m != 2 || !IsLeap(y)) && 1 <= m <= 12 then
      [31, 28, 31, 30, 31, 30, 31, 31, 30, 31, 30, 31][m - 1]
    else
      29
  }

  predicate YearOk(y: short) { y != NOT_A_YEAR }

  predicate MonthOk(m: uchar) { 1 <= m <= 12 }

  predicate Ok(d: Date) {
    YearOk(d.year) && MonthOk(d.month) && 1 <= d.day <= LastDay(d.year, d.month)
  }

  /** operator< on year_month_day. */
  predicate Before(x: Date, y: Date) {
    if x.year < y.year then true
    else if x.year > y.year then false
    else if x.month < y.month then true
    else if x.month > y.month then false
    else x.day < y.day
  }

  /** The locals of year_month_day::to_days(), each as the 32-bit value the code holds. */
  datatype ToDaysLocals = ToDaysLocals(y: int32, era: int32, yoe: uint32, doy: uint32, doe: uint32, result: int32)

  function ToDaysRun(date: Date): ToDaysLocals {
    var y := I32(date.year - (if date.month <= 2 then 1 else 0));
    var m := date.month;
    var d := date.day;
    var era := I32(Quot(if y >= 0 then y else I32(y - 399), 400));
    var yoe := U32(y - era * 400);
    var doy := U32(U32(153 * U32(if m > 2 then m - 3 else m + 9) + 2) / 5 + d - 1);
    var doe := U32(yoe * 365 + yoe / 4 - yoe / 100 + doy);
    ToDaysLocals(y, era, yoe, doy, doe, I32(era * 146097 + I32(doe) - 719468))
  }

  /** year_month_day::to_days() */
  function ToDays(date: Date): int32 {
    ToDaysRun(date).result
  }

  /** The day numbers whose shift to the era origin stays in an `int`. */
  predicate ShiftFits(n: int) {
    -0x8000_0000 + 146096 - 719468 <= n <= 0x7fff_ffff - 719468
  }

  /** The locals of year_month_day::from_days(). */
  datatype FromDaysLocals = FromDaysLocals(
    z: int32, era: int32, doe: uint32, yoe: uint32, y: int32, doy: uint32, mp: uint32, d: uint32, m: uint32)

  function FromDaysRun(n: int32): FromDaysLocals {
    var z := I32(n + 719468);
    var era := I32(Quot(if z >= 0 then z else I32(z - 146096), 146097));
    var doe := U32(z - era * 146097);
    var yoe := U32(doe - doe / 1460 + doe / 36524 - doe / 146096) / 365;
    var y := I32(I32(yoe) + era * 400);
    var doy := U32(doe - U32(365 * yoe + yoe / 4 - yoe / 100));
    var mp := U32(5 * doy + 2) / 153;
    var d := U32(doy - U32(153 * mp + 2) / 5 + 1);
    var m := if mp < 10 then U32(mp + 3) else U32(mp - 9);
    FromDaysLocals(z, era, doe, yoe, y, doy, mp, d, m)
  }

  /** year_month_day::from_days() */
  function FromDays(n: int32): Date {
    var l := FromDaysRun(n);
    Date(I16(l.y + (if l.m <= 2 then 1 else 0)), U8(l.m), U8(l.d))
  }

  // ---------------------------------------------------------------------------
  // Years that start on March 1st, and the 400-year era
  // ---------------------------------------------------------------------------

  /** Days before March 1st of year y of an era, plus the day of that year. */
  function DayOfEra(yoe: nat, doy: nat): int {
    yoe * 365 + yoe / 4 - yoe / 100 + doy
  }

  /** A March-based year contains February of the next civil year. */
  predicate MarchDay(yoe: nat, doy: nat) {
    yoe < 400 && doy <= (if IsLeap(yoe + 1) then 365 else 364)
  }

  function YearOfEra(doe: nat): int {
    (doe - doe / 1460 + doe / 36524 - doe / 146096) / 365
  }

  /** The same day by century, four-year group, year of the group and day of the year. */
  lemma EraParts(c: nat, q: nat, r: nat, doy: nat)
    requires c <= 3 && q <= 24 && r <= 3
    requires MarchDay(100 * c + 4 * q + r, doy)
    ensures var yoe := 100 * c + 4 * q + r;
            var doe := 36524 * c + 1461 * q + 365 * r + doy;
            DayOfEra(yoe, doy) == doe && doe <= 146096 && YearOfEra(doe) == yoe
  {
    var yoe := 100 * c + 4 * q + r;
    var doe := 36524 * c + 1461 * q + 365 * r + doy;
    assert yoe / 100 == c && yoe / 4 == 25 * c + q;
    assert (yoe + 1) % 4 == (r + 1) % 4;
    assert doy == 365 ==> r == 3;
    assert r == 3 && q == 24 ==> (yoe + 1) % 100 == 0 && (yoe + 1) / 100 == c + 1;
    assert r == 3 && q == 24 && doy == 365 ==> c == 3;
    var carry := if 24 * c + q + 365 * r + doy >= 1460 then 1 else 0;
    assert doe / 1460 == 25 * c + q + carry;
    assert doe / 36524 == (if doe == 146096 then 4 else c);
    assert doe / 146096 == (if doe == 146096 then 1 else 0);
  }

  lemma YearOfEraInverts(yoe: nat, doy: nat)
    requires MarchDay(yoe, doy)
    ensures 0 <= DayOfEra(yoe, doy) <= 146096
    ensures YearOfEra(DayOfEra(yoe, doy)) == yoe
  {
    var c, inCentury := yoe / 100, yoe % 100;
    var q, r := inCentury / 4, inCentury % 4;
    assert yoe == 100 * c + 4 * q + r;
    EraParts(c, q, r, doy);
  }

  /** Century, four-year group and year that a day of the era lies in. */
  lemma EraSplits(doe: nat) returns (c: nat, q: nat, r: nat, doy: nat)
    requires doe <= 146096
    ensures c <= 3 && q <= 24 && r <= 3 && doy <= 365 && doe == 36524 * c + 1461 * q + 365 * r + doy
    ensures doy == 365 ==> r == 3 && (q == 24 ==> c == 3)
  {
    c := if doe == 146096 then 3 else doe / 36524;
    var inCentury := doe - 36524 * c;
    q := inCentury / 1461;
    var inGroup := inCentury % 1461;
    r := if inGroup == 1460 then 3 else inGroup / 365;
    doy := inGroup - 365 * r;
  }

  lemma LeapInGroup(c: nat, q: nat, r: nat)
    requires c <= 3 && q <= 24 && r == 3 && (q == 24 ==> c == 3)
    ensures IsLeap(100 * c + 4 * q + r + 1)
  {
    var y := 4 * (25 * c + q + 1);
    assert y % 4 == 0;
    assert q < 24 ==> y == 100 * c + 4 * (q + 1) && y % 100 == 4 * (q + 1);
    assert q == 24 ==> y == 400;
  }

  lemma DayOfEraSplits(doe: nat)
    requires doe <= 146096
    ensures var yoe := YearOfEra(doe);
            0 <= yoe && DayOfEra(yoe, 0) <= doe && MarchDay(yoe, doe - DayOfEra(yoe, 0))
  {
    var c, q, r, doy := EraSplits(doe);
    if doy == 365 {
      LeapInGroup(c, q, r);
    }
    EraParts(c, q, r, doy);
  }

  // ---------------------------------------------------------------------------
  // Months and days inside a March-based year
  // ---------------------------------------------------------------------------

  /** Day of the March-based year on which the mp-th month (0 is March) starts. */
  function MonthStart(mp: nat): nat {
    (153 * mp + 2) / 5
  }

  /** The number, counted from March, of a month. */
  function FromMarch(m: uchar): int {
    if m > 2 then m - 3 else m + 9
  }

  /** The March-based year a month belongs to. */
  function MarchYear(d: Date): int {
    d.year - (if d.month <= 2 then 1 else 0)
  }

  function DayOfYear(d: Date): int
    requires 1 <= d.month <= 12
  {
    MonthStart(FromMarch(d.month)) + d.day - 1
  }

  lemma DayOfYearInRange(d: Date)
    requires Ok(d)
    ensures MonthStart(FromMarch(d.month)) <= DayOfYear(d)
    ensures DayOfYear(d) <= (if IsLeap(MarchYear(d) + 1) then 365 else 364)
    ensures d.month != 2 ==> DayOfYear(d) < MonthStart(FromMarch(d.month) + 1)
  {
    MonthTable(d);
  }

  /** Month starts and lengths, month by month. */
  lemma MonthTable(d: Date)
    requires Ok(d)
    ensures d.day <= 31
    ensures var s := MonthStart(FromMarch(d.month));
            match d.month
            case 3 => s == 0 && d.day <= 31
            case 4 => s == 31 && d.day <= 30
            case 5 => s == 61 && d.day <= 31
            case 6 => s == 92 && d.day <= 30
            case 7 => s == 122 && d.day <= 31
            case 8 => s == 153 && d.day <= 31
            case 9 => s == 184 && d.day <= 30
            case 10 => s == 214 && d.day <= 31
            case 11 => s == 245 && d.day <= 30
            case 12 => s == 275 && d.day <= 31
            case 1 => s == 306 && d.day <= 31
            case _ => s == 337 && d.day <= (if IsLeap(d.year) then 29 else 28)
  {
  }

  // ---------------------------------------------------------------------------
  // The 32-bit arithmetic never wraps
  // ---------------------------------------------------------------------------

  /** Every intermediate of to_days() is the exact mathematical value, in the range the code comments give. */
  lemma ToDaysLocalsExact(d: Date)
    requires Ok(d)
    ensures var l := ToDaysRun(d);
            && l.y == MarchYear(d)
            && MarchYear(d) == 400 * l.era + l.yoe && 0 <= l.yoe <= 399
            && l.doy == DayOfYear(d) && 0 <= l.doy <= 365 && MarchDay(l.yoe, l.doy)
            && l.doe == DayOfEra(l.yoe, l.doy) && 0 <= l.doe <= 146096
            && l.result == l.era * 146097 + l.doe - 719468
  {
    EraOfRun(d);
    DayOfYearOfRun(d);
    var l := ToDaysRun(d);
    LeapInEra(l.era, l.yoe + 1);
    DayOfYearInRange(d);
    YearOfEraInverts(l.yoe, l.doy);
    DayOfEraOfRun(d);
    hide ToDaysRun, DayOfYear, YearOfEra;
  }

  lemma EraOfRun(d: Date)
    requires Ok(d)
    ensures var l := ToDaysRun(d);
            && l.y == MarchYear(d) == 400 * l.era + l.yoe && 0 <= l.yoe <= 399 && -82 <= l.era <= 81
  {
    EraFloors(MarchYear(d));
  }

  lemma DayOfYearOfRun(d: Date)
    requires Ok(d)
    ensures ToDaysRun(d).doy == DayOfYear(d)
  {
    MonthTable(d);
  }

  lemma DayOfEraOfRun(d: Date)
    requires var l := ToDaysRun(d); l.yoe <= 399 && l.doy <= 365 && -82 <= l.era <= 81
    requires var l := ToDaysRun(d); 0 <= DayOfEra(l.yoe, l.doy) <= 146096
    ensures var l := ToDaysRun(d);
            l.doe == DayOfEra(l.yoe, l.doy) && l.result == l.era * 146097 + l.doe - 719468
  {
  }

  /** The code's adjusted truncation is a floor. */
  lemma EraFloors(y: int)
    ensures Quot(if y >= 0 then y else y - 399, 400) == y / 400
  {
    if y < 0 {
      assert -(y - 399) == 400 * (-(y / 400)) + (399 - y % 400);
    }
  }

  lemma Mod4(k: int, y: int)
    ensures (4 * k + y) % 4 == y % 4
  {
  }

  lemma Mod100(k: int, y: int)
    ensures (100 * k + y) % 100 == y % 100
  {
  }

  lemma Mod400(k: int, y: int)
    ensures (400 * k + y) % 400 == y % 400
  {
  }

  /** Leap years repeat every 400 years. */
  lemma LeapInEra(era: int, y: nat)
    ensures IsLeap(400 * era + y) == IsLeap(y)
  {
    Mod4(100 * era, y);
    Mod100(4 * era, y);
    Mod400(era, y);
  }

  /** Every intermediate of from_days() is the exact mathematical value, in the range the code comments give. */
  lemma FromDaysLocalsExact(n: int32)
    requires ShiftFits(n)
    ensures var l := FromDaysRun(n);
            && l.z == n + 719468 == 146097 * l.era + l.doe && 0 <= l.doe <= 146096
            && l.yoe == YearOfEra(l.doe) && 0 <= l.yoe <= 399
            && l.y == l.yoe + 400 * l.era
            && l.doy == l.doe - DayOfEra(l.yoe, 0) && 0 <= l.doy <= 365 && MarchDay(l.yoe, l.doy)
            && l.mp == (5 * l.doy + 2) / 153 && 0 <= l.mp <= 11
            && l.d == l.doy - MonthStart(l.mp) + 1 && 1 <= l.d <= 31
            && l.m == (if l.mp < 10 then l.mp + 3 else l.mp - 9) && 1 <= l.m <= 12
  {
    var l := FromDaysRun(n);
    EraOfDay(n);
    DayOfEraSplits(l.doe);
    YearOfDay(n);
    MonthOfRun(n);
    hide FromDaysRun, DayOfEra, YearOfEra;
  }

  lemma EraOfDay(n: int32)
    requires ShiftFits(n)
    ensures var l := FromDaysRun(n);
            l.z == n + 719468 == 146097 * l.era + l.doe && 0 <= l.doe <= 146096 && -14699 <= l.era <= 14699
  {
    var l := FromDaysRun(n);
    assert l.z == n + 719468;
    assert l.era == l.z / 146097;
    assert l.doe == l.z % 146097;
  }

  lemma YearOfDay(n: int32)
    requires var l := FromDaysRun(n);
             l.doe <= 146096 && -14699 <= l.era <= 14699
             && 0 <= YearOfEra(l.doe) < 400 && DayOfEra(YearOfEra(l.doe), 0) <= l.doe
    ensures var l := FromDaysRun(n);
            && l.yoe == YearOfEra(l.doe) && l.y == l.yoe + 400 * l.era && l.doy == l.doe - DayOfEra(l.yoe, 0)
  {
    var l := FromDaysRun(n);
    assert l.doe / 1460 <= l.doe && l.doe / 36524 <= 4 && l.doe / 146096 <= 1;
  }

  lemma MonthOfRun(n: int32)
    requires FromDaysRun(n).doy <= 365
    ensures var l := FromDaysRun(n);
            && l.mp == (5 * l.doy + 2) / 153 && 0 <= l.mp <= 11
            && l.d == l.doy - MonthStart(l.mp) + 1 && 1 <= l.d <= 31
            && l.m == (if l.mp < 10 then l.mp + 3 else l.mp - 9) && 1 <= l.m <= 12
  {
  }

  // ---------------------------------------------------------------------------
  // Dates and day numbers are in bijection
  // ---------------------------------------------------------------------------

  /** The month formula finds the month a day of the year lies in. */
  lemma MonthInverts(d: Date)
    requires Ok(d)
    ensures (5 * DayOfYear(d) + 2) / 153 == FromMarch(d.month)
  {
    MonthTable(d);
  }

  /** A day of a March-based year, read back as month and day, is a date of the calendar. */
  lemma MonthSplits(y: int, doy: nat)
    requires doy <= (if IsLeap(y + 1) then 365 else 364)
    ensures var mp := (5 * doy + 2) / 153;
            var m := if mp < 10 then mp + 3 else mp - 9;
            var d := doy - MonthStart(mp) + 1;
            && 0 <= mp <= 11 && 1 <= d <= LastDay(y + (if m <= 2 then 1 else 0), m)
            && FromMarch(m) == mp
  {
    var mp := (5 * doy + 2) / 153;
    assert MonthStart(mp) <= doy < MonthStart(mp + 1);
  }

  /** Day numbers of the calendar, by era, year and day of the year. */
  lemma EraBounds(era: int, yoe: nat, doy: nat)
    requires -32768 <= 400 * era + yoe <= 32767 && yoe <= 399 && doy <= 365
    requires 400 * era + yoe == -32768 ==> 306 <= doy
    requires 400 * era + yoe == 32767 ==> doy <= 305
    ensures InCalendar(era * 146097 + DayOfEra(yoe, doy) - 719468)
  {
  }

  lemma ToDaysBounds(d: Date)
    requires Ok(d)
    ensures InCalendar(ToDays(d))
    ensures ShiftFits(ToDays(d))
  {
    ToDaysLocalsExact(d);
    MonthTable(d);
    var l := ToDaysRun(d);
    EraBounds(l.era, l.yoe, l.doy);
  }

  lemma EndsOfCalendar()
    ensures ToDays(FIRST_DATE) == FIRST_DAY && ToDays(LAST_DATE) == LAST_DAY && ToDays(EPOCH) == 0
  {
    assert ToDaysRun(FIRST_DATE) == ToDaysLocals(-32768, -82, 32, 306, 11994, -12687428);
    assert ToDaysRun(LAST_DATE) == ToDaysLocals(32767, 81, 367, 305, 134348, 11248737);
    assert ToDaysRun(EPOCH) == ToDaysLocals(1969, 4, 369, 306, 135080, 0);
  }

  /** A day number splits into era and day of the era in one way. */
  lemma SameEra(era: int, doe: nat, era': int, doe': nat)
    requires era * 146097 + doe == era' * 146097 + doe' && doe <= 146096 && doe' <= 146096
    ensures era == era' && doe == doe'
  {
  }

  /** Era, year of the era and day of the year of a date. */
  ghost predicate Located(d: Date, era: int, yoe: nat, doy: nat) {
    MonthOk(d.month) && MarchYear(d) == 400 * era + yoe && doy == DayOfYear(d) && MarchDay(yoe, doy)
  }

  function EraDay(era: int, yoe: nat, doy: nat): int {
    era * 146097 + DayOfEra(yoe, doy) - 719468
  }

  lemma LocateDate(d: Date) returns (era: int, yoe: nat, doy: nat)
    requires Ok(d)
    ensures Located(d, era, yoe, doy) && ToDays(d) == EraDay(era, yoe, doy)
  {
    ToDaysLocalsExact(d);
    var l := ToDaysRun(d);
    era, yoe, doy := l.era, l.yoe, l.doy;
  }

  lemma LocateDay(n: int32) returns (era: int, yoe: nat, doy: nat)
    requires InCalendar(n)
    ensures n == EraDay(era, yoe, doy) && Ok(FromDays(n)) && Located(FromDays(n), era, yoe, doy)
  {
    FromDaysLocalsExact(n);
    var b := FromDaysRun(n);
    hide FromDaysRun, YearOfEra;
    era, yoe, doy := b.era, b.yoe, b.doy;
    assert n == EraDay(era, yoe, doy);
    EndsOfCalendar();
    YearInCalendar(era, yoe, doy);
    DateOfParts(era, yoe, doy, FromDays(n));
  }

  /** A date put together from a day of the year is a date of the calendar, found at that day. */
  lemma DateOfParts(era: int, yoe: nat, doy: nat, d: Date)
    requires MarchDay(yoe, doy) && -32768 <= 400 * era + yoe <= 32767
    requires 400 * era + yoe == -32768 ==> 306 <= doy
    requires 400 * era + yoe == 32767 ==> doy <= 305
    requires var mp := (5 * doy + 2) / 153;
             var m := if mp < 10 then mp + 3 else mp - 9;
             d.year == I16(400 * era + yoe + (if m <= 2 then 1 else 0)) && d.month == U8(m)
             && d.day == U8(doy - MonthStart(mp) + 1)
    ensures Ok(d) && Located(d, era, yoe, doy)
  {
    var y := 400 * era + yoe;
    var mp := (5 * doy + 2) / 153;
    LeapInEra(era, yoe + 1);
    MonthSplits(y, doy);
    assert MonthStart(9) == 275 && MonthStart(10) == 306;
    assert mp <= 9 <==> doy <= 305;
  }

  lemma SameDay(d: Date, d': Date, era: int, yoe: nat, doy: nat, era': int, yoe': nat, doy': nat)
    requires Ok(d) && Ok(d') && Located(d, era, yoe, doy) && Located(d', era', yoe', doy')
    requires EraDay(era, yoe, doy) == EraDay(era', yoe', doy')
    ensures d == d'
  {
    YearOfEraInverts(yoe, doy);
    YearOfEraInverts(yoe', doy');
    SameEra(era, DayOfEra(yoe, doy), era', DayOfEra(yoe', doy'));
    MonthInverts(d);
    MonthInverts(d');
  }

  /** from_days() undoes to_days() on every date of the calendar. */
  lemma FromDaysOfToDays(d: Date)
    requires Ok(d)
    ensures FromDays(ToDays(d)) == d
  {
    var n := ToDays(d);
    ToDaysBounds(d);
    EndsOfCalendar();
    var era, yoe, doy := LocateDate(d);
    var era', yoe', doy' := LocateDay(n);
    SameDay(d, FromDays(n), era, yoe, doy, era', yoe', doy');
  }

  /** On the day numbers of the calendar from_days() yields a date of the calendar that to_days() maps back. */
  lemma ToDaysOfFromDays(n: int32)
    requires InCalendar(n)
    ensures Ok(FromDays(n)) && ToDays(FromDays(n)) == n
  {
    var d := FromDays(n);
    var era, yoe, doy := LocateDay(n);
    var era', yoe', doy' := LocateDate(d);
    assert era == era' && yoe == yoe';
  }

  lemma YearInCalendar(era: int, yoe: nat, doy: nat)
    requires InCalendar(EraDay(era, yoe, doy))
    requires yoe <= 399 && doy <= 365
    ensures -32768 <= 400 * era + yoe <= 32767
    ensures 400 * era + yoe == -32768 ==> 306 <= doy
    ensures 400 * era + yoe == 32767 ==> doy <= 305
  {
  }

  /** Exactly the day numbers of the calendar survive from_days() and back; beyond them the `short` year wraps. */
  lemma RoundTripExactlyInCalendar(n: int32)
    requires ShiftFits(n)
    ensures Ok(FromDays(n)) && ToDays(FromDays(n)) == n <==> InCalendar(n)
  {
    EndsOfCalendar();
    if InCalendar(n) {
      ToDaysOfFromDays(n);
    } else if Ok(FromDays(n)) {
      ToDaysBounds(FromDays(n));
    }
  }

  // ---------------------------------------------------------------------------
  // The closed forms refine a calendar turned one day at a time
  // ---------------------------------------------------------------------------

  function Next(d: Date): Date {
    if d.day < LastDay(d.year, d.month) then d.(day := d.day + 1)
    else if d.month < 12 then Date(d.year, d.month + 1, 1)
    else Date(I16(d.year + 1), 1, 1)
  }

  function Previous(d: Date): Date {
    if d.day > 1 then d.(day := d.day - 1)
    else if d.month > 1 then Date(d.year, d.month - 1, LastDay(d.year, d.month - 1))
    else Date(I16(d.year - 1), 12, 31)
  }

  lemma PreviousOfNext(d: Date)
    requires Ok(d) && d != LAST_DATE
    ensures Ok(Next(d)) && Next(d) != FIRST_DATE && Previous(Next(d)) == d
  {
  }

  /** March 1st follows the last day of the March-based year. */
  lemma YearTurns(era: int, yoe: nat)
    requires yoe < 400
    ensures var last := if IsLeap(yoe + 1) then 365 else 364;
            EraDay(era, yoe, last) + 1 == if yoe == 399 then EraDay(era + 1, 0, 0) else EraDay(era, yoe + 1, 0)
  {
    assert yoe == 4 * (yoe / 4) + yoe % 4 && yoe == 100 * (yoe / 100) + yoe % 100;
  }

  /** Turning the page moves one day on in the March-based year, or from its last day to the first of the next. */
  lemma NextDayOfYear(d: Date)
    requires Ok(d) && d != LAST_DATE
    ensures var d' := Next(d);
            || (MarchYear(d') == MarchYear(d) && DayOfYear(d') == DayOfYear(d) + 1)
            || (MarchYear(d') == MarchYear(d) + 1 && DayOfYear(d') == 0
                && DayOfYear(d) == if IsLeap(MarchYear(d) + 1) then 365 else 364)
  {
    PreviousOfNext(d);
    MonthTable(d);
    MonthTable(Next(d));
  }

  lemma NextCounts(d: Date)
    requires Ok(d) && d != LAST_DATE
    ensures Ok(Next(d)) && ToDays(Next(d)) == ToDays(d) + 1
  {
    hide ToDays;
    PreviousOfNext(d);
    NextDayOfYear(d);
    var era, yoe, doy := LocateDate(d);
    var era', yoe', doy' := LocateDate(Next(d));
    LeapInEra(era, yoe + 1);
    YearTurns(era, yoe);
    YearSplits(era, yoe, era', yoe');
  }

  lemma YearSplits(era: int, yoe: nat, era': int, yoe': nat)
    requires yoe < 400 && yoe' < 400
    ensures 400 * era + yoe == 400 * era' + yoe' ==> era == era' && yoe == yoe'
    ensures 400 * era + yoe + 1 == 400 * era' + yoe' ==>
              if yoe == 399 then era' == era + 1 && yoe' == 0 else era' == era && yoe' == yoe + 1
    ensures 400 * era + yoe < 400 * era' + yoe' ==> era < era' || (era == era' && yoe < yoe')
  {
  }

  /** Consecutive day numbers are consecutive pages. */
  lemma FromDaysSteps(n: int32)
    requires InCalendar(n) && InCalendar(n + 1)
    ensures FromDays(n) != LAST_DATE && FromDays(n + 1) == Next(FromDays(n)) && FromDays(n) == Previous(FromDays(n + 1))
  {
    hide FromDays, ToDays;
    EndsOfCalendar();
    ToDaysOfFromDays(n);
    var d := FromDays(n);
    NextCounts(d);
    FromDaysOfToDays(Next(d));
    PreviousOfNext(d);
  }

  /** The date n days from 1970-01-01, found by turning the calendar n times. */
  ghost function Walk(n: int): Date
    decreases if n >= 0 then n else -n
  {
    if n == 0 then EPOCH else if n > 0 then Next(Walk(n - 1)) else Previous(Walk(n + 1))
  }

  lemma {:induction false} FromDaysWalks(n: int32)
    requires InCalendar(n)
    ensures FromDays(n) == Walk(n)
    decreases if n >= 0 then n else -n
  {
    hide FromDays, ToDays;
    EndsOfCalendar();
    if n > 0 {
      FromDaysSteps(n - 1);
      FromDaysWalks(n - 1);
    } else if n < 0 {
      FromDaysSteps(n);
      FromDaysWalks(n + 1);
    } else {
      FromDaysOfToDays(EPOCH);
    }
  }

  /** to_days() is the one count of turns that leads from 1970-01-01 to the date. */
  lemma ToDaysCountsTurns(d: Date, n: int)
    requires Ok(d) && InCalendar(n)
    ensures Walk(n) == d <==> n == ToDays(d)
  {
    EndsOfCalendar();
    ToDaysBounds(d);
    FromDaysWalks(n);
    ToDaysOfFromDays(n);
    FromDaysOfToDays(d);
  }

  /** Day numbers order dates as operator< does. */
  lemma ToDaysMonotone(x: Date, y: Date)
    requires Ok(x) && Ok(y)
    ensures Before(x, y) <==> ToDays(x) < ToDays(y)
  {
    if Before(x, y) {
      BeforeCounts(x, y);
    } else if x != y {
      BeforeCounts(y, x);
    }
  }

  lemma BeforeCounts(x: Date, y: Date)
    requires Ok(x) && Ok(y) && Before(x, y)
    ensures ToDays(x) < ToDays(y)
  {
    hide ToDays;
    var era, yoe, doy := LocateDate(x);
    var era', yoe', doy' := LocateDate(y);
    MarchOrder(x, y);
    YearSplits(era, yoe, era', yoe');
    YearOfEraInverts(yoe, doy);
    YearOfEraInverts(yoe', doy');
    if era == era' && yoe < yoe' {
      YearsOrdered(era, yoe, doy, yoe');
    }
  }

  lemma YearsOrdered(era: int, yoe: nat, doy: nat, yoe': nat)
    requires yoe < yoe' < 400 && MarchDay(yoe, doy)
    ensures DayOfEra(yoe, doy) < DayOfEra(yoe', 0)
  {
    YearTurns(era, yoe);
    var a, b := yoe + 1, yoe';
    assert a / 4 <= b / 4 && b / 100 <= 3;
  }

  lemma MarchOrder(x: Date, y: Date)
    requires Ok(x) && Ok(y) && Before(x, y)
    ensures MarchYear(x) < MarchYear(y) || (MarchYear(x) == MarchYear(y) && DayOfYear(x) < DayOfYear(y))
  {
    MonthTable(x);
    MonthTable(y);
  }

  // ---------------------------------------------------------------------------
  // Months are runs of consecutive day numbers
  // ---------------------------------------------------------------------------

  lemma DayInMonth(y: short, m: uchar, d: uchar)
    requires Ok(Date(y, m, d))
    ensures Ok(Date(y, m, 1)) && ToDays(Date(y, m, d)) == ToDays(Date(y, m, 1)) + d - 1
  {
    hide ToDays;
    var era, yoe, doy := LocateDate(Date(y, m, d));
    var era', yoe', doy' := LocateDate(Date(y, m, 1));
    YearSplits(era, yoe, era', yoe');
  }

  /** The month of a day number is the one whose first and last day enclose it. */
  lemma MonthOfDay(n: int32, y: short, m: uchar)
    requires InCalendar(n) && YearOk(y) && MonthOk(m)
    ensures FromDays(n).year == y && FromDays(n).month == m
            <==> ToDays(Date(y, m, 1)) <= n <= ToDays(Date(y, m, LastDay(y, m)))
    ensures FromDays(n).year == y && FromDays(n).month == m ==> n == ToDays(Date(y, m, 1)) + FromDays(n).day - 1
  {
    hide ToDays, FromDays;
    var d := FromDays(n);
    ToDaysOfFromDays(n);
    var first := ToDays(Date(y, m, 1));
    DayInMonth(y, m, LastDay(y, m));
    if d.year == y && d.month == m {
      DayInMonth(y, m, d.day);
    }
    if first <= n <= ToDays(Date(y, m, LastDay(y, m))) {
      var k := n - first + 1;
      DayInMonth(y, m, k);
      FromDaysOfToDays(Date(y, m, k));
    }
  }
}
