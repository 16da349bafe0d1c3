/**
 Weekdays of utils/date.h: the weekday of a day number, arithmetic modulo seven, and the
 n-th and the last weekday of a month. 0 is Sunday.
 */
module Weekdays {
  import opened MachineInts
  import opened Civil

  const SUNDAY: uchar := 0
  const MONDAY: uchar := 1
  const THURSDAY: uchar := 4

  /** weekday::weekday_from_days(): the sum is taken on `unsigned`, where -1 is 2^32 - 1. */
  function WeekdayFromDays(z: int32): uchar {
    var u := U32(z);
    U8(if z >= -4 then U32(u + 4) % 7 else u % 7)
  }

  predicate WeekdayOk(w: uchar) { w <= 6 }

  /** weekday(unsigned), which takes 7 for Sunday too */
  function MakeWeekday(w: uint32): uchar {
    U8(if w != 7 then w else 0)
  }

  /** operator-(weekday, weekday) */
  function Diff(x: uchar, y: uchar): int {
    var wdu := x - y;
    wdu - Quot(if wdu >= 0 then wdu else wdu - 6, 7) * 7
  }

  /** operator+(weekday, days) */
  function Plus(x: uchar, n: int32): uchar {
    var wdu := x + n;
    MakeWeekday(U32(wdu - Quot(if wdu >= 0 then wdu else wdu - 6, 7) * 7))
  }

  /** weekday_indexed keeps weekday and index in four bits each. */
  type nibble = b: int | 0 <= b <= 15

  /** year_month_weekday */
  datatype NthWeekday = NthWeekday(year: short, month: uchar, weekday: nibble, index: nibble)

  /** year_month_weekday_last */
  datatype LastWeekday = LastWeekday(year: short, month: uchar, weekday: uchar)

  function FirstOf(y: short, m: uchar): int32 {
    ToDays(Date(y, m, 1))
  }

  function LastOf(y: short, m: uchar): int32 {
    ToDays(Date(y, m, LastDay(y, m)))
  }

  /** year_month_weekday::ok() */
  predicate NthOk(w: NthWeekday) {
    if !YearOk(w.year) || !MonthOk(w.month) || !WeekdayOk(w.weekday) || w.index < 1 then false
    else if w.index <= 4 then true
    else
      var d2 := Diff(w.weekday, WeekdayFromDays(FirstOf(w.year, w.month))) + ((w.index - 1) * 7 + 1);
      U32(d2) <= LastDay(w.year, w.month)
  }

  /** year_month_weekday::to_days() */
  function NthToDays(w: NthWeekday): int {
    var d := FirstOf(w.year, w.month);
    d + (Diff(w.weekday, WeekdayFromDays(d)) + I32(U32((w.index - 1) * 7)))
  }

  /** year_month_weekday::from_days() */
  function NthFromDays(n: int32): NthWeekday {
    var d := FromDays(n);
    NthWeekday(d.year, d.month, WeekdayFromDays(n) % 16, U32(U32(d.day - 1) / 7 + 1) % 16)
  }

  /** year_month_weekday_last::ok() */
  predicate LastOk(w: LastWeekday) {
    YearOk(w.year) && MonthOk(w.month) && WeekdayOk(w.weekday)
  }

  /** year_month_weekday_last::to_days() */
  function LastToDays(w: LastWeekday): int {
    var d := LastOf(w.year, w.month);
    d - Diff(WeekdayFromDays(d), w.weekday)
  }

  // ---------------------------------------------------------------------------
  // Weekdays count modulo seven
  // ---------------------------------------------------------------------------

  /** On every `int`, negative ones included, the weekday is the day number modulo 7, Thursday at 1970-01-01. */
  lemma WeekdayIsMod7(z: int32)
    ensures WeekdayFromDays(z) == (z + 4) % 7
  {
    if z < -4 {
      var u := U32(z);
      assert u == z + 0x1_0000_0000;
      assert 0x1_0000_0000 == 7 * 613566756 + 4;
      assert u == (z + 4) + 7 * 613566756;
    }
  }

  lemma DiffIsMod7(x: uchar, y: uchar)
    ensures 0 <= Diff(x, y) <= 6 && Diff(x, y) == (x - y) % 7
  {
  }

  /** A weekday moves with the day number, forwards and backwards. */
  lemma WeekdayMoves(z: int32, n: int32)
    requires -0x8000_0000 <= z + n <= 0x7fff_ffff
    ensures Plus(WeekdayFromDays(z), n) == WeekdayFromDays(z + n)
  {
    WeekdayIsMod7(z);
    WeekdayIsMod7(z + n);
    var wdu := WeekdayFromDays(z) + n;
    FloorSeven(wdu);
    assert wdu == z + n + 4 - 7 * ((z + 4) / 7);
    ModSeven(z + n + 4, (z + 4) / 7);
  }

  lemma FloorSeven(x: int)
    ensures x - Quot(if x >= 0 then x else x - 6, 7) * 7 == x % 7
  {
    if x < 0 {
      assert -(x - 6) == 7 * (-(x / 7)) + (6 - x % 7);
    }
  }

  lemma ModSeven(x: int, k: int)
    ensures (x - 7 * k) % 7 == x % 7
  {
  }

  // ---------------------------------------------------------------------------
  // The n-th and the last weekday of a month
  // ---------------------------------------------------------------------------

  predicate FallsOn(n: int, w: uchar) {
    (n + 4) % 7 == w
  }

  /** Day n is the index-th day of the month that falls on the weekday. */
  ghost predicate IsNth(n: int, w: NthWeekday)
    requires YearOk(w.year) && MonthOk(w.month)
  {
    && FirstOf(w.year, w.month) <= n <= LastOf(w.year, w.month)
    && FallsOn(n, w.weekday)
    && n - 7 * w.index < FirstOf(w.year, w.month) <= n - 7 * (w.index - 1)
  }

  lemma MonthEnds(y: short, m: uchar)
    requires YearOk(y) && MonthOk(m)
    ensures FirstOf(y, m) + LastDay(y, m) - 1 == LastOf(y, m)
    ensures 28 <= LastDay(y, m) <= 31
    ensures InCalendar(FirstOf(y, m)) && InCalendar(LastOf(y, m))
  {
    hide ToDays;
    DayInMonth(y, m, LastDay(y, m));
    ToDaysBounds(Date(y, m, 1));
    ToDaysBounds(Date(y, m, LastDay(y, m)));
  }

  /** Where the index-th weekday lies, counted from the first of the month. */
  lemma NthOffset(w: NthWeekday)
    requires YearOk(w.year) && MonthOk(w.month) && WeekdayOk(w.weekday) && 1 <= w.index
    ensures var k := NthToDays(w) - FirstOf(w.year, w.month) - 7 * (w.index - 1);
            0 <= k <= 6 && (FirstOf(w.year, w.month) + k + 4) % 7 == w.weekday
  {
    var first := FirstOf(w.year, w.month);
    WeekdayIsMod7(first);
    DiffIsMod7(w.weekday, WeekdayFromDays(first));
    NextOnWeekday(first + 4, w.weekday);
  }

  lemma NextOnWeekday(x: int, w: uchar)
    requires w <= 6
    ensures (x + (w - x % 7) % 7) % 7 == w
  {
    if w >= x % 7 {
      assert x + (w - x % 7) == 7 * (x / 7) + w;
    } else {
      assert x + (w - x % 7 + 7) == 7 * (x / 7 + 1) + w;
    }
  }

  lemma SameWeekday(a: int, b: int)
    requires a % 7 == b % 7 && -6 <= a - b <= 6
    ensures a == b
  {
  }

  /** ok() accepts exactly the index whose weekday exists in the month, and to_days() is that day. */
  lemma NthOkExactlyWhenItExists(w: NthWeekday)
    requires YearOk(w.year) && MonthOk(w.month) && WeekdayOk(w.weekday) && 1 <= w.index
    ensures NthOk(w) <==> IsNth(NthToDays(w), w)
    ensures forall n: int :: IsNth(n, w) ==> n == NthToDays(w)
  {
    hide ToDays;
    var first := FirstOf(w.year, w.month);
    var day := NthToDays(w);
    MonthEnds(w.year, w.month);
    NthOffset(w);
    var k := day - first - 7 * (w.index - 1);
    assert day + 4 == (first + k + 4) - 7 * (1 - w.index);
    ModSeven(first + k + 4, 1 - w.index);
    DiffIsMod7(w.weekday, WeekdayFromDays(first));
    assert k == Diff(w.weekday, WeekdayFromDays(first));
    forall n: int | IsNth(n, w)
      ensures n == day
    {
      SameWeekday(n + 4, day + 4);
    }
  }

  /** Every day of the calendar is the n-th of its weekday, and is found again from that. */
  lemma NthRoundTrip(n: int32)
    requires InCalendar(n)
    ensures var w := NthFromDays(n);
            w.index >= 1 && NthOk(w) && NthToDays(w) == n && FallsOn(n, w.weekday) && w.index <= 5
  {
    hide ToDays, FromDays;
    var d := FromDays(n);
    var w := NthFromDays(n);
    ToDaysOfFromDays(n);
    MonthTable(d);
    WeekdayIsMod7(n);
    MonthOfDay(n, d.year, d.month);
    assert IsNth(n, w);
    NthOkExactlyWhenItExists(w);
  }

  /** An accepted n-th weekday is the one its day number is turned back into. */
  lemma NthRoundTripBack(w: NthWeekday)
    requires NthOk(w)
    ensures InCalendar(NthToDays(w)) && NthFromDays(NthToDays(w)) == w
  {
    hide ToDays, FromDays, NthOk, NthToDays;
    NthOkIsOk(w);
    NthOkExactlyWhenItExists(w);
    var n := NthToDays(w);
    MonthEnds(w.year, w.month);
    MonthOfDay(n, w.year, w.month);
    WeekdayIsMod7(n);
    var d := FromDays(n);
    ToDaysOfFromDays(n);
    MonthTable(d);
  }

  lemma NthOkIsOk(w: NthWeekday)
    requires NthOk(w)
    ensures YearOk(w.year) && MonthOk(w.month) && WeekdayOk(w.weekday) && 1 <= w.index
  {
  }

  /** weekday[last] is in the month, on the weekday, and no later day of the month is. */
  lemma LastIsLast(w: LastWeekday)
    requires LastOk(w)
    ensures var n := LastToDays(w);
            && FirstOf(w.year, w.month) <= n <= LastOf(w.year, w.month) < n + 7
            && FallsOn(n, w.weekday) && WeekdayFromDays(n) == w.weekday
            && InCalendar(n) && FromDays(n).year == w.year && FromDays(n).month == w.month
            && forall n': int :: n < n' <= LastOf(w.year, w.month) ==> !FallsOn(n', w.weekday)
  {
    hide ToDays, FromDays;
    var last := LastOf(w.year, w.month);
    var n := LastToDays(w);
    MonthEnds(w.year, w.month);
    WeekdayIsMod7(last);
    DiffIsMod7(WeekdayFromDays(last), w.weekday);
    PreviousOnWeekday(last + 4, w.weekday);
    WeekdayIsMod7(n);
    MonthOfDay(n, w.year, w.month);
    forall n': int | n < n' <= last
      ensures !FallsOn(n', w.weekday)
    {
      if FallsOn(n', w.weekday) {
        SameWeekday(n' + 4, n + 4);
      }
    }
  }

  lemma PreviousOnWeekday(x: int, w: uchar)
    requires w <= 6
    ensures (x - (x % 7 - w) % 7) % 7 == w
  {
    if x % 7 >= w {
      assert x - (x % 7 - w) == 7 * (x / 7) + w;
    } else {
      assert x - (x % 7 - w + 7) == 7 * (x / 7 - 1) + w;
    }
  }
}
