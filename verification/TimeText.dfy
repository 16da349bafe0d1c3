/**
 Instants split into calendar parts and written into templates, as utils/vp_utils.h does
 with utils/date.h. Instants are nanoseconds from 1970-01-01 00:00 UTC in 64 bits.
 */
module TimeText {
  import opened MachineInts
  import opened Civil
  import opened DateText

  type int64 = t: int | -0x8000_0000_0000_0000 <= t <= 0x7fff_ffff_ffff_ffff

  const NS_PER_HOUR := 3_600_000_000_000
  const NS_PER_DAY := 86_400_000_000_000
  const NS_PER_MS := 1_000_000
  const MS_PER_DAY := 86_400_000

  /** date::floor<days>: truncate, and step back if that went up. */
  function FloorDays(t: int): (q: int)
    ensures q * NS_PER_DAY <= t < (q + 1) * NS_PER_DAY
  {
    var q := Quot(t, NS_PER_DAY);
    if q * NS_PER_DAY > t then q - 1 else q
  }

  /** Conversion to a 64-bit signed integer. */
  function I64(x: int): int64 {
    if -0x8000_0000_0000_0000 <= x <= 0x7fff_ffff_ffff_ffff then x
    else (x + 0x8000_0000_0000_0000) % 0x1_0000_0000_0000_0000 - 0x8000_0000_0000_0000
  }

  /** tp - dp, on 64-bit nanoseconds. The day's nanoseconds do not fit for the first hours of the range. */
  function SinceMidnight(t: int64, dp: int): int64 {
    I64(t - I64(dp * NS_PER_DAY))
  }

  /** hh_mm_ss of a non-negative count of milliseconds */
  datatype TimeOfDay = TimeOfDay(hours: int, minutes: int, seconds: int, subseconds: int)

  function MakeTime(ms: nat): TimeOfDay {
    var h := Quot(ms, 3_600_000);
    var m := Quot(ms, 60_000) - h * 60;
    var rest := ms - h * 3_600_000 - m * 60_000;
    var s := Quot(rest, 1000);
    TimeOfDay(h, m, s, rest - s * 1000)
  }

  /** The seven parts of an instant in a zone: year, month, day, hour, minute, second, millisecond. */
  function Parts(t: int64): (p: seq<int>)
    requires InCalendar(FloorDays(t))
    ensures |p| == 7
  {
    var dp := FloorDays(t);
    var ymd := FromDays(dp);
    SinceMidnightExact(t);
    var tod := MakeTime(Quot(SinceMidnight(t, dp), NS_PER_MS));
    [ymd.year, ymd.month, ymd.day, tod.hours, tod.minutes, tod.seconds, tod.subseconds]
  }

  lemma FloorDaysIsFloor(t: int)
    ensures FloorDays(t) == t / NS_PER_DAY
  {
  }

  /** Every 64-bit instant lies in the years the calendar can count: 1677 to 2262. */
  lemma InstantInCalendar(t: int64)
    ensures InCalendar(FloorDays(t)) && -106752 <= FloorDays(t) <= 106751
  {
    FloorDaysIsFloor(t);
  }

  /** tp - dp is computed without overflow exactly from midnight of the first whole day of the range on, 106751 days
      before 1970. */
  lemma MidnightFitsExactly(t: int64)
    ensures -0x8000_0000_0000_0000 <= FloorDays(t) * NS_PER_DAY <= 0x7fff_ffff_ffff_ffff <==> t >= -106751 * NS_PER_DAY
    ensures t >= -106751 * NS_PER_DAY ==> I64(FloorDays(t) * NS_PER_DAY) == FloorDays(t) * NS_PER_DAY
  {
    InstantInCalendar(t);
  }

  /** Before that, 64-bit arithmetic that wraps gives the right difference all the same. */
  lemma SinceMidnightExact(t: int64)
    ensures SinceMidnight(t, FloorDays(t)) == t - FloorDays(t) * NS_PER_DAY
    ensures 0 <= SinceMidnight(t, FloorDays(t)) < NS_PER_DAY
  {
    MidnightFitsExactly(t);
    if t < -106751 * NS_PER_DAY {
      assert FloorDays(t) == -106752;
      assert I64(-106752 * NS_PER_DAY) == 9223371273709551616;
    }
  }

  /** The millisecond, counted from 1970, that an instant lies in. */
  function Millisecond(t: int): int {
    t / NS_PER_MS
  }

  /** The parts put together again. */
  function Recombine(p: seq<int>): int
    requires |p| == 7 && -0x8000 <= p[0] <= 0x7fff && 0 <= p[1] <= 255 && 0 <= p[2] <= 255
  {
    ToDays(Date(p[0], p[1], p[2])) * MS_PER_DAY + p[3] * 3_600_000 + p[4] * 60_000 + p[5] * 1000 + p[6]
  }

  predicate PartsOk(p: seq<int>) {
    && |p| == 7 && -0x8000 <= p[0] <= 0x7fff && 0 <= p[1] <= 255 && 0 <= p[2] <= 255
    && Ok(Date(p[0], p[1], p[2])) && 0 <= p[3] <= 23 && 0 <= p[4] <= 59 && 0 <= p[5] <= 59 && 0 <= p[6] <= 999
  }

  /** Valid parts that, put together, are the given millisecond */
  predicate PartsMake(p: seq<int>, ms: int) {
    PartsOk(p) && Recombine(p) == ms
  }

  lemma MakeTimeSplits(ms: nat)
    requires ms < MS_PER_DAY
    ensures var t := MakeTime(ms);
            && 0 <= t.hours <= 23 && 0 <= t.minutes <= 59 && 0 <= t.seconds <= 59 && 0 <= t.subseconds <= 999
            && t.hours * 3_600_000 + t.minutes * 60_000 + t.seconds * 1000 + t.subseconds == ms
  {
    var h := ms / 3_600_000;
    var inHour := ms - h * 3_600_000;
    assert ms / 60_000 == h * 60 + inHour / 60_000;
  }

  lemma MillisecondsOfDay(t: int, dp: int)
    requires dp == t / NS_PER_DAY
    ensures 0 <= t - dp * NS_PER_DAY && 0 <= (t - dp * NS_PER_DAY) / NS_PER_MS < MS_PER_DAY
    ensures dp * MS_PER_DAY + (t - dp * NS_PER_DAY) / NS_PER_MS == Millisecond(t)
  {
    assert t == (dp * MS_PER_DAY) * NS_PER_MS + (t - dp * NS_PER_DAY);
  }

  /** The parts are a calendar date and a time of day, and put together give the instant cut to milliseconds, before
      1970 too. */
  lemma PartsExact(t: int64)
    requires InCalendar(FloorDays(t))
    ensures PartsOk(Parts(t)) && Recombine(Parts(t)) == Millisecond(t)
  {
    hide FromDays, ToDays, MakeTime, SinceMidnight;
    var dp := FloorDays(t);
    FloorDaysIsFloor(t);
    SinceMidnightExact(t);
    MillisecondsOfDay(t, dp);
    MakeTimeSplits((t - dp * NS_PER_DAY) / NS_PER_MS);
    ToDaysOfFromDays(dp);
  }

  /** A zone of so many hours moves the millisecond by so many hours. */
  lemma ZoneShifts(t: int, zone: int)
    ensures 24 * NS_PER_HOUR == NS_PER_DAY == MS_PER_DAY * NS_PER_MS
    ensures Millisecond(t + zone * NS_PER_HOUR) == t / 1_000_000 + zone * 3_600_000
  {
    assert zone * NS_PER_HOUR == (zone * 3_600_000) * 1_000_000;
    ShiftedQuotient(t, zone * 3_600_000);
  }

  lemma ShiftedQuotient(t: int, k: int)
    ensures (t + k * 1_000_000) / 1_000_000 == t / 1_000_000 + k
  {
    var q, r := t / 1_000_000, t % 1_000_000;
    assert t + k * 1_000_000 == (q + k) * 1_000_000 + r;
  }

  /** utils::time_split: refills the vector with the seven parts of the zone-shifted instant. */
  method TimeSplit(tp: int64, zone: int) returns (parts: seq<int>)
    requires -0x8000_0000_0000_0000 <= tp + zone * NS_PER_HOUR <= 0x7fff_ffff_ffff_ffff
    ensures InCalendar(FloorDays(tp + zone * NS_PER_HOUR)) && parts == Parts(tp + zone * NS_PER_HOUR)
    ensures PartsOk(parts) && Recombine(parts) == tp / 1_000_000 + zone * 3_600_000
  {
    hide FromDays, ToDays, MakeTime, SinceMidnight;
    var t := tp + zone * NS_PER_HOUR;
    InstantInCalendar(t);
    FloorDaysIsFloor(t);
    var dp := FloorDays(t);
    var ymd := FromDays(dp);
    SinceMidnightExact(t);
    var time := MakeTime(Quot(SinceMidnight(t, dp), NS_PER_MS));
    parts := [];
    parts := parts + [ymd.year];
    parts := parts + [ymd.month];
    parts := parts + [ymd.day];
    parts := parts + [time.hours];
    parts := parts + [time.minutes];
    parts := parts + [time.seconds];
    parts := parts + [time.subseconds];
    PartsExact(t);
    ZoneShifts(tp, zone);
  }

  // ---------------------------------------------------------------------------
  // The order of the parts is the order of time
  // ---------------------------------------------------------------------------

  /** Lexicographic order of two vectors of the same length. */
  predicate LexLess(p: seq<int>, q: seq<int>)
    requires |p| == |q|
  {
    p != [] && (p[0] < q[0] || (p[0] == q[0] && LexLess(p[1..], q[1..])))
  }

  lemma LexOfSeven(p: seq<int>, q: seq<int>)
    requires |p| == |q| == 7
    ensures LexLess(p, q) <==> LexLess(p[..3], q[..3]) || (p[..3] == q[..3] && LexLess(p[3..], q[3..]))
  {
    assert p[..3] == [p[0], p[1], p[2]] && q[..3] == [q[0], q[1], q[2]];
    assert p[1..][1..][1..] == p[3..] && q[1..][1..][1..] == q[3..];
    assert LexLess(p, q) <==> p[0] < q[0] || (p[0] == q[0] && LexLess(p[1..], q[1..]));
    assert LexLess(p[1..], q[1..]) <==> p[1] < q[1] || (p[1] == q[1] && LexLess(p[1..][1..], q[1..][1..]));
    assert LexLess(p[1..][1..], q[1..][1..]) <==> p[2] < q[2] || (p[2] == q[2] && LexLess(p[3..], q[3..]));
    LexOfThree(p[..3], q[..3]);
  }

  lemma LexOfThree(p: seq<int>, q: seq<int>)
    requires |p| == |q| == 3
    ensures LexLess(p, q) <==> p[0] < q[0] || (p[0] == q[0] && (p[1] < q[1] || (p[1] == q[1] && p[2] < q[2])))
  {
    assert LexLess(p[1..], q[1..]) <==> p[1] < q[1] || (p[1] == q[1] && LexLess(p[1..][1..], q[1..][1..]));
    assert LexLess(p[1..][1..], q[1..][1..]) <==> p[2] < q[2];
  }

  lemma LexOfFour(p: seq<int>, q: seq<int>)
    requires |p| == |q| == 4
    ensures LexLess(p, q) <==>
            || p[0] < q[0]
            || (p[0] == q[0] && (p[1] < q[1] || (p[1] == q[1] && (p[2] < q[2] || (p[2] == q[2] && p[3] < q[3])))))
  {
    LexOfThree(p[1..], q[1..]);
  }

  lemma TimeOfDayOrder(a: seq<int>, b: seq<int>)
    requires |a| == |b| == 4 && 0 <= a[0] <= 23 && 0 <= a[1] <= 59 && 0 <= a[2] <= 59 && 0 <= a[3] <= 999
    requires 0 <= b[0] <= 23 && 0 <= b[1] <= 59 && 0 <= b[2] <= 59 && 0 <= b[3] <= 999
    ensures var x := a[0] * 3_600_000 + a[1] * 60_000 + a[2] * 1000 + a[3];
            var y := b[0] * 3_600_000 + b[1] * 60_000 + b[2] * 1000 + b[3];
            0 <= x < MS_PER_DAY && 0 <= y < MS_PER_DAY && (LexLess(a, b) <==> x < y)
  {
    LexOfFour(a, b);
  }

  /** Valid parts compare as the milliseconds they name. */
  lemma PartsOrder(p: seq<int>, q: seq<int>)
    requires PartsOk(p) && PartsOk(q)
    ensures LexLess(p, q) <==> Recombine(p) < Recombine(q)
  {
    hide ToDays, LexLess;
    var d, e := Date(p[0], p[1], p[2]), Date(q[0], q[1], q[2]);
    LexOfSeven(p, q);
    LexOfThree(p[..3], q[..3]);
    TimeOfDayOrder(p[3..], q[3..]);
    ToDaysMonotone(d, e);
    ToDaysMonotone(e, d);
    assert p[..3] == q[..3] <==> d == e;
  }

  /** Earlier parts, earlier instant: for every two instants. */
  lemma PartOrderIsTimeOrder(t: int64, u: int64)
    ensures InCalendar(FloorDays(t)) && InCalendar(FloorDays(u))
    ensures LexLess(Parts(t), Parts(u)) <==> Millisecond(t) < Millisecond(u)
  {
    hide Parts, Recombine, FloorDays;
    InstantInCalendar(t);
    InstantInCalendar(u);
    PartsExact(t);
    PartsExact(u);
    PartsOrder(Parts(t), Parts(u));
  }

  // ---------------------------------------------------------------------------
  // Templates
  // ---------------------------------------------------------------------------

  /** The text with fill characters on one side, up to the width. */
  ghost predicate Filled(r: string, str: string, width: nat, fill: char, fillLeft: bool) {
    var pad := seq(if width > |str| then width - |str| else 0, _ => fill);
    r == if fillLeft then pad + str else str + pad
  }

  /** The text keeps its place at one end, and fill characters stand at the other, as many as the width needs. */
  lemma FilledColumns(r: string, str: string, width: nat, fill: char, fillLeft: bool)
    requires Filled(r, str, width, fill, fillLeft)
    ensures |r| == if width > |str| then width else |str|
    ensures (if fillLeft then r[|r| - |str|..] else r[..|str|]) == str
    ensures var pad := if fillLeft then r[..|r| - |str|] else r[|str|..];
            forall i :: 0 <= i < |pad| ==> pad[i] == fill
  {
    var pad := seq(if width > |str| then width - |str| else 0, _ => fill);
    if fillLeft {
      assert r[..|r| - |str|] == pad;
    } else {
      assert r[|str|..] == pad;
    }
  }

  /** utils::set_width_and_fill */
  method SetWidthAndFill(str: string, width: nat, fill: char, fillLeft: bool) returns (r: string)
    ensures Filled(r, str, width, fill, fillLeft)
    ensures fill == '0' && fillLeft ==> r == ZeroFill(str, width)
  {
    r := str;
    ghost var n := 0;
    while |r| < width
      invariant |r| == |str| + n && |r| <= (if width > |str| then width else |str|)
      invariant r == if fillLeft then seq(n, _ => fill) + str else str + seq(n, _ => fill)
      invariant fill == '0' && fillLeft ==> ZeroFill(r, width) == ZeroFill(str, width)
    {
      if fillLeft {
        r := [fill] + r;
        assert [fill] + seq(n, _ => fill) == seq(n + 1, _ => fill);
      } else {
        r := r + [fill];
        assert seq(n, _ => fill) + [fill] == seq(n + 1, _ => fill);
      }
      n := n + 1;
    }
  }

  /** std::regex_replace for a literal pattern */
  function ReplaceAll(s: string, pattern: string, fill: string): string
    requires pattern != []
    decreases |s|
  {
    if |s| < |pattern| then s
    else if s[..|pattern|] == pattern then fill + ReplaceAll(s[|pattern|..], pattern, fill)
    else [s[0]] + ReplaceAll(s[1..], pattern, fill)
  }

  const KEYWORDS: seq<string> := ["<year>", "<mon>", "<day>", "<hour>", "<min>", "<sec>", "<mili>"]

  /** Text of each part: the year as it is, the others filled to two digits, milliseconds to three. */
  function Field(k: nat, n: int): string {
    if k == 0 then Decimal(n) else ZeroFill(Decimal(n), if k == 6 then 3 else 2)
  }

  /** The seven replacements, one after the other. */
  function ReplaceFrom(s: string, parts: seq<int>, k: nat): string
    requires |parts| == 7 && k <= 7
    decreases 7 - k
  {
    if k == 7 then s else ReplaceFrom(ReplaceAll(s, KEYWORDS[k], Field(k, parts[k])), parts, k + 1)
  }

  /** utils::time_format */
  method TimeFormat(tp: int64, template: string, zone: int) returns (s: string)
    requires -0x8000_0000_0000_0000 <= tp + zone * NS_PER_HOUR <= 0x7fff_ffff_ffff_ffff
    ensures InCalendar(FloorDays(tp + zone * NS_PER_HOUR))
    ensures s == ReplaceFrom(template, Parts(tp + zone * NS_PER_HOUR), 0)
    ensures PartsMake(Parts(tp + zone * NS_PER_HOUR), tp / 1_000_000 + zone * 3_600_000)
    ensures template == DEFAULT_TEMPLATE ==> SpellsInstant(s, tp / 1_000_000 + zone * 3_600_000)
  {
    hide Parts, ReplaceAll, Recombine, FloorDays, Filled, ReplaceFrom, PartsOk, PartsMake;
    hide ToDays, SpellsInstant, DEFAULT_TEMPLATE;
    var t := tp + zone * NS_PER_HOUR;
    var parts := TimeSplit(t, 0);
    s := ReplaceAll(template, "<year>", Decimal(parts[0]));
    var mon := SetWidthAndFill(Decimal(parts[1]), 2, '0', true);
    s := ReplaceAll(s, "<mon>", mon);
    var day := SetWidthAndFill(Decimal(parts[2]), 2, '0', true);
    s := ReplaceAll(s, "<day>", day);
    var hour := SetWidthAndFill(Decimal(parts[3]), 2, '0', true);
    s := ReplaceAll(s, "<hour>", hour);
    var min := SetWidthAndFill(Decimal(parts[4]), 2, '0', true);
    s := ReplaceAll(s, "<min>", min);
    var sec := SetWidthAndFill(Decimal(parts[5]), 2, '0', true);
    s := ReplaceAll(s, "<sec>", sec);
    var mili := SetWidthAndFill(Decimal(parts[6]), 3, '0', true);
    s := ReplaceAll(s, "<mili>", mili);
    SevenReplacements(template, parts);
    DefaultFormatted(tp, template, zone);
    ShiftedParts(tp, zone);
  }

  lemma SevenReplacements(s0: string, parts: seq<int>)
    requires |parts| == 7
    ensures var s1 := ReplaceAll(s0, "<year>", Field(0, parts[0]));
            var s2 := ReplaceAll(s1, "<mon>", Field(1, parts[1]));
            var s3 := ReplaceAll(s2, "<day>", Field(2, parts[2]));
            var s4 := ReplaceAll(s3, "<hour>", Field(3, parts[3]));
            var s5 := ReplaceAll(s4, "<min>", Field(4, parts[4]));
            var s6 := ReplaceAll(s5, "<sec>", Field(5, parts[5]));
            ReplaceFrom(s0, parts, 0) == ReplaceAll(s6, "<mili>", Field(6, parts[6]))
  {
    hide ReplaceAll, Field;
    var s1 := ReplaceAll(s0, "<year>", Field(0, parts[0]));
    var s2 := ReplaceAll(s1, "<mon>", Field(1, parts[1]));
    var s3 := ReplaceAll(s2, "<day>", Field(2, parts[2]));
    assert ReplaceFrom(s0, parts, 0) == ReplaceFrom(s1, parts, 1);
    assert ReplaceFrom(s1, parts, 1) == ReplaceFrom(s2, parts, 2) == ReplaceFrom(s3, parts, 3);
    var s4 := ReplaceAll(s3, "<hour>", Field(3, parts[3]));
    var s5 := ReplaceAll(s4, "<min>", Field(4, parts[4]));
    assert ReplaceFrom(s3, parts, 3) == ReplaceFrom(s4, parts, 4) == ReplaceFrom(s5, parts, 5);
  }

  // ---------------------------------------------------------------------------
  // Seven replacements in turn are one substitution
  // ---------------------------------------------------------------------------

  /** A template, taken apart: plain text without '<', and keywords. */
  datatype Piece = Plain(text: string) | Key(k: nat)

  predicate PieceOk(p: Piece) {
    match p
    case Plain(text) => '<' !in text
    case Key(k) => k < 7
  }

  ghost predicate TemplateOk(ps: seq<Piece>) {
    forall i :: 0 <= i < |ps| ==> PieceOk(ps[i])
  }

  /** The template with the first n keywords replaced. */
  function Show(ps: seq<Piece>, parts: seq<int>, n: nat): string
    requires TemplateOk(ps) && |parts| == 7
  {
    if ps == [] then ""
    else
      (match ps[0]
       case Plain(text) => text
       case Key(k) => if k < n then Field(k, parts[k]) else KEYWORDS[k])
      + Show(ps[1..], parts, n)
  }

  lemma Regroup(a: string, b: string, c: string)
    ensures a + (b + c) == (a + b) + c
  {
  }

  lemma ReplaceSkipsOne(s: string, pattern: string, fill: string)
    requires pattern != [] && |s| >= |pattern| && s[0] != pattern[0]
    ensures ReplaceAll(s, pattern, fill) == [s[0]] + ReplaceAll(s[1..], pattern, fill)
  {
    assert s[..|pattern|][0] == s[0];
  }

  lemma {:induction false} ReplaceSkipsPlain(a: string, b: string, pattern: string, fill: string)
    requires pattern != [] && pattern[0] == '<' && '<' !in a
    ensures ReplaceAll(a + b, pattern, fill) == a + ReplaceAll(b, pattern, fill)
    decreases |a|
  {
    if a == [] {
      assert a + b == b;
    } else if |a + b| >= |pattern| {
      ReplaceSkipsOne(a + b, pattern, fill);
      hide ReplaceAll;
      assert (a + b)[1..] == a[1..] + b;
      ReplaceSkipsPlain(a[1..], b, pattern, fill);
      Regroup([a[0]], a[1..], ReplaceAll(b, pattern, fill));
      assert a == [a[0]] + a[1..];
    }
  }

  /** Opens with '<', closes with '>', and has neither in between. */
  ghost predicate IsKeyword(w: string) {
    |w| >= 2 && w[0] == '<' && w[|w| - 1] == '>' && '<' !in w[1..] && '>' !in w[..|w| - 1]
  }

  lemma KeywordsAreKeywords(k: nat)
    requires k < 7
    ensures IsKeyword(KEYWORDS[k])
  {
  }

  lemma KeywordsDiffer(j: nat, k: nat)
    requires j < 7 && k < 7 && j != k
    ensures KEYWORDS[j] != KEYWORDS[k]
  {
    var w, v := KEYWORDS[j], KEYWORDS[k];
    assert |w| != |v| || w[1] != v[1] || w[2] != v[2];
  }

  /** Of two different keywords, neither starts a text that starts with the other. */
  lemma OtherKeywordDiffers(w: string, b: string, pattern: string)
    requires IsKeyword(w) && IsKeyword(pattern) && w != pattern && |w + b| >= |pattern|
    ensures (w + b)[..|pattern|] != pattern
  {
    var s := (w + b)[..|pattern|];
    if |pattern| < |w| {
      assert s[|pattern| - 1] == w[..|w| - 1][|pattern| - 1] != '>';
    } else if |pattern| > |w| {
      assert s[|w| - 1] == '>' && pattern[..|pattern| - 1][|w| - 1] != '>';
    } else {
      assert s == w;
    }
  }

  lemma ReplaceSkipsOther(w: string, b: string, pattern: string, fill: string)
    requires IsKeyword(w) && IsKeyword(pattern) && w != pattern
    ensures ReplaceAll(w + b, pattern, fill) == w + ReplaceAll(b, pattern, fill)
  {
    var s := w + b;
    assert s[1..] == w[1..] + b && w == [w[0]] + w[1..];
    if |s| < |pattern| {
    } else {
      OtherKeywordDiffers(w, b, pattern);
      ReplaceSkipsPlain(w[1..], b, pattern, fill);
      assert ReplaceAll(s, pattern, fill) == [w[0]] + (w[1..] + ReplaceAll(b, pattern, fill));
    }
  }

  lemma ReplaceHits(b: string, pattern: string, fill: string)
    requires pattern != []
    ensures ReplaceAll(pattern + b, pattern, fill) == fill + ReplaceAll(b, pattern, fill)
  {
    assert (pattern + b)[..|pattern|] == pattern && (pattern + b)[|pattern|..] == b;
  }

  /** No part's text holds a '<'. */
  lemma {:induction false} DigitsArePlain(n: nat)
    ensures forall i :: 0 <= i < |Digits(n)| ==> IsDigit(Digits(n)[i])
  {
    if n >= 10 {
      DigitsArePlain(n / 10);
    }
  }

  lemma ZeroFillIsPlain(s: string, width: nat)
    requires '<' !in s
    ensures '<' !in ZeroFill(s, width)
    decreases width - |s|
  {
    if |s| < width {
      ZeroFillIsPlain("0" + s, width);
    }
  }

  lemma FieldIsPlain(k: nat, n: int)
    ensures '<' !in Field(k, n)
  {
    DigitsArePlain(if n < 0 then -n else n);
    assert '<' !in Decimal(n);
    if k != 0 {
      ZeroFillIsPlain(Decimal(n), if k == 6 then 3 else 2);
    }
  }

  lemma {:induction false} ReplaceOne(ps: seq<Piece>, parts: seq<int>, n: nat)
    requires TemplateOk(ps) && |parts| == 7 && n < 7
    ensures ReplaceAll(Show(ps, parts, n), KEYWORDS[n], Field(n, parts[n])) == Show(ps, parts, n + 1)
  {
    if ps != [] {
      hide Field, ReplaceAll;
      var rest := Show(ps[1..], parts, n);
      var fill := Field(n, parts[n]);
      assert PieceOk(ps[0]);
      ReplaceOne(ps[1..], parts, n);
      KeywordsAreKeywords(n);
      match ps[0]
      case Plain(text) =>
        ReplaceSkipsPlain(text, rest, KEYWORDS[n], fill);
      case Key(k) =>
        KeywordsAreKeywords(k);
        if k < n {
          FieldIsPlain(k, parts[k]);
          ReplaceSkipsPlain(Field(k, parts[k]), rest, KEYWORDS[n], fill);
        } else if k == n {
          ReplaceHits(rest, KEYWORDS[n], fill);
        } else {
          KeywordsDiffer(k, n);
          ReplaceSkipsOther(KEYWORDS[k], rest, KEYWORDS[n], fill);
        }
    } else {
      KeywordsAreKeywords(n);
    }
  }

  /** Replacing the keywords in turn fills every keyword of the template with its own part, and touches nothing else. */
  lemma {:induction false} FormatFillsTemplate(ps: seq<Piece>, parts: seq<int>, n: nat)
    requires TemplateOk(ps) && |parts| == 7 && n <= 7
    ensures ReplaceFrom(Show(ps, parts, n), parts, n) == Show(ps, parts, 7)
    decreases 7 - n
  {
    if n < 7 {
      ReplaceOne(ps, parts, n);
      FormatFillsTemplate(ps, parts, n + 1);
    }
  }

  // ---------------------------------------------------------------------------
  // Formatted instants sort as time
  // ---------------------------------------------------------------------------

  /** std::string's operator< */
  predicate StrLess(a: string, b: string) {
    b != [] && (a == [] || a[0] < b[0] || (a[0] == b[0] && StrLess(a[1..], b[1..])))
  }

  /** The order of two texts is decided by their first difference. */
  lemma {:induction false} StrLessConcat(x: string, s: string, y: string, t: string)
    requires |x| == |y|
    ensures StrLess(x + s, y + t) <==> StrLess(x, y) || (x == y && StrLess(s, t))
    decreases |x|
  {
    if x == [] {
      assert x + s == s && y + t == t;
    } else {
      assert (x + s)[1..] == x[1..] + s && (y + t)[1..] == y[1..] + t;
      StrLessConcat(x[1..], s, y[1..], t);
      assert x == [x[0]] + x[1..] && y == [y[0]] + y[1..];
    }
  }

  lemma StrLessIrreflexive(x: string)
    ensures !StrLess(x, x)
  {
  }

  /** The part fits its column. */
  predicate FitsColumn(k: nat, n: int) {
    if k == 0 then 1000 <= n <= 9999 else if k == 6 then 0 <= n <= 999 else 0 <= n <= 99
  }

  lemma OneColumn(a: nat, b: nat)
    requires a < 10 && b < 10
    ensures DigitOf(a) < DigitOf(b) <==> a < b
    ensures DigitOf(a) == DigitOf(b) <==> a == b
    ensures StrLess([DigitOf(a)], [DigitOf(b)]) <==> a < b
  {
    assert [DigitOf(a)][1..] == [] == [DigitOf(b)][1..];
  }

  lemma TwoColumns(a: nat, b: nat)
    requires a < 100 && b < 100
    ensures var x, y := [DigitOf(a / 10), DigitOf(a % 10)], [DigitOf(b / 10), DigitOf(b % 10)];
            (StrLess(x, y) <==> a < b) && (x == y <==> a == b)
  {
    var x, y := [DigitOf(a / 10), DigitOf(a % 10)], [DigitOf(b / 10), DigitOf(b % 10)];
    OneColumn(a / 10, b / 10);
    OneColumn(a % 10, b % 10);
    assert x[1..] == [DigitOf(a % 10)] && y[1..] == [DigitOf(b % 10)];
    assert x == y <==> x[0] == y[0] && x[1] == y[1];
  }

  lemma ThreeColumns(a: nat, b: nat)
    requires a < 1000 && b < 1000
    ensures var x, y := [DigitOf(a / 100), DigitOf(a / 10 % 10), DigitOf(a % 10)],
            [DigitOf(b / 100), DigitOf(b / 10 % 10), DigitOf(b % 10)];
            (StrLess(x, y) <==> a < b) && (x == y <==> a == b)
  {
    var x, y := [DigitOf(a / 10 / 10), DigitOf(a / 10 % 10)], [DigitOf(b / 10 / 10), DigitOf(b / 10 % 10)];
    var u, v := [DigitOf(a % 10)], [DigitOf(b % 10)];
    TwoColumns(a / 10, b / 10);
    StrLessConcat(x, u, y, v);
    assert x + u == [DigitOf(a / 100), DigitOf(a / 10 % 10), DigitOf(a % 10)];
    assert y + v == [DigitOf(b / 100), DigitOf(b / 10 % 10), DigitOf(b % 10)];
    assert StrLess(u, v) <==> a % 10 < b % 10;
    assert x + u == y + v <==> x == y && u == v by {
      assert x + u == y + v ==> (x + u)[..2] == (y + v)[..2] && (x + u)[2] == (y + v)[2];
    }
  }

  lemma FourColumnsOrder(a: nat, b: nat)
    requires a < 10000 && b < 10000
    ensures var x := [DigitOf(a / 1000), DigitOf(a / 100 % 10), DigitOf(a / 10 % 10), DigitOf(a % 10)];
            var y := [DigitOf(b / 1000), DigitOf(b / 100 % 10), DigitOf(b / 10 % 10), DigitOf(b % 10)];
            (StrLess(x, y) <==> a < b) && (x == y <==> a == b)
  {
    var x, y := [DigitOf(a / 10 / 100), DigitOf(a / 10 / 10 % 10), DigitOf(a / 10 % 10)],
        [DigitOf(b / 10 / 100), DigitOf(b / 10 / 10 % 10), DigitOf(b / 10 % 10)];
    var u, v := [DigitOf(a % 10)], [DigitOf(b % 10)];
    ThreeColumns(a / 10, b / 10);
    OneColumn(a % 10, b % 10);
    hide StrLess;
    StrLessConcat(x, u, y, v);
    LastColumn(x, u, y, v);
    assert x + u == [DigitOf(a / 1000), DigitOf(a / 100 % 10), DigitOf(a / 10 % 10), DigitOf(a % 10)];
    assert y + v == [DigitOf(b / 1000), DigitOf(b / 100 % 10), DigitOf(b / 10 % 10), DigitOf(b % 10)];
  }

  lemma LastColumn(x: string, u: string, y: string, v: string)
    requires |x| == |y| && |u| == |v| == 1
    ensures x + u == y + v <==> x == y && u[0] == v[0]
  {
    if x + u == y + v {
      assert x == (x + u)[..|x|] == (y + v)[..|x|] == y;
      assert u[0] == (x + u)[|x|] == (y + v)[|x|] == v[0];
    } else {
      assert u != v || x != y;
    }
  }

  lemma ThreeDigits(n: nat)
    requires n < 1000
    ensures ZeroFill(Digits(n), 3) == [DigitOf(n / 100), DigitOf(n / 10 % 10), DigitOf(n % 10)]
  {
    if n < 10 {
      assert ZeroFill(Digits(n), 3) == ZeroFill("0" + Digits(n), 3) == ZeroFill("0" + ("0" + Digits(n)), 3);
      assert "0" + ("0" + Digits(n)) == ['0', '0', DigitOf(n)];
    } else if n < 100 {
      DigitsOfSmall(n);
      assert "0" + Digits(n) == ['0', DigitOf(n / 10), DigitOf(n % 10)];
    } else {
      DigitsOfThree(n);
    }
  }

  /** Columns have a fixed width and sort as numbers. */
  lemma FieldOrder(k: nat, a: int, b: int)
    requires k < 7 && FitsColumn(k, a) && FitsColumn(k, b)
    ensures |Field(k, a)| == |Field(k, b)|
    ensures StrLess(Field(k, a), Field(k, b)) <==> a < b
    ensures Field(k, a) == Field(k, b) <==> a == b
  {
    hide StrLess, ZeroFill, Digits;
    if k == 0 {
      YearColumns(a);
      YearColumns(b);
      FourDigitYear(a);
      FourDigitYear(b);
      FourColumnsOrder(a, b);
    } else if k == 6 {
      ThreeDigits(a);
      ThreeDigits(b);
      ThreeColumns(a, b);
    } else {
      DigitsOfSmall(a);
      DigitsOfSmall(b);
      TwoColumns(a, b);
    }
  }

  lemma FourDigitYear(y: nat)
    requires 1000 <= y <= 9999
    ensures ZeroFill(Decimal(y), 4) == Decimal(y)
  {
    DigitsOfMany(y);
  }

  /** The parts that a template shows, in the order it shows them. */
  function Shown(ps: seq<Piece>, parts: seq<int>): seq<int>
    requires TemplateOk(ps) && |parts| == 7
  {
    if ps == [] then []
    else if ps[0].Plain? then Shown(ps[1..], parts)
    else assert PieceOk(ps[0]); [parts[ps[0].k]] + Shown(ps[1..], parts)
  }

  lemma ShownLength(ps: seq<Piece>, p: seq<int>, q: seq<int>)
    requires TemplateOk(ps) && |p| == 7 && |q| == 7
    ensures |Shown(ps, p)| == |Shown(ps, q)|
  {
  }

  lemma {:induction false} ShowOrder(ps: seq<Piece>, p: seq<int>, q: seq<int>)
    requires TemplateOk(ps) && |p| == 7 && |q| == 7
    requires forall k :: 0 <= k < 7 ==> FitsColumn(k, p[k]) && FitsColumn(k, q[k])
    ensures |Shown(ps, p)| == |Shown(ps, q)|
    ensures StrLess(Show(ps, p, 7), Show(ps, q, 7)) <==> LexLess(Shown(ps, p), Shown(ps, q))
  {
    ShownLength(ps, p, q);
    if ps != [] {
      hide Field, StrLess;
      ShowOrder(ps[1..], p, q);
      assert PieceOk(ps[0]);
      var s, t := Show(ps[1..], p, 7), Show(ps[1..], q, 7);
      match ps[0]
      case Plain(text) =>
        StrLessConcat(text, s, text, t);
        StrLessIrreflexive(text);
      case Key(k) =>
        FieldOrder(k, p[k], q[k]);
        StrLessConcat(Field(k, p[k]), s, Field(k, q[k]), t);
        assert Shown(ps, p)[1..] == Shown(ps[1..], p) && Shown(ps, q)[1..] == Shown(ps[1..], q);
    }
  }

  /** The template of utils::time_format when none is given. */
  const DEFAULT_TEMPLATE := "<year>" + ("-" + DATE_TEMPLATE)
  const DATE_TEMPLATE := "<mon>" + ("-" + ("<day>" + (" " + TIME_TEMPLATE)))
  const TIME_TEMPLATE := "<hour>" + (":" + ("<min>" + (":" + SECOND_TEMPLATE)))
  const SECOND_TEMPLATE := "<sec>" + ("." + "<mili>")

  const SECOND_PIECES := [Key(5), Plain(".")] + [Key(6)]
  const TIME_PIECES := [Key(3), Plain(":")] + ([Key(4), Plain(":")] + SECOND_PIECES)
  const DATE_PIECES := [Key(1), Plain("-")] + ([Key(2), Plain(" ")] + TIME_PIECES)
  const DEFAULT_PIECES := [Key(0), Plain("-")] + DATE_PIECES

  lemma ShowPair(k: nat, text: string, ps: seq<Piece>, parts: seq<int>)
    requires k < 7 && '<' !in text && TemplateOk(ps) && |parts| == 7
    ensures var qs := [Key(k), Plain(text)] + ps;
            && TemplateOk(qs) && Show(qs, parts, 0) == KEYWORDS[k] + (text + Show(ps, parts, 0))
            && Shown(qs, parts) == [parts[k]] + Shown(ps, parts)
  {
    var qs := [Key(k), Plain(text)] + ps;
    assert qs[1..] == [Plain(text)] + ps && qs[1..][1..] == ps;
  }

  /** A keyword that nothing follows */
  lemma LastPiece(parts: seq<int>, n: nat)
    requires |parts| == 7
    ensures var ps := [Key(6)];
            && TemplateOk(ps) && Show(ps, parts, n) == (if 6 < n then Field(6, parts[6]) else KEYWORDS[6])
            && Shown(ps, parts) == [parts[6]]
  {
    hide Field;
    var ps := [Key(6)];
    assert PieceOk(ps[0]) && ps[1..] == [];
    var text := if 6 < n then Field(6, parts[6]) else KEYWORDS[6];
    assert Show(ps, parts, n) == text + "" == text;
    assert Shown(ps, parts) == [parts[6]] + [];
  }

  lemma SecondPieces(parts: seq<int>)
    requires |parts| == 7
    ensures TemplateOk(SECOND_PIECES) && Show(SECOND_PIECES, parts, 0) == SECOND_TEMPLATE
    ensures Shown(SECOND_PIECES, parts) == parts[5..]
  {
    hide Show, Shown;
    LastPiece(parts, 0);
    ShowPair(5, ".", [Key(6)], parts);
    assert [parts[5]] + [parts[6]] == parts[5..];
  }

  lemma TimePieces(parts: seq<int>)
    requires |parts| == 7
    ensures TemplateOk(TIME_PIECES) && Show(TIME_PIECES, parts, 0) == TIME_TEMPLATE
    ensures Shown(TIME_PIECES, parts) == parts[3..]
  {
    hide Show, Shown;
    SecondPieces(parts);
    ShowPair(4, ":", SECOND_PIECES, parts);
    ShowPair(3, ":", [Key(4), Plain(":")] + SECOND_PIECES, parts);
  }

  lemma DatePieces(parts: seq<int>)
    requires |parts| == 7
    ensures TemplateOk(DATE_PIECES) && Show(DATE_PIECES, parts, 0) == DATE_TEMPLATE
    ensures Shown(DATE_PIECES, parts) == parts[1..]
  {
    hide Show, Shown;
    TimePieces(parts);
    ShowPair(2, " ", TIME_PIECES, parts);
    ShowPair(1, "-", [Key(2), Plain(" ")] + TIME_PIECES, parts);
  }

  /** The default template shows each part once, largest first. */
  lemma DefaultPieces(parts: seq<int>)
    requires |parts| == 7
    ensures TemplateOk(DEFAULT_PIECES) && Show(DEFAULT_PIECES, parts, 0) == DEFAULT_TEMPLATE
            && Shown(DEFAULT_PIECES, parts) == parts
  {
    hide Show, Shown;
    DatePieces(parts);
    ShowPair(0, "-", DATE_PIECES, parts);
  }

  /** Instants formatted with a template that shows all parts, largest first, sort as strings as they do in time. */
  lemma FormattedOrderIsTimeOrder(ps: seq<Piece>, t: int64, u: int64)
    requires TemplateOk(ps) && forall parts: seq<int> :: |parts| == 7 ==> Shown(ps, parts) == parts
    ensures InCalendar(FloorDays(t)) && InCalendar(FloorDays(u))
    ensures var template := Show(ps, Parts(t), 0);
            && Show(ps, Parts(u), 0) == template
            && (StrLess(ReplaceFrom(template, Parts(t), 0), ReplaceFrom(template, Parts(u), 0))
                <==> Millisecond(t) < Millisecond(u))
  {
    hide Parts, FloorDays, Millisecond, StrLess, Field, ReplaceFrom;
    InstantInCalendar(t);
    InstantInCalendar(u);
    var p, q := Parts(t), Parts(u);
    PartsFitColumns(t);
    PartsFitColumns(u);
    TemplateShowsNoParts(ps, p, q);
    FormatFillsTemplate(ps, p, 0);
    FormatFillsTemplate(ps, q, 0);
    ShowOrder(ps, p, q);
    PartOrderIsTimeOrder(t, u);
  }

  lemma TemplateShowsNoParts(ps: seq<Piece>, p: seq<int>, q: seq<int>)
    requires TemplateOk(ps) && |p| == 7 && |q| == 7
    ensures Show(ps, p, 0) == Show(ps, q, 0)
  {
  }

  /** 64-bit nanoseconds reach from 1677 to 2262: every year has four columns. */
  lemma PartsFitColumns(t: int64)
    requires InCalendar(FloorDays(t))
    ensures forall k :: 0 <= k < 7 ==> FitsColumn(k, Parts(t)[k])
  {
    hide FromDays, ToDays, MakeTime;
    InstantInCalendar(t);
    PartsExact(t);
    var d := FromDays(FloorDays(t));
    ToDaysOfFromDays(FloorDays(t));
    ToDaysOf1677And2262();
    ToDaysMonotone(d, Date(1677, 1, 1));
    ToDaysMonotone(Date(2263, 1, 1), d);
    MonthTable(d);
  }

  lemma ToDaysOf1677And2262()
    ensures ToDays(Date(1677, 1, 1)) == -107015 && ToDays(Date(2263, 1, 1)) == 107016
  {
    assert ToDaysRun(Date(1677, 1, 1)) == ToDaysLocals(1676, 4, 76, 306, 28065, -107015);
    assert ToDaysRun(Date(2263, 1, 1)) == ToDaysLocals(2262, 5, 262, 306, 95999, 107016);
  }

  /** With the default template, every two instants sort as strings as they do in time. */
  lemma DefaultFormatOrder(t: int64, u: int64)
    ensures InCalendar(FloorDays(t)) && InCalendar(FloorDays(u))
    ensures StrLess(ReplaceFrom(DEFAULT_TEMPLATE, Parts(t), 0), ReplaceFrom(DEFAULT_TEMPLATE, Parts(u), 0))
            <==> Millisecond(t) < Millisecond(u)
  {
    hide Parts, FloorDays, Millisecond, StrLess, ReplaceFrom, Show, Shown, DEFAULT_PIECES, DEFAULT_TEMPLATE;
    InstantInCalendar(t);
    forall parts: seq<int> | |parts| == 7
      ensures TemplateOk(DEFAULT_PIECES) && Shown(DEFAULT_PIECES, parts) == parts
    {
      DefaultPieces(parts);
    }
    DefaultPieces(Parts(t));
    FormattedOrderIsTimeOrder(DEFAULT_PIECES, t, u);
  }

  // ---------------------------------------------------------------------------
  // What the default template shows
  // ---------------------------------------------------------------------------

  lemma DefaultTemplate()
    ensures DEFAULT_TEMPLATE == "<year>-<mon>-<day> <hour>:<min>:<sec>.<mili>"
  {
    TimeTemplate();
    DateTemplate();
    hide TIME_TEMPLATE;
    var text := "<year>-<mon>-<day> <hour>:<min>:<sec>.<mili>";
    Halves(text);
    Regroup("<day>", " ", TIME_TEMPLATE);
    Regroup("-", "<day> ", TIME_TEMPLATE);
    Regroup("<mon>", "-<day> ", TIME_TEMPLATE);
    Regroup("-", "<mon>-<day> ", TIME_TEMPLATE);
    Regroup("<year>", "-<mon>-<day> ", TIME_TEMPLATE);
  }

  lemma TimeTemplate()
    ensures TIME_TEMPLATE == "<hour>:<min>:<sec>.<mili>"
  {
    assert SECOND_TEMPLATE == "<sec>.<mili>";
  }

  lemma DateTemplate()
    ensures "<day>" + " " == "<day> " && "-" + "<day> " == "-<day> " && "<mon>" + "-<day> " == "<mon>-<day> "
    ensures "-" + "<mon>-<day> " == "-<mon>-<day> " && "<year>" + "-<mon>-<day> " == "<year>-<mon>-<day> "
  {
  }

  lemma Halves(text: string)
    requires text == "<year>-<mon>-<day> <hour>:<min>:<sec>.<mili>"
    ensures text == "<year>-<mon>-<day> " + "<hour>:<min>:<sec>.<mili>"
  {
  }

  /** Columns of each part */
  function Columns(k: nat): nat {
    if k == 0 then 4 else if k == 6 then 3 else 2
  }

  lemma TwoDigitNumber(s: string)
    requires |s| == 2 && AllDigits(s, 0, 2)
    ensures NumberOf(s, 0, 2) == 10 * (s[0] - '0') as nat + (s[1] - '0') as nat
  {
    assert NumberOf(s, 0, 1) == (s[0] - '0') as nat;
  }

  lemma ThreeDigitNumber(s: string)
    requires |s| == 3 && AllDigits(s, 0, 3)
    ensures NumberOf(s, 0, 3) == 100 * (s[0] - '0') as nat + 10 * (s[1] - '0') as nat + (s[2] - '0') as nat
  {
    assert NumberOf(s, 0, 2) == 10 * NumberOf(s, 0, 1) + (s[1] - '0') as nat;
  }

  lemma FourDigitNumber(s: string)
    requires |s| == 4 && AllDigits(s, 0, 4)
    ensures NumberOf(s, 0, 4)
            == 1000 * (s[0] - '0') as nat + 100 * (s[1] - '0') as nat + 10 * (s[2] - '0') as nat + (s[3] - '0') as nat
  {
    assert NumberOf(s, 0, 3) == 10 * NumberOf(s, 0, 2) + (s[2] - '0') as nat;
    assert NumberOf(s, 0, 2) == 10 * NumberOf(s, 0, 1) + (s[1] - '0') as nat;
  }

  /** Each part is written in its columns, in digits that spell it. */
  lemma FieldSpells(k: nat, n: int)
    requires k < 7 && FitsColumn(k, n)
    ensures var f := Field(k, n);
            |f| == Columns(k) && AllDigits(f, 0, |f|) && NumberOf(f, 0, |f|) == n
  {
    hide ZeroFill, Digits, NumberOf;
    var f := Field(k, n);
    if k == 0 {
      YearColumns(n);
      FourDigitYear(n);
      FourDigitNumber(f);
      FourDigits(n);
    } else if k == 6 {
      ThreeDigits(n);
      ThreeDigitNumber(f);
      assert n == 100 * (n / 100) + 10 * (n / 10 % 10) + n % 10;
    } else {
      DigitsOfSmall(n);
      TwoDigitNumber(f);
    }
  }

  /** A text that spells an instant: 23 columns, with the date and the time of day of its millisecond. */
  ghost predicate SpellsInstant(s: string, ms: int) {
    && |s| == 23 && s[4] == '-' && s[7] == '-' && s[10] == ' ' && s[13] == ':' && s[16] == ':' && s[19] == '.'
    && AllDigits(s, 0, 4) && AllDigits(s, 5, 7) && AllDigits(s, 8, 10) && AllDigits(s, 11, 13) && AllDigits(s, 14, 16)
    && AllDigits(s, 17, 19) && AllDigits(s, 20, 23)
    && var y, m, d := NumberOf(s, 0, 4), NumberOf(s, 5, 7), NumberOf(s, 8, 10);
       var hour, min, sec, milli := NumberOf(s, 11, 13), NumberOf(s, 14, 16), NumberOf(s, 17, 19), NumberOf(s, 20, 23);
       && y <= 9999 && m <= 12 && d <= 31 && Ok(Date(y, m, d)) && hour <= 23 && min <= 59 && sec <= 59 && milli <= 999
       && ToDays(Date(y, m, d)) * 86_400_000 + hour * 3_600_000 + min * 60_000 + sec * 1000 + milli == ms
  }

  /** The same digits spell the same number. */
  lemma {:induction false} SameNumber(s: string, p: nat, u: string, n: nat)
    requires p + n <= |s| && n <= |u| && s[p..p + n] == u[..n] && AllDigits(u, 0, n)
    ensures AllDigits(s, p, p + n) && NumberOf(s, p, p + n) == NumberOf(u, 0, n)
  {
    assert forall i :: p <= i < p + n ==> s[i] == s[p..p + n][i - p];
    if n > 0 {
      assert s[p..p + (n - 1)] == s[p..p + n][..n - 1] == u[..n][..n - 1] == u[..n - 1];
      SameNumber(s, p, u, n - 1);
    }
  }

  /** The text goes on at p with the columns of part k, and then, if it is not the last, with a separator. */
  lemma Column(s: string, p: nat, k: nat, n: int, sep: string, rest: string)
    requires p <= |s| && k < 7 && FitsColumn(k, n) && s[p..] == Field(k, n) + (sep + rest) && |sep| <= 1
    ensures var q := p + Columns(k);
            && q + |sep| + |rest| == |s| && AllDigits(s, p, q) && NumberOf(s, p, q) == n
            && (|sep| == 1 ==> s[q] == sep[0]) && s[q + |sep|..] == rest
  {
    hide Field, NumberOf;
    FieldSpells(k, n);
    var f, q := Field(k, n), p + Columns(k);
    assert |s[p..]| == |f| + |sep| + |rest|;
    assert s[p..q] == s[p..][..|f|] == f == f[..|f|];
    SameNumber(s, p, f, |f|);
    assert s[q..] == s[p..][|f|..] == sep + rest;
    assert s[q + |sep|..] == s[q..][|sep|..] == rest;
  }

  lemma ShownPair(k: nat, text: string, ps: seq<Piece>, parts: seq<int>)
    requires k < 7 && '<' !in text && TemplateOk(ps) && |parts| == 7
    ensures var qs := [Key(k), Plain(text)] + ps;
            TemplateOk(qs) && Show(qs, parts, 7) == Field(k, parts[k]) + (text + Show(ps, parts, 7))
  {
    var qs := [Key(k), Plain(text)] + ps;
    assert qs[1..] == [Plain(text)] + ps && qs[1..][1..] == ps;
  }

  /** The time of day that the default template shows */
  lemma TimeSpelt(s: string, parts: seq<int>)
    requires |parts| == 7 && |s| >= 11 && forall k :: 0 <= k < 7 ==> FitsColumn(k, parts[k])
    requires TemplateOk(TIME_PIECES) && s[11..] == Show(TIME_PIECES, parts, 7)
    ensures |s| == 23 && s[13] == ':' && s[16] == ':' && s[19] == '.'
    ensures AllDigits(s, 11, 13) && NumberOf(s, 11, 13) == parts[3]
    ensures AllDigits(s, 14, 16) && NumberOf(s, 14, 16) == parts[4]
    ensures AllDigits(s, 17, 19) && NumberOf(s, 17, 19) == parts[5]
    ensures AllDigits(s, 20, 23) && NumberOf(s, 20, 23) == parts[6]
  {
    hide Field, NumberOf, FitsColumn;
    var last := [Key(6)];
    var seconds := [Key(5), Plain(".")] + last;
    var minutes := [Key(4), Plain(":")] + seconds;
    LastPiece(parts, 7);
    assert Show(last, parts, 7) == Field(6, parts[6]) + ("" + "");
    ShownPair(5, ".", last, parts);
    ShownPair(4, ":", seconds, parts);
    ShownPair(3, ":", minutes, parts);
    hide Show;
    Column(s, 11, 3, parts[3], ":", Show(minutes, parts, 7));
    Column(s, 14, 4, parts[4], ":", Show(seconds, parts, 7));
    Column(s, 17, 5, parts[5], ".", Show(last, parts, 7));
    Column(s, 20, 6, parts[6], "", "");
  }

  lemma DateSpelt(s: string, parts: seq<int>)
    requires |parts| == 7 && forall k :: 0 <= k < 7 ==> FitsColumn(k, parts[k])
    requires TemplateOk(DEFAULT_PIECES) && s == Show(DEFAULT_PIECES, parts, 7)
    ensures TemplateOk(TIME_PIECES) && |s| >= 11 && s[11..] == Show(TIME_PIECES, parts, 7)
    ensures s[4] == '-' && s[7] == '-' && s[10] == ' '
    ensures AllDigits(s, 0, 4) && NumberOf(s, 0, 4) == parts[0]
    ensures AllDigits(s, 5, 7) && NumberOf(s, 5, 7) == parts[1]
    ensures AllDigits(s, 8, 10) && NumberOf(s, 8, 10) == parts[2]
  {
    hide Field, NumberOf, FitsColumn, Show, TIME_PIECES;
    TimePieces(parts);
    var days := [Key(2), Plain(" ")] + TIME_PIECES;
    var months := [Key(1), Plain("-")] + days;
    ShownPair(2, " ", TIME_PIECES, parts);
    ShownPair(1, "-", days, parts);
    ShownPair(0, "-", months, parts);
    assert s[0..] == s;
    Column(s, 0, 0, parts[0], "-", Show(months, parts, 7));
    Column(s, 5, 1, parts[1], "-", Show(days, parts, 7));
    Column(s, 8, 2, parts[2], " ", Show(TIME_PIECES, parts, 7));
  }

  lemma PartsSpelt(s: string, p: seq<int>)
    requires PartsOk(p) && forall k :: 0 <= k < 7 ==> FitsColumn(k, p[k])
    requires TemplateOk(DEFAULT_PIECES) && s == Show(DEFAULT_PIECES, p, 7)
    ensures SpellsInstant(s, Recombine(p))
  {
    hide Show, DEFAULT_PIECES, TIME_PIECES, ToDays;
    DateSpelt(s, p);
    TimeSpelt(s, p);
    MonthTable(Date(p[0], p[1], p[2]));
    hide NumberOf, AllDigits;
  }

  /** With the default template every 64-bit instant is written in 23 columns that spell its millisecond. */
  lemma DefaultFormatSpells(t: int64)
    ensures InCalendar(FloorDays(t)) && SpellsInstant(ReplaceFrom(DEFAULT_TEMPLATE, Parts(t), 0), Millisecond(t))
  {
    hide Parts, FloorDays, Millisecond, ReplaceFrom, Show, Shown, DEFAULT_PIECES, DEFAULT_TEMPLATE, SpellsInstant;
    hide Recombine, PartsOk;
    InstantInCalendar(t);
    PartsFitColumns(t);
    PartsExact(t);
    var p := Parts(t);
    DefaultPieces(p);
    FormatFillsTemplate(DEFAULT_PIECES, p, 0);
    PartsSpelt(Show(DEFAULT_PIECES, p, 7), p);
  }

  /** The parts of the instant in its zone */
  lemma ShiftedParts(tp: int64, zone: int)
    requires -0x8000_0000_0000_0000 <= tp + zone * NS_PER_HOUR <= 0x7fff_ffff_ffff_ffff
    ensures InCalendar(FloorDays(tp + zone * NS_PER_HOUR))
    ensures PartsMake(Parts(tp + zone * NS_PER_HOUR), tp / 1_000_000 + zone * 3_600_000)
  {
    hide Parts, FloorDays, Millisecond, Recombine, PartsOk;
    ZoneShifts(tp, zone);
    InstantInCalendar(tp + zone * NS_PER_HOUR);
    PartsExact(tp + zone * NS_PER_HOUR);
  }

  lemma DefaultFormatted(tp: int64, template: string, zone: int)
    requires -0x8000_0000_0000_0000 <= tp + zone * NS_PER_HOUR <= 0x7fff_ffff_ffff_ffff
    ensures InCalendar(FloorDays(tp + zone * NS_PER_HOUR))
    ensures template == DEFAULT_TEMPLATE ==>
      SpellsInstant(ReplaceFrom(template, Parts(tp + zone * NS_PER_HOUR), 0), tp / 1_000_000 + zone * 3_600_000)
  {
    hide Parts, FloorDays, Millisecond, ReplaceFrom, DEFAULT_TEMPLATE, SpellsInstant;
    ZoneShifts(tp, zone);
    DefaultFormatSpells(tp + zone * NS_PER_HOUR);
  }
}
