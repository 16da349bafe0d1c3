# Models of the calendar, the queues and the image kernels

Dafny models of the parts of the repository whose correctness is not visible from one
function body, with proofs of what they are for. `dafny verify dfyconfig.toml` checks
all of it. Integers of the C++ code keep their width: `MachineInts` writes out wrapping,
narrowing and truncating division, and the kernels prove where nothing wraps.

* **Calendar** (`utils/date.h`): `Civil` (day numbers and dates), `Weekdays` (weekday
  arithmetic, n-th and last weekday), `IsoWeek` (`%G`, `%V` and their way back),
  `ParseFields` (how `from_stream` puts a date together and checks redundant fields),
  `ParseAccepts` (exactly which fields it accepts for which date),
  `DateText` (`%F` printed and read from a stream), `KeywordScan` (`scan_keyword`),
  `KeywordLists` (the lists it is used with) and
  `TimeText` (`utils/vp_utils.h`: `time_split`, `time_format`). The reference is a
  calendar turned one page at a time (sections 3.2.1 and 4.1.4 of ISO 8601:2004).
* **Queues** (`utils/safe_queue.h`, `utils/vp_semaphore.h`): `JobQueue` is the class as it
  acts under its mutex; `JobProtocol` is the state machine of threads that enter, test,
  sleep, are notified after the unlock, or wake spuriously, and its steps apply the same
  functions that the class methods are proved to compute. `JobSlots` says how far one
  `notify_one` goes, `JobStop` what `stop()` leaves behind, `JobWarnings` which pushes warn.
  `Permits` is class methods and state machine, over shared functions, for the semaphore and
  for `ThreadSafeQueue`.
* **libyuv** (`3rdparty/libyuv/source`): `Ssim`, `DjbHash`, `BitCount`, `Reductions` and
  `Distances` (image comparison), `Rotate` (transpose, rotation and copy of planes with signed
  strides, in place where the code allows it), `JpegMarkers` (end-of-image scan, markers
  of section B.1.1.3 of ITU-T T.81). `Planes` holds the addressing of pixels and rows that
  they share, `Products` bounds on products.

## What does not hold

Properties one would expect of the code that are false of it, each with an input or a run
that shows it, and with the condition under which they do hold:

* The printed ISO week is wrong on January 1st and 2nd of year -32767 and nowhere else: the
  year before wraps to a value that is not a year (`IsoWeek.PrintIsWeekDate`).
* `%F` reads back exactly for the years 0 to 9999 and -999 to -100. Year -5 prints as
  `00-5` and is read as year 0, month 5, without failing (`DateText.NegativeYearMisread`).
* The parser accepts week 53 of 2021, which has 52, as 2022-01-03, and day 366 of 2021 as
  2021-01-01 (`ParseAccepts.Week53Of2021`, `ParseFields.DayOfYearRunsOver`). What comes out
  is the week or day that was read exactly when the year has it (`ParseAccepts.IsoWeekKept`,
  `ParseFields.DayOfYearFound`).
* Fields that contradict the date can pass. Once a complete week was read, a lone ISO year or
  ISO week is not compared, and of a day of the year only its month and day are
  (`ParseAccepts.AnyIsoYearPasses`, `ParseAccepts.ContradictingDayPasses`). Which fields are
  compared, exactly: `ParseAccepts.LoneYearCompared`, `LoneWeekCompared`, `DayOfYearCompared`;
  which are accepted for which date: `ParseAccepts.AcceptsExactly`.
* Month and day are compared modulo 256, and a year outside -32767..32767 counts as not read:
  with a width, as in `%3d`, day 257 of January 2021 is taken for its first
  (`ParseAccepts.TooLargePasses`). What was read is the date's own exactly when it is at most
  255, and the year in that range (`ParseAccepts.ReadFieldsOwnExactly`).
* Zeros and a week 100 are read as nothing: with `%m` month 00 passes beside a day of the year
  (`ParseAccepts.NoneValuesIgnored`), and a weekday is not looked at where the fields give no
  date (`ParseFields.WeekdayAloneKept`).
* A field of width one that begins with a sign is not limited at all: the sign uses up the
  width, and what is left, none, stands for no limit (`DateText.WidthOneAfterSign`). For every
  width, what is read is exactly `DateText.SignedExactly`.
* `scan_keyword` does not find the longest keyword that starts the input: it reads as far as
  any keyword agrees and then needs one that is exactly that text, so "Sun" is missed in
  "sund" (`KeywordScan.ShorterKeywordMissed`). A list is never missed exactly when it has every
  prefix of a keyword that is at least as long as a keyword it begins with
  (`KeywordLists.NeverMissesExactly`); of the lists in the code AM and PM are such, weekdays
  and months are not (`KeywordLists.ListsOfTheCode`).
* `stop()` clears, then ends the run, and a producer that comes in between has its jobs
  accepted and stranded: neither delivered nor cleared. That can happen exactly when a
  producer is in the queue while `stop()` clears, even one asleep, whom the notify_all of
  `stop()` itself wakes (`JobStop.StrandsExactlyWithProducer`, `JobStop.SleeperStranded`), or
  when one calls before the run ends (`JobStop.LateProducerStrands`). Otherwise nothing is
  left (`JobStop.StopLeavesNothing`). A queue without a bound also takes in, and strands,
  whatever is pushed after the end; one with a bound takes in nothing
  (`JobStop.RunAfterTheEnd`).
* A batch larger than the bound sleeps for ever, on an empty queue
  (`JobProtocol.OversizedBatchSticks`); without one the queue does not get stuck
  (`JobProtocol.NeverStuck`).
* A single `notify_one` is not always enough, though no deadlock comes of it. A consumer is
  never left asleep beside a waiting job if pushes bring one job (or more than the bound, and
  so none) and fetches ask for at least one; every other batch, and a fetch of none, has a run
  where one is. A producer is never left asleep beside a free slot if pushes bring one job and
  fetches take at most one, or the bound is one; every larger batch at any bound, and every
  larger fetch at a larger bound, has a run where one is (`JobSlots.SinglePushesLoseNoJob`,
  `BatchLosesJob`, `EmptyFetchLosesJob`, `UnitRequestsLoseNoSlot`, `BatchLosesSlot`,
  `FetchLosesSlot`).
* `tp - dp` in utils/vp_utils.h:67 overflows for instants more than 106751 days before 1970,
  the first hours of the 64-bit range, and for no others (`TimeText.MidnightFitsExactly`).
  What is proved of those instants holds where 64-bit subtraction wraps
  (`TimeText.SinceMidnightExact`).
* The comment at utils/safe_queue.h:284-288 says a fall below the threshold re-arms the length
  warning. The code looks at the length only when jobs are pushed: draining does not re-arm it
  (`JobWarnings.DrainDoesNotRearm`), a push that leaves the queue below the threshold does
  (`JobWarnings.RunWarns`).
* `MirrorRow` on one row does not reverse it: 1 2 becomes 2 2. The row is folded, its right
  half mirrored into its left, which is right exactly for palindromes (`Rotate.MirrorRow`,
  `Rotate.FoldedIsMirror`, `Rotate.FoldedRow`). In place `RotatePlane180` does this to the
  middle row of an odd height and then repairs it ("harmlessly", says rotate.cc:210, which the
  result bears out: `Rotate.RotatePlane180`).
* `RotatePlane` in place with a negative height succeeds and spoils the image: 1 2 above 3 4
  turned by 180 degrees becomes 2 2 above 4 3 instead of 2 1 above 4 3, and turned by 0 degrees
  3 4 above 3 4 (`Rotate.InvertedInPlaceSpoils`). What comes out is
  `Rotate.InvertedInPlace`; it is right exactly if the rows above the middle are palindromes
  (180 degrees), or the image is symmetric from top to bottom (0 degrees):
  `Rotate.InvertedInPlaceRight`.

## Model

| member | source | states |
|---|---|---|
| Civil.ToDaysLocalsExact | utils/date.h:2978-2986 | for every valid date, each `int` and `unsigned` local of `to_days` is the exact mathematical value, in the range its comment gives: nothing wraps |
| Civil.FromDaysLocalsExact | utils/date.h:3093-3102 | the same for `from_days`, for every day number whose shift to the era origin stays in an `int`; the parts recompose to the day number |
| Civil.FromDaysOfToDays | utils/date.h:2973-2987 | `from_days` undoes `to_days` on every valid date of the whole `short` year range |
| Civil.ToDaysOfFromDays | utils/date.h:3087-3103 | on every day number of the calendar `from_days` gives a valid date, which `to_days` maps back |
| Civil.RoundTripExactlyInCalendar | utils/date.h:3087-3103 | a day number survives exactly when it lies between -32767-01-01 and 32767-12-31; outside, the narrowing of the year loses it |
| Civil.EndsOfCalendar | utils/date.h:2973-2987 | 1970-01-01 is day 0, and the first and last date have the two extreme day numbers |
| Civil.NextCounts | utils/date.h:2737-2748 | turning one page (by month lengths and leap rule) adds one to the day number |
| Civil.FromDaysWalks | utils/date.h:3087-3103 | `from_days(n)` is the date reached by turning the calendar n pages from 1970-01-01, forwards or backwards |
| Civil.ToDaysCountsTurns | utils/date.h:2973-2987 | `to_days` of a date is the one number of turns that leads to it, so the leap rule (1694-1697) and the closed form agree for every year |
| Civil.ToDaysMonotone | utils/date.h:3032-3039 | `operator<` on dates holds exactly when the day numbers are in that order |
| Civil.DayInMonth | utils/date.h:2973-2987 | the days of a month have consecutive day numbers |
| Civil.MonthOfDay | utils/date.h:3006-3011 | a day number belongs to a month exactly when it lies between that month's first and last valid day |
| Weekdays.WeekdayIsMod7 | utils/date.h:1823-1827 | despite the unsigned sum, the weekday of every `int` day number is (z + 4) mod 7 |
| Weekdays.DiffIsMod7 | utils/date.h:1905-1910 | the difference of two weekdays is the residue in 0..6 |
| Weekdays.WeekdayMoves | utils/date.h:1915-1920 | adding days to a weekday, negative ones included, gives the weekday of the moved day |
| Weekdays.NthOkExactlyWhenItExists | utils/date.h:3262-3271 | `ok()` accepts index 5 (and any other) exactly when the month has that many of the weekday; the day is unique and is the one `to_days` gives |
| Weekdays.NthRoundTrip | utils/date.h:3276-3282 | every day of the calendar is an accepted n-th weekday and comes back from it |
| Weekdays.NthRoundTripBack | utils/date.h:3287-3292 | every accepted n-th weekday comes back from its day number |
| Weekdays.LastIsLast | utils/date.h:3469-3473 | weekday[last] is in the month, on the weekday, and seven days later is not in the month |
| IsoWeek.PrintIsWeekDate | utils/date.h:5809-5818 | the printed year (5347-5351) is that of the week's Thursday and the week its number in that year, in 1..53, for every valid date but two |
| IsoWeek.BeforeFirstWeekPrints | utils/date.h:5809-5818 | what the two exceptions print: year -32768 and a week below -3000000 |
| IsoWeek.StartIsFirstMonday | utils/date.h:5348-5349 | the last Thursday of the year before, plus four days, is the Monday of the first week with a Thursday in the year |
| IsoWeek.IsoToDaysOfPrint | utils/date.h:7731-7733 | the day number the parser computes from year, week and weekday as printed is the date's own |
| IsoWeek.PrintOfIsoToDays | utils/date.h:7730-7732 | the day number computed from year, week and weekday prints as that same week date exactly when the year has that week (52, or 53 if it starts or ends on a Thursday) |
| ParseFields.ResolveFindsDate | utils/date.h:7726-7842 | whichever of a date's fields were read (year, month, day, ISO year and week, %U, %W, day of the year, weekday), if they determine the date the parser returns it and its weekday |
| ParseFields.ResolveRejectsContradictions | utils/date.h:7729-7842 | when a date is accepted, the weekday that was read is its own; so are a year of the calendar and, modulo 256, month and day; and so is each of %G, %V, %U, %W, unless a complete week (year, week, weekday) was read |
| ParseAccepts.ReadFieldsOwnExactly | utils/date.h:7726-7796 | a month or day that was read is the accepted date's own if and only if it lies in 0..255, a year if and only if it lies in the calendar |
| ParseAccepts.WideFieldsPass | utils/date.h:7795-7796 | every valid date is accepted from its year with any multiple of 256 added to month and day |
| ParseAccepts.YearOutsideIgnored | utils/date.h:7726-7727 | a year outside the calendar makes no difference to the result |
| ParseAccepts.TooLargePasses | utils/date.h:7726-7796 | day 257 and month 258 of 2021 are accepted as January 1st and February 1st, and year 40000 beside week 53 of 2021 |
| ParseAccepts.NoneValuesIgnored | utils/date.h:6601-6632 | month 0, day 0, week 100, weekday 8, day of the year -1 and year -32768 are read as nothing: every valid date is accepted beside them from its year, month and day, or year and day of the year |
| ParseAccepts.AcceptsExactly | utils/date.h:7726-7842 | for every valid date and all fields: accepted as that date if and only if the year (if in the calendar), month and day (modulo 256) and weekday agree, every complete week and ISO week leads to it, the day of the year has its month and day, the week fields agree unless a complete week was read, and something determines each part |
| ParseAccepts.LoneFieldsIgnored | utils/date.h:7802-7823 | with a complete %U or %W week, an ISO year or week alone makes no difference to the result, whatever it is |
| ParseAccepts.LoneYearCompared | utils/date.h:7802-7823 | a lone ISO year is compared with the date if and only if no complete week was read |
| ParseAccepts.LoneWeekCompared | utils/date.h:7802-7823 | a lone ISO week likewise |
| ParseAccepts.AnyIsoYearPasses | utils/date.h:7748-7823 | every valid date is accepted from its year, %U and weekday together with any ISO year |
| ParseAccepts.DayOfYearCompared | utils/date.h:7782-7794 | an accepted day of the year is the date's own if and only if the year has that day |
| ParseAccepts.ContradictingDayPasses | utils/date.h:7782-7794 | January 1st, 2021 is accepted with day of the year 366 |
| ParseAccepts.IsoWeekAccepted | utils/date.h:7729-7747 | every ISO week date whose day is in the calendar is accepted, as that day, whether or not the year has the week |
| ParseAccepts.IsoWeekKept | utils/date.h:7729-7747 | what is accepted prints the week date that was read if and only if the year has the week |
| ParseAccepts.Week53Of2021 | utils/date.h:7729-7747 | Monday of week 53 of 2021, which has 52, is taken for 2022-01-03 |
| ParseAccepts.WeekFound | utils/date.h:7748-7781 | year, %U or %W, and weekday are accepted if and only if the day they give lies in the year, and the date then prints that week |
| ParseFields.WeekRoundTrip | utils/date.h:5764-5773 | the printed %U or %W (5890-5899), week 0 included, and the weekday lead back to the day (7750-7752, 7767-7769); the printed number is the one the parser checks against |
| ParseFields.WeekDateRoundTrip | utils/date.h:7729-7747 | a printed week date alone reads back as the date, for exactly the dates whose week is printed right |
| ParseFields.DayOfYearFound | utils/date.h:7782-7794 | a year and a day of the year give that day exactly when the year has it |
| ParseFields.DayOfYearRunsOver | utils/date.h:7784-7794 | day 366 of 2021 is taken for 2021-01-01 |
| ParseFields.WeekdayAloneKept | utils/date.h:7795-7842 | where the fields give no date, nothing is compared: weekday, month and day (modulo 256) and year come back as read |
| ParseFields.LoneWeekday | utils/date.h:7795-7842 | a weekday read alone comes back, whatever it is |
| DateText.InStream.ReadUnsigned | utils/date.h:6320-6343 | reads the longest run of at most M digits, yields its value on `unsigned`, fails below m digits; position and eof bit as a stream leaves them |
| DateText.InStream.ReadSigned | utils/date.h:6345-6370 | the same with an optional sign, which counts against the width |
| DateText.UnsignedExactly | utils/date.h:6320-6343 | for every text and limits: the digits up to the first other character or the limit, the number they spell modulo 2^32, the eof bit if the end of the text stopped it, and failure exactly below m digits |
| DateText.SignedExactly | utils/date.h:6345-6370 | the same with a sign, the width one less after it |
| DateText.WidthOneAfterSign | utils/date.h:6355-6361 | with width one, all digits after a sign are read |
| DateText.InStream.ReadFullDate | utils/date.h:6957-6958 | the three numbers and two dashes of `%F`, or a failed stream |
| DateText.InStream.ParseF | utils/date.h:6949-6962 | a date comes out exactly if the text spells one: an optional sign and digits in four columns, a dash, one or two digits, a dash, one or two digits, whose numbers are a valid date; it is the date of these numbers and the stream is left after them; any other text fails the stream |
| DateText.ParsedExactly | utils/date.h:6949-6962 | for every text and position: the date that is read, as the characters spell it, or none |
| DateText.SlashesFail | utils/date.h:6957-6958 | 2021-01-02 is read, and 2021/01/02 yields no date |
| DateText.ReadableYearIsRead | utils/date.h:5319-5320 | a year of four columns is read back from what was printed |
| DateText.FullDateRoundTrip | utils/date.h:5309-5327 | printing with `%F` and reading gives the date back, all text consumed, exactly for years 0..9999 and -999..-100 |
| DateText.NegativeYearMisread | utils/date.h:5316-5320 | -0005-01-02 prints as 00-5-01-02, which is read without failure as 0000-05-01 |
| KeywordScan.InitStatuses | utils/date.h:4951-4965 | at first empty keywords match and the others might; both counters equal the numbers of such entries |
| KeywordScan.SameLetter | utils/date.h:4976-4989 | two characters are taken for the same exactly if they are, or are the two cases of one letter |
| KeywordScan.LettersFold | utils/date.h:4976-4989 | each of the 26 letters is folded to its capital |
| KeywordScan.TestCharacter | utils/date.h:4984-5005 | one character moves each keyword's status as it should, never indexes past a keyword, and keeps both counters exact |
| KeywordScan.DropShorter | utils/date.h:5013-5024 | matches left behind by the consumed character are dropped and the counter stays exact |
| KeywordScan.Round | utils/date.h:4967-5026 | after each round the matching entries are those keywords that spell exactly what was consumed, and the loop ends only at the longest agreement |
| KeywordScan.ScanKeyword | utils/date.h:4935-5035 | consumes the longest agreement of the input with any keyword, ignoring case, and returns the first keyword that is exactly that text, or fails if there is none; on a stream that is at its end or failed it reads nothing and finds the first empty keyword |
| KeywordScan.ScanDetermined | utils/date.h:4935-5035 | text and keywords determine how far the scan reads and what it finds |
| KeywordScan.FoundIsLongest | utils/date.h:5013-5035 | no keyword that starts the input is longer than what was consumed, and one that starts it is found exactly when it is as long |
| KeywordScan.ShorterKeywordMissed | utils/date.h:4999-5024 | on "sund" the keyword "Sun" is not found beside "Sunday" |
| KeywordLists.NeverMissesExactly | utils/date.h:4935-5035 | for every list of keywords: the scan finds one on all inputs that start with one, if and only if every prefix of a keyword that extends another keyword is a keyword |
| KeywordLists.ListsOfTheCode | utils/date.h:4865-4930 | AM and PM are such a list; the weekday names and the month names are not |
| TimeText.TimeSplit | utils/vp_utils.h:60-81 | the seven parts are in calendar range and recombine to the millisecond of the instant plus 3600000 for each hour of the zone, before 1970 too (on the first hours of the range, if subtraction wraps) |
| TimeText.ZoneShifts | utils/vp_utils.h:62-62 | 24 hours of a zone are a day, and each hour moves the millisecond by 3600000 |
| TimeText.MidnightFitsExactly | utils/vp_utils.h:64-67 | midnight of the instant's day fits 64-bit nanoseconds if and only if the instant is at most 106751 days before 1970 |
| TimeText.SinceMidnightExact | utils/vp_utils.h:67-67 | 64-bit subtraction gives the time since midnight, in one day, for every instant; by wrapping twice where midnight does not fit |
| TimeText.FloorDays | utils/date.h:1251-1257 | truncation corrected downwards is the floor |
| TimeText.PartsExact | utils/date.h:4082-4087 | date and hour, minute, second, millisecond put together again are the millisecond of the instant |
| TimeText.PartOrderIsTimeOrder | utils/vp_utils.h:69-80 | for every two 64-bit instants (see TimeSplit for the first hours), the order of their part vectors is their order in time |
| TimeText.SetWidthAndFill | utils/vp_utils.h:83-96 | fill characters on the chosen side, up to the width and no more |
| TimeText.TimeFormat | utils/vp_utils.h:104-121 | the text is the template with the seven keywords replaced in turn by the parts of the shifted instant; with the default template it spells the instant plus the hours of the zone, in 23 columns |
| TimeText.FieldSpells | utils/vp_utils.h:112-118 | every part takes its columns (four, two, or three for milliseconds), all digits, that spell it |
| TimeText.DefaultFormatSpells | utils/vp_utils.h:104-118 | with the default template every 64-bit instant is written with dashes, space, colons and dot in their columns and numbers that are a valid date and time of day and add up to its millisecond |
| TimeText.DefaultTemplate | utils/vp_utils.h:104-104 | the text of the default template |
| TimeText.FormatFillsTemplate | utils/vp_utils.h:112-118 | the seven replacements in turn are one simultaneous substitution: no replacement text is taken for a keyword, no keyword for part of another |
| TimeText.FormattedOrderIsTimeOrder | utils/vp_utils.h:98-121 | with any template that shows all parts, largest first, formatted instants compare as strings as they do in time (see TimeSplit for the first hours) |
| TimeText.DefaultFormatOrder | utils/vp_utils.h:104-104 | that holds of the default template, for every two 64-bit instants (see TimeSplit for the first hours) |
| JobQueue.ThreadSafeJobQueue.Create | utils/safe_queue.h:132-145 | the constructor refuses exactly a warning size above a positive bound |
| JobQueue.ThreadSafeJobQueue.GetJobs | utils/safe_queue.h:163-170 | hands over the front of the queue in order, no more than was asked for, and leaves jobs behind only if it hands over that many; after the end of the run nothing changes |
| JobQueue.ThreadSafeJobQueue.CheckQueueLength | utils/safe_queue.h:289-296 | one warning to the callback set, of the queue's length, exactly if that is at a positive threshold and the flag is down; the flag goes up with it only; nothing else changes |
| JobQueue.ThreadSafeJobQueue.Emplace | utils/safe_queue.h:197-207 | the job is last in the queue, or, when the queue is bounded and was stopped, nothing at all changes |
| JobQueue.ThreadSafeJobQueue.BatchEmplace | utils/safe_queue.h:210-227 | the batch is last in the queue, in order and in one piece, or, when the queue is bounded and was stopped, nothing at all changes |
| JobQueue.ThreadSafeJobQueue.Clear | utils/safe_queue.h:232-240 | the queue is empty and the clear callback was called once for each job, front to back |
| JobQueue.WarnsAtCrossings | utils/safe_queue.h:284-296 | over any series of lengths looked at, with one callback, warnings are given exactly where the length rises to the threshold from below |
| JobQueue.NeverWarns | utils/safe_queue.h:289-296 | over any series of lengths, nothing is warned or flagged without a callback, or with threshold 0 |
| JobQueue.FetchTakesAll | utils/safe_queue.h:165-170 | what is handed over and what stays make up the queue, and as much is handed over as was asked for or is there |
| JobQueue.StoppedPushDrops | utils/safe_queue.h:187-219 | a push adds its jobs if and only if the queue is without a bound or runs |
| JobWarnings.RunWarns | utils/safe_queue.h:185-227 | along every run in which a warning callback stays set, whichever it is, the warnings given are the lengths that accepted pushes find risen to the threshold; fetches and clears between them play no part |
| JobWarnings.DrainDoesNotRearm | utils/safe_queue.h:284-296 | for every batch as threshold: pushed, drained by a consumer and pushed again, it warns once |
| JobProtocol.StepKeeps | utils/safe_queue.h:159-258 | as long as consumers do not push and nobody else fetches, every critical section, notification and wake-up keeps the invariants: roles, bound, and that waiting jobs, an empty queue and the end of the run are noticed by some thread awake or notification due |
| JobProtocol.RunKeeps | utils/safe_queue.h:159-258 | the invariants hold along every interleaving |
| JobProtocol.NeverStuck | utils/safe_queue.h:159-227 | while the queue runs, with at least one consumer, consumers that do not push, and no batch above the bound, no reachable state has all consumers and all producers in the queue asleep with no notification due |
| JobProtocol.WaitingJobsNoticed | utils/safe_queue.h:159-227 | while the queue runs and jobs wait, with batches of any size and consumers that do not push, some consumer is awake or a notification for one is due |
| JobProtocol.OversizedBatchSticks | utils/safe_queue.h:214-220 | for every bound and every larger batch there is a run that gets stuck, on an empty queue |
| JobProtocol.StopWakesEverybody | utils/safe_queue.h:250-258 | once the run is over and the two notify_all of stop are done, no thread sleeps in the queue |
| JobProtocol.StoppedForGood | utils/safe_queue.h:159-207 | from then on none ever sleeps again, nothing is delivered, and the run stays over |
| JobProtocol.StoppedDelivers | utils/safe_queue.h:163-163 | no step delivers a job once the run is over |
| JobProtocol.RunConserves | utils/safe_queue.h:159-245 | from any consistent state, every run keeps order and number of jobs, and of calls to the clear callback |
| JobProtocol.JobsConserved | utils/safe_queue.h:159-245 | the accepted batches in order are the jobs delivered or cleared, in order of removal, followed by the queue; each cleared job met the callback then set once; a positive bound is never exceeded |
| JobStop.StopLeavesNothing | utils/safe_queue.h:232-258 | in every run, after a clear with no producer in the queue and none coming later, the queue is empty and every accepted job was delivered or cleared |
| JobStop.WaitingProducerStrands | utils/safe_queue.h:250-258 | from every state just after the clear of stop, for every bound: each producer in the queue with jobs that fit, asleep or not, has a run in which stop returns with exactly its jobs left |
| JobStop.LateProducerStrands | utils/safe_queue.h:250-258 | so does each producer that calls between the clear and the end of the run, with any batch that fits |
| JobStop.StrandsExactlyWithProducer | utils/safe_queue.h:250-258 | in every reachable state, without further calls, stop can strand jobs if and only if a producer is in the queue while it clears |
| JobStop.SleeperStranded | utils/safe_queue.h:187-190 | the producer of a second job sleeps at bound 1 before stop is called, is woken by the notify_all of stop, and its job is left |
| JobStop.StopStrandsJobs | utils/safe_queue.h:250-258 | from a new queue: for every bound and every batch that fits there is a run in which stop returns with the batch left |
| JobStop.RunAfterTheEnd | utils/safe_queue.h:185-227 | in every run after the end without a clear, nothing leaves the queue; with a bound nothing is accepted, without one everything accepted stays in it |
| JobSlots.SinglePushesLoseNoJob | utils/safe_queue.h:159-207 | when every push brings one job, or more than the bound, and every fetch asks for at least one, no run leaves a consumer asleep beside a waiting job with nobody on the way |
| JobSlots.UnitRequestsLoseNoSlot | utils/safe_queue.h:159-207 | when every push brings one job and every fetch takes at most one, or the bound is one, no run leaves a producer asleep whose jobs fit with nobody on the way |
| JobSlots.BatchLosesJob | utils/safe_queue.h:210-227 | every batch of two or more that fits, with fetches of one, has a run that leaves a consumer asleep beside a waiting job |
| JobSlots.EmptyFetchLosesJob | utils/safe_queue.h:159-179 | so has a fetch of none, with a push of one |
| JobSlots.FetchLosesSlot | utils/safe_queue.h:168-175 | for every bound of two or more, every fetch of two or more, with pushes of one, has a run that leaves a producer asleep beside a free slot |
| JobSlots.BatchLosesSlot | utils/safe_queue.h:210-227 | so has every batch of two or more, at every bound, with fetches of one |
| Permits.ThreadSafeQueue.TryPop | utils/safe_queue.h:82-91 | takes the front element, or reports an empty queue and changes nothing |
| Permits.ThreadSafeQueue.Pop | utils/safe_queue.h:74-79 | drops the front element of a queue that has one |
| Permits.ThreadSafeQueue.Push | utils/safe_queue.h:114-119 | the element is last |
| Permits.ElementsConserved | utils/vp_semaphore.h:16-36 | in every run of the semaphore the count is the signals less the permits taken or reset; in every run of the queue (utils/safe_queue.h:73-119) the elements handed out or dropped are the first that were added, each once, in order, and the rest is what it holds |
| Permits.StepCovers | utils/vp_semaphore.h:16-36 | every signal, wait, reset, notification, timeout and spurious wake-up keeps: while a thread sleeps, each permit has a waiter awake or a notification coming |
| Permits.NoLostPermit | utils/safe_queue.h:73-119 | in every run, with stealing, timeouts, resets and spurious wake-ups, no permit or element lies beside a sleeper with nobody awake and no notification due |
| Ssim.Ssim8x8 | 3rdparty/libyuv/source/compare.cc:329-370 | the quotient is the index of structural similarity of the 64 pixel pairs of the two strided blocks; for uniform blocks and for blocks of equal sum the two integers are in the ratio that brightness, or variances, give; the denominator is positive, the quotient at most 1 in size, and 1 exactly if the pixels are the same |
| Ssim.QuotientIsSimilarity | 3rdparty/libyuv/source/compare.cc:354-375 | for all blocks of bytes the integers of the code divide to the index as it is defined, by means, variances and covariance over the reals |
| Ssim.ConstantsRounded | 3rdparty/libyuv/source/compare.cc:326-327 | the constants are (0.01 * 255)^2 and (0.03 * 255)^2 times 4096, rounded down |
| Ssim.UniformBlocks | 3rdparty/libyuv/source/compare.cc:360-375 | blocks of one value each are compared by brightness and the first constant alone |
| Ssim.EqualSums | 3rdparty/libyuv/source/compare.cc:360-375 | blocks of the same sum are compared by variances, covariance and the second constant alone |
| Ssim.PixelOf | 3rdparty/libyuv/source/compare.cc:340-352 | pixel j of row i is the byte i strides and j columns on |
| Ssim.SsimBounds | 3rdparty/libyuv/source/compare.cc:360-375 | for all blocks of bytes the denominator is positive (the `DBL_MAX` branch is dead), the quotient lies in -1..1, and it is 1 exactly for identical blocks |
| Ssim.RunningSumsFit | 3rdparty/libyuv/source/compare.cc:340-352 | the five sums after any number of pixels fit `int64_t`, and the products added to them fit `int` |
| Ssim.SsimFits | 3rdparty/libyuv/source/compare.cc:354-370 | every intermediate of numerator and denominator fits `int64_t` |
| Ssim.VarianceNonNegative | 3rdparty/libyuv/source/compare.cc:365-370 | n times the sum of squares is at least the square of the sum, with equality exactly for a constant sequence, at every length |
| Ssim.CovarianceBound | 3rdparty/libyuv/source/compare.cc:362-370 | twice the covariance is at most the sum of the variances, and the gap is the variance of the difference |
| DjbHash.HashC | 3rdparty/libyuv/source/compare_common.cc:62-69 | the byte loop computes the hash polynomial modulo 2^32 |
| DjbHash.ConstantsArePowers | 3rdparty/libyuv/source/compare_gcc.cc:275-299 | the seventeen literal constants are powers of 33 modulo 2^32 and stand at the right bytes |
| DjbHash.RoundIsSixteenSteps | 3rdparty/libyuv/source/compare_gcc.cc:301-354 | one round on four lanes is sixteen scalar steps, whatever lanes 1 to 3 held before |
| DjbHash.HashSse41 | 3rdparty/libyuv/source/compare_gcc.cc:301-354 | the register loop equals the plain byte fold on every positive multiple of 16 |
| DjbHash.HashConcat | 3rdparty/libyuv/source/compare.cc:48-63 | hashing goes on from the hash of what came before, so any split into blocks gives the same value |
| DjbHash.HashByte | 3rdparty/libyuv/source/compare_common.cc:62-69 | a byte is added to 33 times the hash, modulo 2^32 |
| DjbHash.HashDjb2 | 3rdparty/libyuv/source/compare.cc:32-64 | blocks, multiple of 16 and rest give the plain hash for every length, seed and kernel |
| BitCount.WordTrickCounts | 3rdparty/libyuv/source/compare_common.cc:28-31 | the HAKMEM trick counts the one bits of every 32-bit word |
| BitCount.ByteTrickCounts | 3rdparty/libyuv/source/compare_common.cc:37-40 | and of every byte |
| BitCount.WordDistance | 3rdparty/libyuv/source/compare_common.cc:28-28 | the bits that differ between two little-endian words are those of their four bytes |
| Reductions.HammingDistanceC | 3rdparty/libyuv/source/compare_common.cc:21-46 | words and tail together count the differing bits of all byte pairs (modulo 2^32) |
| Reductions.SumSquareErrorC | 3rdparty/libyuv/source/compare_common.cc:48-58 | the sum of squared differences (modulo 2^32) |
| Reductions.OverBound | 3rdparty/libyuv/source/compare.cc:188-191 | a block of 65536 bytes stays below 2^32, so its sum does not wrap |
| Reductions.ComputeHammingDistance | 3rdparty/libyuv/source/compare.cc:121-181 | blocks of 32768, multiples of 64 and the rest are the whole buffer: the exact distance for every count |
| Reductions.ComputeSumSquareError | 3rdparty/libyuv/source/compare.cc:185-242 | the exact sum for every count |
| Reductions.Coalesced | 3rdparty/libyuv/source/compare.cc:253-258 | rows without gaps may be joined into one |
| Reductions.ComputeSumSquareErrorPlane | 3rdparty/libyuv/source/compare.cc:245-265 | the exact sum over all rows, joined or not, for strides of any sign |
| Distances.OnePair | 3rdparty/libyuv/source/compare_common.cc:21-58 | a pair of bytes adds the number of its eight positions that differ, or the square of its difference |
| Distances.ZeroExactly | 3rdparty/libyuv/source/compare.cc:121-242 | both sums are zero if and only if the buffers are the same, and symmetric |
| Distances.Triangle | 3rdparty/libyuv/source/compare.cc:121-181 | differing bits are a distance: the way by a third buffer is never shorter |
| Distances.ErrorOfProducts | 3rdparty/libyuv/source/compare.cc:185-242 | the squared error of two buffers from the sums of products that the similarity index takes |
| Distances.PlaneErrorZero | 3rdparty/libyuv/source/compare.cc:245-265 | the error of two planes is zero if and only if all their rows are the same, for strides of any sign |
| Rotate.TransposeRows | 3rdparty/libyuv/source/rotate_common.cc:70-83 | columns of the destination become the rows of the source and nothing else in the buffer changes; also TransposeWx8_C (19-38) |
| Rotate.TransposeAny | 3rdparty/libyuv/source/rotate_any.cc:21-30 | the split into a multiple of the vector width and the rest transposes the whole width |
| Rotate.SideBySide | 3rdparty/libyuv/source/rotate_any.cc:24-29 | transposes of two neighbouring parts, each leaving the other alone, are the transpose of both |
| Rotate.OneAboveTheOther | 3rdparty/libyuv/source/rotate.cc:86-91 | so are those of one tile below the other |
| Rotate.TransposePlane | 3rdparty/libyuv/source/rotate.cc:25-97 | tiles of eight rows and the remainder give the full transpose for every width and height, all addresses inside the planes, strides of either sign |
| Rotate.RotatePlane90 | 3rdparty/libyuv/source/rotate.cc:100-112 | the image in the destination is that of the source turned clockwise; nothing else is written |
| Rotate.RotatePlane270 | 3rdparty/libyuv/source/rotate.cc:115-127 | turned counterclockwise |
| Rotate.MirrorRow | 3rdparty/libyuv/source/row_common.cc:2586-2597 | the row reversed if the two rows are apart, folded if they are one; writes nothing else even if they overlap otherwise |
| Rotate.FoldedIsMirror | 3rdparty/libyuv/source/row_common.cc:2586-2597 | a row mirrored onto itself is reversed if and only if it is a palindrome |
| Rotate.FoldedRow | 3rdparty/libyuv/source/row_common.cc:2589-2593 | 1 2 mirrored onto itself becomes 2 2 |
| Rotate.TurnStep | 3rdparty/libyuv/source/rotate.cc:211-219 | one round of the swap turns one more row at either end, also when both are the middle row and the first write folded it; of an upside-down source the upper row stays folded |
| Rotate.WaitingStep | 3rdparty/libyuv/source/rotate.cc:211-219 | in place, either way up, the rows still to come are untouched |
| Rotate.TurnRows | 3rdparty/libyuv/source/rotate.cc:211-219 | the loop turns all rows, for every height, into another buffer or in place; with the source upside down it folds those above the middle |
| Rotate.RotatePlane180 | 3rdparty/libyuv/source/rotate.cc:130-221 | the image is the half turn of the source for every height, into another buffer or in place, and the folded one in place upside down; nothing else is written |
| Rotate.CopyPlane | 3rdparty/libyuv/source/planar_functions.cc:30-82 | the same image, flipped for a negative height, with joined rows or not, and no write when source and destination are the same; within one buffer and turned over, the lower half is a copy of the upper |
| Rotate.JoinedCopy | 3rdparty/libyuv/source/planar_functions.cc:45-49 | a copy of the joined rows is a copy of the plane |
| Rotate.RotatePlane | 3rdparty/libyuv/source/rotate.cc:382-418 | -1 and no change exactly for refused arguments; otherwise every pixel comes from where the mode puts it, of the source turned over if the height is negative; in place with a negative height, the spoilt image |
| Rotate.RotatedPixels | 3rdparty/libyuv/source/rotate.cc:399-416 | 90 is clockwise, 270 counterclockwise: where each mode takes each pixel from, for both signs of the height |
| Rotate.TakesExactly | 3rdparty/libyuv/source/rotate.cc:399-416 | an image has its pixels from there if and only if it is the oriented source, turned |
| Rotate.RowTurned | 3rdparty/libyuv/source/rotate.cc:399-416 | 1 2 turned by 90 is 1 above 2, by 270 2 above 1 |
| Rotate.PixelIsByte | 3rdparty/libyuv/source/rotate.cc:82-97 | pixel x of row y is the byte y strides and x columns on |
| Rotate.InvertedInPlaceRight | 3rdparty/libyuv/source/rotate.cc:394-413 | in place, a negative height gives the right image if and only if the rows above the middle are palindromes (180 degrees) or the image is symmetric from top to bottom (0 degrees) |
| Rotate.InvertedInPlaceSpoils | 3rdparty/libyuv/source/rotate.cc:394-413 | the image of 1 2 above 3 4 is spoilt in both modes |
| Rotate.QuarterAndBack | 3rdparty/libyuv/source/rotate.cc:100-127 | 90 and then 270 degrees is the identity |
| Rotate.TwoQuarters | 3rdparty/libyuv/source/rotate.cc:100-221 | 90 degrees twice is 180 |
| Rotate.HalfTwice | 3rdparty/libyuv/source/rotate.cc:130-221 | 180 degrees twice is the identity |
| Rotate.RotationsAdd | 3rdparty/libyuv/source/rotate.cc:399-416 | turning by one mode and then by another is turning by their sum modulo 360, for all sixteen pairs and every image |
| JpegMarkers.ScanEoi | 3rdparty/libyuv/source/mjpeg_validate.cc:21-39 | true exactly if ff d9 stands somewhere in the range; no read beyond it |
| JpegMarkers.ValidateJpeg | 3rdparty/libyuv/source/mjpeg_validate.cc:42-66 | accepts exactly if 64 <= n <= 0x7fffffff, the bytes start ff d8 ff, and ff d9 stands at some i >= 2: back scan and shortened forward scan miss no pair |

## Left out

- Rotate.TransposeAny: the vector kernels are taken to do on their columns what the plain one does; no SIMD body is modelled but the hash round.
- DjbHash.HashDjb2: the AVX2 kernel, whose rounds are those of the SSE4.1 one, is not modelled apart.
- Rotate.RotatePlane: strides and products are mathematical integers; overflow of `int` address arithmetic is not modelled. Two planes of one buffer may coincide, one way up or the other; that they overlap otherwise, or are turned sideways in place, is excluded, as nothing is promised of the result.
- Rotate.MirrorRow: what a vector kernel makes of a row mirrored onto itself, or of rows that overlap in part, is left out; a `memcpy` of a row onto itself is taken to change nothing.
- Rotate.TransposePlane: the 16-row MSA tiles are not modelled.
- Reductions.ComputeSumSquareErrorPlane: requires width * height to fit an `int` when rows are joined, where the code would overflow. The 64-bit totals are mathematical; no buffer is long enough to wrap them.
- Reductions.HammingDistanceC: loads words in little-endian order.
- Civil.FromDaysLocalsExact: requires the shift of the day number to fit an `int`; beyond it the code has signed overflow.
- TimeText.TimeSplit: requires the zone-shifted instant to fit 64 bits, for the same reason. Where `tp - dp` itself overflows, 64-bit subtraction is taken to wrap.
- TimeText.FormatFillsTemplate: templates are plain text without `<` between keywords; the replacement of literal patterns stands for `std::regex_replace`.
- TimeText.SetWidthAndFill: a negative width, which the comparison would convert to a huge size, is excluded.
- DateText.InStream.ReadSigned: requires a positive minimum number of digits, as every caller passes; stream sentries, locales and wide characters are left out.
- ParseFields.ResolveFindsDate: the two-digit years `%y`, `%g` and the century `%C` are left out.
- ParseAccepts.AcceptsExactly: requires the day numbers that the fields give to stay where the `int` arithmetic of the calendar is exact; beyond that the code has signed overflow.
- ParseFields.WeekDateRoundTrip: starts from the numbers printed for year and week, not from their text.
- KeywordScan.ScanKeyword: the model holds all statuses in one array; the fixed buffer for up to 100 keywords and `malloc` beyond it are left out.
- JobProtocol.NeverStuck: safety only; that a thread due to run does run is left to the scheduler. Requires, as WaitingJobsNoticed does, that no thread both fetches and pushes: one that does can block on its own full queue; the theorems on conservation, `stop`, lost slots and warnings have no such requirement. Callbacks act on the queue from outside only; re-entering it under its lock is left out, as are moves of the queue and `qsize`.
- JobQueue.ThreadSafeJobQueue.Emplace: the copying and the moving overload are one method.
- Permits.ThreadSafeQueue.TryPop: also stands for WaitAndPop and WaitAndTryPop after their wait; the reference that Front returns is a value, and Empty and Size are left out.
- Permits.ElementsConserved: overflow of the `int` count of the semaphore is left out.
- Ssim.SsimBounds: the final floating-point division, the averaging over a frame and PSNR are left out.
- The remaining conversion letters of `to_stream` and `from_stream`, time zones, `vp_gate`, the UV and I420 rotations and all format conversions would only add easy members.
