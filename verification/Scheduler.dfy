/** When a scheduled report runs next. */
module Scheduler {

  // ---- The calendar ------------------------------------------------------------------------

  datatype Date = Date(year: int, month: int, day: int)

  predicate IsLeap(y: int) { y % 4 == 0 && (y % 100 != 0 || y % 400 == 0) }

  function MonthLength(y: int, m: int): (n: int)
    ensures 28 <= n <= 31
  {
    if m == 2 then (if IsLeap(y) then 29 else 28) else if m == 4 || m == 6 || m == 9 || m == 11 then 30 else 31
  }

  predicate Valid(d: Date) { 1 <= d.month <= 12 && 1 <= d.day <= MonthLength(d.year, d.month) }

  /** The day after, as adding one to a date's day of the month rolls over. */
  function Next(d: Date): (e: Date)
    requires Valid(d)
    ensures Valid(e)
  {
    if d.day < MonthLength(d.year, d.month) then d.(day := d.day + 1)
    else if d.month < 12 then Date(d.year, d.month + 1, 1)
    else Date(d.year + 1, 1, 1)
  }

  /** Days from 1 January 1970 to 1 January of a year. */
  function BeforeYear(y: int): int { 365 * (y - 1970) + (y - 1) / 4 - (y - 1) / 100 + (y - 1) / 400 - 477 }

  function BeforeMonth(y: int, m: int): int {
    (match m
     case 2 => 31 case 3 => 59 case 4 => 90 case 5 => 120 case 6 => 151 case 7 => 181
     case 8 => 212 case 9 => 243 case 10 => 273 case 11 => 304 case 12 => 334 case _ => 0)
    + (if m > 2 && IsLeap(y) then 1 else 0)
  }

  /** Days since 1 January 1970. */
  function Days(d: Date): int { BeforeYear(d.year) + BeforeMonth(d.year, d.month) + d.day - 1 }

  /** 0 for Sunday; 1 January 1970 was a Thursday. */
  function Weekday(d: Date): (w: int)
    ensures 0 <= w < 7
  {
    (Days(d) + 4) % 7
  }

  lemma QuotientStep(y: int, n: nat)
    requires n == 4 || n == 100 || n == 400
    ensures y / n - (y - 1) / n == if y % n == 0 then 1 else 0
  {
    if n == 4 {
    } else if n == 100 {
    } else {
    }
  }

  lemma Multiples(y: int)
    ensures y % 400 == 0 ==> y % 100 == 0
    ensures y % 100 == 0 ==> y % 4 == 0
  {
  }

  lemma YearLength(y: int)
    ensures BeforeYear(y + 1) == BeforeYear(y) + (if IsLeap(y) then 366 else 365)
  {
    QuotientStep(y, 4);
    QuotientStep(y, 100);
    QuotientStep(y, 400);
    Multiples(y);
  }

  lemma MonthAfter(y: int, m: int)
    requires 1 <= m < 12
    ensures BeforeMonth(y, m + 1) == BeforeMonth(y, m) + MonthLength(y, m)
  {
  }

  /** The day after is one day later. */
  lemma NextIsOneLater(d: Date)
    requires Valid(d)
    ensures Days(Next(d)) == Days(d) + 1
  {
    YearLength(d.year);
    if d.month < 12 { MonthAfter(d.year, d.month); }
  }

  predicate Earlier(d: Date, e: Date) {
    d.year < e.year || (d.year == e.year && (d.month < e.month || (d.month == e.month && d.day < e.day)))
  }

  lemma {:induction false} YearsGrow(y: int, z: int)
    requires y < z
    ensures BeforeYear(z) >= BeforeYear(y) + (if IsLeap(y) then 366 else 365)
    decreases z - y
  {
    YearLength(z - 1);
    if y < z - 1 { YearsGrow(y, z - 1); }
  }

  lemma {:induction false} MonthsGrow(y: int, m: int, n: int)
    requires 1 <= m < n <= 12
    ensures BeforeMonth(y, n) >= BeforeMonth(y, m) + MonthLength(y, m)
    decreases n - m
  {
    MonthAfter(y, n - 1);
    if m < n - 1 { MonthsGrow(y, m, n - 1); }
  }

  lemma WithinYear(d: Date)
    requires Valid(d)
    ensures 0 <= BeforeMonth(d.year, d.month) + d.day - 1 < if IsLeap(d.year) then 366 else 365
  {
  }

  /** Counting days keeps the order of dates, so no two dates have the same count. */
  lemma DaysKeepOrder(d: Date, e: Date)
    requires Valid(d) && Valid(e)
    ensures Earlier(d, e) <==> Days(d) < Days(e)
    ensures Days(d) == Days(e) ==> d == e
  {
    if Earlier(d, e) { EarlierIsLess(d, e); }
    if Earlier(e, d) { EarlierIsLess(e, d); }
  }

  lemma EarlierIsLess(d: Date, e: Date)
    requires Valid(d) && Valid(e) && Earlier(d, e)
    ensures Days(d) < Days(e)
  {
    WithinYear(d);
    WithinYear(e);
    if d.year < e.year { YearsGrow(d.year, e.year); }
    else if d.month < e.month { MonthsGrow(d.year, d.month, e.month); }
  }

  // ---- Schedules ---------------------------------------------------------------------------

  datatype Frequency = Daily | Weekly(dayOfWeek: int) | Monthly(dayOfMonth: int)

  /** A schedule as it has been validated when it was made. */
  datatype Schedule = Schedule(frequency: Frequency, hourUtc: int) {
    predicate Validated() {
      && 0 <= hourUtc <= 23
      && (frequency.Weekly? ==> 0 <= frequency.dayOfWeek <= 6)
      && (frequency.Monthly? ==> 1 <= frequency.dayOfMonth <= 28)
    }
  }

  predicate Fits(f: Frequency, d: Date) {
    match f
    case Daily => true
    case Weekly(dayOfWeek) => Weekday(d) == dayOfWeek
    case Monthly(dayOfMonth) => d.day == dayOfMonth
  }

  const HOUR := 3_600_000
  const DAY := 24 * HOUR

  /** Milliseconds since 1 January 1970 of a date at a time of day. */
  function Instant(d: Date, time: int): int { Days(d) * DAY + time }

  /**
   The earliest moment strictly after now that is on the hour of the schedule and on a day that
   fits its frequency.
   */
  ghost predicate IsNextRun(s: Schedule, today: Date, time: int, next: Date) {
    && Valid(next) && Fits(s.frequency, next)
    && Instant(next, s.hourUtc * HOUR) > Instant(today, time)
    && forall d :: Valid(d) && Fits(s.frequency, d) && Instant(d, s.hourUtc * HOUR) > Instant(today, time)
         ==> Instant(d, s.hourUtc * HOUR) >= Instant(next, s.hourUtc * HOUR)
  }

  /** No day that fits has been passed over. */
  ghost predicate NoneMissed(f: Frequency, first: Date, next: Date) {
    && Valid(next) && Days(next) >= Days(first)
    && forall d :: Valid(d) && Fits(f, d) && Days(d) >= Days(first) ==> Days(d) >= Days(next)
  }

  lemma StepMissesNone(f: Frequency, first: Date, next: Date)
    requires NoneMissed(f, first, next) && !Fits(f, next)
    ensures NoneMissed(f, first, Next(next))
  {
    NextIsOneLater(next);
    forall d | Valid(d) && Fits(f, d) && Days(d) >= Days(first) ensures Days(d) >= Days(Next(next)) {
      DaysKeepOrder(d, next);
    }
  }

  /** The first day whose hour is still ahead is the first to look at. */
  lemma AheadFrom(today: Date, time: int, hour: int, first: Date, d: Date)
    requires Valid(today) && Valid(d) && 0 <= time < DAY && 0 <= hour <= 23
    requires first == if hour * HOUR > time then today else Next(today)
    ensures Instant(d, hour * HOUR) > Instant(today, time) <==> Days(d) >= Days(first)
  {
    NextIsOneLater(today);
    FromFirst(Days(d), Days(today), Days(first), hour * HOUR, time);
  }

  lemma FromFirst(day: int, today: int, first: int, due: int, time: int)
    requires 0 <= time < DAY && 0 <= due < DAY && first == if due > time then today else today + 1
    ensures day * DAY + due > today * DAY + time <==> day >= first
  {
    Shifted(day - today, due - time);
  }

  lemma Shifted(days: int, shift: int)
    requires -DAY < shift < DAY
    ensures days * DAY + shift > 0 <==> days >= if shift > 0 then 0 else 1
  {
  }

  lemma InstantOrder(a: Date, b: Date, time: int)
    ensures Instant(a, time) >= Instant(b, time) <==> Days(a) >= Days(b)
  {
  }

  lemma FirstFitIsNextRun(s: Schedule, today: Date, time: int, first: Date, next: Date)
    requires s.Validated() && Valid(today) && 0 <= time < DAY
    requires first == if s.hourUtc * HOUR > time then today else Next(today)
    requires NoneMissed(s.frequency, first, next) && Fits(s.frequency, next)
    ensures IsNextRun(s, today, time, next)
  {
    AheadFrom(today, time, s.hourUtc, first, next);
    forall d | Valid(d) && Fits(s.frequency, d) && Instant(d, s.hourUtc * HOUR) > Instant(today, time)
      ensures Instant(d, s.hourUtc * HOUR) >= Instant(next, s.hourUtc * HOUR)
    {
      AheadFrom(today, time, s.hourUtc, first, d);
      InstantOrder(d, next, s.hourUtc * HOUR);
    }
  }

  /** How many days lie between two days of the week. */
  function Until(from: int, to: int): int { if from <= to then to - from else to - from + 7 }

  lemma ModSeven(n: int)
    ensures (n + 1) % 7 == if n % 7 == 6 then 0 else n % 7 + 1
  {
  }

  lemma WeekdayAfter(d: Date)
    requires Valid(d)
    ensures Weekday(Next(d)) == if Weekday(d) == 6 then 0 else Weekday(d) + 1
  {
    NextIsOneLater(d);
    assert Days(Next(d)) + 4 == (Days(d) + 4) + 1;
    ModSeven(Days(d) + 4);
  }

  method NextRunAt(s: Schedule, today: Date, time: int) returns (next: Date)
    requires s.Validated() && Valid(today) && 0 <= time < DAY
    ensures IsNextRun(s, today, time, next)
  {
    next := today;
    if s.hourUtc * HOUR <= time { next := Next(next); }
    ghost var first := next;
    if s.frequency.Weekly? {
      while Weekday(next) != s.frequency.dayOfWeek
        invariant NoneMissed(s.frequency, first, next)
        decreases Until(Weekday(next), s.frequency.dayOfWeek)
      {
        StepMissesNone(s.frequency, first, next);
        WeekdayAfter(next);
        next := Next(next);
      }
    }
    if s.frequency.Monthly? {
      while next.day != s.frequency.dayOfMonth
        invariant NoneMissed(s.frequency, first, next)
        decreases next.day > s.frequency.dayOfMonth, 31 - next.day
      {
        StepMissesNone(s.frequency, first, next);
        next := Next(next);
      }
    }
    FirstFitIsNextRun(s, today, time, first, next);
  }

  /** There is only one next run, so it is what every correct computation finds. */
  lemma NextRunIsUnique(s: Schedule, today: Date, time: int, a: Date, b: Date)
    requires IsNextRun(s, today, time, a) && IsNextRun(s, today, time, b)
    ensures a == b
  {
    assert Instant(a, s.hourUtc * HOUR) == Instant(b, s.hourUtc * HOUR);
    InstantOrder(a, b, s.hourUtc * HOUR);
    InstantOrder(b, a, s.hourUtc * HOUR);
    DaysKeepOrder(a, b);
  }

  // ---- How far ahead -----------------------------------------------------------------------

  function Plus(d: Date, k: nat): (e: Date)
    requires Valid(d)
    ensures Valid(e)
  {
    if k == 0 then d else Next(Plus(d, k - 1))
  }

  lemma {:induction false} PlusIsLater(d: Date, k: nat)
    requires Valid(d)
    ensures Days(Plus(d, k)) == Days(d) + k
    ensures d.day + k <= MonthLength(d.year, d.month) ==> Plus(d, k) == d.(day := d.day + k)
    decreases k
  {
    if k > 0 {
      PlusIsLater(d, k - 1);
      NextIsOneLater(Plus(d, k - 1));
    }
  }

  lemma {:induction false} PlusPlus(d: Date, j: nat, k: nat)
    requires Valid(d)
    ensures Plus(d, j + k) == Plus(Plus(d, j), k)
    decreases k
  {
    if k > 0 { PlusPlus(d, j, k - 1); }
  }

  lemma {:induction false} WeekdayOfPlus(d: Date, to: int, k: nat)
    requires Valid(d) && 0 <= to <= 6 && k == Until(Weekday(d), to)
    ensures Weekday(Plus(d, k)) == to
    decreases k
  {
    if k > 0 {
      WeekdayAfter(d);
      WeekdayOfPlus(Next(d), to, k - 1);
      PlusPlus(d, 1, k - 1);
      assert Plus(d, 1) == Next(Plus(d, 0));
    }
  }

  lemma PastMonthEnd(d: Date, rest: nat, to: int)
    requires Valid(d) && 1 <= to <= 28 && rest == MonthLength(d.year, d.month) - d.day
    ensures Plus(d, rest + 1 + (to - 1)).day == to
  {
    PlusIsLater(d, rest);
    PlusPlus(d, rest + 1, to - 1);
    var e := Plus(d, rest + 1);
    assert e == Next(Plus(d, rest)) && e.day == 1;
    PlusIsLater(e, to - 1);
  }

  lemma DayOfPlus(d: Date, to: int) returns (k: nat)
    requires Valid(d) && 1 <= to <= 28
    ensures k <= 30 && Plus(d, k).day == to
  {
    if d.day <= to {
      k := to - d.day;
      PlusIsLater(d, k);
    } else {
      var rest := MonthLength(d.year, d.month) - d.day;
      k := rest + 1 + (to - 1);
      PastMonthEnd(d, rest, to);
    }
  }

  /** From any day, one that fits is at most 6 days away for a weekday and 30 for a day of the month. */
  lemma FitsSoon(s: Schedule, d: Date) returns (k: nat)
    requires s.Validated() && Valid(d)
    ensures Fits(s.frequency, Plus(d, k))
    ensures k <= Longest(s.frequency)
  {
    match s.frequency
    case Daily =>
      k := 0;
    case Weekly(dayOfWeek) =>
      k := Until(Weekday(d), dayOfWeek);
      WeekdayOfPlus(d, dayOfWeek, k);
    case Monthly(dayOfMonth) =>
      k := DayOfPlus(d, dayOfMonth);
  }

  function Longest(f: Frequency): nat {
    match f
    case Daily => 0
    case Weekly(_) => 6
    case Monthly(_) => 30
  }

  lemma Near(today: Date, time: int, hour: int, first: Date, next: Date, k: nat)
    requires Valid(today) && 0 <= time < DAY && 0 <= hour <= 23
    requires first == if hour * HOUR > time then today else Next(today)
    requires Days(next) <= Days(first) + k
    ensures Instant(next, hour * HOUR) - Instant(today, time) <= (k + 1) * DAY
  {
    NextIsOneLater(today);
    assert Instant(next, hour * HOUR) <= Instant(first, hour * HOUR) + k * DAY;
  }

  /** A report is never more than a day, a week or 31 days away. */
  lemma NextRunIsSoon(s: Schedule, today: Date, time: int, next: Date)
    requires s.Validated() && Valid(today) && 0 <= time < DAY
    requires IsNextRun(s, today, time, next)
    ensures 0 < Instant(next, s.hourUtc * HOUR) - Instant(today, time) <= (Longest(s.frequency) + 1) * DAY
  {
    var first := if s.hourUtc * HOUR > time then today else Next(today);
    var k := FitsSoon(s, first);
    PlusIsLater(first, k);
    AheadFrom(today, time, s.hourUtc, first, Plus(first, k));
    InstantOrder(Plus(first, k), next, s.hourUtc * HOUR);
    Near(today, time, s.hourUtc, first, next, Longest(s.frequency));
  }

  // ---- Days of the week --------------------------------------------------------------------

  lemma SevenOn(n: int)
    ensures (n + 1) % 7 == (n % 7 + 1) % 7
  {
  }

  /** Days of the week follow one another. */
  lemma WeekdayMovesOn(d: Date)
    requires Valid(d)
    ensures Weekday(Next(d)) == (Weekday(d) + 1) % 7
  {
    NextIsOneLater(d);
    SevenOn(Days(d) + 4);
  }

  /** 1 January 2000 was a Saturday, 1 January 1970 a Thursday. */
  lemma KnownWeekdays()
    ensures Weekday(Date(2000, 1, 1)) == 6 && Weekday(Date(1970, 1, 1)) == 4
  {
    assert Days(Date(2000, 1, 1)) == 10957 && Days(Date(1970, 1, 1)) == 0;
  }

  /** Leap years as the Gregorian calendar has them. */
  lemma YearsHaveTheirDays()
    ensures Days(Date(2001, 1, 1)) - Days(Date(2000, 1, 1)) == 366 && Days(Date(1901, 1, 1)) - Days(Date(1900, 1, 1)) == 365
    ensures Days(Date(2005, 1, 1)) - Days(Date(2004, 1, 1)) == 366 && Days(Date(2024, 3, 1)) - Days(Date(2024, 2, 1)) == 29
  {
  }
}
