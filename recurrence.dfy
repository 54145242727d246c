/** The next run of a scheduled task: a time of day `H:M[:S]` and, for weekly
    and monthly tasks, a weekday (Monday = 0) or a day of the month. */
module Recurrence {
  import opened Common
  import opened Calendar
  import opened Tasks

  datatype ClockTime = ClockTime(hour: int, minute: int, second: int)

  /** The messages of the `SchedulerException`s raised here. */
  const WeeklyDayMissing: string := "Weekly tasks require scheduled_day (0-6)"
  const MonthlyDayMissing: string := "Monthly tasks require scheduled_day (1-31)"
  const NoNextExecution: string := "Could not calculate next execution"
  const WeeklyDayRange: string := "Weekly tasks require scheduled_day between 0 (Monday) and 6 (Sunday)"
  const MonthlyDayRange: string := "Monthly tasks require scheduled_day between 1 and 31"

  predicate ValidClock(c: ClockTime)
  {
    ValidTime(c.hour, c.minute, c.second)
  }

  /** `t` is at clock time `c`, on the whole second. */
  predicate OnClock(t: Instant, c: ClockTime)
  {
    t.hour == c.hour && t.minute == c.minute && t.second == c.second && t.micro == 0
  }

  /** `scheduled_time.split(":")`, then `int()` of the first part, of the
      second (an IndexError when there is none) and of the third when there
      are exactly three parts; seconds are 0 otherwise and parts beyond the
      third are ignored. */
  function ParseScheduledTime(s: string): (r: Result<ClockTime, SchedulerError>)
    ensures r.Err? ==> r.error == ValueError || r.error == IndexError
    ensures r.Ok? ==> |Split(s, ':')| >= 2
    ensures r.Ok? && |Split(s, ':')| != 3 ==> r.value.second == 0
  {
    var parts := Split(s, ':');
    match ParseInt(parts[0])
    case None => Err(ValueError)
    case Some(h) =>
      if |parts| < 2 then Err(IndexError)
      else
        match ParseInt(parts[1])
        case None => Err(ValueError)
        case Some(m) =>
          if |parts| == 3 then
            match ParseInt(parts[2])
            case None => Err(ValueError)
            case Some(sec) => Ok(ClockTime(h, m, sec))
          else Ok(ClockTime(h, m, 0))
  }

  /** "H:M" reads back as hour H, minute M, second 0. */
  lemma ParseHourMinute(h: nat, m: nat)
    ensures ParseScheduledTime(NatToDecimal(h) + ":" + NatToDecimal(m)) == Ok(ClockTime(h, m, 0))
  {
    ParseIntOfDecimal(h);
    ParseIntOfDecimal(m);
    ParseTwoFields(NatToDecimal(h), NatToDecimal(m));
  }

  /** "H:M:S" reads back as hour H, minute M, second S. */
  lemma ParseHourMinuteSecond(h: nat, m: nat, s: nat)
    ensures ParseScheduledTime(NatToDecimal(h) + ":" + NatToDecimal(m) + ":" + NatToDecimal(s))
      == Ok(ClockTime(h, m, s))
  {
    ParseIntOfDecimal(h);
    ParseIntOfDecimal(m);
    ParseIntOfDecimal(s);
    ParseThreeFields(NatToDecimal(h), NatToDecimal(m), NatToDecimal(s));
  }

  /** Two colon-free fields that parse as integers give that hour and minute. */
  lemma ParseTwoFields(a: string, b: string)
    requires AllDigits(a) && AllDigits(b) && ParseInt(a).Some? && ParseInt(b).Some?
    ensures ParseScheduledTime(a + ":" + b) == Ok(ClockTime(ParseInt(a).value, ParseInt(b).value, 0))
  {
    var parts := [a, b];
    assert Join(parts, ":") == a + ":" + b by {
      assert parts[1..] == [b];
    }
    NoColon(a);
    NoColon(b);
    SplitJoin(parts, ':');
  }

  /** Three colon-free fields that parse as integers give that hour, minute and second. */
  lemma ParseThreeFields(a: string, b: string, e: string)
    requires AllDigits(a) && AllDigits(b) && AllDigits(e)
    requires ParseInt(a).Some? && ParseInt(b).Some? && ParseInt(e).Some?
    ensures ParseScheduledTime(a + ":" + b + ":" + e) ==
      Ok(ClockTime(ParseInt(a).value, ParseInt(b).value, ParseInt(e).value))
  {
    var parts := [a, b, e];
    assert Join(parts, ":") == a + ":" + b + ":" + e by {
      assert parts[1..] == [b, e];
      assert Join([b, e], ":") == b + ":" + e by {
        assert [b, e][1..] == [e];
      }
    }
    NoColon(a);
    NoColon(b);
    NoColon(e);
    SplitJoin(parts, ':');
  }

  lemma NoColon(s: string)
    requires AllDigits(s)
    ensures ':' !in s
  {
  }

  /** A time with no ':' at all is rejected. */
  lemma ParseNeedsColon(s: string)
    requires ':' !in s
    ensures ParseScheduledTime(s).Err?
  {
    assert Split(s, ':') == [s];
  }

  /** `datetime(d.year, d.month, d.day, c.hour, c.minute, c.second, tzinfo=utc)`. */
  function At(d: Date, c: ClockTime): (t: Instant)
    requires ValidDate(d) && ValidClock(c)
    ensures t.date == d && OnClock(t, c)
  {
    DateTime(d, c.hour, c.minute, c.second, 0)
  }

  /** Every moment of a day lies within that day's span on the time line. */
  lemma WithinDay(t: Instant)
    ensures DayNumber(t.date) * 86400000000 <= Stamp(t) < DayNumber(t.date) * 86400000000 + 86400000000
  {
  }

  /** `_calculate_daily_execution`: today at `c` if that is still ahead, else
      tomorrow; moving past `date.max` to tomorrow raises OverflowError. */
  function DailyExecution(from: Instant, c: ClockTime): (r: Result<Instant, SchedulerError>)
    requires ValidClock(c)
    ensures r.Err? <==> from.date == LastDate && Stamp(At(from.date, c)) <= Stamp(from)
    ensures r.Err? ==> r.error == OverflowError
    ensures r.Ok? ==> OnClock(r.value, c)
    ensures r.Ok? ==> Stamp(from) < Stamp(r.value) <= Stamp(from) + MicrosPerDay
    ensures r.Ok? ==> (r.value.date == from.date <==> Stamp(from) < Stamp(At(from.date, c)))
    ensures r.Ok? && r.value.date != from.date ==> from.date != LastDate && r.value.date == NextDay(from.date)
  {
    if Stamp(At(from.date, c)) <= Stamp(from) then
      if from.date == LastDate then Err(OverflowError)
      else
        TomorrowBounds(from, c);
        Ok(At(NextDay(from.date), c))
    else
      TodayBounds(from, c);
      Ok(At(from.date, c))
  }

  lemma TodayBounds(from: Instant, c: ClockTime)
    requires ValidClock(c) && Stamp(from) < Stamp(At(from.date, c))
    ensures Stamp(At(from.date, c)) <= Stamp(from) + MicrosPerDay
  {
    WithinDay(from);
    WithinDay(At(from.date, c));
  }

  lemma TomorrowBounds(from: Instant, c: ClockTime)
    requires ValidClock(c) && Stamp(At(from.date, c)) <= Stamp(from) && from.date != LastDate
    ensures Stamp(from) < Stamp(At(NextDay(from.date), c)) <= Stamp(from) + MicrosPerDay
    ensures NextDay(from.date) != from.date
  {
    var today := At(from.date, c);
    var r := At(NextDay(from.date), c);
    StampShift(today, r, 1);
    WithinDay(from);
    WithinDay(today);
    OneDaySpan(Stamp(from), Stamp(today), Stamp(r), DayNumber(from.date) * 86400000000);
  }

  /** The arithmetic of `TomorrowBounds`, with the day length as a literal. */
  lemma OneDaySpan(f: int, t: int, r: int, base: int)
    requires r == t + 86400000000 && t <= f
    requires base <= f < base + 86400000000 && base <= t
    ensures f < r <= f + 86400000000
  {
  }

  /** The weekly candidate: the date `next`, `days` days after `from`'s date, at `c`. */
  lemma WeeklyBounds(from: Instant, c: ClockTime, days: nat, next: Date)
    requires ValidClock(c) && days <= 7
    requires ValidDate(next) && DayNumber(next) == DayNumber(from.date) + days
    requires days == 0 ==> Stamp(from) < Stamp(At(from.date, c))
    requires days == 7 ==> Stamp(At(from.date, c)) <= Stamp(from)
    ensures Stamp(from) < Stamp(At(next, c)) <= Stamp(from) + 7 * MicrosPerDay
  {
    var today := At(from.date, c);
    var r := At(next, c);
    StampShift(today, r, days);
    WithinDay(from);
    WithinDay(today);
    DaysSpan(days, Stamp(from), Stamp(today), Stamp(r), DayNumber(from.date) * 86400000000);
  }

  /** Everything the weekly branch promises about its candidate date `next`. */
  lemma WeeklyFacts(from: Instant, day: int, c: ClockTime, days: nat, next: Date)
    requires 0 <= day <= 6 && ValidClock(c)
    requires days == DaysAhead(Weekday(from.date), day, Stamp(At(from.date, c)) <= Stamp(from))
    requires ValidDate(next) && DayNumber(next) == DayNumber(from.date) + days
    ensures Weekday(next) == day
    ensures Stamp(from) < Stamp(At(next, c)) <= Stamp(from) + 7 * MicrosPerDay
    ensures 0 <= DayNumber(next) - DayNumber(from.date) <= 7
    ensures DayNumber(next) - DayNumber(from.date) == 7 <==>
      Weekday(from.date) == day && Stamp(At(from.date, c)) <= Stamp(from)
  {
    WeekdayAfter(from.date, next, days);
    WeeklyBounds(from, c, days, next);
  }

  /** The arithmetic of `WeeklyBounds`, with the day length as a literal. */
  lemma DaysSpan(days: nat, f: int, t: int, r: int, base: int)
    requires days <= 7
    requires r == t + days * 86400000000
    requires base <= f < base + 86400000000 && base <= t < base + 86400000000
    requires days == 0 ==> f < t
    requires days == 7 ==> t <= f
    ensures f < r <= f + 7 * 86400000000
  {
  }

  /** Days from weekday `w` to weekday `day`: `(day - w) % 7`, or a whole
      week when that is 0 and today's time has already passed (`late`). */
  function DaysAhead(w: int, day: int, late: bool): (days: nat)
    requires 0 <= w < 7 && 0 <= day < 7
    ensures days <= 7 && (w + days) % 7 == day
    ensures days == 0 <==> w == day && !late
    ensures days == 7 <==> w == day && late
  {
    // Python's % with a positive modulus is never negative, as Dafny's is.
    var ahead := (day - w) % 7;
    if ahead == 0 && late then 7 else ahead
  }

  /** The weekly branch of `calculate_next_datetime` for a weekday `day` in 0..6;
      a target date past `date.max` raises OverflowError, which can only
      happen in the last week of year 9999. */
  function WeeklyExecution(from: Instant, day: int, c: ClockTime): (r: Result<Instant, SchedulerError>)
    requires 0 <= day <= 6 && ValidClock(c)
    ensures r.Err? <==>
      DayNumber(LastDate) < DayNumber(from.date) + DaysAhead(Weekday(from.date), day, Stamp(At(from.date, c)) <= Stamp(from))
    ensures r.Err? ==> r.error == OverflowError && from.date.year == MaxYear
    ensures r.Ok? ==> OnClock(r.value, c) && Weekday(r.value.date) == day
    ensures r.Ok? ==> Stamp(from) < Stamp(r.value) <= Stamp(from) + 7 * MicrosPerDay
    ensures r.Ok? ==> 0 <= DayNumber(r.value.date) - DayNumber(from.date) <= 7
    ensures r.Ok? ==> (DayNumber(r.value.date) - DayNumber(from.date) == 7 <==>
      Weekday(from.date) == day && Stamp(At(from.date, c)) <= Stamp(from))
  {
    var days := DaysAhead(Weekday(from.date), day, Stamp(At(from.date, c)) <= Stamp(from));
    if DayNumber(LastDate) < DayNumber(from.date) + days then
      WeekBeforeEnd(from.date);
      Err(OverflowError)
    else
      var next := AddDays(from.date, days);
      WeeklyFacts(from, day, c, days, next);
      Ok(At(next, c))
  }

  function Min(a: int, b: int): int { if a <= b then a else b }

  /** Day `day` of month (y, m) at `c`, moved back to the month's last day when the month is shorter. */
  function MonthCandidate(y: int, m: int, day: int, c: ClockTime): (t: Instant)
    requires 1 <= y <= MaxYear && 1 <= m <= 12 && 1 <= day <= 31 && ValidClock(c)
    ensures t.date == Date(y, m, Min(day, DaysInMonth(y, m))) && OnClock(t, c)
  {
    At(Date(y, m, Min(day, DaysInMonth(y, m))), c)
  }

  /** The monthly branch of `calculate_next_datetime` for a day `day` in 1..31;
      rolling over from December 9999 makes `datetime(10000, 1, …)` raise ValueError. */
  function MonthlyExecution(from: Instant, day: int, c: ClockTime): (r: Result<Instant, SchedulerError>)
    requires 1 <= day <= 31 && ValidClock(c)
    ensures r.Err? <==> ((from.date.year, from.date.month) == (MaxYear, 12) &&
      Stamp(MonthCandidate(from.date.year, from.date.month, day, c)) <= Stamp(from))
    ensures r.Err? ==> r.error == ValueError
    ensures r.Ok? ==> OnClock(r.value, c)
    ensures r.Ok? ==> r.value.date.day == Min(day, DaysInMonth(r.value.date.year, r.value.date.month))
    ensures r.Ok? ==> Stamp(from) < Stamp(r.value)
    ensures r.Ok? ==> ((r.value.date.year, r.value.date.month) == (from.date.year, from.date.month) <==>
      Stamp(from) < Stamp(MonthCandidate(from.date.year, from.date.month, day, c)))
    ensures r.Ok? && (r.value.date.year, r.value.date.month) != (from.date.year, from.date.month) ==>
      (r.value.date.year, r.value.date.month) == NextMonth(from.date.year, from.date.month)
  {
    var y, m := from.date.year, from.date.month;
    var test := MonthCandidate(y, m, day, c);
    if Stamp(test) <= Stamp(from) then
      var (y2, m2) := NextMonth(y, m);
      if y2 > MaxYear then Err(ValueError)
      else
        var r := MonthCandidate(y2, m2, day, c);
        BeforeNextMonth(from.date, r.date);
        StampDateOrder(from, r);
        Ok(r)
    else Ok(test)
  }

  /** The day constraint of weekly (0..6) and monthly (1..31) tasks. */
  predicate DayAllowed(rt: RecurrenceType, day: Option<int>)
  {
    match rt
    case Weekly => day.Some? && 0 <= day.value <= 6
    case Monthly => day.Some? && 1 <= day.value <= 31
    case _ => true
  }

  /** `(target_weekday - current_weekday) % 7`, which needs no clock time. */
  function WeekdayGap(d: Date, day: int): (g: int)
    requires ValidDate(d) && 0 <= day <= 6
    ensures 0 <= g < 7
  {
    (day - Weekday(d)) % 7
  }

  /** A calculator's outcome as the `datetime | None` the dispatcher returns. */
  function Found(r: Result<Instant, SchedulerError>): Result<Option<Instant>, SchedulerError>
  {
    match r
    case Ok(t) => Ok(Some(t))
    case Err(e) => Err(e)
  }

  /** `calculate_next_datetime` after the time has been parsed into `c`. */
  function NextFromClock(rt: RecurrenceType, c: ClockTime, day: Option<int>, from: Instant, allowOnce: bool)
    : (r: Result<Option<Instant>, SchedulerError>)
    ensures r == Ok(None) <==> rt == Once && !allowOnce
    ensures r.Ok? && r.value.Some? ==> ValidClock(c) && OnClock(r.value.value, c) && Stamp(from) < Stamp(r.value.value)
    ensures rt == Weekly || rt == Monthly ==> (r.Err? && r.error.SchedulerException? <==> !DayAllowed(rt, day))
  {
    match rt
    case Once =>
      if !allowOnce then Ok(None)
      else if !ValidClock(c) then Err(ValueError)
      else Found(DailyExecution(from, c))
    case Daily =>
      if !ValidClock(c) then Err(ValueError)
      else Found(DailyExecution(from, c))
    case Weekly =>
      if day.None? || day.value < 0 || day.value > 6 then
        Err(SchedulerException(WeeklyDayMissing))
      // Away from the target weekday no datetime is built before the date
      // step, so its overflow comes before any complaint about the clock.
      else if WeekdayGap(from.date, day.value) != 0 && DayNumber(LastDate) < DayNumber(from.date) + WeekdayGap(from.date, day.value) then
        Err(OverflowError)
      else if !ValidClock(c) then Err(ValueError)
      else Found(WeeklyExecution(from, day.value, c))
    case Monthly =>
      if day.None? || day.value < 1 || day.value > 31 then
        Err(SchedulerException(MonthlyDayMissing))
      else if !ValidClock(c) then Err(ValueError)
      else Found(MonthlyExecution(from, day.value, c))
  }

  /** Besides the day check, the dispatcher fails only on a bad clock time
      (ValueError) or, in year 9999, at the end of the calendar. */
  lemma NextFromClockErrors(rt: RecurrenceType, c: ClockTime, day: Option<int>, from: Instant, allowOnce: bool)
    requires NextFromClock(rt, c, day, from, allowOnce).Err?
    requires !NextFromClock(rt, c, day, from, allowOnce).error.SchedulerException?
    ensures !ValidClock(c) ==> (NextFromClock(rt, c, day, from, allowOnce).error == ValueError ||
      (rt == Weekly && from.date.year == MaxYear && NextFromClock(rt, c, day, from, allowOnce).error == OverflowError))
    ensures ValidClock(c) ==> (from.date.year == MaxYear &&
      NextFromClock(rt, c, day, from, allowOnce).error == (if rt == Monthly then ValueError else OverflowError))
  {
    if rt == Weekly && NextFromClock(rt, c, day, from, allowOnce).error == OverflowError {
      WeekBeforeEnd(from.date);
    }
  }

  /** A weekly task due on a Saturday, read from Friday 9999-12-31: the date step
      overflows before the malformed hour 25 is ever used. */
  lemma WeeklyOverflowBeforeClock()
    ensures Weekday(LastDate) == 4
    ensures NextFromClock(Weekly, ClockTime(25, 0, 0), Some(5), DateTime(LastDate, 0, 0, 0, 0), false) == Err(OverflowError)
  {
  }

  /** `calculate_next_datetime`. `Ok(None)` is the ONCE task without `allow_once`. */
  function CalculateNextDatetime(rt: RecurrenceType, time: string, day: Option<int>, from: Instant, allowOnce: bool)
    : (r: Result<Option<Instant>, SchedulerError>)
    ensures ParseScheduledTime(time).Err? ==> r == Err(ParseScheduledTime(time).error)
    ensures r == Ok(None) <==> rt == Once && !allowOnce && ParseScheduledTime(time).Ok?
    ensures r.Ok? && r.value.Some? ==>
      ValidClock(ParseScheduledTime(time).value) && OnClock(r.value.value, ParseScheduledTime(time).value) &&
      Stamp(from) < Stamp(r.value.value)
    ensures ParseScheduledTime(time).Ok? && (rt == Weekly || rt == Monthly) ==>
      (r.Err? && r.error.SchedulerException? <==> !DayAllowed(rt, day))
  {
    match ParseScheduledTime(time)
    case Err(e) => Err(e)
    case Ok(c) => NextFromClock(rt, c, day, from, allowOnce)
  }

  /** Each recurrence type, once its time and day are well-formed, yields the
      branch computed by its own function above. */
  lemma NextDaily(rt: RecurrenceType, time: string, day: Option<int>, from: Instant)
    requires rt == Daily || rt == Once
    requires ParseScheduledTime(time).Ok? && ValidClock(ParseScheduledTime(time).value)
    ensures CalculateNextDatetime(rt, time, day, from, true) ==
      Found(DailyExecution(from, ParseScheduledTime(time).value))
    ensures rt == Daily ==>
      CalculateNextDatetime(rt, time, day, from, false) == Found(DailyExecution(from, ParseScheduledTime(time).value))
  {
  }

  lemma NextWeekly(time: string, day: Option<int>, from: Instant, allowOnce: bool)
    requires ParseScheduledTime(time).Ok? && ValidClock(ParseScheduledTime(time).value)
    requires DayAllowed(Weekly, day)
    ensures CalculateNextDatetime(Weekly, time, day, from, allowOnce) ==
      Found(WeeklyExecution(from, day.value, ParseScheduledTime(time).value))
  {
  }

  lemma NextMonthly(time: string, day: Option<int>, from: Instant, allowOnce: bool)
    requires ParseScheduledTime(time).Ok? && ValidClock(ParseScheduledTime(time).value)
    requires DayAllowed(Monthly, day)
    ensures CalculateNextDatetime(Monthly, time, day, from, allowOnce) ==
      Found(MonthlyExecution(from, day.value, ParseScheduledTime(time).value))
  {
  }

  /** `calculate_next_execution`: from the task's own schedule, without `allow_once`. */
  function CalculateNextExecution(task: ScheduledTask, from: Instant): (r: Result<Option<Instant>, SchedulerError>)
    ensures task.recurrenceType == Once ==> r.Err? || r == Ok(None)
    ensures task.recurrenceType != Once ==> r != Ok(None)
    ensures r.Ok? && r.value.Some? ==> Stamp(from) < Stamp(r.value.value)
  {
    CalculateNextDatetime(task.recurrenceType, task.scheduledTime, task.scheduledDay, from, false)
  }

  /** `calculate_initial_next_execution` at the moment `now`; its "could not
      calculate" branch is dead, so it fails exactly when the calculation does. */
  function CalculateInitialNextExecution(rt: RecurrenceType, time: string, day: Option<int>, now: Instant)
    : (r: Result<Instant, SchedulerError>)
    ensures r.Err? <==> CalculateNextDatetime(rt, time, day, now, true).Err?
    ensures r.Err? ==> r.error == CalculateNextDatetime(rt, time, day, now, true).error
    ensures r.Ok? ==> Stamp(now) < Stamp(r.value)
    ensures r.Ok? ==> CalculateNextDatetime(rt, time, day, now, true) == Ok(Some(r.value))
  {
    match CalculateNextDatetime(rt, time, day, now, true)
    case Err(e) => Err(e)
    case Ok(None) => Err(SchedulerException(NoNextExecution))
    case Ok(Some(t)) => Ok(t)
  }

  /** `validate_recurrence_constraints`. */
  function ValidateRecurrenceConstraints(rt: RecurrenceType, day: Option<int>): (r: Result<(), SchedulerError>)
    ensures r.Err? ==> r.error.SchedulerException?
  {
    match rt
    case Weekly =>
      if day.None? || !(0 <= day.value <= 6) then
        Err(SchedulerException(WeeklyDayRange))
      else Ok(())
    case Monthly =>
      if day.None? || !(1 <= day.value <= 31) then
        Err(SchedulerException(MonthlyDayRange))
      else Ok(())
    case _ => Ok(())
  }

  /** Validation and calculation agree on the day constraint: for a well-formed
      time, validation passes exactly when the calculation raises no
      `SchedulerException`, and, before year 9999, exactly when it succeeds. */
  lemma ValidationAgreesWithCalculation(rt: RecurrenceType, time: string, day: Option<int>, from: Instant)
    requires ParseScheduledTime(time).Ok? && ValidClock(ParseScheduledTime(time).value)
    ensures ValidateRecurrenceConstraints(rt, day).Ok? <==>
      !(CalculateNextDatetime(rt, time, day, from, true).Err? &&
        CalculateNextDatetime(rt, time, day, from, true).error.SchedulerException?)
    ensures from.date.year < MaxYear ==>
      (ValidateRecurrenceConstraints(rt, day).Ok? <==> CalculateNextDatetime(rt, time, day, from, true).Ok?)
    ensures ValidateRecurrenceConstraints(rt, day).Ok? <==> DayAllowed(rt, day)
  {
    var c := ParseScheduledTime(time).value;
    if NextFromClock(rt, c, day, from, true).Err? && !NextFromClock(rt, c, day, from, true).error.SchedulerException? {
      NextFromClockErrors(rt, c, day, from, true);
    }
  }
}
