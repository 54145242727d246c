/** The human-readable schedule of a task: "Once at 09:00", "Daily at 09:00",
    "Weekly on Monday at 09:00", "Monthly on the 21st at 09:00". */
module Formatting {
  import opened Common
  import opened Calendar
  import opened Tasks
  import opened Recurrence

  /** Weekday names indexed as `date.weekday()` numbers them. */
  const DayNames: seq<string> := ["Monday", "Tuesday", "Wednesday", "Thursday", "Friday", "Saturday", "Sunday"]

  predicate IsWeekdayNumber(day: Option<int>)
  {
    day.Some? && 0 <= day.value <= 6
  }

  /** The day name of a weekly task; "Unknown" unless the day is 0..6. */
  function DayName(day: Option<int>): (name: string)
    ensures name == "Unknown" <==> !IsWeekdayNumber(day)
    ensures IsWeekdayNumber(day) ==> name in DayNames
  {
    if IsWeekdayNumber(day) then DayNames[day.value] else "Unknown"
  }

  /** Different weekday numbers have different names. */
  lemma DayNameInjective(a: Option<int>, b: Option<int>)
    requires IsWeekdayNumber(a) && IsWeekdayNumber(b) && DayName(a) == DayName(b)
    ensures a == b
  {
    var x, y := a.value, b.value;
    assert DayNames[x] == DayNames[y];
    assert DayNames[x][0] == DayNames[y][0] && DayNames[x][1] == DayNames[y][1];
  }

  /** The suffix `_format_monthly` puts after the day number. */
  function Suffix(day: Option<int>): (s: string)
    ensures s in {"st", "nd", "rd", "th"}
  {
    if day in {Some(1), Some(21), Some(31)} then "st"
    else if day in {Some(2), Some(22)} then "nd"
    else if day in {Some(3), Some(23)} then "rd"
    else "th"
  }

  /** The English ordinal rule: "th" for 11, 12 and 13 of every hundred, otherwise
      by the last digit. */
  function EnglishOrdinalSuffix(n: nat): (s: string)
  {
    if 11 <= n % 100 <= 13 then "th"
    else if n % 10 == 1 then "st"
    else if n % 10 == 2 then "nd"
    else if n % 10 == 3 then "rd"
    else "th"
  }

  /** For every day of a month the fixed lists give the English ordinal. */
  lemma SuffixIsEnglish(d: int)
    requires 1 <= d <= 31
    ensures Suffix(Some(d)) == EnglishOrdinalSuffix(d)
  {
  }

  /** `str(task.scheduled_day)` inside the f-string: "None" when there is no day. */
  function DayText(day: Option<int>): (s: string)
    ensures |s| >= 1
    ensures day.Some? && day.value >= 0 ==> AllDigits(s)
  {
    match day
    case None => "None"
    case Some(d) => IntToDecimal(d)
  }

  /** `_format_weekly`: the day name sits between the fixed lead and " at " and the time. */
  function FormatWeekly(task: ScheduledTask): (s: string)
    ensures |s| == 14 + |DayName(task.scheduledDay)| + |task.scheduledTime|
    ensures s[10..|s| - |task.scheduledTime| - 4] == DayName(task.scheduledDay)
  {
    var name, t := DayName(task.scheduledDay), task.scheduledTime;
    var s := "Weekly on " + (name + " at ") + t;
    assert s[10..|s| - |t| - 4] == (name + " at ")[..|name|];
    s
  }

  /** `_format_monthly`: a day of a month gets its English ordinal; a task
      without a day reads "Noneth". */
  function FormatMonthly(task: ScheduledTask): (s: string)
    ensures task.scheduledDay.Some? && 1 <= task.scheduledDay.value <= 31 ==>
      s == "Monthly on the " + (NatToDecimal(task.scheduledDay.value) + EnglishOrdinalSuffix(task.scheduledDay.value) + " at ") +
           task.scheduledTime
    ensures task.scheduledDay.None? ==> s == "Monthly on the " + ("None" + "th" + " at ") + task.scheduledTime
  {
    var s := "Monthly on the " + (DayText(task.scheduledDay) + Suffix(task.scheduledDay) + " at ") + task.scheduledTime;
    if task.scheduledDay.Some? && 1 <= task.scheduledDay.value <= 31 then
      SuffixIsEnglish(task.scheduledDay.value);
      s
    else s
  }

  /** The word a description starts with. */
  function TypeWord(rt: RecurrenceType): (w: string)
  {
    match rt
    case Once => "Once"
    case Daily => "Daily"
    case Weekly => "Weekly"
    case Monthly => "Monthly"
  }

  predicate StartsWith(s: string, p: string) { |p| <= |s| && s[..|p|] == p }

  predicate EndsWith(s: string, p: string) { |p| <= |s| && s[|s| - |p|..] == p }

  /** `format_recurrence_description`: every description starts with the
      recurrence word and ends with " at " and the scheduled time string. */
  function Describe(task: ScheduledTask): (r: string)
    ensures StartsWith(r, TypeWord(task.recurrenceType) + " ")
    ensures EndsWith(r, " at " + task.scheduledTime)
  {
    var t, day := task.scheduledTime, task.scheduledDay;
    match task.recurrenceType
    case Once =>
      Framed("Once at ", "Once", "", t);
      assert "Once at " + "" == "Once at ";
      "Once at " + t
    case Daily =>
      Framed("Daily at ", "Daily", "", t);
      assert "Daily at " + "" == "Daily at ";
      "Daily at " + t
    case Weekly =>
      Framed("Weekly on ", "Weekly", DayName(day) + " at ", t);
      FormatWeekly(task)
    case Monthly =>
      Framed("Monthly on the ", "Monthly", DayText(day) + Suffix(day) + " at ", t);
      FormatMonthly(task)
  }

  /** A text made of a fixed lead, a middle ending in " at " and the time. */
  lemma Framed(lead: string, w: string, middle: string, t: string)
    requires StartsWith(lead, w + " ")
    requires (middle == "" && EndsWith(lead, " at ")) || EndsWith(middle, " at ")
    ensures StartsWith(lead + middle + t, w + " ")
    ensures EndsWith(lead + middle + t, " at " + t)
  {
    var r := lead + middle + t;
    assert r[..|w| + 1] == lead[..|w| + 1];
    var tail := if middle == "" then lead else middle;
    assert r[|r| - |t| - 4..|r| - |t|] == tail[|tail| - 4..];
    assert r[|r| - |t| - 4..] == r[|r| - |t| - 4..|r| - |t|] + t;
  }

  /** The description tells the recurrence types apart. */
  lemma DescribeDeterminesType(a: ScheduledTask, b: ScheduledTask)
    requires Describe(a) == Describe(b)
    ensures a.recurrenceType == b.recurrenceType
  {
    DescribeLead(a);
    DescribeLead(b);
  }

  /** A description's first letter is its recurrence word's, and the four words
      start with different letters. */
  lemma DescribeLead(task: ScheduledTask)
    ensures |Describe(task)| >= 1
    ensures Describe(task)[0] == match task.recurrenceType
      case Once => 'O' case Daily => 'D' case Weekly => 'W' case Monthly => 'M'
  {
    var w := TypeWord(task.recurrenceType) + " ";
    assert Describe(task)[0] == Describe(task)[..|w|][0];
  }

  /** Two weekly tasks at the same time with different (valid) days are described differently. */
  lemma WeeklyDescribesDay(a: ScheduledTask, b: ScheduledTask)
    requires a.recurrenceType == Weekly && b.recurrenceType == Weekly && a.scheduledTime == b.scheduledTime
    requires IsWeekdayNumber(a.scheduledDay) && IsWeekdayNumber(b.scheduledDay)
    requires Describe(a) == Describe(b)
    ensures a.scheduledDay == b.scheduledDay
  {
    var na, nb := DayName(a.scheduledDay), DayName(b.scheduledDay);
    var tail := " at " + a.scheduledTime;
    assert Describe(a) == ("Weekly on " + na) + tail;
    assert Describe(b) == ("Weekly on " + nb) + tail;
    CancelSuffix("Weekly on " + na, "Weekly on " + nb, tail);
    assert na == ("Weekly on " + na)[10..];
    assert nb == ("Weekly on " + nb)[10..];
    DayNameInjective(a.scheduledDay, b.scheduledDay);
  }

  /** Two monthly tasks at the same time with different non-negative days are described differently. */
  lemma MonthlyDescribesDay(a: ScheduledTask, b: ScheduledTask)
    requires a.recurrenceType == Monthly && b.recurrenceType == Monthly && a.scheduledTime == b.scheduledTime
    requires a.scheduledDay.Some? && a.scheduledDay.value >= 0
    requires b.scheduledDay.Some? && b.scheduledDay.value >= 0
    requires Describe(a) == Describe(b)
    ensures a.scheduledDay == b.scheduledDay
  {
    var da, db := DayText(a.scheduledDay), DayText(b.scheduledDay);
    var sa, sb := Suffix(a.scheduledDay), Suffix(b.scheduledDay);
    var tail := " at " + a.scheduledTime;
    var pa, pb := "Monthly on the " + (da + sa), "Monthly on the " + (db + sb);
    assert Describe(a) == pa + tail;
    assert Describe(b) == pb + tail;
    CancelSuffix(pa, pb, tail);
    assert da + sa == pa[15..] && db + sb == pb[15..];
    DigitsThenLetter(da, sa, db, sb);
    NatToDecimalValue(a.scheduledDay.value);
    NatToDecimalValue(b.scheduledDay.value);
  }

  lemma CancelSuffix(x: string, y: string, tail: string)
    requires x + tail == y + tail
    ensures x == y
  {
    assert |x| == |y|;
    assert x == (x + tail)[..|x|];
    assert y == (y + tail)[..|y|];
  }

  /** The length of the leading run of digits. */
  function DigitRun(w: string): (n: nat)
    ensures n <= |w|
  {
    if w != [] && IsDigit(w[0]) then 1 + DigitRun(w[1..]) else 0
  }

  lemma {:induction false} DigitRunOf(d: string, s: string)
    requires AllDigits(d) && |s| >= 1 && !IsDigit(s[0])
    ensures DigitRun(d + s) == |d|
    decreases |d|
  {
    if d != [] {
      assert (d + s)[1..] == d[1..] + s;
      DigitRunOf(d[1..], s);
    } else {
      assert d + s == s;
    }
  }

  /** A run of digits followed by a non-digit is read back unambiguously. */
  lemma DigitsThenLetter(d1: string, s1: string, d2: string, s2: string)
    requires AllDigits(d1) && AllDigits(d2)
    requires |s1| >= 1 && |s2| >= 1 && !IsDigit(s1[0]) && !IsDigit(s2[0])
    requires d1 + s1 == d2 + s2
    ensures d1 == d2
  {
    var w := d1 + s1;
    DigitRunOf(d1, s1);
    DigitRunOf(d2, s2);
    assert d1 == w[..|d1|] && d2 == w[..|d2|];
  }

  /** The weekday a weekly description names is the weekday of the next run the
      calculator gives for that task. */
  lemma WeeklyNamesNextRun(task: ScheduledTask, from: Instant, next: Instant)
    requires task.recurrenceType == Weekly
    requires CalculateNextExecution(task, from) == Ok(Some(next))
    ensures DayName(task.scheduledDay) == DayNames[Weekday(next.date)]
  {
    var time, day := task.scheduledTime, task.scheduledDay;
    assert ParseScheduledTime(time).Ok? && ValidClock(ParseScheduledTime(time).value);
    assert DayAllowed(Weekly, day);
    NextWeekly(time, day, from, false);
  }

  /** The day a monthly description names is the day of the next run whenever
      that month is long enough, and the month's last day otherwise. */
  lemma MonthlyNamesNextRun(task: ScheduledTask, from: Instant, next: Instant)
    requires task.recurrenceType == Monthly
    requires CalculateNextExecution(task, from) == Ok(Some(next))
    ensures task.scheduledDay.Some? && DayText(task.scheduledDay) == NatToDecimal(task.scheduledDay.value)
    ensures next.date.day == Min(task.scheduledDay.value, DaysInMonth(next.date.year, next.date.month))
  {
    var time, day := task.scheduledTime, task.scheduledDay;
    assert ParseScheduledTime(time).Ok? && ValidClock(ParseScheduledTime(time).value);
    assert DayAllowed(Monthly, day);
    NextMonthly(time, day, from, false);
  }
}
