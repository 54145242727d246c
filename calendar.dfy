/** The proleptic Gregorian calendar as Python's `datetime` module uses it:
    civil dates, `calendar.monthrange`, `date.weekday()` (Monday = 0),
    `date + timedelta(days=k)` and aware UTC datetimes compared on one
    microsecond time line. */
module Calendar {

  datatype Date = Date(year: int, month: int, day: int)

  /** A UTC datetime: a date and a time of day down to microseconds. */
  datatype DateTime = DateTime(date: Date, hour: int, minute: int, second: int, micro: int)

  const MicrosPerSecond: int := 1000000
  const MicrosPerDay: int := 86400 * MicrosPerSecond

  predicate IsLeap(y: int)
  {
    y % 4 == 0 && (y % 100 != 0 || y % 400 == 0)
  }

  /** `calendar.monthrange(y, m)[1]`. */
  function DaysInMonth(y: int, m: int): (n: int)
    requires 1 <= m <= 12
    ensures 28 <= n <= 31
    ensures m == 2 ==> (n == 29 <==> IsLeap(y)) && (n == 28 <==> !IsLeap(y))
    ensures m in {4, 6, 9, 11} ==> n == 30
    ensures m in {1, 3, 5, 7, 8, 10, 12} ==> n == 31
  {
    if m == 2 then (if IsLeap(y) then 29 else 28)
    else if m == 4 || m == 6 || m == 9 || m == 11 then 30
    else 31
  }

  function DaysInYear(y: int): int
  {
    if IsLeap(y) then 366 else 365
  }

  /** Days of year `y` before the first of month `m` (m = 13: the whole year). */
  function DaysBeforeMonth(y: int, m: int): (n: int)
    requires 1 <= m <= 13
    ensures m == 1 ==> n == 0
  {
    var common := [0, 31, 59, 90, 120, 151, 181, 212, 243, 273, 304, 334, 365];
    common[m - 1] + (if m > 2 && IsLeap(y) then 1 else 0)
  }

  /** The cumulative table agrees with `DaysInMonth`, month by month. */
  lemma DaysBeforeMonthStep(y: int, m: int)
    requires 1 <= m <= 12
    ensures DaysBeforeMonth(y, m + 1) == DaysBeforeMonth(y, m) + DaysInMonth(y, m)
    ensures DaysBeforeMonth(y, 13) == DaysInYear(y)
  {
  }

  /** Days from 0001-01-01 to 1 January of year `y`. */
  function DaysBeforeYear(y: int): int
    requires y >= 1
  {
    var p := y - 1;
    365 * p + p / 4 - p / 100 + p / 400
  }

  lemma DivStep(p: int, k: int)
    requires p >= 0 && k in {4, 100, 400}
    ensures (p + 1) / k == p / k + (if (p + 1) % k == 0 then 1 else 0)
  {
    if k == 4 {
      assert p == 4 * (p / 4) + p % 4;
    } else if k == 100 {
      assert p == 100 * (p / 100) + p % 100;
    } else {
      assert p == 400 * (p / 400) + p % 400;
    }
  }

  lemma {:induction false} DaysBeforeNextYear(y: int)
    requires y >= 1
    ensures DaysBeforeYear(y + 1) == DaysBeforeYear(y) + DaysInYear(y)
  {
    var p := y - 1;
    DivStep(p, 4);
    DivStep(p, 100);
    DivStep(p, 400);
    var extra := (if y % 4 == 0 then 1 else 0) - (if y % 100 == 0 then 1 else 0) + (if y % 400 == 0 then 1 else 0);
    assert DaysBeforeYear(y + 1) == DaysBeforeYear(y) + 365 + extra;
    if y % 100 == 0 { CenturyDivisibleBy4(y); }
    if y % 400 == 0 { QuadCenturyIsCentury(y); }
  }

  lemma CenturyDivisibleBy4(y: int)
    requires y % 100 == 0
    ensures y % 4 == 0
  {
    var q := y / 100;
    assert y == 4 * (25 * q);
  }

  lemma QuadCenturyIsCentury(y: int)
    requires y % 400 == 0
    ensures y % 100 == 0
  {
    var q := y / 400;
    assert y == 100 * (4 * q);
  }

  /** `datetime.MAXYEAR`: no `date` lies beyond 9999-12-31. */
  const MaxYear: int := 9999

  /** `date.max`. */
  const LastDate: Date := Date(MaxYear, 12, 31)

  predicate ValidDate(d: Date)
  {
    1 <= d.year <= MaxYear && 1 <= d.month <= 12 && 1 <= d.day <= DaysInMonth(d.year, d.month)
  }

  /** Days since 0001-01-01 (Python's `toordinal() - 1`). */
  function DayNumber(d: Date): int
    requires ValidDate(d)
  {
    DaysBeforeYear(d.year) + DaysBeforeMonth(d.year, d.month) + d.day - 1
  }

  /** The number of the first day of month (y, m). */
  function MonthStart(y: int, m: int): int
    requires y >= 1 && 1 <= m <= 12
  {
    DaysBeforeYear(y) + DaysBeforeMonth(y, m)
  }

  /** The month after (y, m): December rolls over to January of y + 1. */
  function NextMonth(y: int, m: int): (r: (int, int))
    requires 1 <= m <= 12
    ensures 1 <= r.1 <= 12
    ensures m == 12 ==> r == (y + 1, 1)
    ensures m < 12 ==> r == (y, m + 1)
  {
    if m == 12 then (y + 1, 1) else (y, m + 1)
  }

  lemma MonthStartNext(y: int, m: int)
    requires y >= 1 && 1 <= m <= 12
    ensures MonthStart(NextMonth(y, m).0, NextMonth(y, m).1) == MonthStart(y, m) + DaysInMonth(y, m)
  {
    DaysBeforeMonthStep(y, m);
    if m == 12 { DaysBeforeNextYear(y); }
  }

  /** Every date of a month comes before every date of the following month. */
  lemma BeforeNextMonth(d: Date, e: Date)
    requires ValidDate(d) && ValidDate(e)
    requires (e.year, e.month) == NextMonth(d.year, d.month)
    ensures DayNumber(d) < DayNumber(e)
  {
    MonthStartNext(d.year, d.month);
  }

  /** The day after `d` (`d + timedelta(days=1)`), for any date but `date.max`. */
  function NextDay(d: Date): (r: Date)
    requires ValidDate(d) && d != LastDate
    ensures ValidDate(r)
    ensures DayNumber(r) == DayNumber(d) + 1
  {
    if d.day < DaysInMonth(d.year, d.month) then Date(d.year, d.month, d.day + 1)
    else
      var (y, m) := NextMonth(d.year, d.month);
      MonthStartNext(d.year, d.month);
      Date(y, m, 1)
  }

  /** `d + timedelta(days=k)` for k >= 0, when that is no later than `date.max`. */
  function AddDays(d: Date, k: nat): (r: Date)
    requires ValidDate(d) && DayNumber(d) + k <= DayNumber(LastDate)
    ensures ValidDate(r)
    ensures DayNumber(r) == DayNumber(d) + k
    decreases k
  {
    if k == 0 then d else AddDays(NextDay(d), k - 1)
  }

  /** 1 January comes no earlier in a later year. */
  lemma {:induction false} DaysBeforeYearMono(a: int, b: int)
    requires 1 <= a <= b
    ensures DaysBeforeYear(a) <= DaysBeforeYear(b)
    decreases b - a
  {
    if a < b {
      DaysBeforeNextYear(a);
      DaysBeforeYearMono(a + 1, b);
    }
  }

  /** Every date of a year comes before 1 January of the next. */
  lemma BeforeNextYear(d: Date)
    requires ValidDate(d)
    ensures DayNumber(d) < DaysBeforeYear(d.year + 1)
  {
    DaysBeforeMonthStep(d.year, d.month);
    DaysBeforeNextYear(d.year);
  }

  /** Only dates of year 9999 lie within a week of `date.max`. */
  lemma WeekBeforeEnd(d: Date)
    requires ValidDate(d) && DayNumber(LastDate) < DayNumber(d) + 7
    ensures d.year == MaxYear
  {
    if d.year < MaxYear {
      BeforeNextYear(d);
      DaysBeforeYearMono(d.year + 1, MaxYear);
    }
  }

  /** `date.weekday()`: 0001-01-01 was a Monday, so Monday = 0 ... Sunday = 6. */
  function Weekday(d: Date): (w: int)
    requires ValidDate(d)
    ensures 0 <= w < 7
    ensures d == Date(1, 1, 1) ==> w == 0
  {
    DayNumber(d) % 7
  }

  lemma WeekdayAddDays(d: Date, k: nat)
    requires ValidDate(d) && DayNumber(d) + k <= DayNumber(LastDate)
    ensures Weekday(AddDays(d, k)) == (Weekday(d) + k) % 7
  {
    WeekdayAfter(d, AddDays(d, k), k);
  }

  /** A date k days after another is k places further round the week. */
  lemma WeekdayAfter(d: Date, e: Date, k: int)
    requires ValidDate(d) && ValidDate(e) && DayNumber(e) == DayNumber(d) + k
    ensures Weekday(e) == (Weekday(d) + k) % 7
  {
    ModAdd(DayNumber(d), k);
  }

  lemma ModAdd(a: int, k: int)
    ensures (a + k) % 7 == (a % 7 + k) % 7
  {
    assert a == 7 * (a / 7) + a % 7;
    ModShift(a / 7, a % 7 + k);
  }

  lemma ModShift(q: int, x: int)
    ensures (7 * q + x) % 7 == x % 7
  {
  }

  predicate ValidTime(hour: int, minute: int, second: int)
  {
    0 <= hour < 24 && 0 <= minute < 60 && 0 <= second < 60
  }

  predicate ValidDateTime(t: DateTime)
  {
    ValidDate(t.date) && ValidTime(t.hour, t.minute, t.second) && 0 <= t.micro < MicrosPerSecond
  }

  /** An aware UTC `datetime`: always a valid calendar moment. */
  type Instant = t: DateTime | ValidDateTime(t) witness DateTime(Date(1, 1, 1), 0, 0, 0, 0)

  /** Microseconds since 0001-01-01T00:00:00 UTC: the order Python compares aware datetimes in. */
  function Stamp(t: DateTime): int
    requires ValidDateTime(t)
  {
    DayNumber(t.date) * 86400000000 + TimeOfDayMicros(t)  // MicrosPerDay, written out
  }

  function TimeOfDayMicros(t: DateTime): (us: int)
    requires ValidDateTime(t)
    ensures 0 <= us < MicrosPerDay
  {
    ((t.hour * 60 + t.minute) * 60 + t.second) * MicrosPerSecond + t.micro
  }

  /** The same time of day k days later is later by k whole days. */
  lemma StampShift(t: DateTime, u: DateTime, k: int)
    requires ValidDateTime(t) && ValidDateTime(u)
    requires (t.hour, t.minute, t.second, t.micro) == (u.hour, u.minute, u.second, u.micro)
    requires DayNumber(u.date) == DayNumber(t.date) + k
    ensures Stamp(u) == Stamp(t) + k * 86400000000
  {
  }

  /** Datetimes on a strictly earlier date are strictly earlier. */
  lemma StampDateOrder(t: DateTime, u: DateTime)
    requires ValidDateTime(t) && ValidDateTime(u)
    requires DayNumber(t.date) < DayNumber(u.date)
    ensures Stamp(t) < Stamp(u)
  {
    var a, b := DayNumber(t.date), DayNumber(u.date);
    assert Stamp(t) == a * 86400000000 + TimeOfDayMicros(t);
    assert Stamp(u) == b * 86400000000 + TimeOfDayMicros(u);
  }
}
