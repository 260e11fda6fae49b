/** The proleptic Gregorian calendar on integer day numbers, as the widget's `Date` and moment
    arithmetic uses it in local wall-clock time (no time zones, no daylight saving).
    Day 0 is 0001-01-01, a Monday; an instant is a number of minutes since its midnight. */
module Gregorian {
  import opened Wrappers
  import opened Strings

  /** Minutes since 0001-01-01T00:00, local wall-clock time. */
  type Instant = nat

  const MinutesPerDay: nat := 1440
  const MinutesPerHour: nat := 60

  predicate IsLeapYear(y: int) { y % 4 == 0 && (y % 100 != 0 || y % 400 == 0) }

  function DaysInYear(y: int): int { if IsLeapYear(y) then 366 else 365 }

  /** The length of month m (1-based) of year y. */
  function DaysInMonth(y: int, m: int): (n: int)
    requires 1 <= m <= 12
    ensures 28 <= n <= 31
    ensures m == 2 ==> (n == 29 <==> IsLeapYear(y))
  {
    if m == 2 then (if IsLeapYear(y) then 29 else 28)
    else if m == 4 || m == 6 || m == 9 || m == 11 then 30
    else 31
  }

  /** Days of year y before the 1st of month m; m = 13 gives the whole year. */
  function DaysBeforeMonth(y: int, m: int): (n: int)
    requires 1 <= m <= 13
    ensures 0 <= n
  {
    var leap := if m > 2 && IsLeapYear(y) then 1 else 0;
    leap + (if m == 1 then 0 else if m == 2 then 31 else if m == 3 then 59
      else if m == 4 then 90 else if m == 5 then 120 else if m == 6 then 151
      else if m == 7 then 181 else if m == 8 then 212 else if m == 9 then 243
      else if m == 10 then 273 else if m == 11 then 304 else if m == 12 then 334 else 365)
  }

  lemma MonthStep(y: int, m: int)
    requires 1 <= m <= 12
    ensures DaysBeforeMonth(y, m) + DaysInMonth(y, m) == DaysBeforeMonth(y, m + 1)
    ensures DaysBeforeMonth(y, 13) == DaysInYear(y)
  {
  }

  /** Days from 0001-01-01 to the 1st of January of year y. */
  function DaysBeforeYear(y: int): nat
    requires y >= 1
  {
    var p := y - 1;
    365 * p + p / 4 - p / 100 + p / 400
  }

  lemma YearStep(y: int)
    requires y >= 1
    ensures DaysBeforeYear(y + 1) == DaysBeforeYear(y) + DaysInYear(y)
  {
    var p := y - 1;
    LeapCountStep(p);
    CenturyCountStep(p);
    QuadCenturyCountStep(p);
    MultiplesNest(y);
  }

  /** A multiple of 400 is a multiple of 100, and a multiple of 100 is a multiple of 4. */
  lemma MultiplesNest(y: int)
    ensures y % 400 == 0 ==> y % 100 == 0
    ensures y % 100 == 0 ==> y % 4 == 0
  {
    if y % 400 == 0 {
      var q := y / 400;
      assert y == 400 * q;
      assert y == 100 * (4 * q) + 0;
    }
    if y % 100 == 0 {
      var q := y / 100;
      assert y == 100 * q;
      assert y == 4 * (25 * q) + 0;
    }
  }

  /** Leap years counted by `p / 4`: one more exactly when p + 1 is a multiple of 4. */
  lemma LeapCountStep(p: nat)
    ensures (p + 1) / 4 - p / 4 == (if (p + 1) % 4 == 0 then 1 else 0)
  {
  }

  /** Centuries counted by `p / 100`: one more exactly when p + 1 is a multiple of 100. */
  lemma CenturyCountStep(p: nat)
    ensures (p + 1) / 100 - p / 100 == (if (p + 1) % 100 == 0 then 1 else 0)
  {
  }

  /** Four-century cycles counted by `p / 400`: one more exactly when p + 1 is a multiple of 400. */
  lemma QuadCenturyCountStep(p: nat)
    ensures (p + 1) / 400 - p / 400 == (if (p + 1) % 400 == 0 then 1 else 0)
  {
  }

  lemma {:induction false} DaysBeforeYearMonotone(a: int, b: int)
    requires 1 <= a <= b
    ensures DaysBeforeYear(a) + (b - a) * 365 <= DaysBeforeYear(b)
    decreases b - a
  {
    if a < b {
      DaysBeforeYearMonotone(a, b - 1);
      YearStep(b - 1);
    }
  }

  datatype Date = Date(year: int, month: int, day: int)

  /** A real calendar date: month 1..12, day within the month, year from 1 on. */
  predicate ValidDate(d: Date)
  {
    d.year >= 1 && 1 <= d.month <= 12 && 1 <= d.day <= DaysInMonth(d.year, d.month)
  }

  /** Days from 0001-01-01 to d. */
  function DayNumber(d: Date): nat
    requires ValidDate(d)
  {
    DaysBeforeYear(d.year) + DaysBeforeMonth(d.year, d.month) + d.day - 1
  }

  /** Where d falls inside its year. */
  lemma DayNumberWithinYear(d: Date)
    requires ValidDate(d)
    ensures DaysBeforeYear(d.year) <= DayNumber(d) < DaysBeforeYear(d.year + 1)
  {
    YearStep(d.year);
    MonthStep(d.year, d.month);
  }

  function FindMonth(r: nat, y: int, m: int): (d: Date)
    requires y >= 1 && 1 <= m <= 12
    requires r < DaysInYear(y) - DaysBeforeMonth(y, m)
    ensures ValidDate(d) && d.year == y
    decreases 12 - m
  {
    MonthStep(y, m);
    if r < DaysInMonth(y, m) then Date(y, m, r + 1)
    else FindMonth(r - DaysInMonth(y, m), y, m + 1)
  }

  /** `FindMonth` counts r days on from the 1st of month m. */
  lemma {:induction false} FindMonthCounts(r: nat, y: int, m: int)
    requires y >= 1 && 1 <= m <= 12
    requires r < DaysInYear(y) - DaysBeforeMonth(y, m)
    ensures var d := FindMonth(r, y, m);
      DaysBeforeMonth(y, d.month) + d.day - 1 == DaysBeforeMonth(y, m) + r
    decreases 12 - m
  {
    MonthStep(y, m);
    if r >= DaysInMonth(y, m) {
      FindMonthCounts(r - DaysInMonth(y, m), y, m + 1);
    }
  }

  function FindYear(n: nat, y: int): (d: Date)
    requires y >= 1 && DaysBeforeYear(y) <= n
    ensures ValidDate(d)
    decreases n - DaysBeforeYear(y)
  {
    YearStep(y);
    if n < DaysBeforeYear(y) + DaysInYear(y) then FindMonth(n - DaysBeforeYear(y), y, 1)
    else FindYear(n, y + 1)
  }

  /** `FindYear` finds the date of day number n. */
  lemma {:induction false} FindYearCounts(n: nat, y: int)
    requires y >= 1 && DaysBeforeYear(y) <= n
    ensures DayNumber(FindYear(n, y)) == n
    decreases n - DaysBeforeYear(y)
  {
    YearStep(y);
    if n < DaysBeforeYear(y) + DaysInYear(y) {
      FindMonthCounts(n - DaysBeforeYear(y), y, 1);
    } else {
      FindYearCounts(n, y + 1);
    }
  }

  /** The calendar date of day number n. */
  function FromDayNumber(n: nat): (d: Date)
    ensures ValidDate(d)
  {
    FindYear(n, 1)
  }

  /** `FromDayNumber` inverts `DayNumber`. */
  lemma FromDayNumberCounts(n: nat)
    ensures DayNumber(FromDayNumber(n)) == n
  {
    FindYearCounts(n, 1);
  }

  /** Different dates have different day numbers. */
  lemma DayNumberInjective(a: Date, b: Date)
    requires ValidDate(a) && ValidDate(b) && DayNumber(a) == DayNumber(b)
    ensures a == b
  {
    DayNumberSameYear(a, b);
    if a.month < b.month {
      MonthsApart(a.year, a.month, b.month);
    } else if b.month < a.month {
      MonthsApart(a.year, b.month, a.month);
    }
  }

  /** Dates with the same day number are in the same year. */
  lemma DayNumberSameYear(a: Date, b: Date)
    requires ValidDate(a) && ValidDate(b) && DayNumber(a) == DayNumber(b)
    ensures a.year == b.year
  {
    DayNumberWithinYear(a);
    DayNumberWithinYear(b);
    if a.year < b.year {
      DaysBeforeYearMonotone(a.year + 1, b.year);
      assert false;
    } else if b.year < a.year {
      DaysBeforeYearMonotone(b.year + 1, a.year);
      assert false;
    }
  }

  /** A month ends no later than any later month begins. */
  lemma MonthsApart(y: int, m1: int, m2: int)
    requires 1 <= m1 < m2 <= 12
    ensures DaysBeforeMonth(y, m1) + DaysInMonth(y, m1) <= DaysBeforeMonth(y, m2)
  {
  }

  /** Day numbers and valid dates are in one-to-one correspondence. */
  lemma FromDayNumberOfDate(d: Date)
    requires ValidDate(d)
    ensures FromDayNumber(DayNumber(d)) == d
  {
    FromDayNumberCounts(DayNumber(d));
    DayNumberInjective(FromDayNumber(DayNumber(d)), d);
  }

  lemma FromDayNumberInjective(a: nat, b: nat)
    requires FromDayNumber(a) == FromDayNumber(b)
    ensures a == b
  {
    FromDayNumberCounts(a);
    FromDayNumberCounts(b);
  }

  /** `getDay()`: 0 = Sunday, 1 = Monday, ... 6 = Saturday. */
  function Weekday(n: int): (w: int)
    ensures 0 <= w < 7
  {
    (n + 1) % 7
  }

  /** One day later is the next weekday. */
  lemma WeekdayStep(n: int)
    ensures Weekday(n + 1) == (Weekday(n) + 1) % 7
  {
  }

  /** A known date anchors the weekday count: 2026-10-14 is a Wednesday. */
  lemma WeekdayAnchor()
    ensures Weekday(DayNumber(Date(2026, 10, 14))) == 3
  {
  }

  /** The lower-case English weekday names, indexed by `getDay()`. */
  const WeekdayIndex: seq<string> :=
    ["sunday", "monday", "tuesday", "wednesday", "thursday", "friday", "saturday"]

  function WeekdayName(n: int): string
  {
    WeekdayIndex[Weekday(n)]
  }

  /** The calendar day of an instant and the first minute of a day. */
  function DayOf(t: nat): nat { t / MinutesPerDay }

  function StartOfDay(n: nat): nat { n * MinutesPerDay }

  /** The instant at 12:00 of day n, what `setHours(12, 0, 0, 0)` makes of any instant of that day. */
  function Noon(n: nat): nat { n * MinutesPerDay + 12 * MinutesPerHour }

  lemma NoonDay(n: nat)
    ensures DayOf(Noon(n)) == n && DayOf(StartOfDay(n)) == n
  {
  }

  function DateOf(t: nat): Date { FromDayNumber(DayOf(t)) }

  /** The calendar date after d: the next day of its month, else the 1st of the next month,
      else the 1st of January of the next year. */
  function Tomorrow(d: Date): Date
    requires ValidDate(d)
  {
    if d.day < DaysInMonth(d.year, d.month) then Date(d.year, d.month, d.day + 1)
    else if d.month < 12 then Date(d.year, d.month + 1, 1)
    else Date(d.year + 1, 1, 1)
  }

  /** After the last day of a month comes the 1st of the month that follows it, counting
      months 0-based modulo 12. */
  lemma TomorrowAfterMonthEnd(d: Date)
    requires ValidDate(d) && d.day == DaysInMonth(d.year, d.month)
    ensures Tomorrow(d).day == 1 && Tomorrow(d).month - 1 == d.month % 12
  {
    if d.month == 12 {
      assert d.month % 12 == 0;
    } else {
      assert d.month % 12 == d.month;
    }
  }

  /** The day after a valid date is valid and has the next day number. */
  lemma TomorrowCounts(d: Date)
    requires ValidDate(d)
    ensures ValidDate(Tomorrow(d)) && DayNumber(Tomorrow(d)) == DayNumber(d) + 1
  {
    if d.day == DaysInMonth(d.year, d.month) {
      MonthStep(d.year, d.month);
      if d.month == 12 {
        YearStep(d.year);
      }
    }
  }

  /** Day number n + 1 is the calendar day after day number n. */
  lemma NextDayDate(n: nat)
    ensures FromDayNumber(n + 1) == Tomorrow(FromDayNumber(n))
  {
    var d := FromDayNumber(n);
    FromDayNumberCounts(n);
    TomorrowCounts(d);
    FromDayNumberOfDate(Tomorrow(d));
  }

  // ---------------------------------------------------------------------------------------------
  // JavaScript `Date` normalisation: `new Date(y, monthIndex, d)`, `setMonth`, `setDate` and
  // `setFullYear` accept out-of-range months and days and carry them into the next unit.

  /** The day number of the 1st of the month with ordinal mo = 12 * year + monthIndex, counted
      month by month from January of year 1. */
  function FirstOfMonth(mo: int): nat
    requires mo >= 12
    decreases mo
  {
    if mo == 12 then 0 else FirstOfMonth(mo - 1) + DaysInMonth((mo - 1) / 12, (mo - 1) % 12 + 1)
  }

  /** The month count agrees with the calendar: it lands on the 1st of the month. */
  lemma {:induction false} FirstOfMonthIsDayNumber(mo: int)
    requires mo >= 12
    ensures FirstOfMonth(mo) == DayNumber(Date(mo / 12, mo % 12 + 1, 1))
    decreases mo
  {
    if mo > 12 {
      var p := mo - 1;
      FirstOfMonthIsDayNumber(p);
      MonthStep(p / 12, p % 12 + 1);
      MonthCountStep(p);
      if p % 12 == 11 {
        YearStep(p / 12);
      }
    }
  }

  /** Month count p + 1 is the next month of the same year, or January of the next year. */
  lemma MonthCountStep(p: int)
    requires p >= 12
    ensures p % 12 == 11 ==> (p + 1) / 12 == p / 12 + 1 && (p + 1) % 12 == 0
    ensures p % 12 != 11 ==> (p + 1) / 12 == p / 12 && (p + 1) % 12 == p % 12 + 1
  {
  }

  /** Later months start later: at least 28 days per month in between. */
  lemma {:induction false} FirstOfMonthMonotone(a: int, b: int)
    requires 12 <= a <= b
    ensures FirstOfMonth(a) + (b - a) * 28 <= FirstOfMonth(b)
    ensures a < b ==> FirstOfMonth(a) < FirstOfMonth(b)
    decreases b - a
  {
    if a < b {
      FirstOfMonthMonotone(a, b - 1);
      FirstOfMonthStep(b);
    }
  }

  /** Each month adds at least 28 days. */
  lemma FirstOfMonthStep(mo: int)
    requires mo > 12
    ensures FirstOfMonth(mo - 1) + 28 <= FirstOfMonth(mo)
  {
    var m := (mo - 1) % 12 + 1;
    assert 1 <= m <= 12;
    assert DaysInMonth((mo - 1) / 12, m) >= 28;
  }

  /** The day number that `new Date(y, monthIndex, d)` denotes. */
  function MakeDay(y: int, monthIndex: int, d: int): int
    requires y * 12 + monthIndex >= 12
  {
    FirstOfMonth(y * 12 + monthIndex) + d - 1
  }

  /** On an in-range month and day, `new Date(y, m - 1, d)` is the date itself. */
  lemma MakeDayOfDate(d: Date)
    requires ValidDate(d)
    ensures MakeDay(d.year, d.month - 1, d.day) == DayNumber(d)
  {
    var mo := d.year * 12 + d.month - 1;
    assert mo / 12 == d.year && mo % 12 == d.month - 1;
    FirstOfMonthIsDayNumber(mo);
  }

  /** Day 0 of a month is the last day of the month before it: `new Date(y, m, 0)` with a
      1-based m is the last day of month m. */
  lemma MakeDayZero(y: int, m: int)
    requires y >= 1 && 1 <= m <= 12
    ensures MakeDay(y, m, 0) >= 0
    ensures FromDayNumber(MakeDay(y, m, 0)) == Date(y, m, DaysInMonth(y, m))
  {
    var mo := y * 12 + m - 1;
    assert mo / 12 == y && mo % 12 == m - 1;
    FirstOfMonthIsDayNumber(mo);
    assert y * 12 + m == mo + 1;
    var last := Date(y, m, DaysInMonth(y, m));
    assert DayNumber(last) == MakeDay(y, m, 0);
    FromDayNumberOfDate(last);
  }

  // ---------------------------------------------------------------------------------------------
  // The "Y/M/D" day key: `getFullYear() + '/' + (getMonth() + 1) + '/' + getDate()`, unpadded.

  function DayKey(d: Date): string
    requires d.year >= 0 && d.month >= 0 && d.day >= 0
  {
    NatToString(d.year) + "/" + NatToString(d.month) + "/" + NatToString(d.day)
  }

  /** The key of day number n, and of the calendar day of an instant. */
  function DayKeyOf(n: nat): string
  {
    DayKey(FromDayNumber(n))
  }

  function InstantKey(t: nat): string
  {
    DayKeyOf(DayOf(t))
  }

  /** moment's 'YYYY/MM/DD' parse of a day string, restricted to digit groups between slashes
      (padded or not) that form a real date; anything else is an invalid date (None). */
  function ParseDayKey(s: string): Option<Date>
  {
    var p := Split(s, '/');
    if |p| == 3 && |p[0]| > 0 && |p[1]| > 0 && |p[2]| > 0
      && AllDigits(p[0]) && AllDigits(p[1]) && AllDigits(p[2])
    then
      var d := Date(DigitsValue(p[0]), DigitsValue(p[1]), DigitsValue(p[2]));
      if ValidDate(d) then Some(d) else None
    else None
  }

  /** Every key reads back as its date. */
  lemma DayKeyRoundTrip(d: Date)
    requires ValidDate(d)
    ensures ParseDayKey(DayKey(d)) == Some(d)
  {
    var a, b, c := NatToString(d.year), NatToString(d.month), NatToString(d.day);
    NatToStringRoundTrip(d.year);
    NatToStringRoundTrip(d.month);
    NatToStringRoundTrip(d.day);
    assert forall i :: 0 <= i < |a| ==> IsDigit(a[i]);
    assert '/' !in a && '/' !in b && '/' !in c;
    assert [a, b, c][1..] == [b, c] && [b, c][1..] == [c];
    assert Join([b, c], '/') == b + ['/'] + c;
    assert Join([a, b, c], '/') == a + ['/'] + (b + ['/'] + c);
    assert DayKey(d) == Join([a, b, c], '/');
    SplitJoin([a, b, c], '/');
  }

  /** Distinct dates have distinct keys. */
  lemma DayKeyInjective(a: Date, b: Date)
    requires ValidDate(a) && ValidDate(b) && DayKey(a) == DayKey(b)
    ensures a == b
  {
    DayKeyRoundTrip(a);
    DayKeyRoundTrip(b);
  }

  /** Two days share a key only when they are the same day. */
  lemma DayKeyOfInjective(n1: nat, n2: nat)
    ensures DayKeyOf(n1) == DayKeyOf(n2) <==> n1 == n2
  {
    if DayKeyOf(n1) == DayKeyOf(n2) {
      DayKeyInjective(FromDayNumber(n1), FromDayNumber(n2));
      FromDayNumberInjective(n1, n2);
    }
  }

  /** Two instants share a key exactly when they fall on the same calendar day. */
  lemma InstantKeySameDay(t1: nat, t2: nat)
    ensures InstantKey(t1) == InstantKey(t2) <==> DayOf(t1) == DayOf(t2)
  {
    DayKeyOfInjective(DayOf(t1), DayOf(t2));
  }
}
