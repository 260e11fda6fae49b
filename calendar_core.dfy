/** What the two month calendars of the widget share (src/components/cheftonic-booking-component/
    calendar.tsx and src/components/calendar/calendar.ts): the month grid `generateDates` lays out,
    the insertion-ordered set of selected days, the disabled-day rule, whole-day differences and
    month navigation. A day is a day number; a `Date` the calendar stores is the instant at its
    12:00 (every `Date` the calendars build or keep is set to noon). */
module CalendarGrid {
  import opened Wrappers
  import opened Gregorian

  /** A master-data entry `{key, value}` (weekday and month names). */
  datatype KeyValue = KeyValue(key: string, value: string)

  /** `CalendarDay`: the weekday, its name, the day of the month, the 0-based month and the date. */
  datatype CalendarDay = CalendarDay(weekDayNr: nat, weekDayName: string, dayOfMonth: nat, monthNr: nat, date: Instant)

  /** A row of the grid: `day[weekDay]`, a sparse array indexed by `getDay()`. */
  type Week = map<nat, CalendarDay>

  /** The calendar facts of day number n: its weekday and name, day of the month, 0-based month
      and its 12:00. */
  function DayEntry(n: nat): (c: CalendarDay)
    ensures c.weekDayNr == Weekday(n) && c.weekDayName == WeekdayIndex[Weekday(n)]
    ensures c.dayOfMonth == FromDayNumber(n).day && c.monthNr + 1 == FromDayNumber(n).month
    ensures DayOf(c.date) == n
  {
    NoonDay(n);
    var d := FromDayNumber(n);
    CalendarDay(Weekday(n), WeekdayIndex[Weekday(n)], d.day, d.month - 1, Noon(n))
  }

  /** The entry `generateDates` stores for day i of the month `month0` whose 1st is day number
      `first`: the day's weekday and name, i itself, the month and the day's 12:00. */
  function MonthDay(first: nat, month0: nat, i: nat): (c: CalendarDay)
    requires i >= 1
    ensures c.weekDayNr == Weekday(first + i - 1) && c.weekDayName == WeekdayIndex[Weekday(first + i - 1)]
    ensures c.dayOfMonth == i && c.monthNr == month0 && DayOf(c.date) == first + i - 1
  {
    NoonDay(first + i - 1);
    CalendarDay(Weekday(first + i - 1), WeekdayIndex[Weekday(first + i - 1)], i, month0, Noon(first + i - 1))
  }

  // ---------------------------------------------------------------------------------------------
  // The month grid

  /** Day i of the month (day number first + i - 1) opens a new row: it is a Monday, and in the
      booking-form calendar also not the 1st (`getDate() > 1`); the component calendar breaks on
      every Monday. */
  predicate StartsRow(first: nat, i: nat, everyMonday: bool)
    requires i >= 1
  {
    Weekday(first + i - 1) == 1 && (everyMonday || i > 1)
  }

  /** The rows opened by days 1..i: the index of the row day i goes to. */
  function RowBreaks(first: nat, i: nat, everyMonday: bool): nat
    decreases i
  {
    if i == 0 then 0
    else RowBreaks(first, i - 1, everyMonday) + (if StartsRow(first, i, everyMonday) then 1 else 0)
  }

  /** The grid after laying out days 1..n of month `month0`, whose 1st is day number `first`,
      onto the rows `start` (a fresh grid has one empty row): a row is pushed for every row
      break, and day i is stored under its weekday in row `RowBreaks(i)`. */
  function Layout(start: seq<Week>, first: nat, month0: nat, n: nat, everyMonday: bool): (g: seq<Week>)
    requires |start| >= 1
    ensures |g| == |start| + RowBreaks(first, n, everyMonday)
    decreases n
  {
    if n == 0 then start
    else
      var g := Layout(start, first, month0, n - 1, everyMonday);
      var g' := if StartsRow(first, n, everyMonday) then g + [map[]] else g;
      var w := RowBreaks(first, n, everyMonday);
      PutDay(g', w, MonthDay(first, month0, n))
  }

  /** `week[w].day[weekDayNr] = entry`. */
  function PutDay(g: seq<Week>, w: nat, entry: CalendarDay): (r: seq<Week>)
    requires w < |g|
    ensures |r| == |g|
  {
    var row: Week := g[w][entry.weekDayNr := entry];
    g[w := row]
  }

  lemma {:induction false} RowBreaksMonotone(first: nat, i: nat, j: nat, everyMonday: bool)
    requires i <= j
    ensures RowBreaks(first, i, everyMonday) <= RowBreaks(first, j, everyMonday)
    decreases j - i
  {
    if i < j {
      RowBreaksMonotone(first, i, j - 1, everyMonday);
    }
  }

  /** A later day of the same weekday is in a later row: a Monday after day 1 lies between them. */
  lemma MondayBetween(first: nat, i: nat, j: nat, everyMonday: bool)
    requires 1 <= i < j && Weekday(first + i - 1) == Weekday(first + j - 1)
    ensures RowBreaks(first, i, everyMonday) < RowBreaks(first, j, everyMonday)
  {
    var a := first + i - 1;
    WeekdayAdd(a, j - i);
    SameWeekdayWeekApart(Weekday(a), j - i);
    var monday := NextMonday(a);
    var k := monday - first + 1;
    assert StartsRow(first, k, everyMonday);
    RowBreaksMonotone(first, i, k - 1, everyMonday);
    RowBreaksMonotone(first, k, j, everyMonday);
  }

  /** The first Monday after day number a is at most a week later. */
  lemma NextMonday(a: nat) returns (monday: nat)
    ensures a < monday <= a + 7 && Weekday(monday) == 1
  {
    var w := Weekday(a + 1);
    var t := if w <= 1 then 1 - w else 8 - w;
    WeekdayAdd(a + 1, t);
    monday := a + 1 + t;
  }

  /** Two days with the same weekday are at least a week apart. */
  lemma SameWeekdayWeekApart(w: int, d: int)
    requires 0 <= w < 7 && d > 0 && (w + d) % 7 == w
    ensures d >= 7
  {
  }

  /** t days later is t weekdays later. */
  lemma {:induction false} WeekdayAdd(n: nat, t: nat)
    ensures Weekday(n + t) == (Weekday(n) + t) % 7
    decreases t
  {
    if t > 0 {
      WeekdayAdd(n, t - 1);
      WeekdayStep(n + t - 1);
    }
  }

  /** Every day of the month is in the grid, under its weekday in its row, and nothing later
      overwrites it. */
  lemma {:induction false} LayoutPlacement(start: seq<Week>, first: nat, month0: nat, n: nat, everyMonday: bool, i: nat)
    requires |start| >= 1 && 1 <= i <= n
    ensures var g := Layout(start, first, month0, n, everyMonday); var w := RowBreaks(first, i, everyMonday);
      w < |g| && Weekday(first + i - 1) in g[w] && g[w][Weekday(first + i - 1)] == MonthDay(first, month0, i)
    decreases n
  {
    LayoutStep(start, first, month0, n, everyMonday);
    if i < n {
      LayoutPlacement(start, first, month0, n - 1, everyMonday, i);
      PlacementSurvivesStep(Layout(start, first, month0, n - 1, everyMonday), first, month0, n, everyMonday, i);
    }
  }

  /** Adding day n to a grid that already holds day i (i < n) keeps day i where it was. */
  lemma PlacementSurvivesStep(prev: seq<Week>, first: nat, month0: nat, n: nat, everyMonday: bool, i: nat)
    requires 1 <= i < n && RowBreaks(first, n - 1, everyMonday) < |prev|
    requires var w := RowBreaks(first, i, everyMonday);
      w < |prev| && Weekday(first + i - 1) in prev[w] && prev[w][Weekday(first + i - 1)] == MonthDay(first, month0, i)
    ensures var g' := if StartsRow(first, n, everyMonday) then prev + [map[]] else prev;
      var wn := RowBreaks(first, n, everyMonday);
      var w := RowBreaks(first, i, everyMonday);
      wn < |g'| && w < |g'| && Weekday(first + i - 1) in PutDay(g', wn, MonthDay(first, month0, n))[w]
      && PutDay(g', wn, MonthDay(first, month0, n))[w][Weekday(first + i - 1)] == MonthDay(first, month0, i)
  {
    var w := RowBreaks(first, i, everyMonday);
    var wd := Weekday(first + i - 1);
    var g' := if StartsRow(first, n, everyMonday) then prev + [map[]] else prev;
    var wn := RowBreaks(first, n, everyMonday);
    RowBreaksMonotone(first, i, n, everyMonday);
    assert g'[w] == prev[w];
    if Weekday(first + n - 1) == wd {
      MondayBetween(first, i, n, everyMonday);
    }
    PutDayKeeps(g', wn, MonthDay(first, month0, n), w, wd);
  }

  /** Storing an entry leaves every other slot of the grid as it was. */
  lemma PutDayKeeps(g: seq<Week>, w: nat, entry: CalendarDay, w2: nat, k: nat)
    requires w < |g| && w2 < |g| && k in g[w2] && (w != w2 || entry.weekDayNr != k)
    ensures k in PutDay(g, w, entry)[w2] && PutDay(g, w, entry)[w2][k] == g[w2][k]
  {
  }

  /** Rows before the first day's row keep what they held. */
  lemma {:induction false} LayoutKeepsEarlierRows(start: seq<Week>, first: nat, month0: nat, n: nat, everyMonday: bool, w: nat)
    requires |start| >= 1 && n >= 1 && w < RowBreaks(first, 1, everyMonday) && w < |start|
    ensures Layout(start, first, month0, n, everyMonday)[w] == start[w]
    decreases n
  {
    RowBreaksMonotone(first, 1, n, everyMonday);
    if n > 1 {
      LayoutKeepsEarlierRows(start, first, month0, n - 1, everyMonday, w);
    }
  }

  /** In the booking-form calendar the 1st is always in the first row. */
  lemma FirstDayInFirstRow(first: nat)
    ensures RowBreaks(first, 1, false) == 0
  {
  }

  /** In the component calendar a month starting on a Monday leaves the first row empty. */
  lemma MondayFirstLeavesRowEmpty(first: nat, month0: nat, n: nat)
    requires Weekday(first) == 1 && n >= 1
    ensures Layout([map[]], first, month0, n, true)[0] == map[]
    ensures |Layout([map[]], first, month0, n, true)| >= 2
  {
    assert StartsRow(first, 1, true);
    LayoutKeepsEarlierRows([map[]], first, month0, n, true, 0);
    RowBreaksMonotone(first, 1, n, true);
  }

  // ---------------------------------------------------------------------------------------------
  // The month of the grid

  /** `daysInMonth(month, year)`: `new Date(year, month, 0).getDate()`, with a 1-based month. */
  function DaysInMonthOf(month: int, year: int): (n: int)
    requires year * 12 + month >= 12
  {
    FromDayNumber(if MakeDay(year, month, 0) >= 0 then MakeDay(year, month, 0) else 0).day
  }

  /** With a 1-based month it is the Gregorian month length, leap February included. */
  lemma DaysInMonthOfIsLength(month: int, year: int)
    requires year >= 1 && 1 <= month <= 12
    ensures DaysInMonthOf(month, year) == DaysInMonth(year, month)
  {
    MakeDayZero(year, month);
  }

  /** The day number of the 1st of the shown month (`selectedMonth` is 0-based). */
  function MonthFirst(year: int, month0: int): nat
    requires year >= 1 && 0 <= month0 < 12
  {
    MakeDayOfDate(Date(year, month0 + 1, 1));
    MakeDay(year, month0, 1)
  }

  /** The days laid out from the 1st are the days of the shown month. */
  lemma MonthFirstDays(year: int, month0: int, i: int)
    requires year >= 1 && 0 <= month0 < 12 && 1 <= i <= DaysInMonth(year, month0 + 1)
    ensures FromDayNumber(MonthFirst(year, month0) + i - 1) == Date(year, month0 + 1, i)
  {
    var d := Date(year, month0 + 1, i);
    MakeDayOfDate(Date(year, month0 + 1, 1));
    assert DayNumber(d) == MonthFirst(year, month0) + i - 1;
    FromDayNumberOfDate(d);
  }

  /** The n days from day number `first` on are the days 1, 2, ..., n of month `month0`. */
  predicate MonthSpan(first: nat, month0: nat, n: nat)
  {
    forall d :: first <= d < first + n ==> FromDayNumber(d).day == d - first + 1 && FromDayNumber(d).month == month0 + 1
  }

  /** The days of the shown month, `daysInMonth` of them, count 1, 2, ... from its 1st. */
  lemma MonthSpanOf(year: int, month0: int)
    requires year >= 1 && 0 <= month0 < 12
    ensures DaysInMonthOf(month0 + 1, year) == DaysInMonth(year, month0 + 1)
    ensures MonthSpan(MonthFirst(year, month0), month0, DaysInMonthOf(month0 + 1, year))
  {
    DaysInMonthOfIsLength(month0 + 1, year);
    var first := MonthFirst(year, month0);
    forall d | first <= d < first + DaysInMonth(year, month0 + 1)
      ensures FromDayNumber(d).day == d - first + 1 && FromDayNumber(d).month == month0 + 1
    {
      MonthFirstDays(year, month0, d - first + 1);
    }
  }

  /** The entries of the month grid are the calendar facts of its days. */
  lemma MonthDayIsDayEntry(year: int, month0: int, i: int)
    requires year >= 1 && 0 <= month0 < 12 && 1 <= i <= DaysInMonth(year, month0 + 1)
    ensures MonthDay(MonthFirst(year, month0), month0, i) == DayEntry(MonthFirst(year, month0) + i - 1)
  {
    MonthFirstDays(year, month0, i);
  }

  /** One more day laid out: the row break, then the day under its weekday. */
  lemma LayoutStep(start: seq<Week>, first: nat, month0: nat, n: nat, everyMonday: bool)
    requires |start| >= 1 && n >= 1
    ensures var g := Layout(start, first, month0, n - 1, everyMonday);
      var g' := if StartsRow(first, n, everyMonday) then g + [map[]] else g;
      var w := RowBreaks(first, n, everyMonday);
      w < |g'| && Layout(start, first, month0, n, everyMonday) == PutDay(g', w, MonthDay(first, month0, n))
  {
  }

  /** One pass of the loop of `generateDates` for day i of the month, whose `getDate()` and
      `getMonth()` are `dayOfMonth` and `monthNr`: a new row on a Monday (after the 1st unless
      `everyMonday`), then the day's entry under its weekday in the current row. */
  method PlaceDay(start: seq<Week>, first: nat, month0: nat, i: nat, dayOfMonth: nat, monthNr: nat,
                  everyMonday: bool, g: seq<Week>, currentWeek: nat)
    returns (g': seq<Week>, currentWeek': nat)
    requires |start| >= 1 && i >= 1 && dayOfMonth == i && monthNr == month0
    requires g == Layout(start, first, month0, i - 1, everyMonday) && currentWeek == RowBreaks(first, i - 1, everyMonday)
    ensures g' == Layout(start, first, month0, i, everyMonday) && currentWeek' == RowBreaks(first, i, everyMonday)
  {
    var day := first + i - 1;
    LayoutStep(start, first, month0, i, everyMonday);
    assert StartsRow(first, i, everyMonday) == (Weekday(day) == 1 && (everyMonday || dayOfMonth > 1));
    assert RowBreaks(first, i, everyMonday) == currentWeek + (if StartsRow(first, i, everyMonday) then 1 else 0);
    g', currentWeek' := g, currentWeek;
    if Weekday(day) == 1 && (everyMonday || dayOfMonth > 1) {
      currentWeek' := currentWeek' + 1;
      g' := g' + [map[]];
    }
    var entry := CalendarDay(Weekday(day), WeekdayIndex[Weekday(day)], dayOfMonth, monthNr, Noon(day));
    assert entry == MonthDay(first, month0, i);
    g' := PutDay(g', currentWeek', entry);
  }

  /** The loop of `generateDates`: days 1..n from `first`, starting on row 0 of `start`. */
  method LayOutMonth(start: seq<Week>, first: nat, month0: nat, n: nat, everyMonday: bool) returns (g: seq<Week>)
    requires |start| >= 1 && MonthSpan(first, month0, n)
    ensures g == Layout(start, first, month0, n, everyMonday)
  {
    g := start;
    var currentWeek := 0;
    var i := 1;
    while i <= n
      invariant 1 <= i <= n + 1
      invariant g == Layout(start, first, month0, i - 1, everyMonday)
      invariant currentWeek == RowBreaks(first, i - 1, everyMonday)
    {
      var date := FromDayNumber(first + i - 1);
      g, currentWeek := PlaceDay(start, first, month0, i, date.day, date.month - 1, everyMonday, g, currentWeek);
      i := i + 1;
    }
  }

  /** The grid `generateDates` builds for a month on the rows `start`: from the 1st of the month
      (the corrected start, see `GridFirstAsWritten`), `daysInMonth` days. */
  method LayOutMonthOf(start: seq<Week>, year: int, month0: int, everyMonday: bool) returns (g: seq<Week>)
    requires |start| >= 1 && year >= 1 && 0 <= month0 < 12
    ensures g == MonthLayout(start, year, month0, everyMonday)
  {
    MonthSpanOf(year, month0);
    g := LayOutMonth(start, MonthFirst(year, month0), month0, DaysInMonthOf(month0 + 1, year), everyMonday);
  }

  /** The 1st of the grid as written: today's date (from `new Date()`) is moved to the selected
      month with `setMonth`, which keeps today's day of the month and overflows when that month is
      shorter, then to the selected year; `setDate(i)` then counts from the 1st of the month it
      landed in. */
  function GridFirstAsWritten(now: Instant, year: int, month0: int): (n: nat)
    requires year >= 1 && 0 <= month0 < 12
  {
    var t := DateOf(now);
    var moved := FromDayNumber(MakeDay(t.year, month0, t.day));
    var dated := FromDayNumber(MakeDay(year, moved.month - 1, moved.day));
    MakeDay(dated.year, dated.month - 1, 1)
  }

  /** Up to the 28th of today's month the written steps land in the selected month. */
  lemma GridFirstAsWrittenEarlyDays(now: Instant, year: int, month0: int)
    requires year >= 1 && 0 <= month0 < 12 && DateOf(now).day <= 28
    ensures GridFirstAsWritten(now, year, month0) == MonthFirst(year, month0)
  {
    var t := DateOf(now);
    var d1 := Date(t.year, month0 + 1, t.day);
    assert ValidDate(d1);
    MakeDayOfDate(d1);
    FromDayNumberOfDate(d1);
    var moved := FromDayNumber(MakeDay(t.year, month0, t.day));
    assert moved == d1;
    var d2 := Date(year, month0 + 1, t.day);
    assert ValidDate(d2);
    MakeDayOfDate(d2);
    FromDayNumberOfDate(d2);
    var dated := FromDayNumber(MakeDay(year, moved.month - 1, moved.day));
    assert dated == d2;
  }

  /** On January 31st the February grid of the same year is laid out from March 1st: the
      `setMonth(1)` of January 31st is March 2nd or 3rd. */
  lemma GridFirstAsWrittenOnJanuary31(now: Instant)
    requires DateOf(now).month == 1 && DateOf(now).day == 31
    ensures var y := DateOf(now).year;
      FromDayNumber(GridFirstAsWritten(now, y, 1)) == Date(y, 3, 1)
      && FromDayNumber(MonthFirst(y, 1)) == Date(y, 2, 1)
  {
    var y := DateOf(now).year;
    var overflow := Date(y, 3, if IsLeapYear(y) then 2 else 3);
    MakeDayOfDate(Date(y, 2, 1));
    assert MakeDay(y, 1, 31) == DayNumber(overflow);
    FromDayNumberOfDate(overflow);
    MakeDayOfDate(overflow);
    FromDayNumberOfDate(overflow);
    MakeDayOfDate(Date(y, 3, 1));
    FromDayNumberOfDate(Date(y, 3, 1));
    MonthFirstDays(y, 1, 1);
  }

  // ---------------------------------------------------------------------------------------------
  // Selection, disabled days and navigation

  /** The selected days: a `Set` of ISO strings, kept as the list of its members in insertion
      order (the order `Array.from` reports them in). */
  predicate NoDuplicates(s: seq<Instant>)
  {
    forall i, j :: 0 <= i < j < |s| ==> s[i] != s[j]
  }

  /** `set.delete(x)`: the other members in their order. */
  function Without(s: seq<Instant>, x: Instant): (r: seq<Instant>)
    ensures forall y :: y in r <==> y in s && y != x
    ensures NoDuplicates(s) ==> NoDuplicates(r)
    ensures |r| <= |s|
  {
    if |s| == 0 then []
    else if s[0] == x then Without(s[1..], x)
    else
      var rest := Without(s[1..], x);
      assert NoDuplicates(s) ==> s[0] !in s[1..];
      [s[0]] + rest
  }

  /** `assignDate`'s effect on the selection: cleared first unless in multi-selection, then the
      date is added when absent and deleted when present. */
  function Toggled(s: seq<Instant>, date: Instant, multi: bool): seq<Instant>
  {
    var base := if multi then s else [];
    if date !in base then base + [date] else Without(base, date)
  }

  /** Single selection ends with exactly the date; multi-selection flips the date's membership,
      keeps every other member, and keeps the list free of duplicates. */
  lemma ToggledSelection(s: seq<Instant>, date: Instant, multi: bool)
    requires NoDuplicates(s)
    ensures var r := Toggled(s, date, multi);
      NoDuplicates(r)
      && (!multi ==> r == [date])
      && (multi ==> (date in r <==> date !in s) && forall y :: y != date ==> (y in r <==> y in s))
  {
    var r := Toggled(s, date, multi);
    if multi && date !in s {
      forall i, j | 0 <= i < j < |r| ensures r[i] != r[j] {
        if j == |s| {
          assert r[i] == s[i];
        }
      }
    }
  }

  /** `differenceInDays`: both dates moved to 12:00, their difference in days, rounded. */
  function DifferenceInDays(d0: Instant, d1: Instant): (r: int)
    ensures r == DayOf(d1) - DayOf(d0)
  {
    (Noon(DayOf(d1)) - Noon(DayOf(d0))) / MinutesPerDay
  }

  /** `isDisabled`: a disabled date, a weekday that is not enabled, or a day before `dateFrom`. */
  predicate Disabled(disabled: set<Instant>, weekdaysEnabled: Option<seq<string>>, dateFrom: Option<Instant>,
                     day: CalendarDay)
  {
    day.date in disabled
    || (if weekdaysEnabled.Some? then day.weekDayName !in weekdaysEnabled.value else false)
    || (if dateFrom.Some? then DifferenceInDays(day.date, dateFrom.value) > 0 else false)
  }

  /** A day is disabled exactly when it is listed, its weekday's name is not enabled, or it lies on
      an earlier calendar day than `dateFrom`. */
  lemma DisabledCases(disabled: set<Instant>, weekdaysEnabled: Option<seq<string>>, dateFrom: Option<Instant>,
                      day: CalendarDay)
    ensures Disabled(disabled, weekdaysEnabled, dateFrom, day) <==>
      day.date in disabled
      || (weekdaysEnabled.Some? && day.weekDayName !in weekdaysEnabled.value)
      || (dateFrom.Some? && DayOf(day.date) < DayOf(dateFrom.value))
  {
  }

  /** The instant `new Date(year, month0 + delta, 1)` denotes (its midnight); None before year 1,
      which this model does not cover. */
  function ShiftedMonth(year: int, month0: int, delta: int): (r: Option<Instant>)
  {
    if year * 12 + month0 + delta < 12 then None
    else Some(StartOfDay(MakeDay(year, month0 + delta, 1)))
  }

  /** One month back or forth is the 1st of the previous or next month, across the year. */
  lemma ShiftedMonthDate(year: int, month0: int, delta: int)
    requires year >= 1 && 0 <= month0 < 12 && (delta == 1 || delta == -1)
    requires year * 12 + month0 + delta >= 12
    ensures var r := ShiftedMonth(year, month0, delta);
      r.Some? && DateOf(r.value) ==
        (if month0 + delta == 12 then Date(year + 1, 1, 1)
         else if month0 + delta == -1 then Date(year - 1, 12, 1)
         else Date(year, month0 + delta + 1, 1))
  {
    var d := if month0 + delta == 12 then Date(year + 1, 1, 1)
      else if month0 + delta == -1 then Date(year - 1, 12, 1)
      else Date(year, month0 + delta + 1, 1);
    MakeDayOfDate(d);
    assert MakeDay(year, month0 + delta, 1) == MakeDay(d.year, d.month - 1, 1);
    NoonDay(DayNumber(d));
    FromDayNumberOfDate(d);
  }

  /** The grid's month ordinal: months since January of year 0. */
  function MonthOrdinal(year: int, month0: int): int
  {
    year * 12 + month0
  }

  /** `day.setHours(12, 0, 0, 0)` on every listed date. */
  function AtNoon(days: seq<Instant>): (r: seq<Instant>)
    ensures |r| == |days|
    ensures forall i :: 0 <= i < |r| ==> r[i] == Noon(DayOf(days[i]))
    decreases |days|
  {
    if |days| == 0 then [] else [Noon(DayOf(days[0]))] + AtNoon(days[1..])
  }

  /** `new Set(list)`: the members in the order they first appear. */
  function Dedup(s: seq<Instant>): (r: seq<Instant>)
    ensures NoDuplicates(r)
    ensures forall x :: x in r <==> x in s
    decreases |s|
  {
    if |s| == 0 then []
    else
      var init := Dedup(s[..|s| - 1]);
      var last := s[|s| - 1];
      assert s == s[..|s| - 1] + [last];
      if last in init then init else init + [last]
  }

  /** `new Set(list)` when only membership matters. */
  function Members(s: seq<Instant>): (r: set<Instant>)
    ensures forall t :: t in r <==> t in s
  {
    set t | t in s
  }

  /** All the days of a month, from its 1st, laid out after the rows of `start`. */
  function MonthLayout(start: seq<Week>, year: int, month0: int, everyMonday: bool): (g: seq<Week>)
    requires |start| >= 1 && year >= 1 && 0 <= month0 < 12
  {
    Layout(start, MonthFirst(year, month0), month0, DaysInMonth(year, month0 + 1), everyMonday)
  }

  /** The grid of a month laid out on a fresh grid. */
  function MonthGrid(year: int, month0: int, everyMonday: bool): (g: seq<Week>)
    requires year >= 1 && 0 <= month0 < 12
  {
    MonthLayout([map[]], year, month0, everyMonday)
  }

  /** Later month ordinals start later: `getFirstDayOfMonth` dates compare as the months do. */
  lemma FirstOfMonthOrder(a: int, b: int)
    requires a >= 12 && b >= 12
    ensures FirstOfMonth(a) > FirstOfMonth(b) <==> a > b
  {
    if a > b {
      FirstOfMonthMonotone(b, a);
    } else {
      FirstOfMonthMonotone(a, b);
    }
  }
}
