/** The month calendar component (src/components/calendar/calendar.ts): a month grid whose rows
    break on every Monday, optional "today and tomorrow" cards named from the master data, a
    selection of days, the disabled-day rule and month navigation. The master data and the
    emitted events are arguments and results of the methods. */
module CalendarComponent {
  import opened Wrappers
  import opened Gregorian
  import opened CalendarGrid

  /** `CalendarComponentConfig`: every key may be absent (None). Dates are instants in minutes. */
  datatype CalendarComponentConfig = CalendarComponentConfig(
    bigCalendar: Option<bool>,
    dateFrom: Option<Instant>,
    multiSelection: Option<bool>,
    selectedDays: Option<seq<Instant>>,
    disabledDays: Option<seq<Instant>>,
    weekdaysEnabled: Option<seq<string>>,
    todayTomorrow: Option<bool>)

  /** The empty configuration `{}`. */
  const NoConfig := CalendarComponentConfig(None, None, None, None, None, None, None)

  /** `{...base, ...input}`: every key the input holds wins; spreading an undefined base adds nothing. */
  function Overlay(base: Option<CalendarComponentConfig>, input: CalendarComponentConfig): (c: CalendarComponentConfig)
  {
    var b := base.GetOr(NoConfig);
    CalendarComponentConfig(
      if input.bigCalendar.Some? then input.bigCalendar else b.bigCalendar,
      if input.dateFrom.Some? then input.dateFrom else b.dateFrom,
      if input.multiSelection.Some? then input.multiSelection else b.multiSelection,
      if input.selectedDays.Some? then input.selectedDays else b.selectedDays,
      if input.disabledDays.Some? then input.disabledDays else b.disabledDays,
      if input.weekdaysEnabled.Some? then input.weekdaysEnabled else b.weekdaysEnabled,
      if input.todayTomorrow.Some? then input.todayTomorrow else b.todayTomorrow)
  }

  /** Overlaying the empty input keeps the configuration (an undefined one becomes `{}`); a key
      present in the input always wins, an absent one keeps the base's value. */
  lemma OverlayCases(base: Option<CalendarComponentConfig>, input: CalendarComponentConfig)
    ensures Overlay(base, NoConfig) == base.GetOr(NoConfig)
    ensures input.todayTomorrow.Some? ==> Overlay(base, input).todayTomorrow == input.todayTomorrow
    ensures input.todayTomorrow.None? ==> Overlay(base, input).todayTomorrow == base.GetOr(NoConfig).todayTomorrow
    ensures input.dateFrom.Some? ==> Overlay(base, input).dateFrom == input.dateFrom
    ensures input.dateFrom.None? ==> Overlay(base, input).dateFrom == base.GetOr(NoConfig).dateFrom
  {
  }

  /** The configuration after `initCalendar` has moved its listed dates to 12:00: only the two
      date lists change, each date to the noon of its own day. */
  function Normalized(c: CalendarComponentConfig): (r: CalendarComponentConfig)
    ensures r.bigCalendar == c.bigCalendar && r.dateFrom == c.dateFrom && r.multiSelection == c.multiSelection
    ensures r.weekdaysEnabled == c.weekdaysEnabled && r.todayTomorrow == c.todayTomorrow
    ensures c.disabledDays.None? ==> r.disabledDays.None?
    ensures c.disabledDays.Some? ==> r.disabledDays == Some(AtNoon(c.disabledDays.value))
    ensures c.selectedDays.None? ==> r.selectedDays.None?
    ensures c.selectedDays.Some? ==> r.selectedDays == Some(AtNoon(c.selectedDays.value))
  {
    c.(disabledDays := if c.disabledDays.Some? then Some(AtNoon(c.disabledDays.value)) else None,
       selectedDays := if c.selectedDays.Some? then Some(AtNoon(c.selectedDays.value)) else None)
  }

  // ---------------------------------------------------------------------------------------------
  // Today and tomorrow

  /** `TodayTomorrowDay`: a `CalendarDay` with its month's name; both names come from the master data. */
  datatype TodayTomorrowDay = TodayTomorrowDay(weekDayNr: nat, weekDayName: string, dayOfMonth: nat,
                                               monthNr: nat, date: Instant, monthName: string)

  /** `list.find(i => i.key === key)`, as the index of the entry found: the first one with the key. */
  function FindKey(list: seq<KeyValue>, key: string): (r: Option<nat>)
    ensures r.Some? ==> (r.value < |list| && list[r.value].key == key
      && forall j :: 0 <= j < r.value ==> list[j].key != key)
    ensures r.None? ==> forall j :: 0 <= j < |list| ==> list[j].key != key
    decreases |list|
  {
    if |list| == 0 then None
    else if list[0].key == key then Some(0)
    else match FindKey(list[1..], key)
      case None => None
      case Some(i) => Some(i + 1)
  }

  /** One card of `setTodayTomorrow` for the instant t: the weekday, its name from the weekday
      table, the day of the month, the month and its name from the month table, and t itself.
      None when the table has no entry for the weekday or the month (`.value` of `undefined` throws). */
  function DayCard(weekdays: seq<KeyValue>, months: seq<KeyValue>, t: Instant): (r: Option<TodayTomorrowDay>)
    ensures var n := DayOf(t); var d := FromDayNumber(n);
      r.Some? <==> FindKey(weekdays, WeekdayIndex[Weekday(n)]).Some? && d.month <= |months|
    ensures var n := DayOf(t); var d := FromDayNumber(n);
      r.Some? ==> (r.value.weekDayNr == Weekday(n) && r.value.dayOfMonth == d.day && r.value.monthNr + 1 == d.month
        && r.value.date == t && r.value.monthName == months[d.month - 1].value
        && exists i :: 0 <= i < |weekdays| && weekdays[i].key == WeekdayIndex[Weekday(n)] && weekdays[i].value == r.value.weekDayName)
  {
    var n := DayOf(t);
    var d := FromDayNumber(n);
    match FindKey(weekdays, WeekdayIndex[Weekday(n)])
    case None => None
    case Some(i) =>
      if d.month <= |months| then
        Some(TodayTomorrowDay(Weekday(n), weekdays[i].value, d.day, d.month - 1, t, months[d.month - 1].value))
      else None
  }

  /** `parsedTodayTomorrow`: the cards of today and of the same time one day later. None when
      either card throws or a table is missing. */
  function TodayTomorrow(weekdays: Option<seq<KeyValue>>, months: Option<seq<KeyValue>>, today: Instant)
    : (r: Option<seq<TodayTomorrowDay>>)
    ensures r.Some? ==> |r.value| == 2 && r.value[1].date == r.value[0].date + MinutesPerDay
  {
    if weekdays.None? || months.None? then None
    else match (DayCard(weekdays.value, months.value, today), DayCard(weekdays.value, months.value, today + MinutesPerDay))
      case (Some(a), Some(b)) => Some([a, b])
      case _ => None
  }

  /** The two cards are consecutive calendar days: the next weekday, and the next day of the
      month, or the 1st of the next month (January after December). */
  lemma TodayTomorrowConsecutive(weekdays: Option<seq<KeyValue>>, months: Option<seq<KeyValue>>, today: Instant)
    requires TodayTomorrow(weekdays, months, today).Some?
    ensures var r := TodayTomorrow(weekdays, months, today).value;
      var a, b := r[0], r[1];
      var len := DaysInMonth(DateOf(today).year, a.monthNr + 1);
      b.weekDayNr == (a.weekDayNr + 1) % 7
      && (a.dayOfMonth < len ==> b.dayOfMonth == a.dayOfMonth + 1 && b.monthNr == a.monthNr)
      && (a.dayOfMonth == len ==> b.dayOfMonth == 1 && b.monthNr == (a.monthNr + 1) % 12)
  {
    var n := DayOf(today);
    assert DayOf(today + MinutesPerDay) == n + 1;
    NextDayDate(n);
    WeekdayStep(n);
    var r := TodayTomorrow(weekdays, months, today).value;
    var d := FromDayNumber(n);
    assert r[0].monthNr + 1 == d.month && r[0].dayOfMonth == d.day;
    assert r[1].monthNr + 1 == Tomorrow(d).month && r[1].dayOfMonth == Tomorrow(d).day;
    if d.day == DaysInMonth(d.year, d.month) {
      TomorrowAfterMonthEnd(d);
      assert r[1].monthNr == d.month % 12 == (r[0].monthNr + 1) % 12;
    }
  }

  // ---------------------------------------------------------------------------------------------
  // The component

  /** `CalendarComponent`. */
  class Component {
    var inputCalendarConfig: CalendarComponentConfig
    /** The weekday and month master data; None until fetched or when a fetch gives nothing. */
    var weekdays: Option<seq<KeyValue>>
    var months: Option<seq<KeyValue>>
    /** `parsedDates`: the month name and the rows of the grid. */
    var monthName: string
    var weeks: seq<Week>
    /** `parsedTodayTomorrow`; None until set. */
    var todayTomorrow: Option<seq<TodayTomorrowDay>>
    var today: Instant
    var selectedYear: int
    /** 0-based, as `getMonth()`. */
    var selectedMonth: int
    var selectedDates: seq<Instant>
    var disabledDates: set<Instant>
    /** `defaultCalendarConfig`, the effective configuration. */
    var config: Option<CalendarComponentConfig>

    /** The shown month is a real month, the selection has no repeated day and the grid has a row. */
    predicate Valid()
      reads this`selectedYear, this`selectedMonth, this`selectedDates, this`weeks
    {
      selectedYear >= 1 && 0 <= selectedMonth < 12 && NoDuplicates(selectedDates) && |weeks| >= 1
    }

    /** The constructor: today at 12:00, its month shown, nothing selected, and the default
        configuration (big calendar, from today, multi-selection, no disabled days, no
        today/tomorrow cards). */
    constructor (now: Instant)
      ensures Valid()
      ensures today == Noon(DayOf(now)) && DayOf(today) == DayOf(now)
      ensures selectedYear == DateOf(now).year && selectedMonth + 1 == DateOf(now).month
      ensures config == Some(CalendarComponentConfig(Some(true), Some(today), Some(true), None, Some([]), None, Some(false)))
      ensures inputCalendarConfig == NoConfig && weekdays.None? && months.None? && todayTomorrow.None?
      ensures selectedDates == [] && disabledDates == {} && weeks == [map[]]
    {
      NoonDay(DayOf(now));
      var noon := Noon(DayOf(now));
      today := noon;
      var d := DateOf(noon);
      selectedYear := d.year;
      selectedMonth := d.month - 1;
      inputCalendarConfig := NoConfig;
      weekdays := None;
      months := None;
      monthName := "";
      weeks := [map[]];
      todayTomorrow := None;
      selectedDates := [];
      disabledDates := {};
      config := Some(CalendarComponentConfig(Some(true), Some(noon), Some(true), None, Some([]), None, Some(false)));
    }

    /** `ngOnInit`: stores the fetched weekday and month tables and initialises the calendar. */
    method NgOnInit(weekdaysData: Option<seq<KeyValue>>, monthsData: Option<seq<KeyValue>>) returns (ok: bool)
      requires Valid()
      modifies this`weekdays, this`months, this`config, this`disabledDates, this`selectedDates, this`monthName,
        this`weeks, this`todayTomorrow
      ensures Valid()
      ensures weekdays == weekdaysData && months == monthsData
      ensures config == Some(Normalized(Overlay(old(config), inputCalendarConfig)))
      ensures ok ==> weeks == MonthLayout(old(weeks), selectedYear, selectedMonth, true)
      ensures ok <==> (monthsData.Some? && selectedMonth < |monthsData.value|
        && (config.value.todayTomorrow == Some(true) ==> TodayTomorrow(weekdaysData, monthsData, today).Some?))
    {
      weekdays, months := weekdaysData, monthsData;
      ok := InitCalendar();
    }

    /** `ngOnChanges`: the new configuration replaces the effective one; with a configuration and
        both tables, the month of its `dateFrom` is shown on a fresh grid. `ok` is false when
        nothing was laid out or a step threw (no `dateFrom`, no name for the month, a missing card). */
    method NgOnChanges(current: Option<CalendarComponentConfig>) returns (ok: bool)
      requires Valid()
      modifies this`config, this`selectedMonth, this`selectedYear, this`monthName, this`weeks,
        this`disabledDates, this`selectedDates, this`todayTomorrow
      ensures Valid()
      ensures current.None? || weekdays.None? || months.None? ==>
        !ok && config == current && weeks == old(weeks) && selectedYear == old(selectedYear)
        && selectedMonth == old(selectedMonth) && monthName == old(monthName)
        && disabledDates == old(disabledDates) && selectedDates == old(selectedDates)
        && todayTomorrow == old(todayTomorrow)
      ensures current.Some? && current.value.dateFrom.None? ==>
        !ok && config == current && weeks == old(weeks) && selectedYear == old(selectedYear)
        && selectedMonth == old(selectedMonth) && monthName == old(monthName)
        && disabledDates == old(disabledDates) && selectedDates == old(selectedDates)
        && todayTomorrow == old(todayTomorrow)
      ensures current.Some? && current.value.dateFrom.Some? && weekdays.Some? && months.Some? ==>
        (selectedYear == DateOf(current.value.dateFrom.value).year
         && selectedMonth + 1 == DateOf(current.value.dateFrom.value).month
         && config == Some(Normalized(Overlay(current, inputCalendarConfig)))
         && (ok <==> (months.Some? && selectedMonth < |months.value|
           && (config.value.todayTomorrow == Some(true) ==> TodayTomorrow(weekdays, months, today).Some?)))
         && (ok ==> weeks == MonthGrid(selectedYear, selectedMonth, true)))
    {
      config := current;
      if current.None? || weekdays.None? || months.None? {
        return false;
      }
      if current.value.dateFrom.None? {
        return false;
      }
      ok := ShowMonthOf(DateOf(current.value.dateFrom.value));
    }

    /** The branch of `ngOnChanges` with a configuration: the shown month becomes that of
        `from`, the grid is reset and `initCalendar` lays it out. */
    method ShowMonthOf(from: Date) returns (ok: bool)
      requires Valid() && ValidDate(from)
      modifies this`config, this`selectedMonth, this`selectedYear, this`monthName, this`weeks,
        this`disabledDates, this`selectedDates, this`todayTomorrow
      ensures Valid()
      ensures selectedYear == from.year && selectedMonth + 1 == from.month
      ensures var c := Overlay(old(config), inputCalendarConfig);
        config == Some(Normalized(c))
        && disabledDates == (if c.disabledDays.Some? then Members(AtNoon(c.disabledDays.value)) else old(disabledDates))
        && selectedDates == (if c.selectedDays.Some? then Dedup(AtNoon(c.selectedDays.value)) else old(selectedDates))
      ensures ok <==> (months.Some? && selectedMonth < |months.value|
        && (config.value.todayTomorrow == Some(true) ==> TodayTomorrow(weekdays, months, today).Some?))
      ensures ok ==> weeks == MonthGrid(selectedYear, selectedMonth, true)
    {
      selectedMonth := from.month - 1;
      selectedYear := from.year;
      monthName, weeks := "", [map[]];
      ghost var y, m := selectedYear, selectedMonth;
      ok := InitCalendar();
      assert ok ==> weeks == MonthGrid(y, m, true);
    }

    /** `initCalendar`: overlays the input configuration, moves the disabled and selected dates
        to 12:00 and collects them, lays out the month, then builds the today/tomorrow cards when
        the configuration asks for them. */
    method InitCalendar() returns (ok: bool)
      requires Valid()
      modifies this`config, this`disabledDates, this`selectedDates, this`monthName, this`weeks, this`todayTomorrow
      ensures Valid()
      ensures var c := Overlay(old(config), inputCalendarConfig);
        config == Some(Normalized(c))
        && disabledDates == (if c.disabledDays.Some? then Members(AtNoon(c.disabledDays.value)) else old(disabledDates))
        && selectedDates == (if c.selectedDays.Some? then Dedup(AtNoon(c.selectedDays.value)) else old(selectedDates))
      ensures ok <==> (months.Some? && selectedMonth < |months.value|
        && (config.value.todayTomorrow == Some(true) ==> TodayTomorrow(weekdays, months, today).Some?))
      ensures ok ==> weeks == MonthLayout(old(weeks), selectedYear, selectedMonth, true)
      ensures ok && config.value.todayTomorrow == Some(true) ==> todayTomorrow == TodayTomorrow(weekdays, months, today)
    {
      ghost var g0, y0, m0 := weeks, selectedYear, selectedMonth;
      ApplyConfig();
      assert weeks == g0 && selectedYear == y0 && selectedMonth == m0;
      ok := Render();
      assert ok ==> weeks == MonthLayout(g0, y0, m0, true);
    }

    /** The second part of `initCalendar`: the month laid out, then the today/tomorrow cards
        when the configuration asks for them. */
    method Render() returns (ok: bool)
      requires Valid() && config.Some?
      modifies this`monthName, this`weeks, this`todayTomorrow
      ensures Valid()
      ensures ok <==> (months.Some? && selectedMonth < |months.value|
        && (config.value.todayTomorrow == Some(true) ==> TodayTomorrow(weekdays, months, today).Some?))
      ensures ok ==> weeks == MonthLayout(old(weeks), selectedYear, selectedMonth, true)
      ensures ok && config.value.todayTomorrow == Some(true) ==> todayTomorrow == TodayTomorrow(weekdays, months, today)
    {
      ok := GenerateDates();
      if !ok || config.value.todayTomorrow != Some(true) {
        return;
      }
      ghost var g1, y, m := weeks, selectedYear, selectedMonth;
      ok := SetTodayTomorrow();
      assert weeks == g1 && selectedYear == y && selectedMonth == m;
    }

    /** The first part of `initCalendar`: the input configuration overlaid on the current one,
        its disabled and selected dates moved to 12:00 and collected. */
    method ApplyConfig()
      requires Valid()
      modifies this`config, this`disabledDates, this`selectedDates
      ensures Valid()
      ensures var c := Overlay(old(config), inputCalendarConfig);
        config == Some(Normalized(c))
        && disabledDates == (if c.disabledDays.Some? then Members(AtNoon(c.disabledDays.value)) else old(disabledDates))
        && selectedDates == (if c.selectedDays.Some? then Dedup(AtNoon(c.selectedDays.value)) else old(selectedDates))
    {
      var c := Overlay(config, inputCalendarConfig);
      if c.disabledDays.Some? {
        disabledDates := Members(AtNoon(c.disabledDays.value));
      }
      if c.selectedDays.Some? {
        selectedDates := Dedup(AtNoon(c.selectedDays.value));
      }
      config := Some(Normalized(c));
    }

    /** `setTodayTomorrow`: the cards of today and tomorrow; throws, leaving the cards as they
        were, when a table is missing or has no entry for a weekday or month. */
    method SetTodayTomorrow() returns (ok: bool)
      modifies this`todayTomorrow
      ensures ok <==> TodayTomorrow(weekdays, months, today).Some?
      ensures ok ==> todayTomorrow == TodayTomorrow(weekdays, months, today)
      ensures !ok ==> todayTomorrow == old(todayTomorrow)
    {
      var cards := TodayTomorrow(weekdays, months, today);
      ok := cards.Some?;
      if ok {
        todayTomorrow := cards;
      }
    }

    /** `generateDates`: names the month and lays out its days from the 1st of the shown month,
        a new row on every Monday. Without a name for the month it throws before changing anything. */
    method GenerateDates() returns (ok: bool)
      requires Valid()
      modifies this`monthName, this`weeks
      ensures Valid()
      ensures ok <==> months.Some? && selectedMonth < |months.value|
      ensures ok ==> (monthName == months.value[selectedMonth].value
                      && weeks == MonthLayout(old(weeks), selectedYear, selectedMonth, true))
      ensures !ok ==> weeks == old(weeks) && monthName == old(monthName)
    {
      if months.None? || selectedMonth >= |months.value| {
        return false;
      }
      var name := months.value[selectedMonth].value;
      var y, m := selectedYear, selectedMonth;
      var g := LayOutMonthOf(weeks, y, m, true);
      weeks, monthName, ok := g, name, true;
      assert selectedYear == y && selectedMonth == m;
    }

    /** `isBackAllowed`: always without `dateFrom`, else only from a month after today's (it
        compares the 1st of the shown month with the 1st of today's). None when the
        configuration is undefined. */
    function IsBackAllowed(): (r: Option<bool>)
      reads this`config, this`selectedYear, this`selectedMonth, this`today
      requires selectedYear >= 1 && 0 <= selectedMonth < 12
      ensures config.None? <==> r.None?
      ensures r.Some? ==> (r.value <==> (config.value.dateFrom.None?
        || MonthOrdinal(selectedYear, selectedMonth) > MonthOrdinal(DateOf(today).year, DateOf(today).month - 1)))
    {
      if config.None? then None
      else if config.value.dateFrom.None? then Some(true)
      else
        var t := DateOf(today);
        var shown, current := selectedYear * 12 + selectedMonth, t.year * 12 + t.month - 1;
        FirstOfMonthOrder(shown, current);
        Some(FirstOfMonth(shown) > FirstOfMonth(current))
    }

    /** `previousMonth`: the 1st of the month before the shown one, emitted only when going back
        is allowed. */
    function PreviousMonth(): (emitted: Option<Instant>)
      reads this`config, this`selectedYear, this`selectedMonth, this`today
      requires selectedYear >= 1 && 0 <= selectedMonth < 12
      ensures emitted.Some? ==> IsBackAllowed() == Some(true)
      ensures IsBackAllowed() == Some(true) && MonthOrdinal(selectedYear, selectedMonth) > 12 ==>
        (emitted.Some? && DateOf(emitted.value) == (if selectedMonth == 0 then Date(selectedYear - 1, 12, 1)
                                                    else Date(selectedYear, selectedMonth, 1)))
    {
      if IsBackAllowed() == Some(true) then
        if MonthOrdinal(selectedYear, selectedMonth) > 12 then
          ShiftedMonthDate(selectedYear, selectedMonth, -1);
          ShiftedMonth(selectedYear, selectedMonth, -1)
        else ShiftedMonth(selectedYear, selectedMonth, -1)
      else None
    }

    /** `nextMonth`: the 1st of the month after the shown one, across the end of the year. */
    function NextMonth(): (emitted: Instant)
      reads this`selectedYear, this`selectedMonth
      requires selectedYear >= 1 && 0 <= selectedMonth < 12
      ensures DateOf(emitted) == (if selectedMonth == 11 then Date(selectedYear + 1, 1, 1)
                                  else Date(selectedYear, selectedMonth + 2, 1))
    {
      ShiftedMonthDate(selectedYear, selectedMonth, 1);
      ShiftedMonth(selectedYear, selectedMonth, 1).value
    }

    /** `assignDate`: without multi-selection the selection is cleared first; the date is then
        added when absent and removed when present, and the whole selection is emitted. None
        when the configuration is undefined (reading it throws). */
    method AssignDate(date: Instant) returns (emitted: Option<seq<Instant>>)
      requires Valid()
      modifies this`selectedDates
      ensures Valid()
      ensures config.None? ==> emitted.None? && selectedDates == old(selectedDates)
      ensures config.Some? ==>
        selectedDates == Toggled(old(selectedDates), date, config.value.multiSelection == Some(true))
        && emitted == Some(selectedDates)
    {
      if config.None? {
        return None;
      }
      if config.value.multiSelection != Some(true) {
        selectedDates := [];
      }
      if date !in selectedDates {
        selectedDates := selectedDates + [date];
      } else {
        selectedDates := Without(selectedDates, date);
      }
      ToggledSelection(old(selectedDates), date, config.value.multiSelection == Some(true));
      emitted := Some(selectedDates);
    }

    /** `isSelectedDay`. */
    function IsSelectedDay(date: Instant): (cls: string)
      reads this`selectedDates
      ensures cls == "selectedButton" <==> date in selectedDates
      ensures cls != "selectedButton" ==> cls == ""
    {
      if date in selectedDates then "selectedButton" else ""
    }

    /** `isDisabled`. The `||` tests the disabled set first, so a disabled day is true even when
        the configuration is undefined; any other day then reads a property of undefined (None). */
    function IsDisabled(day: CalendarDay): (r: Option<bool>)
      reads this`config, this`disabledDates
      ensures r.None? <==> config.None? && day.date !in disabledDates
      ensures config.None? && day.date in disabledDates ==> r == Some(true)
      ensures r.Some? ==> (r.value <==> (day.date in disabledDates
        || (config.value.weekdaysEnabled.Some? && day.weekDayName !in config.value.weekdaysEnabled.value)
        || (config.value.dateFrom.Some? && DayOf(day.date) < DayOf(config.value.dateFrom.value))))
    {
      if config.None? then (if day.date in disabledDates then Some(true) else None)
      else
        DisabledCases(disabledDates, config.value.weekdaysEnabled, config.value.dateFrom, day);
        Some(Disabled(disabledDates, config.value.weekdaysEnabled, config.value.dateFrom, day))
    }
  }
}
