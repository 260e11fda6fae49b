/** The day picker of the booking widget (src/components/cheftonic-booking-component/calendar.tsx):
    a month grid whose rows break on Mondays after the 1st, a selection of days, the disabled-day
    rule and month navigation. The master data and the `onSelectDay`/`onMonthChange` callbacks
    are inputs and results of the methods. */
module BookingCalendar {
  import opened Wrappers
  import opened Gregorian
  import opened CalendarGrid

  /** `CalendarConfig`: every field may be absent. Dates are instants in minutes. */
  datatype CalendarConfig = CalendarConfig(
    dateFrom: Option<nat>,
    multiSelection: Option<bool>,
    selectedDays: Option<seq<nat>>,
    disabledDays: Option<seq<nat>>,
    weekdaysEnabled: Option<seq<string>>,
    todayTomorrow: Option<bool>)

  /** The empty configuration `{}`. */
  const NoConfig := CalendarConfig(None, None, None, None, None, None)

  /** `{...base, ...input}`: every key the input holds wins; spreading an undefined base adds nothing. */
  function Overlay(base: Option<CalendarConfig>, input: CalendarConfig): (c: CalendarConfig)
  {
    var b := base.GetOr(NoConfig);
    CalendarConfig(
      if input.dateFrom.Some? then input.dateFrom else b.dateFrom,
      if input.multiSelection.Some? then input.multiSelection else b.multiSelection,
      if input.selectedDays.Some? then input.selectedDays else b.selectedDays,
      if input.disabledDays.Some? then input.disabledDays else b.disabledDays,
      if input.weekdaysEnabled.Some? then input.weekdaysEnabled else b.weekdaysEnabled,
      if input.todayTomorrow.Some? then input.todayTomorrow else b.todayTomorrow)
  }

  /** Overlaying the empty input, the only one the calendar holds, keeps the configuration;
      an undefined one becomes `{}`. A key present in the input always wins. */
  lemma OverlayCases(base: Option<CalendarConfig>, input: CalendarConfig)
    ensures Overlay(base, NoConfig) == base.GetOr(NoConfig)
    ensures input.dateFrom.Some? ==> Overlay(base, input).dateFrom == input.dateFrom
    ensures input.multiSelection.Some? ==> Overlay(base, input).multiSelection == input.multiSelection
    ensures input.disabledDays.Some? ==> Overlay(base, input).disabledDays == input.disabledDays
    ensures input.selectedDays.None? && base.Some? ==> Overlay(base, input).selectedDays == base.value.selectedDays
  {
  }

  /** The configuration after `initCalendar` has moved its listed dates to 12:00: only the two
      date lists change, each date to the noon of its own day. */
  function Normalized(c: CalendarConfig): (r: CalendarConfig)
    ensures r.dateFrom == c.dateFrom && r.multiSelection == c.multiSelection
    ensures r.weekdaysEnabled == c.weekdaysEnabled && r.todayTomorrow == c.todayTomorrow
    ensures c.disabledDays.None? ==> r.disabledDays.None?
    ensures c.disabledDays.Some? ==> r.disabledDays == Some(AtNoon(c.disabledDays.value))
    ensures c.selectedDays.None? ==> r.selectedDays.None?
    ensures c.selectedDays.Some? ==> r.selectedDays == Some(AtNoon(c.selectedDays.value))
  {
    c.(disabledDays := if c.disabledDays.Some? then Some(AtNoon(c.disabledDays.value)) else None,
       selectedDays := if c.selectedDays.Some? then Some(AtNoon(c.selectedDays.value)) else None)
  }

  /** `Calendar`. */
  class Calendar {
    var inputCalendarConfig: CalendarConfig
    /** The weekday and month master data; None until fetched. */
    var weekdays: Option<seq<KeyValue>>
    var months: Option<seq<KeyValue>>
    /** `parsedDates`: the month name and the rows of the grid. */
    var monthName: string
    var weeks: seq<Week>
    var today: Instant
    var selectedYear: int
    /** 0-based, as `getMonth()`. */
    var selectedMonth: int
    var selectedDates: seq<Instant>
    var disabledDates: set<Instant>
    var calendarConfig: Option<CalendarConfig>

    /** The shown month is a real month, the selection has no repeated day and the grid has a row. */
    predicate Valid()
      reads this`selectedYear, this`selectedMonth, this`selectedDates, this`weeks
    {
      selectedYear >= 1 && 0 <= selectedMonth < 12 && NoDuplicates(selectedDates) && |weeks| >= 1
    }

    /** The constructor: today at 12:00, its month shown, nothing selected, and the default
        configuration (from today, multi-selection, no disabled days). */
    constructor (now: Instant)
      ensures Valid()
      ensures today == Noon(DayOf(now)) && DayOf(today) == DayOf(now)
      ensures selectedYear == DateOf(now).year && selectedMonth + 1 == DateOf(now).month
      ensures calendarConfig == Some(CalendarConfig(Some(today), Some(true), None, Some([]), None, Some(false)))
      ensures inputCalendarConfig == NoConfig && weekdays.None? && months.None?
      ensures selectedDates == [] && disabledDates == {} && weeks == [map[]]
    {
      NoonDay(DayOf(now));
      var noon := Noon(DayOf(now));
      today := noon;
      var d := DateOf(noon);
      selectedYear := d.year;
      selectedMonth := d.month - 1;
      inputCalendarConfig := NoConfig;
      weekdays := None;
      months := None;
      monthName := "";
      weeks := [map[]];
      selectedDates := [];
      disabledDates := {};
      calendarConfig := Some(CalendarConfig(Some(today), Some(true), None, Some([]), None, Some(false)));
    }

    /** `setConfig`: stores the configuration and fetches the master data when either table is
        missing (the fetched tables, None when a fetch gives nothing, are arguments). With a
        configuration and both tables it shows the month of `dateFrom` on a fresh grid; `ok` is
        false when nothing was laid out or a step threw (no `dateFrom`, no name for the month). */
    method SetConfig(calConfig: Option<CalendarConfig>, weekdaysData: Option<seq<KeyValue>>, monthsData: Option<seq<KeyValue>>)
      returns (ok: bool)
      requires Valid()
      modifies this`calendarConfig, this`weekdays, this`months, this`selectedMonth, this`selectedYear,
        this`monthName, this`weeks, this`disabledDates, this`selectedDates
      ensures Valid()
      ensures old(weekdays).Some? && old(months).Some? ==> weekdays == old(weekdays) && months == old(months)
      ensures old(weekdays).None? || old(months).None? ==> weekdays == weekdaysData && months == monthsData
      ensures calConfig.None? || weekdays.None? || months.None? ==>
        !ok && calendarConfig == calConfig && weeks == old(weeks) && selectedYear == old(selectedYear)
        && selectedMonth == old(selectedMonth) && monthName == old(monthName)
        && disabledDates == old(disabledDates) && selectedDates == old(selectedDates)
      ensures calConfig.Some? && calConfig.value.dateFrom.None? ==>
        !ok && calendarConfig == calConfig && weeks == old(weeks) && selectedYear == old(selectedYear)
        && selectedMonth == old(selectedMonth) && monthName == old(monthName)
        && disabledDates == old(disabledDates) && selectedDates == old(selectedDates)
      ensures calConfig.Some? && calConfig.value.dateFrom.Some? && weekdays.Some? && months.Some? ==>
        (selectedYear == DateOf(calConfig.value.dateFrom.value).year
         && selectedMonth + 1 == DateOf(calConfig.value.dateFrom.value).month
         && (ok <==> selectedMonth < |months.value|)
         && (ok ==> weeks == MonthGrid(selectedYear, selectedMonth, false)))
    {
      calendarConfig := calConfig;
      if weekdays.None? || months.None? {
        weekdays, months := weekdaysData, monthsData;
      }
      if calendarConfig.None? || weekdays.None? || months.None? {
        return false;
      }
      if calendarConfig.value.dateFrom.None? {
        return false;
      }
      ok := ShowMonthOf(DateOf(calendarConfig.value.dateFrom.value));
    }

    /** The branch of `setConfig` with a configuration: the shown month becomes that of `from`,
        the grid is reset and `initCalendar` lays it out. */
    method ShowMonthOf(from: Date) returns (ok: bool)
      requires Valid() && ValidDate(from)
      modifies this`calendarConfig, this`selectedMonth, this`selectedYear, this`monthName, this`weeks,
        this`disabledDates, this`selectedDates
      ensures Valid()
      ensures selectedYear == from.year && selectedMonth + 1 == from.month
      ensures ok <==> months.Some? && selectedMonth < |months.value|
      ensures ok ==> weeks == MonthGrid(selectedYear, selectedMonth, false)
    {
      selectedMonth := from.month - 1;
      selectedYear := from.year;
      monthName, weeks := "", [map[]];
      ghost var y, m := selectedYear, selectedMonth;
      ok := InitCalendar();
      assert ok ==> weeks == MonthGrid(y, m, false);
    }

    /** `initCalendar`: overlays the input configuration, moves the disabled and selected dates to
        12:00 (in the configuration itself) and collects them, then lays out the month. */
    method InitCalendar() returns (ok: bool)
      requires Valid()
      modifies this`calendarConfig, this`disabledDates, this`selectedDates, this`monthName, this`weeks
      ensures Valid()
      ensures var c := Overlay(old(calendarConfig), inputCalendarConfig);
        calendarConfig == Some(Normalized(c))
        && disabledDates == (if c.disabledDays.Some? then Members(AtNoon(c.disabledDays.value)) else old(disabledDates))
        && selectedDates == (if c.selectedDays.Some? then Dedup(AtNoon(c.selectedDays.value)) else old(selectedDates))
      ensures ok <==> months.Some? && selectedMonth < |months.value|
      ensures ok ==> weeks == MonthLayout(old(weeks), selectedYear, selectedMonth, false)
    {
      ghost var g0, y0, m0 := weeks, selectedYear, selectedMonth;
      ApplyConfig();
      assert weeks == g0 && selectedYear == y0 && selectedMonth == m0;
      ok := GenerateDates();
    }

    /** The first part of `initCalendar`: the input configuration overlaid on the current one,
        its disabled and selected dates moved to 12:00 and collected. */
    method ApplyConfig()
      requires Valid()
      modifies this`calendarConfig, this`disabledDates, this`selectedDates
      ensures Valid()
      ensures var c := Overlay(old(calendarConfig), inputCalendarConfig);
        calendarConfig == Some(Normalized(c))
        && disabledDates == (if c.disabledDays.Some? then Members(AtNoon(c.disabledDays.value)) else old(disabledDates))
        && selectedDates == (if c.selectedDays.Some? then Dedup(AtNoon(c.selectedDays.value)) else old(selectedDates))
    {
      var c := Overlay(calendarConfig, inputCalendarConfig);
      if c.disabledDays.Some? {
        disabledDates := Members(AtNoon(c.disabledDays.value));
      }
      if c.selectedDays.Some? {
        selectedDates := Dedup(AtNoon(c.selectedDays.value));
      }
      calendarConfig := Some(Normalized(c));
    }

    /** `generateDates`: names the month and lays out its days from the 1st of the shown month,
        a new row on each Monday after the 1st. Without the month names it throws before changing
        anything. */
    method GenerateDates() returns (ok: bool)
      requires Valid()
      modifies this`monthName, this`weeks
      ensures Valid()
      ensures ok <==> months.Some? && selectedMonth < |months.value|
      ensures ok ==> (monthName == months.value[selectedMonth].value
                      && weeks == MonthLayout(old(weeks), selectedYear, selectedMonth, false))
      ensures !ok ==> weeks == old(weeks) && monthName == old(monthName)
    {
      if months.None? || selectedMonth >= |months.value| {
        return false;
      }
      var name := months.value[selectedMonth].value;
      var y, m := selectedYear, selectedMonth;
      var g := LayOutMonthOf(weeks, y, m, false);
      weeks, monthName, ok := g, name, true;
      assert selectedYear == y && selectedMonth == m;
    }

    /** `isBackAllowed`: always without `dateFrom`, else only from a month after today's (it
        compares the 1st of the month after each). None when the configuration is undefined. */
    function IsBackAllowed(): (r: Option<bool>)
      reads this`calendarConfig, this`selectedYear, this`selectedMonth, this`today
      requires selectedYear >= 1 && 0 <= selectedMonth < 12
      ensures calendarConfig.None? <==> r.None?
      ensures r.Some? ==> (r.value <==> (calendarConfig.value.dateFrom.None?
        || MonthOrdinal(selectedYear, selectedMonth) > MonthOrdinal(DateOf(today).year, DateOf(today).month - 1)))
    {
      if calendarConfig.None? then None
      else if calendarConfig.value.dateFrom.None? then Some(true)
      else
        var t := DateOf(today);
        var shown, current := selectedYear * 12 + selectedMonth + 1, t.year * 12 + t.month;
        FirstOfMonthOrder(shown, current);
        Some(FirstOfMonth(shown) > FirstOfMonth(current))
    }

    /** `previousMonth`: the 1st of the month before the shown one, emitted only when going back
        is allowed. */
    function PreviousMonth(): (emitted: Option<Instant>)
      reads this`calendarConfig, this`selectedYear, this`selectedMonth, this`today
      requires selectedYear >= 1 && 0 <= selectedMonth < 12
      ensures emitted.Some? ==> IsBackAllowed() == Some(true)
      ensures IsBackAllowed() == Some(true) && MonthOrdinal(selectedYear, selectedMonth) > 12 ==>
        (emitted.Some? && DateOf(emitted.value) == (if selectedMonth == 0 then Date(selectedYear - 1, 12, 1)
                                                    else Date(selectedYear, selectedMonth, 1)))
    {
      if IsBackAllowed() == Some(true) then
        if MonthOrdinal(selectedYear, selectedMonth) > 12 then
          ShiftedMonthDate(selectedYear, selectedMonth, -1);
          ShiftedMonth(selectedYear, selectedMonth, -1)
        else ShiftedMonth(selectedYear, selectedMonth, -1)
      else None
    }

    /** `nextMonth`: the 1st of the month after the shown one, across the end of the year. */
    function NextMonth(): (emitted: Instant)
      reads this`selectedYear, this`selectedMonth
      requires selectedYear >= 1 && 0 <= selectedMonth < 12
      ensures DateOf(emitted) == (if selectedMonth == 11 then Date(selectedYear + 1, 1, 1)
                                  else Date(selectedYear, selectedMonth + 2, 1))
    {
      ShiftedMonthDate(selectedYear, selectedMonth, 1);
      ShiftedMonth(selectedYear, selectedMonth, 1).value
    }

    /** `assignDate`: without multi-selection the selection is cleared first; the date is then
        added when absent and removed when present, and the whole selection is emitted. None
        when the configuration is undefined (reading it throws). */
    method AssignDate(date: Instant) returns (emitted: Option<seq<Instant>>)
      requires Valid()
      modifies this`selectedDates
      ensures Valid()
      ensures calendarConfig.None? ==> emitted.None? && selectedDates == old(selectedDates)
      ensures calendarConfig.Some? ==>
        selectedDates == Toggled(old(selectedDates), date, calendarConfig.value.multiSelection == Some(true))
        && emitted == Some(selectedDates)
    {
      if calendarConfig.None? {
        return None;
      }
      if calendarConfig.value.multiSelection != Some(true) {
        selectedDates := [];
      }
      if date !in selectedDates {
        selectedDates := selectedDates + [date];
      } else {
        selectedDates := Without(selectedDates, date);
      }
      ToggledSelection(old(selectedDates), date, calendarConfig.value.multiSelection == Some(true));
      emitted := Some(selectedDates);
    }

    /** `isSelectedDay`. */
    function IsSelectedDay(date: Instant): (cls: string)
      reads this`selectedDates
      ensures cls == "selectedButton" <==> date in selectedDates
      ensures cls != "selectedButton" ==> cls == ""
    {
      if date in selectedDates then "selectedButton" else ""
    }

    /** `isDisabled`. The `||` tests the disabled set first, so a disabled day is true even when
        the configuration is undefined; any other day then reads a property of undefined (None). */
    function IsDisabled(day: CalendarDay): (r: Option<bool>)
      reads this`calendarConfig, this`disabledDates
      ensures r.None? <==> calendarConfig.None? && day.date !in disabledDates
      ensures calendarConfig.None? && day.date in disabledDates ==> r == Some(true)
      ensures r.Some? ==> (r.value <==> (day.date in disabledDates
        || (calendarConfig.value.weekdaysEnabled.Some? && day.weekDayName !in calendarConfig.value.weekdaysEnabled.value)
        || (calendarConfig.value.dateFrom.Some? && DayOf(day.date) < DayOf(calendarConfig.value.dateFrom.value))))
    {
      if calendarConfig.None? then (if day.date in disabledDates then Some(true) else None)
      else
        DisabledCases(disabledDates, calendarConfig.value.weekdaysEnabled, calendarConfig.value.dateFrom, day);
        Some(Disabled(disabledDates, calendarConfig.value.weekdaysEnabled, calendarConfig.value.dateFrom, day))
    }
  }
}
