# Cheftonic booking widget — a verified model

This project models the logic of the Cheftonic restaurant booking widget, a set of Stencil web
components written in TypeScript. The model covers these parts.

- **`cheftonic-booking-component`** (`booking_component.dfy`):
  - the per-day availability engine and its `openHoursPerDay` memo table;
  - the forward search for the first bookable time;
  - the half-hour slot list;
  - the closing days the calendar disables;
  - the checks on the loaded restaurant data and on the API key;
  - the panel toggles, the booking-state transitions and the service lookup at submit time.
- **`make-booking`** (`make_booking.dfy`), the older, hour-granular form:
  - its hour engine and cache;
  - the `getDates` loop and the disabled days of a month;
  - the sorted, padded hour list handed to the hour picker;
  - the phone check and the submit gate.
- **The two calendars**:
  - `calendar_core.dfy` holds the logic the two calendars share: the month grid, selection toggling, the disabled-day rule and month navigation;
  - `booking_calendar.dfy` is the `Calendar` class of the booking component;
  - `calendar_component.dfy` is the `cheftonic-calendar` component, with its today/tomorrow cards.
- **The two hour pickers**:
  - `time_lists.dfy` holds the list builders both pickers share;
  - `hour_minute_component.dfy` is `cheftonic-hour-minute`;
  - `hour_minute_picker.dfy` is the booking form's `HourMinute`.
- **The providers**:
  - `apollo_client.dfy` holds `omitDeep` over a JSON datatype, `dataIdFromObject` and the lazily built client;
  - `master_data.dfy` holds the master-data query variables and `getLocale`.
- **Support modules**:
  - `gregorian.dfy`: the proleptic Gregorian calendar on day numbers, the JavaScript `Date` month overflow and the unpadded "Y/M/D" day key;
  - `strings.dfy`: JavaScript `split`, `join`, `parseInt`, `String(n)`, `slice(-2)` and `<` on strings;
  - `wrappers.dfy`: `Option` and `Result`.

## How time is modelled

- An instant is a whole number of minutes since 0001-01-01 00:00, local wall-clock time.
- The day of an instant is `instant / 1440`. Its weekday follows from 0001-01-01 being a Monday.
- The current time is always a parameter, `now`. Fetched restaurant data and the weekday and month master-data tables are parameters too.
- Dates that the source keeps as ISO strings in its sets are modelled as the instants they denote.

State that the source changes in place is modelled as classes whose methods carry `modifies` clauses:
- the widgets;
- the calendars;
- the hour pickers;
- the Apollo and master-data providers.

The caches are `map` fields. Each cache has a ghost record of the `now` every entry was computed with. In the booking component the cache invariant states that every entry equals the uncached computation for that `now`. In make-booking it states that every entry equals that computation up to the order of its hours (`MakeBooking.Entry` compares them as multisets). This is because `setHourMinuteConfigForDate` sorts the cached array in place (make-booking.tsx:215, modelled by `SortCachedEntry`).

## Model

| member | source | states |
|---|---|---|
| BookingComponent.ValidKeyDecomposes | src/components/cheftonic-booking-component/cheftonic-booking-component.tsx:128-132 | every key `isValidKey` accepts is five hex groups of 8-4-4-4-12 joined by '-', one separator and 1 to 3 digits |
| BookingComponent.BuiltKeyIsValid | src/components/cheftonic-booking-component/cheftonic-booking-component.tsx:128-132 | conversely every key assembled from such parts is accepted |
| BookingComponent.ExampleKey | src/components/make-booking/make-booking.tsx:90 | the default restaurant id "b6a26c75-f280-4964-9659-534a51178e4f.0" is a valid key |
| BookingComponent.AnySeparator | src/components/cheftonic-booking-component/cheftonic-booking-component.tsx:129 | the unescaped '.' lets any non-line-terminator character separate the id from its suffix |
| BookingComponent.ValidatedHasServices | src/components/cheftonic-booking-component/cheftonic-booking-component.tsx:220-229 | the data is accepted exactly when the restaurant opens on some weekday and some service is open on a weekday and bookable online; accepted data has at least one service |
| BookingComponent.ValidateRestDataStrict | src/components/cheftonic-booking-component/cheftonic-booking-component.tsx:220-229 | the corrected half of finding H: it throws exactly when `validateRestData` does and accepts only what `validateRestData` accepts |
| BookingComponent.NeverOpenAccepted | src/components/cheftonic-booking-component/cheftonic-booking-component.tsx:202-229 | finding H: a service listing "Monday" is accepted as written, yet no day has ranges, so the search never ends; the corrected validation rejects it |
| BookingComponent.StrictValidationExact | src/components/cheftonic-booking-component/cheftonic-booking-component.tsx:202-229 | the corrected validation accepts exactly the data accepted as written on which some day after today has ranges |
| BookingComponent.OpenDayAhead | src/components/cheftonic-booking-component/cheftonic-booking-component.tsx:202-218 | under the corrected validation, some day after any given day has ranges, so the search ends |
| BookingComponent.OfferedDayHasRanges | src/components/cheftonic-booking-component/cheftonic-booking-component.tsx:276-300 | a day after today that is not a closing day and on which some service is offered has ranges |
| BookingComponent.WeekdayNotClosing | src/components/cheftonic-booking-component/cheftonic-booking-component.tsx:276-300 | every weekday comes again, after any day, on a day that is not a closing day |
| BookingComponent.SomeDayNotClosing | src/components/cheftonic-booking-component/cheftonic-booking-component.tsx:276-282 | among more days than closing-day strings, some day's key is not listed |
| BookingComponent.WeeklyDays | src/components/cheftonic-booking-component/cheftonic-booking-component.tsx:202-218 | k + 1 distinct days, each a whole number of weeks after the first |
| BookingComponent.SubsetCard | src/components/cheftonic-booking-component/cheftonic-booking-component.tsx:276-282 | a subset has no more members than its superset |
| BookingComponent.DayWithWeekday | src/components/cheftonic-booking-component/cheftonic-booking-component.tsx:298-300 | every weekday occurs within the next seven days |
| BookingComponent.WholeWeeks | src/components/cheftonic-booking-component/cheftonic-booking-component.tsx:298-300 | whole weeks later is the same weekday |
| BookingComponent.ClockTime | src/components/cheftonic-booking-component/cheftonic-booking-component.tsx:304-305 | a service time on the given day is that day's hour and minute (later days when the clock overflows, never earlier) |
| BookingComponent.Soonest | src/components/cheftonic-booking-component/cheftonic-booking-component.tsx:315-318 | the soonest bookable instant R is on a half hour and T < R <= T + 30 for T = now + in_advance |
| BookingComponent.ServiceRanges | src/components/cheftonic-booking-component/cheftonic-booking-component.tsx:294-346 | a service contributes at most one range, only when it is bookable online and open on that weekday, tagged with its rs_id and ending at its end time |
| BookingComponent.AllServiceRanges | src/components/cheftonic-booking-component/cheftonic-booking-component.tsx:294-350 | the day's ranges are at most one per service |
| BookingComponent.AllServiceRangesAppend | src/components/cheftonic-booking-component/cheftonic-booking-component.tsx:347-350 | the reduce by concatenation follows service order: the ranges of a + b are those of a followed by those of b |
| BookingComponent.RangesComeFromOpenServices | src/components/cheftonic-booking-component/cheftonic-booking-component.tsx:298-301 | every range comes from a service that is bookable online and open on that weekday |
| BookingComponent.ClosingDayIsEmpty | src/components/cheftonic-booking-component/cheftonic-booking-component.tsx:277-282 | a day whose unpadded key is listed in closing_days has no ranges |
| BookingComponent.OpenServices | src/components/cheftonic-booking-component/cheftonic-booking-component.tsx:298-301 | the services open on a day are exactly those bookable online whose weekday list is absent or holds the lower-case weekday name |
| BookingComponent.OtherDayRanges | src/components/cheftonic-booking-component/cheftonic-booking-component.tsx:332-335 | on a day other than today each open service yields exactly [starts_at, ends_at] with its rs_id, in service order |
| BookingComponent.TodayRange | src/components/cheftonic-booking-component/cheftonic-booking-component.tsx:310-331 | today: R before the start gives the full range, R after the end gives none, otherwise (R equal to start or end included) the range is [R, end] |
| BookingComponent.SlotsAreHalfHours | src/components/cheftonic-booking-component/cheftonic-booking-component.tsx:483 | an instant is a slot of a range iff it lies in [start, end) a whole number of half hours after the start |
| BookingComponent.SlotsIncrease | src/components/cheftonic-booking-component/cheftonic-booking-component.tsx:483 | slots are 30 minutes apart, and a range has slots iff it is not empty |
| BookingComponent.DisplaySlots | src/components/cheftonic-booking-component/cheftonic-booking-component.tsx:480-490 | the hour list is the slots of the ranges in order; with no range the seedless reduce throws (None) |
| BookingComponent.DisplaySlotsMembers | src/components/cheftonic-booking-component/cheftonic-booking-component.tsx:480-490 | an instant is listed iff it is a half-hour slot of one of the ranges |
| BookingComponent.RewriteFirstStart | src/components/cheftonic-booking-component/cheftonic-booking-component.tsx:473-478 | the as-written half of finding G: the cached answer keeps its length, ids, ends and later ranges; only the first range's start moves, keeping its day |
| BookingComponent.RewriteDropsEarlierSlots | src/components/cheftonic-booking-component/cheftonic-booking-component.tsx:473-478 | picking one of the first range's slots, as written, drops exactly that range's earlier slots |
| BookingComponent.SetTimeAsWrittenShrinksLunch | src/components/cheftonic-booking-component/cheftonic-booking-component.tsx:473-478 | on a 12:00-16:00 lunch, picking 14:00 as written leaves 14:00-15:30 as the only slots shown |
| BookingComponent.ResolveServiceFirst | src/components/cheftonic-booking-component/cheftonic-booking-component.tsx:420 | the booked service is the first range containing the booking instant, None (a throw) when none does |
| BookingComponent.ParseDayInstant | src/components/cheftonic-booking-component/cheftonic-booking-component.tsx:242 | a parsed closing day is a midnight |
| BookingComponent.ParseDayInstantOfKey | src/components/cheftonic-booking-component/cheftonic-booking-component.tsx:242 | parsing a day's "Y/M/D" key gives back midnight of that day |
| BookingComponent.SameMonthHasZeroDiff | src/components/cheftonic-booking-component/cheftonic-booking-component.tsx:249 | two instants of one calendar month have a month difference of 0 |
| BookingComponent.KeptAsWrittenMeaning | src/components/cheftonic-booking-component/cheftonic-booking-component.tsx:248-249 | the written filter keeps the closing days before tomorrow's midnight and drops the ones from the day after tomorrow on, the reverse of "ahead of today" |
| BookingComponent.FilterDays | src/components/cheftonic-booking-component/cheftonic-booking-component.tsx:249 | every kept day was listed, has month difference 0 from the displayed day and passes the day filter |
| BookingComponent.ParseAll | src/components/cheftonic-booking-component/cheftonic-booking-component.tsx:242 | each closing-day string is parsed in place |
| BookingComponent.DisabledDaysAsWritten | src/components/cheftonic-booking-component/cheftonic-booking-component.tsx:241-251 | undefined closing_days (the throw) fails exactly when the list is missing |
| BookingComponent.DisabledDays | src/components/cheftonic-booking-component/cheftonic-booking-component.tsx:241-251 | every disabled day is a listed closing day, from today on, with month difference 0 from the displayed day |
| BookingComponent.DisabledDaysComplete | src/components/cheftonic-booking-component/cheftonic-booking-component.tsx:241-251 | every listed closing day from today on with month difference 0 from the displayed day is disabled |
| BookingComponent.FilterDaysComplete | src/components/cheftonic-booking-component/cheftonic-booking-component.tsx:249 | the filter drops no day that passes it |
| BookingComponent.FutureClosingDayNotDisabled | src/components/cheftonic-booking-component/cheftonic-booking-component.tsx:249 | a closing day two or more days ahead is not disabled as written, and is as intended |
| BookingComponent.ParseAllSingle | src/components/cheftonic-booking-component/cheftonic-booking-component.tsx:242 | a one-element list of closing days parses to its one parse |
| BookingComponent.FilterSingle | src/components/cheftonic-booking-component/cheftonic-booking-component.tsx:249 | one parsed day is kept exactly when it has month difference 0 and passes the day filter |
| BookingComponent.AnswerKept | src/components/cheftonic-booking-component/cheftonic-booking-component.tsx:270-274 | one engine call changes no day's answer except the one it stores |
| BookingComponent.EmptyDaysKept | src/components/cheftonic-booking-component/cheftonic-booking-component.tsx:209-215 | the empty days the search has passed stay recorded as the cache grows |
| BookingComponent.BookingWidget.constructor | src/components/cheftonic-booking-component/cheftonic-booking-component.tsx:113-126 | two guests, booking at now, all panels closed, not submitted, not loaded, empty cache |
| BookingComponent.BookingWidget.GetOpeningHoursForDay | src/components/cheftonic-booking-component/cheftonic-booking-component.tsx:265-359 | a cached key returns the stored answer and changes nothing; otherwise the fresh computation is stored under the day's key; the cache invariant is kept |
| BookingComponent.BookingWidget.NextDay | src/components/cheftonic-booking-component/cheftonic-booking-component.tsx:209-215 | one step of the search moves to the next day's midnight and keeps the search invariant |
| BookingComponent.BookingWidget.FindFirstBookingTime | src/components/cheftonic-booking-component/cheftonic-booking-component.tsx:202-218 | the result is the start of the first range of the first day, from the candidate on, that has ranges; every day skipped had none |
| BookingComponent.BookingWidget.GetHoursToDisplayForDay | src/components/cheftonic-booking-component/cheftonic-booking-component.tsx:480-490 | the slots of the day's cached ranges, or of the fresh ranges when the day was not cached |
| BookingComponent.BookingWidget.CalendarConfigFromDate | src/components/cheftonic-booking-component/cheftonic-booking-component.tsx:231-239 | single selection from the booking day, the restaurant's weekdays and the disabled days of that month (as corrected in finding A; see Left out) |
| BookingComponent.BookingWidget.SetHourMinuteConfigForDate | src/components/cheftonic-booking-component/cheftonic-booking-component.tsx:253-256 | the state returns to not submitted and the hour picker is shown |
| BookingComponent.BookingWidget.StoreRestaurant | src/components/cheftonic-booking-component/cheftonic-booking-component.tsx:180-182 | the opening and services are stored with a fresh, valid cache |
| BookingComponent.BookingWidget.StartAtFirstBookingTime | src/components/cheftonic-booking-component/cheftonic-booking-component.tsx:184-218 | the booking day becomes the first range start of the first day from today with ranges; every day skipped before it has no ranges, and that day lies within the given horizon |
| BookingComponent.BookingWidget.Accept | src/components/cheftonic-booking-component/cheftonic-booking-component.tsx:178-191 | accepted data is stored and the restaurant is ready; the booking day is the first range start of the first day from today with ranges, every skipped day has none, and that day lies within the horizon (as corrected in finding A; see Left out) |
| BookingComponent.BookingWidget.ShowReady | src/components/cheftonic-booking-component/cheftonic-booking-component.tsx:186-191 | the calendar gets its configuration, the hour picker is shown and the status is ok |
| BookingComponent.BookingWidget.Load | src/components/cheftonic-booking-component/cheftonic-booking-component.tsx:165-200 | an invalid key gives invalid_id; missing or rejected data gives info_pending; accepted data is loaded and the booking day is the first range start of the first day from today with ranges, every skipped day having none; data the corrected validation rejects gives info_pending too (as corrected in finding A and finding H; see Left out) |
| BookingComponent.BookingWidget.ToggleCalendarShow | src/components/cheftonic-booking-component/cheftonic-booking-component.tsx:366-374 | the calendar flips; opening it closes the other panels; at most one panel is open |
| BookingComponent.BookingWidget.ToggleTimeShow | src/components/cheftonic-booking-component/cheftonic-booking-component.tsx:376-386 | the time panel flips unless the day is invalid; opening it closes the others |
| BookingComponent.BookingWidget.TogglePaxShow | src/components/cheftonic-booking-component/cheftonic-booking-component.tsx:388-396 | the guests panel flips; opening it closes the others |
| BookingComponent.BookingWidget.SetPax | src/components/cheftonic-booking-component/cheftonic-booking-component.tsx:361-364 | the guest count is stored and the guests panel flips |
| BookingComponent.BookingWidget.SetTime | src/components/cheftonic-booking-component/cheftonic-booking-component.tsx:473-478 | the booking gets the clicked hour and minute on the same day, the time panel flips as `toggleTimeShow` does, and the cache is not touched (as corrected in finding G; see Left out) |
| BookingComponent.BookingWidget.OnSelectDay | src/components/cheftonic-booking-component/cheftonic-booking-component.tsx:137-142 | the booking moves to the first range start of the last selected day (today when none); fails (a throw) when that day has no range |
| BookingComponent.BookingWidget.BookFrom | src/components/cheftonic-booking-component/cheftonic-booking-component.tsx:138-140 | the booking moves to the start, the hour picker is reset and the calendar flips |
| BookingComponent.BookingWidget.OnMonthChange | src/components/cheftonic-booking-component/cheftonic-booking-component.tsx:143-158 | the booking moves to the first bookable time from now (this month) or from the month's first day, the calendar is reconfigured and the hour picker hidden (as corrected in finding A; see Left out) |
| BookingComponent.BookingWidget.SubmitBooking | src/components/cheftonic-booking-component/cheftonic-booking-component.tsx:398-442 | an invalid form changes nothing; otherwise the booked service is the first range holding the booking and the state ends submitted_ok or submitted_ko |
| BookingComponent.BookingWidget.ResetBooking | src/components/cheftonic-booking-component/cheftonic-booking-component.tsx:518 | the "make another booking" button returns the state to not submitted |
| BookingComponent.PoppedOr | src/components/cheftonic-booking-component/cheftonic-booking-component.tsx:138 | `param.pop()`: the last selected day, or now when the list is empty |
| MakeBooking.HourOf | src/components/make-booking/make-booking.tsx:331-332 | `parseInt` of the hour part is defined iff that part starts with a digit |
| MakeBooking.HourOfPadded | src/components/make-booking/make-booking.tsx:215-216 | a padded hour label reads back as its hour |
| MakeBooking.Run | src/components/make-booking/make-booking.tsx:345 | `[...Array(n).keys()].map(x => x + from)` is from, from+1, ..., to-1; a negative length throws |
| MakeBooking.TodaysHourAsWritten | src/components/make-booking/make-booking.tsx:338-341 | `getHours()` of the moved clock is an hour of the day |
| MakeBooking.TodaysHour | src/components/make-booking/make-booking.tsx:338-341 | the intended hour is the hour that now + 1h30 falls in, without wrapping past midnight |
| MakeBooking.ServiceHours | src/components/make-booking/make-booking.tsx:322-366 | offline service gives []; a service not open on the weekday gives []; otherwise the hours of its run, clamped today |
| MakeBooking.TodayCases | src/components/make-booking/make-booking.tsx:343-353 | h <= start gives all hours, h >= end gives [], otherwise h ... end-1 |
| MakeBooking.TodayHoursAhead | src/components/make-booking/make-booking.tsx:335-353 | with the intended hour, every hour offered today ends after now + 1h30 |
| MakeBooking.HourOfNoon | src/components/make-booking/make-booking.tsx:331-332 | "12:00" and "16:00" parse to hours 12 and 16 |
| MakeBooking.LateEveningAsWritten | src/components/make-booking/make-booking.tsx:338-341 | at 23:00 the written hour wraps to 0 and offers a finished lunch service in full; the intended hour offers nothing |
| MakeBooking.AllHours | src/components/make-booking/make-booking.tsx:322-370 | the seedless reduce throws on no services, otherwise concatenates the services' hours |
| MakeBooking.HoursOfServicesDefined | src/components/make-booking/make-booking.tsx:322-370 | the day's hours are defined iff each service's hours are |
| MakeBooking.HoursOfServicesMembers | src/components/make-booking/make-booking.tsx:322-370 | an hour is offered iff some service offers it |
| MakeBooking.HoursOfServicesOtherDay | src/components/make-booking/make-booking.tsx:354-357 | on a day other than today the hours do not depend on the clock |
| MakeBooking.DayHoursAsWrittenAgree | src/components/make-booking/make-booking.tsx:335-356 | the hours with the wrapping `todaysHour` as written equal those with the corrected one on every day but today, and today until 22:30 |
| MakeBooking.DowKey | src/components/make-booking/make-booking.tsx:319 | `dowMD[day.getDay()]` is the weekday's entry, undefined past the table |
| MakeBooking.SameDayOtherNow | src/components/make-booking/make-booking.tsx:298-376 | two instants of one day that is not today get the same hours |
| MakeBooking.NextNoon | src/components/make-booking/make-booking.tsx:243-245 | the next date of the loop is the next day at 12:00 |
| MakeBooking.DatesBetweenShape | src/components/make-booking/make-booking.tsx:238-248 | the list is empty iff start > stop; it starts at start; element i is on day start + i at 12:00 (after the first) and not after stop; it ends at the last such day |
| MakeBooking.DatesIncrease | src/components/make-booking/make-booking.tsx:238-248 | the dates strictly increase, and so do their days |
| MakeBooking.GetDates | src/components/make-booking/make-booking.tsx:238-248 | the loop builds exactly the date list |
| MakeBooking.LastDayOfMonth | src/components/make-booking/make-booking.tsx:257-259 | the day number of the last day of the instant's month |
| MakeBooking.DayWithinMonth | src/components/make-booking/make-booking.tsx:257-259 | the days left in the month count to its last day |
| MakeBooking.MonthStopAsWrittenIsMidnight | src/components/make-booking/make-booking.tsx:257-259 | up to the 28th the written stop is 00:00 on the last day of the month |
| MakeBooking.MonthAsWrittenMissesLastDay | src/components/make-booking/make-booking.tsx:259-261 | the dates listed as written never reach the last day of the month |
| MakeBooking.MonthDatesCover | src/components/make-booking/make-booking.tsx:255-261 | with the corrected stop the list holds every day from the start to the end of the month |
| MakeBooking.MonthDatesAsWrittenDropLast | src/components/make-booking/make-booking.tsx:257-261 | up to the 28th, the dates listed as written are exactly the corrected list without the month's last day |
| MakeBooking.AsWrittenLength | src/components/make-booking/make-booking.tsx:238-248 | the list up to 00:00 of a later day has one noon date per day before it, starting at the start |
| MakeBooking.Insert | src/components/make-booking/make-booking.tsx:215 | inserting into an ascending list keeps it ascending and adds exactly one element |
| MakeBooking.AscendingCons | src/components/make-booking/make-booking.tsx:215 | a least head keeps a list ascending |
| MakeBooking.AscendingTail | src/components/make-booking/make-booking.tsx:215 | the tail of an ascending list is ascending and holds the rest |
| MakeBooking.AscendingHeadLeast | src/components/make-booking/make-booking.tsx:215 | the head of an ascending list is its least element |
| MakeBooking.SortHours | src/components/make-booking/make-booking.tsx:215 | `sort((a, b) => a - b)` gives an ascending permutation |
| MakeBooking.AscendingUnique | src/components/make-booking/make-booking.tsx:215 | an ascending arrangement of a multiset is unique, so any correct sort agrees |
| MakeBooking.AscendingHeadsAgree | src/components/make-booking/make-booking.tsx:216 | the first hour does not depend on the sort used |
| MakeBooking.PadHours | src/components/make-booking/make-booking.tsx:215 | one label per hour |
| MakeBooking.HourConfigShowsHours | src/components/make-booking/make-booking.tsx:205-221 | the picker shows the sorted hours as two-digit labels at half-hour interval; the initial value is the first hour + ":00" when there are hours |
| MakeBooking.HourConfigIgnoresOrder | src/components/make-booking/make-booking.tsx:215 | the configuration depends only on which hours were offered, not their order |
| MakeBooking.PickerSelectsFirstHour | src/components/make-booking/make-booking.tsx:205-222 | the picker lists the offered hours, minutes "00" and "30", and selects the first offered hour |
| MakeBooking.PhoneValid | src/components/make-booking/make-booking.tsx:440-443 | the phone is valid iff it is exactly 9 digits |
| MakeBooking.SubmitAllowed | src/components/make-booking/make-booking.tsx:446 | submission proceeds iff no phone is required or the phone is valid |
| MakeBooking.FindService | src/components/make-booking/make-booking.tsx:460 | `find` gives the first service satisfying the test, None when none does |
| MakeBooking.FirstHourMissedAsWritten | src/components/make-booking/make-booking.tsx:450-460 | booking 12:00 at a 12:00-16:00 service finds no service as written; the intended lookup finds it |
| MakeBooking.FirstHourNotFoundAsWritten | src/components/make-booking/make-booking.tsx:460 | "12" is smaller than "12:00", so the written lookup skips the service |
| MakeBooking.FirstHourFound | src/components/make-booking/make-booking.tsx:460 | the intended lookup resolves 12:00 to the 12:00-16:00 service |
| MakeBooking.OfferedHourResolves | src/components/make-booking/make-booking.tsx:331-460 | every hour the engine offers resolves to a service whose hours contain it |
| MakeBooking.DayAnswer | src/components/make-booking/make-booking.tsx:296-376 | a cached key returns the stored entry; a closing day returns no hours; otherwise the fresh hours of the day (as corrected in finding E; see Left out) |
| MakeBooking.CacheTransparent | src/components/make-booking/make-booking.tsx:301-304 | on a day other than today the cached answer equals the uncached one |
| MakeBooking.ClosingDayHasNoHours | src/components/make-booking/make-booking.tsx:307-311 | a closing day always answers no hours |
| MakeBooking.CachedDaysOpen | src/components/make-booking/make-booking.tsx:307-311 | closing days are never stored in the cache |
| MakeBooking.AnswerSame | src/components/make-booking/make-booking.tsx:301-304 | the answer depends only on the cache entry of the day's key |
| MakeBooking.EmptyDays | src/components/make-booking/make-booking.tsx:269-273 | at most one disabled day per listed date (as corrected in finding E; see Left out) |
| MakeBooking.EmptyDaysStaysNone | src/components/make-booking/make-booking.tsx:269-273 | one failing date makes the whole list fail |
| MakeBooking.EmptyDaysFresh | src/components/make-booking/make-booking.tsx:261-274 | defined iff every date has an answer; then exactly the dates with no hours, in order |
| MakeBooking.EmptyDaysFreshDefined | src/components/make-booking/make-booking.tsx:269-273 | the list is defined iff every date's answer is |
| MakeBooking.EmptyDaysFreshMembers | src/components/make-booking/make-booking.tsx:272-273 | a date is disabled iff it is listed and has no hours |
| MakeBooking.FreshAnswerIsForDay | src/components/make-booking/make-booking.tsx:309-371 | a computed answer carries its own day |
| MakeBooking.CalendarStart | src/components/make-booking/make-booking.tsx:186 | in the current month the calendar starts 1h30 from now, otherwise at the given day |
| MakeBooking.WithTime | src/components/make-booking/make-booking.tsx:434-435 | `setHours(+hour, +minutes)` is a valid date iff both parts are numbers |
| MakeBooking.WithTimeKeepsDay | src/components/make-booking/make-booking.tsx:434-435 | a picked "HH:MM" keeps the day and sets its time |
| MakeBooking.MakeBookingWidget.constructor | src/components/make-booking/make-booking.tsx:128-144 | two guests, booking 1h from now with time "<hour>:00", no phone, empty cache, not loaded |
| MakeBooking.MakeBookingWidget.GetOpeningHoursForDay | src/components/make-booking/make-booking.tsx:296-376 | returns the day's answer; stores fresh answers of open days only; keeps the cache invariant (as corrected in finding E; see Left out) |
| MakeBooking.MakeBookingWidget.DisabledAmong | src/components/make-booking/make-booking.tsx:269-273 | the dates with no hours, computed day by day through the cache (as corrected in finding E; see Left out) |
| MakeBooking.MakeBookingWidget.GetDisabledDaysInMonth | src/components/make-booking/make-booking.tsx:255-275 | the disabled days among the dates from the start up to the corrected month stop (as corrected in finding C and finding E; see Left out) |
| MakeBooking.MakeBookingWidget.SetCalendarConfigFromDate | src/components/make-booking/make-booking.tsx:184-203 | the calendar is configured from the start date with its month's disabled days; the hour picker is hidden (as corrected in finding C and finding E; see Left out) |
| MakeBooking.MakeBookingWidget.Load | src/components/make-booking/make-booking.tsx:146-175 | a failed query gives no_load; missing data gives pending; otherwise the data is stored and the calendar set up from 1h30 ahead, with the hour picker cleared and hidden (as corrected in finding C and finding E; see Left out) |
| MakeBooking.MakeBookingWidget.SetHourMinuteConfigForDate | src/components/make-booking/make-booking.tsx:205-224 | the picker gets the sorted, padded hours of the day and is shown (as corrected in finding E; see Left out) |
| MakeBooking.MakeBookingWidget.SortCachedEntry | src/components/make-booking/make-booking.tsx:215 | sorting in place rewrites the cached entry with its hours sorted |
| MakeBooking.MakeBookingWidget.OnMonthChange | src/components/make-booking/make-booking.tsx:392-400 | reconfigures the calendar from the new month and hides the hour picker (as corrected in finding C and finding E; see Left out) |
| MakeBooking.MakeBookingWidget.ToggleCalendarShow | src/components/make-booking/make-booking.tsx:402-404 | the calendar flag flips |
| MakeBooking.MakeBookingWidget.ToggleTimeShow | src/components/make-booking/make-booking.tsx:406-408 | the time flag flips |
| MakeBooking.MakeBookingWidget.TogglePaxShow | src/components/make-booking/make-booking.tsx:410-412 | the guests flag flips |
| MakeBooking.MakeBookingWidget.SetPax | src/components/make-booking/make-booking.tsx:378-381 | the guest count is stored and the guests flag flips |
| MakeBooking.MakeBookingWidget.OnCalendarChange | src/components/make-booking/make-booking.tsx:419-425 | the booking day is the last selected day (undefined when none), the picker gets that day's hours, the calendar flips (as corrected in finding E; see Left out) |
| MakeBooking.MakeBookingWidget.OnHourMinuteChange | src/components/make-booking/make-booking.tsx:432-438 | the time is stored and set on the booking day; an unset day fails (a throw) |
| MakeBooking.MakeBookingWidget.OnPhoneChange | src/components/make-booking/make-booking.tsx:440-443 | the phone is marked changed and valid iff it is 9 digits |
| MakeBooking.MakeBookingWidget.SubmitBooking | src/components/make-booking/make-booking.tsx:445-476 | a blocked submit changes nothing; otherwise the request names the first service whose hours contain the booked hour, compared as numbers, and the state ends submitted_ok or submitted_ko (as corrected in finding B; see Left out) |
| CalendarGrid.DayEntry | src/components/cheftonic-booking-component/cheftonic-booking-component.tsx:139-143 | a calendar day holds its weekday number and name, day of month, 0-based month and the day itself |
| CalendarGrid.MonthDay | src/components/cheftonic-booking-component/calendar.tsx:138-144 | the entry of the i-th day of the month: day of month i, the shown month, the weekday of that day |
| CalendarGrid.Layout | src/components/cheftonic-booking-component/calendar.tsx:127-145 | the grid has one row more per row break |
| CalendarGrid.PutDay | src/components/cheftonic-booking-component/calendar.tsx:138 | storing a day keeps the number of rows |
| CalendarGrid.RowBreaksMonotone | src/components/cheftonic-booking-component/calendar.tsx:131-135 | the row index never decreases as days are laid out |
| CalendarGrid.MondayBetween | src/components/cheftonic-booking-component/calendar.tsx:131-135 | two days with the same weekday are in different rows |
| CalendarGrid.NextMonday | src/components/cheftonic-booking-component/calendar.tsx:131 | a Monday comes within a week |
| CalendarGrid.SameWeekdayWeekApart | src/components/cheftonic-booking-component/calendar.tsx:131 | days with the same weekday are at least a week apart |
| CalendarGrid.WeekdayAdd | src/components/cheftonic-booking-component/calendar.tsx:129-131 | t days later is t weekdays later |
| CalendarGrid.LayoutPlacement | src/components/cheftonic-booking-component/calendar.tsx:127-145 | every day 1..n of the month ends up in its row under its weekday, with its own entry |
| CalendarGrid.PlacementSurvivesStep | src/components/cheftonic-booking-component/calendar.tsx:127-145 | laying out a later day never overwrites an earlier one |
| CalendarGrid.PutDayKeeps | src/components/cheftonic-booking-component/calendar.tsx:138 | storing a day leaves every other slot as it was |
| CalendarGrid.LayoutKeepsEarlierRows | src/components/cheftonic-booking-component/calendar.tsx:120-145 | rows before the first day's row keep their contents |
| CalendarGrid.FirstDayInFirstRow | src/components/cheftonic-booking-component/calendar.tsx:131 | in the booking calendar the 1st is always in the first row |
| CalendarGrid.MondayFirstLeavesRowEmpty | src/components/calendar/calendar.ts:176-183 | in the component calendar a month starting on Monday leaves row 0 empty |
| CalendarGrid.DaysInMonthOfIsLength | src/components/cheftonic-booking-component/calendar.tsx:114-126 | with a 1-based month it is the Gregorian month length, leap February included |
| CalendarGrid.MonthFirstDays | src/components/cheftonic-booking-component/calendar.tsx:127-129 | the i-th day laid out is day i of the shown month |
| CalendarGrid.MonthSpanOf | src/components/cheftonic-booking-component/calendar.tsx:126-129 | the month's days run 1, 2, ..., daysInMonth from its 1st |
| CalendarGrid.MonthDayIsDayEntry | src/components/cheftonic-booking-component/calendar.tsx:138-144 | the grid entries are the calendar facts of their days |
| CalendarGrid.LayoutStep | src/components/cheftonic-booking-component/calendar.tsx:129-144 | one more day: a row break when required, then the day under its weekday |
| CalendarGrid.PlaceDay | src/components/cheftonic-booking-component/calendar.tsx:128-144 | one loop iteration extends the grid and the row index by day i |
| CalendarGrid.LayOutMonth | src/components/cheftonic-booking-component/calendar.tsx:127-145 | the loop lays out days 1..n |
| CalendarGrid.LayOutMonthOf | src/components/cheftonic-booking-component/calendar.tsx:118-147 | the grid of the selected month after the given rows (as corrected in finding D; see Left out) |
| CalendarGrid.GridFirstAsWrittenEarlyDays | src/components/cheftonic-booking-component/calendar.tsx:122-125 | up to the 28th of today's month the written steps reach the 1st of the selected month |
| CalendarGrid.GridFirstAsWrittenOnJanuary31 | src/components/cheftonic-booking-component/calendar.tsx:122-129 | on 31 January the February grid starts on 1 March as written |
| CalendarGrid.Without | src/components/cheftonic-booking-component/calendar.tsx:200 | `delete` removes exactly that member and keeps the set duplicate-free |
| CalendarGrid.ToggledSelection | src/components/cheftonic-booking-component/calendar.tsx:193-201 | single mode: exactly {date}; multi mode: date's membership flips and every other member stays |
| CalendarGrid.DifferenceInDays | src/components/cheftonic-booking-component/calendar.tsx:224-236 | the whole-day difference of the two days |
| CalendarGrid.DisabledCases | src/components/cheftonic-booking-component/calendar.tsx:211-217 | disabled iff in the disabled set, or its weekday is not enabled, or strictly before dateFrom |
| CalendarGrid.ShiftedMonthDate | src/components/cheftonic-booking-component/calendar.tsx:155-167 | one month back or forth is the 1st of the previous or next month, across years |
| CalendarGrid.AtNoon | src/components/cheftonic-booking-component/calendar.tsx:94-97 | every date moved to 12:00 of its day |
| CalendarGrid.Dedup | src/components/cheftonic-booking-component/calendar.tsx:102-106 | `new Set`: no duplicates, the same members |
| CalendarGrid.Members | src/components/cheftonic-booking-component/calendar.tsx:94-98 | `new Set` as a set: the same members |
| CalendarGrid.FirstOfMonthOrder | src/components/cheftonic-booking-component/calendar.tsx:179-185 | first-of-month dates compare as the months do |
| BookingCalendar.OverlayCases | src/components/cheftonic-booking-component/calendar.tsx:89 | the spread keeps every key the input holds and the base's others |
| BookingCalendar.Normalized | src/components/cheftonic-booking-component/calendar.tsx:93-107 | the effective config with disabled and selected days at 12:00 |
| BookingCalendar.Calendar.constructor | src/components/cheftonic-booking-component/calendar.tsx:26-62 | today at noon, its month shown, the default config, nothing selected |
| BookingCalendar.Calendar.SetConfig | src/components/cheftonic-booking-component/calendar.tsx:71-86 | stores the config and fetches the tables once; with config and tables shows dateFrom's month on a fresh grid; with no config or no tables, or with no dateFrom (where reading it throws), only the config changes: the shown month, month name, grid and day sets stay as they were (as corrected in finding D; see Left out) |
| BookingCalendar.Calendar.ShowMonthOf | src/components/cheftonic-booking-component/calendar.tsx:79-84 | dateFrom's month is shown and its grid built on a fresh grid (as corrected in finding D; see Left out) |
| BookingCalendar.Calendar.InitCalendar | src/components/cheftonic-booking-component/calendar.tsx:88-110 | the overlay config is stored, its days become the noon sets and the grid is laid out (as corrected in finding D; see Left out) |
| BookingCalendar.Calendar.ApplyConfig | src/components/cheftonic-booking-component/calendar.tsx:89-107 | the overlay config is stored and its days become the noon sets |
| BookingCalendar.Calendar.GenerateDates | src/components/cheftonic-booking-component/calendar.tsx:118-147 | the month name and the grid of the shown month; an unknown month name fails (a throw) (as corrected in finding D; see Left out) |
| BookingCalendar.Calendar.IsBackAllowed | src/components/cheftonic-booking-component/calendar.tsx:172-185 | true iff dateFrom is unset or the shown month is after today's |
| BookingCalendar.Calendar.PreviousMonth | src/components/cheftonic-booking-component/calendar.tsx:149-161 | emits only when back is allowed, the 1st of the previous month |
| BookingCalendar.Calendar.NextMonth | src/components/cheftonic-booking-component/calendar.tsx:163-170 | always the 1st of the next month, across the year |
| BookingCalendar.Calendar.AssignDate | src/components/cheftonic-booking-component/calendar.tsx:188-203 | the selection toggles as the mode says and the full set is passed on |
| BookingCalendar.Calendar.IsSelectedDay | src/components/cheftonic-booking-component/calendar.tsx:207-209 | "selectedButton" iff selected, else "" |
| BookingCalendar.Calendar.IsDisabled | src/components/cheftonic-booking-component/calendar.tsx:211-217 | the disabled-day disjunction: in the disabled set, or a configured weekday list lacks the day's name, or strictly before a configured dateFrom; a day in the disabled set is disabled even with no config, and any other day then throws |
| CalendarComponent.OverlayCases | src/components/calendar/calendar.ts:113 | the spread keeps every key the input holds and the base's others |
| CalendarComponent.Normalized | src/components/calendar/calendar.ts:115-129 | the effective config with disabled and selected days at 12:00 |
| CalendarComponent.FindKey | src/components/calendar/calendar.ts:147 | `find` gives the first entry with the key, none when absent |
| CalendarComponent.DayCard | src/components/calendar/calendar.ts:145-151 | defined iff the weekday and month are in the tables; holds the day's weekday, day, month and names |
| CalendarComponent.TodayTomorrow | src/components/calendar/calendar.ts:143-165 | exactly two cards, a day apart |
| CalendarComponent.TodayTomorrowConsecutive | src/components/calendar/calendar.ts:153-161 | tomorrow is the next weekday and the next day of the month, or the 1st of the next month |
| CalendarComponent.Component.constructor | src/components/calendar/calendar.ts:53-91 | today at noon, its month shown, the default config, nothing selected |
| CalendarComponent.Component.NgOnInit | src/components/calendar/calendar.ts:93-97 | stores the tables and initialises the calendar (as corrected in finding D; see Left out) |
| CalendarComponent.Component.NgOnChanges | src/components/calendar/calendar.ts:99-110 | the new config is stored; with tables and a dateFrom, dateFrom's month is shown, the config is overlaid and normalised, and the grid is regenerated from an empty one exactly when the month has a name and any requested day cards can be built; with no config or no tables, or with no dateFrom (where reading it throws), only the config changes: the shown month, month name, grid, day sets and day cards stay as they were (as corrected in finding D; see Left out) |
| CalendarComponent.Component.ShowMonthOf | src/components/calendar/calendar.ts:104-108 | dateFrom's month is shown, the overlaid config and its noon sets are stored, and the month's grid is built on a fresh grid exactly when the month has a name and any requested day cards can be built (as corrected in finding D; see Left out) |
| CalendarComponent.Component.InitCalendar | src/components/calendar/calendar.ts:112-135 | overlay config, noon sets, grid, and the day cards when todayTomorrow (as corrected in finding D; see Left out) |
| CalendarComponent.Component.Render | src/components/calendar/calendar.ts:130-134 | the grid, and the day cards when todayTomorrow is set (as corrected in finding D; see Left out) |
| CalendarComponent.Component.ApplyConfig | src/components/calendar/calendar.ts:113-129 | the overlay config is stored and its days become the noon sets |
| CalendarComponent.Component.SetTodayTomorrow | src/components/calendar/calendar.ts:143-165 | stores the two cards; a missing table entry fails (a throw) |
| CalendarComponent.Component.GenerateDates | src/components/calendar/calendar.ts:167-195 | the month name and the grid with a row break on every Monday (as corrected in finding D; see Left out) |
| CalendarComponent.Component.IsBackAllowed | src/components/calendar/calendar.ts:218-232 | true iff dateFrom is unset or the shown month is after today's |
| CalendarComponent.Component.PreviousMonth | src/components/calendar/calendar.ts:197-208 | emits only when back is allowed, the 1st of the previous month |
| CalendarComponent.Component.NextMonth | src/components/calendar/calendar.ts:210-216 | always the 1st of the next month, across the year |
| CalendarComponent.Component.AssignDate | src/components/calendar/calendar.ts:235-247 | the selection toggles as the mode says and the full set is emitted |
| CalendarComponent.Component.IsSelectedDay | src/components/calendar/calendar.ts:251-253 | "selectedButton" iff selected, else "" |
| CalendarComponent.Component.IsDisabled | src/components/calendar/calendar.ts:255-261 | the disabled-day disjunction: in the disabled set, or a configured weekday list lacks the day's name, or strictly before a configured dateFrom; a day in the disabled set is disabled even with no config, and any other day then throws |
| TimeLists.Step | src/components/hour-minute/hour-minute.ts:74-84 | an interval's step divides the hour |
| TimeLists.MinuteLabelsAreMultiples | src/components/hour-minute/hour-minute.ts:74-84 | the labels are the two-digit multiples of the step: QUARTERLY 00/15/30/45, HALF 00/30, FULL 00 |
| TimeLists.TimesOfHour | src/components/hour-minute/hour-minute.ts:98-99 | one "hour:minute" per minute label |
| TimeLists.AllTimesLength | src/components/hour-minute/hour-minute.ts:97-101 | the time list has |hours| x |minutes| entries |
| TimeLists.AllTimesAt | src/components/hour-minute/hour-minute.ts:97-101 | entry i x |minutes| + j is hours[i] + ":" + minutes[j] (hour-major) |
| TimeLists.TimeSplitsBack | src/components/hour-minute/hour-minute.ts:116 | a listed time splits back into its hour and minute |
| TimeLists.HourCount | src/components/hour-minute/hour-minute.ts:104-109 | 24 with showAllHours, else to hour - from hour; a bad or negative count throws |
| TimeLists.FillHoursAsWritten | src/components/hour-minute/hour-minute.ts:110-112 | as many labels as the count |
| TimeLists.FillHoursAsWrittenRepeats | src/components/hour-minute/hour-minute.ts:110-112 | every label is "ed" |
| TimeLists.FillHours | src/components/hour-minute/hour-minute.ts:104-113 | as many labels as the count |
| TimeLists.FillHoursCounts | src/components/hour-minute/hour-minute.ts:110-112 | the intended labels are two-digit and count 00, 01, ... |
| HourMinuteComponent.Merge | src/components/hour-minute/hour-minute.ts:45-72 | each key comes from the config when present, else from the defaults |
| HourMinuteComponent.MergeIdempotent | src/components/hour-minute/hour-minute.ts:72 | merging twice is merging once |
| HourMinuteComponent.HoursOf | src/components/hour-minute/hour-minute.ts:90-94 | hoursToShow when given, else the filled hours (as corrected in finding F; see Left out) |
| HourMinuteComponent.DefaultLists | src/components/hour-minute/hour-minute.ts:45-54 | the defaults give 24 hours, 96 times and selection 08:00 |
| HourMinuteComponent.ButtonClass | src/components/hour-minute/hour-minute.ts:150-156 | "selectedButton" iff selected, else "" |
| HourMinuteComponent.HourMinutePanel.constructor | src/components/hour-minute/hour-minute.ts:35-57 | no config, quarter-hour minutes, nothing selected |
| HourMinuteComponent.HourMinutePanel.InitHourMinute | src/components/hour-minute/hour-minute.ts:70-102 | merged config, minute labels, selection from initialValue, hours, and the time list when not big (as corrected in finding F; see Left out) |
| HourMinuteComponent.HourMinutePanel.OnChanges | src/components/hour-minute/hour-minute.ts:63-68 | reinitialises from the new config: merged config, minute labels, the selection split from initialValue, the hours, the time list when not big, and nothing listed changes when filling throws (as corrected in finding F; see Left out) |
| HourMinuteComponent.HourMinutePanel.SetTime | src/components/hour-minute/hour-minute.ts:115-118 | both parts of the split time are selected |
| HourMinuteComponent.HourMinutePanel.SetHour | src/components/hour-minute/hour-minute.ts:120-123 | only the hour changes |
| HourMinuteComponent.HourMinutePanel.SetMinute | src/components/hour-minute/hour-minute.ts:125-128 | only the minute changes |
| HourMinuteComponent.HourMinutePanel.IsSelectedHour | src/components/hour-minute/hour-minute.ts:150-152 | the button class of the hour |
| HourMinuteComponent.HourMinutePanel.IsSelectedMinute | src/components/hour-minute/hour-minute.ts:154-156 | the button class of the minute |
| HourMinuteComponent.PickedTimeSelected | src/components/hour-minute/hour-minute.ts:115-156 | after picking a listed time its hour and minute show selected |
| HourMinutePicker.Merge | src/components/make-booking/hour-minute.tsx:38-59 | each key comes from the config when present, else from the defaults |
| HourMinutePicker.HoursOf | src/components/make-booking/hour-minute.tsx:78-82 | hoursToShow when given, else the filled hours (as corrected in finding F; see Left out) |
| HourMinutePicker.ListedTimes | src/components/make-booking/hour-minute.tsx:86-88 | entry i x |minutes| + j of the list is hour i + ":" + minute j, and it splits back |
| HourMinutePicker.TimePicker.constructor | src/components/make-booking/hour-minute.tsx:28-48 | no config, quarter-hour minutes, nothing selected |
| HourMinutePicker.TimePicker.InitHourMinute | src/components/make-booking/hour-minute.tsx:57-90 | merged config, minute labels, selection from initialValue, hours and the full time list (as corrected in finding F; see Left out) |
| HourMinutePicker.TimePicker.SetConfig | src/components/make-booking/hour-minute.tsx:50-90 | a missing config changes nothing; otherwise the merged config, minute labels, the selection split from initialValue, the hours and the full time list, with the lists kept when filling throws (as corrected in finding F; see Left out) |
| HourMinutePicker.TimePicker.SetTime | src/components/make-booking/hour-minute.tsx:103-107 | the split text is selected and the unchanged text passed on |
| Apollo.Kept | src/providers/apollo-client/apollo-client.tsx:110-111 | the kept properties never carry the key |
| Apollo.OmitDeep | src/providers/apollo-client/apollo-client.tsx:107-119 | the result has exactly the kept property names, in order |
| Apollo.OmitValue | src/providers/apollo-client/apollo-client.tsx:112-115 | scalars and null are copied; arrays stay arrays and objects objects |
| Apollo.WalkElement | src/providers/apollo-client/apollo-client.tsx:122-125 | a null element throws; others are walked like values |
| Apollo.ArrayWalk | src/providers/apollo-client/apollo-client.tsx:121-127 | element-wise, length kept, defined iff every element is |
| Apollo.OmitDeepFields | src/providers/apollo-client/apollo-client.tsx:110-117 | the i-th kept property holds its walked value |
| Apollo.OmitDeepConcat | src/providers/apollo-client/apollo-client.tsx:110-117 | the walk over a + b is the walk over a followed by that over b |
| Apollo.OmitValueDefined | src/providers/apollo-client/apollo-client.tsx:114-124 | a value is stripped without a throw iff no null array element is reached |
| Apollo.ArrayWalkDefined | src/providers/apollo-client/apollo-client.tsx:121-127 | an array is walked iff none of its elements is null or reaches one |
| Apollo.OmitDeepDefined | src/providers/apollo-client/apollo-client.tsx:107-119 | an object is stripped iff no kept value reaches a null array element |
| Apollo.OmitValueKeyFree | src/providers/apollo-client/apollo-client.tsx:107-127 | the key occurs at no depth of a stripped value |
| Apollo.ArrayWalkKeyFree | src/providers/apollo-client/apollo-client.tsx:121-127 | nor in any walked element |
| Apollo.OmitDeepKeyFree | src/providers/apollo-client/apollo-client.tsx:107-119 | nor in any property of a stripped object |
| Apollo.OmitValueNoNull | src/providers/apollo-client/apollo-client.tsx:114-124 | a stripped value can be stripped again |
| Apollo.ArrayWalkNoNull | src/providers/apollo-client/apollo-client.tsx:121-127 | walked elements are not null and can be walked again |
| Apollo.OmitDeepNoNull | src/providers/apollo-client/apollo-client.tsx:107-119 | stripped properties can be stripped again |
| Apollo.OmitValueIdentity | src/providers/apollo-client/apollo-client.tsx:112-115 | a key-free value is copied unchanged |
| Apollo.ArrayWalkIdentity | src/providers/apollo-client/apollo-client.tsx:121-127 | a key-free array is copied unchanged |
| Apollo.OmitDeepIdentity | src/providers/apollo-client/apollo-client.tsx:107-119 | a key-free object is copied unchanged |
| Apollo.OmitDeepIdempotent | src/providers/apollo-client/apollo-client.tsx:107-127 | stripping twice is stripping once |
| Apollo.OmitDeepSnoc | src/providers/apollo-client/apollo-client.tsx:110-117 | one more property: skipped when it is the key, otherwise appended with its walked value |
| Apollo.OmitDeepLoop | src/providers/apollo-client/apollo-client.tsx:107-119 | the `forEach` loop builds exactly the stripped object |
| Apollo.StoreValue | src/providers/apollo-client/apollo-client.tsx:112-115 | the value stored for one property is the walked value |
| Apollo.CleanTypename | src/providers/apollo-client/apollo-client.tsx:59-66 | operations without variables pass unchanged; otherwise the variables lose every `__typename` |
| Apollo.DataIdFromObject | src/providers/apollo-client/apollo-client.tsx:38-47 | Person, Business, Restaurant, Customer map to their id property, MasterData to opt_id "." lang, others to undefined |
| Apollo.DotSplit | src/providers/apollo-client/apollo-client.tsx:45 | a dot-free opt_id is the part before the first '.' of the id |
| Apollo.MasterDataIdInjective | src/providers/apollo-client/apollo-client.tsx:45 | with dot-free opt_ids, two MasterData ids are equal iff both parts are |
| Apollo.MasterDataIdCollision | src/providers/apollo-client/apollo-client.tsx:45 | dots in opt_id let different entries share an id |
| Apollo.Provider.constructor | src/providers/apollo-client/apollo-client.tsx:22-24 | no client yet |
| Apollo.Provider.GetApolloClient | src/providers/apollo-client/apollo-client.tsx:26-31 | an existing client is returned unchanged; otherwise one is built, once |
| Apollo.Provider.InitApollo | src/providers/apollo-client/apollo-client.tsx:33-105 | a fresh client is stored |
| Apollo.GetTwice | src/providers/apollo-client/apollo-client.tsx:26-31 | two calls return the same client and build at most one |
| MasterData.KeyName | src/providers/master-data/master-data.ts:7-11 | key names are non-empty and dot-free |
| MasterData.KeyNameInjective | src/providers/master-data/master-data.ts:7-11 | distinct keys have distinct names |
| MasterData.PatternTest | src/providers/master-data/master-data.ts:47 | `/(es|en)/gi.test` holds iff "es" or "en" occurs in any case |
| MasterData.GetLocale | src/providers/master-data/master-data.ts:45-49 | the part before the first '-' when it mentions es/en, else "en" |
| MasterData.GetLocaleShape | src/providers/master-data/master-data.ts:46-48 | the locale has at least two characters, no '-', mentions es/en and is a prefix of the language or "en" |
| MasterData.GetLocaleIdempotent | src/providers/master-data/master-data.ts:46-48 | the locale of a locale is itself |
| MasterData.GetLocaleExamples | src/providers/master-data/master-data.ts:46-48 | "es-ES" gives "es", "de-DE" gives "en", "" gives "en" |
| MasterData.AnswerCacheId | src/providers/master-data/master-data.ts:14-19 | an answer is cached under opt_id "." lang |
| MasterData.Provider.constructor | src/providers/master-data/master-data.ts:25-27 | keeps the Apollo provider |
| MasterData.Provider.GetMasterDataInfo | src/providers/master-data/master-data.ts:29-43 | queries with opt_id the key's name and lang the locale, through the shared client |
| MasterData.AnswersCachedApart | src/providers/master-data/master-data.ts:31-37 | two queries share a cache entry iff same key and same locale |
| Gregorian.DayKeyRoundTrip | src/components/cheftonic-booking-component/cheftonic-booking-component.tsx:679 | the "Y/M/D" key of a date parses back to that date |
| Gregorian.DayKeyOfInjective | src/components/cheftonic-booking-component/cheftonic-booking-component.tsx:679 | two days share a key only when they are the same day |
| Gregorian.InstantKeySameDay | src/components/cheftonic-booking-component/cheftonic-booking-component.tsx:267-274 | two instants share a cache key iff they are on the same day |
| Gregorian.NextDayDate | src/components/calendar/calendar.ts:153-154 | `setDate(getDate() + 1)` gives the next calendar day |
| Gregorian.MakeDayOfDate | src/components/cheftonic-booking-component/calendar.tsx:155 | `new Date(y, m - 1, d)` with an in-range day is that date |
| Strings.JoinSplit | src/providers/master-data/master-data.ts:46 | joining the pieces of a split gives back the string |
| Strings.FirstPieceIsPrefix | src/providers/master-data/master-data.ts:46 | the first piece of a split is the text before the first separator |
| Strings.ParseIntOfDigits | src/components/make-booking/make-booking.tsx:331-332 | `parseInt` reads a digit string whole |
| Strings.NatToStringRoundTrip | src/components/make-booking/make-booking.tsx:137 | `String(n)` is the digits of n without leading zeros |
| Strings.ZeroPad2RoundTrip | src/components/make-booking/make-booking.tsx:215 | below 100, `('0' + n).slice(-2)` has two digits and reads back as n |
| Strings.ProperPrefixIsLess | src/components/make-booking/make-booking.tsx:460 | a proper prefix is smaller: "12" < "12:00" |

## Left out

- The rendering methods (`render`, `renderCalendar`, `renderHourMinute` and the rest), the DOM height writes in the toggles, and `reportValidity` in `submitBooking`: they are UI. `reportValidity` becomes a boolean parameter.
- The GraphQL queries and mutations. So does the `HttpLink`/`InMemoryCache` setup of `initApollo` and the `JSON.parse` of master data. These are network and library calls. Their results are parameters: the restaurant record, `mutationOk`, and the weekday and month tables.
- Promise, Observable and async sequencing. Every completion is taken as a value that is already there. The `getCalendarMD` fetch is a parameter, and so is the master-data fetch in `getDisabledDaysInMonth`.
- Time zones, daylight saving, `toISOString` formatting and the float `Math.round(ms / 8.64e7)`. Instants are whole local minutes.
- Seconds and milliseconds.
- The Date object aliasing:
  - `initCalendar` and the widgets mutate `Date` and moment objects that other structures also hold, such as the cached `DayHours.day` and the cached `services[0].range.start` that `bookingInfo.day` is;
  - each such date is a value in the model. The noon rewrite is modelled on the value the calendar stores; the `setTime` rewrite of the cached range start is finding G.
- Years before 1. The Gregorian model starts at 0001-01-01.
- Null service fields. src/__generated__.ts:72-81 types a service's `starts_at`, `ends_at` and `booking_config` as nullable. Both `Service` datatypes hold them as always present, so the TypeErrors a null one raises are not modelled: `validateRestData` reading `booking_config.online_allowed` (cheftonic-booking-component.tsx:227), the range code reading it (cheftonic-booking-component.tsx:298, make-booking.tsx:325), and the range code splitting a null `starts_at` or `ends_at` (cheftonic-booking-component.tsx:304-305, make-booking.tsx:331-332). A null `online_allowed` inside a present `booking_config` is falsy and is modelled as not allowed.
- Out-of-range hours and minutes in service times. The booking component's service times are read as already-parsed (hour, minute) pairs. Making the moment `hour()`/`minute()` setters overflow into later days is handled only through `ClockTime`'s lower bound.
- `findFirstBookingTime` has no iteration bound. The model's search takes a ghost horizon, a day known to have ranges. `Load` obtains it from the corrected validation of finding H (`OpenDayAhead`). The calendar's month change (`OnMonthChange`) still takes it as a premise, because the cache may hold answers computed at earlier clock readings.
- The `getFirstDayOfMonth` string parse of calendar.ts differs between JavaScript engines. It is modelled as the (year, month) order.
- The moment month difference `currDay.diff(day, 'months') == 0` is modelled by moment's anchor rule (`SameMonthByDiff`): the same calendar month, or the adjacent month on the near side of the anchor day. moment's fractional month arithmetic is modelled only through that test.
- Everything in omitDeep that a JSON datatype cannot express:
  - `undefined`, functions and class instances in cache objects and operation variables;
  - non-string property values in `dataIdFromObject`. Cache objects are string maps, so an absent property reads as "undefined".
- `parseInt` signs and leading whitespace. The model parses digit prefixes only.
- Calling `Object.keys` on a non-object at the top of `omitDeep`. The variables are always an object.
- Form text fields other than the phone (`handleNameChange` and its siblings): they only copy input text.
- The unused `weekdayIndex` arrays and the commented-out `isValidHour`/`isValidMinute`.
- Gregorian.ParseDayKey: reads only "Y/M/D" with three digit fields. moment's forgiving `'YYYY/MM/DD'` parse, which also accepts other separators and trailing text, is not modelled, so closing days written another way count as unparsable here.
- BookingComponent.BookingWidget.CalendarConfigFromDate: runs the closing-day filter of finding A as corrected (`DisabledDays`, the days from today on). As written, :249 keeps the past and drops the days two or more ahead (`DisabledDaysAsWritten`, `KeptAsWrittenMeaning`), so a closing day two or more days ahead is disabled here but selectable in the source.
- BookingComponent.BookingWidget.Accept: runs the closing-day filter of finding A as corrected (`DisabledDays`, the days from today on). As written, :249 keeps the past and drops the days two or more ahead (`DisabledDaysAsWritten`, `KeptAsWrittenMeaning`), so a closing day two or more days ahead is disabled here but selectable in the source.
- BookingComponent.BookingWidget.Load: runs the closing-day filter of finding A as corrected (`DisabledDays`, the days from today on). As written, :249 keeps the past and drops the days two or more ahead (`DisabledDaysAsWritten`, `KeptAsWrittenMeaning`), so a closing day two or more days ahead is disabled here but selectable in the source. It also validates with the corrected `ValidateRestDataStrict` of finding H. As written, data whose services never match a weekday name is accepted and `findFirstBookingTime` then loops forever (`NeverOpenAccepted`); here that data gives info_pending. `StrictValidationExact` shows the two validations differ on nothing else.
- BookingComponent.BookingWidget.OnMonthChange: runs the closing-day filter of finding A as corrected (`DisabledDays`, the days from today on). As written, :249 keeps the past and drops the days two or more ahead (`DisabledDaysAsWritten`, `KeptAsWrittenMeaning`), so a closing day two or more days ahead is disabled here but selectable in the source.
- BookingComponent.BookingWidget.SetTime: leaves the cache untouched, finding G as corrected. As written, `bookingInfo.day` is the cached first `range.start` of its day (:138, :217), so `setTime` moves that cached start too (`RewriteFirstStart`). From then on the day's time list loses the first range's earlier slots (`RewriteDropsEarlierSlots`, `SetTimeAsWrittenShrinksLunch`), and a pick past that range's end (a dinner time) reverses the range. A later `onSelectDay` or `findFirstBookingTime` of that day returns the moved start.
- CalendarComponent.Component.PreviousMonth: returns the emitted month as the value of `onMonthChange.emit`. As written, calendar.ts:54-55 leave `onMonthChange` and `onCalendarChange` unassigned (their `new EventEmitter` is commented out) and calendar.ts assigns them nowhere, so the `emit` at :206 throws a TypeError unless a host component sets the field.
- CalendarComponent.Component.NextMonth: returns the emitted month as the value of `onMonthChange.emit`. As written the field is never assigned (calendar.ts:55), so the `emit` at :215 throws a TypeError unless a host component sets it.
- CalendarComponent.Component.AssignDate: returns the emitted selection as the value of `onCalendarChange.emit`. As written the field is never assigned (calendar.ts:54), so the `emit` at :246 throws a TypeError after `selected_dates` has already been changed, unless a host component sets it.
- MakeBooking.DayAnswer: uses the corrected `todaysHour` of finding E. The hours as written agree on every day except today after 22:30 (`DayHoursAsWrittenAgree`); then the source offers today's services from hour 0 or 1 (`LateEveningAsWritten`).
- MakeBooking.EmptyDays: uses the corrected `todaysHour` of finding E. The hours as written agree on every day except today after 22:30 (`DayHoursAsWrittenAgree`); then the source offers today's services from hour 0 or 1 (`LateEveningAsWritten`).
- MakeBooking.MakeBookingWidget.GetOpeningHoursForDay: uses the corrected `todaysHour` of finding E. The hours as written agree on every day except today after 22:30 (`DayHoursAsWrittenAgree`); then the source offers today's services from hour 0 or 1 (`LateEveningAsWritten`).
- MakeBooking.MakeBookingWidget.DisabledAmong: uses the corrected `todaysHour` of finding E. The hours as written agree on every day except today after 22:30 (`DayHoursAsWrittenAgree`); then the source offers today's services from hour 0 or 1 (`LateEveningAsWritten`).
- MakeBooking.MakeBookingWidget.GetDisabledDaysInMonth: lists the dates up to the corrected stop of finding C. As written, up to the 28th, the list is the same without the month's last day (`MonthDatesAsWrittenDropLast`), so the source never disables the last day. It also uses the corrected `todaysHour` of finding E. The hours as written agree on every day except today after 22:30 (`DayHoursAsWrittenAgree`); then the source offers today's services from hour 0 or 1 (`LateEveningAsWritten`).
- MakeBooking.MakeBookingWidget.SetCalendarConfigFromDate: lists the dates up to the corrected stop of finding C. As written, up to the 28th, the list is the same without the month's last day (`MonthDatesAsWrittenDropLast`), so the source never disables the last day. It also uses the corrected `todaysHour` of finding E. The hours as written agree on every day except today after 22:30 (`DayHoursAsWrittenAgree`); then the source offers today's services from hour 0 or 1 (`LateEveningAsWritten`).
- MakeBooking.MakeBookingWidget.Load: lists the dates up to the corrected stop of finding C. As written, up to the 28th, the list is the same without the month's last day (`MonthDatesAsWrittenDropLast`), so the source never disables the last day. It also uses the corrected `todaysHour` of finding E. The hours as written agree on every day except today after 22:30 (`DayHoursAsWrittenAgree`); then the source offers today's services from hour 0 or 1 (`LateEveningAsWritten`).
- MakeBooking.MakeBookingWidget.SetHourMinuteConfigForDate: uses the corrected `todaysHour` of finding E. The hours as written agree on every day except today after 22:30 (`DayHoursAsWrittenAgree`); then the source offers today's services from hour 0 or 1 (`LateEveningAsWritten`).
- MakeBooking.MakeBookingWidget.OnMonthChange: lists the dates up to the corrected stop of finding C. As written, up to the 28th, the list is the same without the month's last day (`MonthDatesAsWrittenDropLast`), so the source never disables the last day. It also uses the corrected `todaysHour` of finding E. The hours as written agree on every day except today after 22:30 (`DayHoursAsWrittenAgree`); then the source offers today's services from hour 0 or 1 (`LateEveningAsWritten`).
- MakeBooking.MakeBookingWidget.OnCalendarChange: uses the corrected `todaysHour` of finding E. The hours as written agree on every day except today after 22:30 (`DayHoursAsWrittenAgree`); then the source offers today's services from hour 0 or 1 (`LateEveningAsWritten`).
- MakeBooking.MakeBookingWidget.SubmitBooking: resolves the service with the corrected lookup of finding B (`Resolve`). As written (`ResolveAsWritten`), booking a service's first hour finds no service and `.rs_id` throws, so the source sends no request (`FirstHourMissedAsWritten`).
- CalendarGrid.LayOutMonthOf: lays the grid out from the 1st of the selected month, finding D as corrected (`MonthFirst`). The start as written agrees up to the 28th of today's month (`GridFirstAsWrittenEarlyDays`); later it can land in the month after (`GridFirstAsWrittenOnJanuary31`).
- BookingCalendar.Calendar.SetConfig: lays the grid out from the 1st of the selected month, finding D as corrected (`MonthFirst`). The start as written agrees up to the 28th of today's month (`GridFirstAsWrittenEarlyDays`); later it can land in the month after (`GridFirstAsWrittenOnJanuary31`). It also does not restate the normalised effective config after the grid is rebuilt. `ShowMonthOf` and `InitCalendar` state it.
- BookingCalendar.Calendar.ShowMonthOf: lays the grid out from the 1st of the selected month, finding D as corrected (`MonthFirst`). The start as written agrees up to the 28th of today's month (`GridFirstAsWrittenEarlyDays`); later it can land in the month after (`GridFirstAsWrittenOnJanuary31`). It also states only the grid and the month shown, not the config it stores. `InitCalendar` and `ApplyConfig` state that.
- BookingCalendar.Calendar.InitCalendar: lays the grid out from the 1st of the selected month, finding D as corrected (`MonthFirst`). The start as written agrees up to the 28th of today's month (`GridFirstAsWrittenEarlyDays`); later it can land in the month after (`GridFirstAsWrittenOnJanuary31`).
- BookingCalendar.Calendar.GenerateDates: lays the grid out from the 1st of the selected month, finding D as corrected (`MonthFirst`). The start as written agrees up to the 28th of today's month (`GridFirstAsWrittenEarlyDays`); later it can land in the month after (`GridFirstAsWrittenOnJanuary31`).
- CalendarComponent.Component.NgOnInit: lays the grid out from the 1st of the selected month, finding D as corrected (`MonthFirst`). The start as written agrees up to the 28th of today's month (`GridFirstAsWrittenEarlyDays`); later it can land in the month after (`GridFirstAsWrittenOnJanuary31`).
- CalendarComponent.Component.NgOnChanges: lays the grid out from the 1st of the selected month, finding D as corrected (`MonthFirst`). The start as written agrees up to the 28th of today's month (`GridFirstAsWrittenEarlyDays`); later it can land in the month after (`GridFirstAsWrittenOnJanuary31`).
- CalendarComponent.Component.ShowMonthOf: lays the grid out from the 1st of the selected month, finding D as corrected (`MonthFirst`). The start as written agrees up to the 28th of today's month (`GridFirstAsWrittenEarlyDays`); later it can land in the month after (`GridFirstAsWrittenOnJanuary31`).
- CalendarComponent.Component.InitCalendar: lays the grid out from the 1st of the selected month, finding D as corrected (`MonthFirst`). The start as written agrees up to the 28th of today's month (`GridFirstAsWrittenEarlyDays`); later it can land in the month after (`GridFirstAsWrittenOnJanuary31`).
- CalendarComponent.Component.Render: lays the grid out from the 1st of the selected month, finding D as corrected (`MonthFirst`). The start as written agrees up to the 28th of today's month (`GridFirstAsWrittenEarlyDays`); later it can land in the month after (`GridFirstAsWrittenOnJanuary31`).
- CalendarComponent.Component.GenerateDates: lays the grid out from the 1st of the selected month, finding D as corrected (`MonthFirst`). The start as written agrees up to the 28th of today's month (`GridFirstAsWrittenEarlyDays`); later it can land in the month after (`GridFirstAsWrittenOnJanuary31`).
- HourMinuteComponent.HoursOf: fills the hour labels, when `hoursToShow` is missing, with the corrected `FillHours` of finding F ("00", "01", ...). As written, every label is "ed" (`FillHoursAsWrittenRepeats`). When `hoursToShow` is given, as make-booking always passes it, nothing differs.
- HourMinuteComponent.HourMinutePanel.InitHourMinute: fills the hour labels, when `hoursToShow` is missing, with the corrected `FillHours` of finding F ("00", "01", ...). As written, every label is "ed" (`FillHoursAsWrittenRepeats`). When `hoursToShow` is given, as make-booking always passes it, nothing differs.
- HourMinuteComponent.HourMinutePanel.OnChanges: fills the hour labels, when `hoursToShow` is missing, with the corrected `FillHours` of finding F ("00", "01", ...). As written, every label is "ed" (`FillHoursAsWrittenRepeats`). When `hoursToShow` is given, as make-booking always passes it, nothing differs.
- HourMinutePicker.HoursOf: fills the hour labels, when `hoursToShow` is missing, with the corrected `FillHours` of finding F ("00", "01", ...). As written, every label is "ed" (`FillHoursAsWrittenRepeats`). When `hoursToShow` is given, as make-booking always passes it, nothing differs.
- HourMinutePicker.TimePicker.InitHourMinute: fills the hour labels, when `hoursToShow` is missing, with the corrected `FillHours` of finding F ("00", "01", ...). As written, every label is "ed" (`FillHoursAsWrittenRepeats`). When `hoursToShow` is given, as make-booking always passes it, nothing differs.
- HourMinutePicker.TimePicker.SetConfig: fills the hour labels, when `hoursToShow` is missing, with the corrected `FillHours` of finding F ("00", "01", ...). As written, every label is "ed" (`FillHoursAsWrittenRepeats`). When `hoursToShow` is given, as make-booking always passes it, nothing differs.

## Findings

Each row has both halves in the model. The widget, calendar and picker classes run the corrected half. The "## Left out" line that starts with each affected member's name says where the code as written behaves differently.

| source | as written | input that shows it | evidently intended | confidence | as-written member | corrected member |
|---|---|---|---|---|---|---|
| src/components/cheftonic-booking-component/cheftonic-booking-component.tsx:249 | `today.diff(day, 'days') >= 0` keeps closing days up to today and drops the future ones | a closing day two or more days ahead is not disabled | keep the days ahead of today, as the comment at :248 says | high; not executed | BookingComponent.DisabledDaysAsWritten (FutureClosingDayNotDisabled) | BookingComponent.DisabledDays (DisabledDaysComplete) |
| src/components/make-booking/make-booking.tsx:460 | compares the hour string "12" with the full "12:00" as strings | booking 12:00 at a 12:00-16:00 service finds no service, so `.rs_id` throws | the first service whose hours contain the booked hour | high; not executed | MakeBooking.ResolveAsWritten (FirstHourMissedAsWritten) | MakeBooking.Resolve (OfferedHourResolves) |
| src/components/make-booking/make-booking.tsx:259-261 | stops the date list at 00:00 of the last day, while listed dates are at 12:00 | a month's last day is never checked for being disabled | list every remaining day of the month | high; not executed | MakeBooking.MonthStopAsWritten (MonthAsWrittenMissesLastDay) | MakeBooking.MonthStop (MonthDatesCover) |
| src/components/cheftonic-booking-component/calendar.tsx:122-129 | `setMonth` on today's date keeps today's day of the month (same at src/components/calendar/calendar.ts:171-178) | on 31 January the February grid shows March | start the grid at the 1st of the selected month | high; not executed | CalendarGrid.GridFirstAsWritten (GridFirstAsWrittenOnJanuary31) | CalendarGrid.MonthFirst (MonthFirstDays) |
| src/components/make-booking/make-booking.tsx:338-341 | `getHours()` of now + 1h30 wraps past midnight | at 23:00 the hour is 0, so the whole day's services are offered | the hour now + 1h30 falls in, without wrapping | high; not executed | MakeBooking.TodaysHourAsWritten (LateEveningAsWritten) | MakeBooking.TodaysHour (TodayHoursAhead) |
| src/components/hour-minute/hour-minute.ts:110-112 | `({index})` destructures `index` from the string '' and reads `undefined` (same at src/components/make-booking/hour-minute.tsx:98-100) | every hour label is "ed" | the two-digit hour labels 00, 01, ... | high; not executed | TimeLists.FillHoursAsWritten (FillHoursAsWrittenRepeats) | TimeLists.FillHours (FillHoursCounts) |
| src/components/cheftonic-booking-component/cheftonic-booking-component.tsx:473-478 | `setTime` moves `bookingInfo.day`, which is the cached first `range.start` of the day (:138, :217), so the cache changes | on a 12:00-16:00 lunch, picking 14:00 leaves 14:00-15:30 as the only lunch times shown from then on | picking a time changes the booking only, not the day's offered times | medium; not executed | BookingComponent.RewriteFirstStart (SetTimeAsWrittenShrinksLunch) | BookingComponent.BookingWidget.SetTime (its cache clause) |
| src/components/cheftonic-booking-component/cheftonic-booking-component.tsx:202-229 | `validateRestData` accepts services whose weekday names never match `day.format('dddd').toLowerCase()`, and the do-while of `findFirstBookingTime` has no bound | a single service listing "Monday": no day ever has ranges and the search never ends | accept only data on which some day has ranges, so the search ends | medium; not executed | BookingComponent.ValidateRestData (NeverOpenAccepted) | BookingComponent.ValidateRestDataStrict (OpenDayAhead, StrictValidationExact) |
