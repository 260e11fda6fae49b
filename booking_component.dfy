/** The booking widget `cheftonic-booking-component`
    (src/components/cheftonic-booking-component/cheftonic-booking-component.tsx):
    the per-day availability engine with its memo table, the first-bookable-time search,
    the half-hour slot list, the disabled days shown in the calendar, the checks on the
    loaded restaurant data and the widget's panel and booking-state fields. */
module BookingComponent {
  import opened Wrappers
  import opened Strings
  import opened Gregorian
  import BookingCalendar
  import CalendarGrid

  /** `bookingInterval`: times are offered every half hour. */
  const BookingInterval: nat := 30

  /** A wall-clock time of day, the parsed "HH:MM" of a service's `starts_at` or `ends_at`. */
  datatype Clock = Clock(hour: nat, minute: nat)

  /** A restaurant service. `onlineAllowed` is the truthiness of `booking_config.online_allowed`;
      `inAdvance` is `booking_config.in_advance` in minutes, null counting as 0. */
  datatype Service = Service(
    rsId: string,
    onlineAllowed: bool,
    openWeekdays: Option<seq<string>>,
    startsAt: Clock,
    endsAt: Clock,
    inAdvance: nat)

  /** The restaurant's `opening`: its weekdays and its closing days as "Y/M/D" strings. */
  datatype Opening = Opening(openWeekdays: Option<seq<string>>, closingDays: Option<seq<string>>)

  /** `ServiceRange`: a service id and the booking range [start, end] on one day. */
  datatype ServiceRange = ServiceRange(id: string, start: Instant, end: Instant)

  /** The restaurant record returned by the restaurant query. */
  datatype RestData = RestData(opening: Option<Opening>, services: Option<seq<Service>>)

  datatype BookingState = NotSubmitted | Submitting | SubmittedOk | SubmittedKo | InvalidDay | InvalidId

  datatype RestaurantState = StatusOk | InfoPending | NotLoaded

  // ---------------------------------------------------------------------------------------------
  // The API key

  predicate IsHex(c: char) { '0' <= c <= '9' || 'a' <= c <= 'f' || 'A' <= c <= 'F' }

  predicate AllHex(s: string) { forall i :: 0 <= i < |s| ==> IsHex(s[i]) }

  /** The characters a regular-expression `.` does not match. */
  predicate IsLineTerminator(c: char) { c == '\n' || c == '\r' || c == '\U{2028}' || c == '\U{2029}' }

  /** `isValidKey`: the key matches `^[a-fA-F0-9]{8}-[a-fA-F0-9]{4}-[a-fA-F0-9]{4}-[a-fA-F0-9]{4}-[a-fA-F0-9]{12}.[0-9]{1,3}$`
      read position by position; the `.` is unescaped, so any one character separates the
      id from the 1 to 3 trailing digits. */
  predicate IsValidKey(key: string)
  {
    38 <= |key| <= 40
    && AllHex(key[0..8]) && key[8] == '-' && AllHex(key[9..13]) && key[13] == '-'
    && AllHex(key[14..18]) && key[18] == '-' && AllHex(key[19..23]) && key[23] == '-'
    && AllHex(key[24..36]) && !IsLineTerminator(key[36]) && AllDigits(key[37..])
  }

  /** A key assembled from its parts: five groups joined by '-', a separator, a suffix. */
  function BuildKey(g: seq<string>, sep: char, suffix: string): (key: string)
    requires |g| == 5
  {
    g[0] + "-" + g[1] + "-" + g[2] + "-" + g[3] + "-" + g[4] + [sep] + suffix
  }

  predicate WellFormedParts(g: seq<string>, sep: char, suffix: string)
  {
    |g| == 5 && |g[0]| == 8 && |g[1]| == 4 && |g[2]| == 4 && |g[3]| == 4 && |g[4]| == 12
    && (forall i :: 0 <= i < 5 ==> AllHex(g[i]))
    && !IsLineTerminator(sep) && 1 <= |suffix| <= 3 && AllDigits(suffix)
  }

  /** Every accepted key is built from well-formed parts: its own five groups, its
      separator and its suffix. */
  lemma ValidKeyDecomposes(key: string)
    requires IsValidKey(key)
    ensures WellFormedParts([key[0..8], key[9..13], key[14..18], key[19..23], key[24..36]], key[36], key[37..])
    ensures key == BuildKey([key[0..8], key[9..13], key[14..18], key[19..23], key[24..36]], key[36], key[37..])
  {
  }

  /** Every key built from well-formed parts is accepted. */
  lemma BuiltKeyIsValid(g: seq<string>, sep: char, suffix: string)
    requires WellFormedParts(g, sep, suffix)
    ensures IsValidKey(BuildKey(g, sep, suffix))
  {
    var k := BuildKey(g, sep, suffix);
    assert k[0..8] == g[0] && k[9..13] == g[1] && k[14..18] == g[2] && k[19..23] == g[3];
    assert k[24..36] == g[4] && k[36] == sep && k[37..] == suffix;
  }

  /** The documented key shape, "b6a26c75-f280-4964-9659-534a51178e4f.0", is accepted. */
  lemma ExampleKey()
    ensures IsValidKey(BuildKey(["b6a26c75", "f280", "4964", "9659", "534a51178e4f"], '.', "0"))
  {
    var g := ["b6a26c75", "f280", "4964", "9659", "534a51178e4f"];
    assert AllHex(g[0]) && AllHex(g[1]) && AllHex(g[2]) && AllHex(g[3]) && AllHex(g[4]);
    BuiltKeyIsValid(g, '.', "0");
  }

  /** The `.` of the pattern is unescaped: any other separator that is not a line terminator
      is accepted in its place. */
  lemma AnySeparator(key: string, sep: char)
    requires IsValidKey(key) && !IsLineTerminator(sep)
    ensures IsValidKey(key[..36] + [sep] + key[37..])
  {
    var k := key[..36] + [sep] + key[37..];
    assert k[0..36] == key[0..36];
    assert k[0..8] == key[0..8] && k[9..13] == key[9..13] && k[14..18] == key[14..18];
    assert k[19..23] == key[19..23] && k[24..36] == key[24..36] && k[37..] == key[37..];
  }

  // ---------------------------------------------------------------------------------------------
  // Restaurant data

  /** `validateRestData`: the restaurant has at least one opening weekday and some service is
      open on some weekday and bookable online. A missing weekday list makes `.length` throw
      (Err): the restaurant's list is read first, and only when it is non-empty are the
      services' lists read, every one of them. */
  function ValidateRestData(opening: Opening, services: seq<Service>): (r: Result<bool, string>)
  {
    if opening.openWeekdays.None? then Err("opening.open_weekdays is null")
    else if |opening.openWeekdays.value| == 0 then Ok(false)
    else if exists i :: 0 <= i < |services| && services[i].openWeekdays.None? then Err("service.open_weekdays is null")
    else Ok(exists i :: 0 <= i < |services| && Bookable(services[i]))
  }

  predicate Bookable(s: Service)
  {
    s.openWeekdays.Some? && |s.openWeekdays.value| > 0 && s.onlineAllowed
  }

  /** Accepted data always has a service the engine can use. */
  lemma ValidatedHasServices(opening: Opening, services: seq<Service>)
    ensures ValidateRestData(opening, services) == Ok(true) <==>
      opening.openWeekdays.Some? && |opening.openWeekdays.value| > 0
      && (forall i :: 0 <= i < |services| ==> services[i].openWeekdays.Some?)
      && (exists i :: 0 <= i < |services| && Bookable(services[i]))
    ensures ValidateRestData(opening, services) == Ok(true) ==> |services| > 0
  {
  }

  // ---------------------------------------------------------------------------------------------
  // The per-day engine

  /** `moment(day).hour(h).minute(m).startOf('minute')`: the clock time on the day of `day`;
      hours past 23 and minutes past 59 carry over into the next day or hour. */
  function ClockTime(day: Instant, c: Clock): (t: Instant)
    ensures t >= StartOfDay(DayOf(day))
    ensures c.hour < 24 && c.minute < 60 ==> DayOf(t) == DayOf(day) && t % MinutesPerDay == c.hour * 60 + c.minute
  {
    StartOfDay(DayOf(day)) + c.hour * MinutesPerHour + c.minute
  }

  /** The soonest bookable instant today: now plus the advance notice, moved to the next half
      hour (a time already on the half hour moves a full half hour on). */
  function Soonest(now: Instant, inAdvance: nat): (r: Instant)
    ensures r % BookingInterval == 0
    ensures now + inAdvance < r <= now + inAdvance + BookingInterval
  {
    var t := now + inAdvance;
    t + (BookingInterval - (t % MinutesPerHour) % BookingInterval)
  }

  /** A service is offered on a day when it is bookable online and, if it lists weekdays,
      lists that day's lower-case English name. */
  predicate OpenOnDay(s: Service, day: Instant)
  {
    s.onlineAllowed && (s.openWeekdays.None? || WeekdayName(DayOf(day)) in s.openWeekdays.value)
  }

  /** The ranges one service contributes for `day`, as the `map` callback of
      `_getOpeningHoursForDay` computes them. */
  function ServiceRanges(s: Service, day: Instant, now: Instant): (r: seq<ServiceRange>)
    ensures |r| <= 1
    ensures |r| == 1 ==> OpenOnDay(s, day) && r[0].id == s.rsId && r[0].end == ClockTime(day, s.endsAt)
  {
    if !OpenOnDay(s, day) then []
    else
      var start := ClockTime(day, s.startsAt);
      var end := ClockTime(day, s.endsAt);
      if DayOf(now) == DayOf(day) then
        var soonest := Soonest(now, s.inAdvance);
        if soonest < start then [ServiceRange(s.rsId, start, end)]
        else if soonest > end then []
        else [ServiceRange(s.rsId, soonest, end)]
      else [ServiceRange(s.rsId, start, end)]
  }

  /** The `reduce` of the per-service lists by concatenation, in service order. */
  function AllServiceRanges(services: seq<Service>, day: Instant, now: Instant): (r: seq<ServiceRange>)
    ensures |r| <= |services|
  {
    if |services| == 0 then []
    else ServiceRanges(services[0], day, now) + AllServiceRanges(services[1..], day, now)
  }

  /** `closing_days.includes(key)`, where a missing list excludes nothing. */
  predicate IsClosingDay(opening: Opening, day: Instant)
  {
    opening.closingDays.Some? && InstantKey(day) in opening.closingDays.value
  }

  /** The uncached answer of `_getOpeningHoursForDay` for `day` when the clock reads `now`. */
  function DayServices(opening: Opening, services: seq<Service>, day: Instant, now: Instant): seq<ServiceRange>
  {
    if IsClosingDay(opening, day) then [] else AllServiceRanges(services, day, now)
  }

  /** On a closing day no service is offered. */
  lemma ClosingDayIsEmpty(opening: Opening, services: seq<Service>, day: Instant, now: Instant)
    requires IsClosingDay(opening, day)
    ensures DayServices(opening, services, day, now) == []
  {
  }

  /** Concatenation distributes over a split of the service list: ranges follow service order. */
  lemma {:induction false} AllServiceRangesAppend(a: seq<Service>, b: seq<Service>, day: Instant, now: Instant)
    ensures AllServiceRanges(a + b, day, now) == AllServiceRanges(a, day, now) + AllServiceRanges(b, day, now)
    decreases |a|
  {
    if |a| > 0 {
      assert (a + b)[1..] == a[1..] + b;
      AllServiceRangesAppend(a[1..], b, day, now);
    } else {
      assert a + b == b;
    }
  }

  /** Every range in a day's answer comes from a service offered that day, with its id. */
  lemma {:induction false} RangesComeFromOpenServices(services: seq<Service>, day: Instant, now: Instant, k: nat)
    requires k < |AllServiceRanges(services, day, now)|
    ensures exists i :: (0 <= i < |services| && OpenOnDay(services[i], day)
      && AllServiceRanges(services, day, now)[k].id == services[i].rsId)
    decreases |services|
  {
    var head := ServiceRanges(services[0], day, now);
    if k >= |head| {
      RangesComeFromOpenServices(services[1..], day, now, k - |head|);
      var i :| 0 <= i < |services[1..]| && OpenOnDay(services[1..][i], day)
        && AllServiceRanges(services[1..], day, now)[k - |head|].id == services[1..][i].rsId;
      assert services[1..][i] == services[i + 1];
    }
  }

  /** The services offered on `day`, in order: an independent description of what the
      engine keeps. */
  function OpenServices(services: seq<Service>, day: Instant): (r: seq<Service>)
    ensures |r| <= |services|
    ensures forall s :: s in r <==> s in services && OpenOnDay(s, day)
  {
    if |services| == 0 then []
    else (if OpenOnDay(services[0], day) then [services[0]] else []) + OpenServices(services[1..], day)
  }

  /** On a day other than today, each offered service yields exactly one range, its full
      [starts_at, ends_at] tagged with its id, in service order; other services yield none. */
  lemma {:induction false} OtherDayRanges(services: seq<Service>, day: Instant, now: Instant)
    requires DayOf(now) != DayOf(day)
    ensures var open := OpenServices(services, day);
      AllServiceRanges(services, day, now)
      == seq(|open|, i requires 0 <= i < |open| =>
               ServiceRange(open[i].rsId, ClockTime(day, open[i].startsAt), ClockTime(day, open[i].endsAt)))
    decreases |services|
  {
    if |services| > 0 {
      OtherDayRanges(services[1..], day, now);
    }
  }

  /** On today's date the soonest instant clips each offered service: before the start the
      whole range is offered, after the end nothing, otherwise [soonest, end]. The offered
      start is never before the soonest instant nor before the service start. */
  lemma TodayRange(s: Service, day: Instant, now: Instant)
    requires DayOf(now) == DayOf(day) && OpenOnDay(s, day)
    ensures var soonest, start, end := Soonest(now, s.inAdvance), ClockTime(day, s.startsAt), ClockTime(day, s.endsAt);
      var r := ServiceRanges(s, day, now);
      (r == [] <==> start <= soonest && soonest > end)
      && (r != [] ==> r == [ServiceRange(s.rsId, if soonest < start then start else soonest, end)])
      && (r != [] ==> soonest <= r[0].start && start <= r[0].start)
  {
  }

  // ---------------------------------------------------------------------------------------------
  // Half-hour slots

  function Distance(a: int, b: int): nat { if a <= b then b - a else a - b }

  /** `range.by('minutes', {excludeEnd: true, step: 30})` of moment-range: start plus every whole
      multiple of 30 minutes below the absolute length of the range. */
  function Slots(r: ServiceRange): (s: seq<Instant>)
  {
    seq((Distance(r.start, r.end) + BookingInterval - 1) / BookingInterval, i => r.start + BookingInterval * i)
  }

  /** For a range that does not run backwards, the slots are exactly the half-hour steps from
      its start that lie strictly before its end. */
  lemma SlotsAreHalfHours(r: ServiceRange, t: Instant)
    requires r.start <= r.end
    ensures t in Slots(r) <==> r.start <= t < r.end && (t - r.start) % BookingInterval == 0
  {
    var s := Slots(r);
    if r.start <= t < r.end && (t - r.start) % BookingInterval == 0 {
      var i := (t - r.start) / BookingInterval;
      assert s[i] == t;
    }
  }

  /** The slots of a range increase by half an hour each. */
  lemma SlotsIncrease(r: ServiceRange)
    ensures forall i :: 0 < i < |Slots(r)| ==> Slots(r)[i] == Slots(r)[i - 1] + BookingInterval
    ensures |Slots(r)| > 0 <==> r.start != r.end
  {
  }

  /** `_getHoursToDisplayForDay`: the slots of every range of the day, in order. The `reduce`
      has no seed, so a day without ranges throws (None). */
  function DisplaySlots(ranges: seq<ServiceRange>): (r: Option<seq<Instant>>)
    ensures r.None? <==> ranges == []
    ensures r.Some? ==> r.value == Slots(ranges[0]) + (if |ranges| == 1 then [] else DisplaySlots(ranges[1..]).value)
  {
    if |ranges| == 0 then None
    else if |ranges| == 1 then Some(Slots(ranges[0]))
    else Some(Slots(ranges[0]) + DisplaySlots(ranges[1..]).value)
  }

  /** t is one of the half-hour steps of r before its end. */
  predicate OnHalfHour(r: ServiceRange, t: Instant)
  {
    r.start <= t < r.end && (t - r.start) % BookingInterval == 0
  }

  /** On forward ranges, an instant is displayed exactly when it is a half-hour step inside one
      of the day's ranges. */
  lemma {:induction false} DisplaySlotsMembers(ranges: seq<ServiceRange>, t: Instant)
    requires ranges != []
    requires forall k :: 0 <= k < |ranges| ==> ranges[k].start <= ranges[k].end
    ensures t in DisplaySlots(ranges).value <==> exists k :: 0 <= k < |ranges| && OnHalfHour(ranges[k], t)
    decreases |ranges|
  {
    SlotsAreHalfHours(ranges[0], t);
    if |ranges| > 1 {
      var rest := ranges[1..];
      DisplaySlotsMembers(rest, t);
      assert DisplaySlots(ranges).value == Slots(ranges[0]) + DisplaySlots(rest).value;
      if exists k :: 0 <= k < |rest| && OnHalfHour(rest[k], t) {
        var k :| 0 <= k < |rest| && OnHalfHour(rest[k], t);
        assert ranges[k + 1] == rest[k];
      }
      if exists k :: 0 <= k < |ranges| && OnHalfHour(ranges[k], t) {
        var k :| 0 <= k < |ranges| && OnHalfHour(ranges[k], t);
        if k > 0 {
          assert rest[k - 1] == ranges[k];
        }
      }
    }
  }

  // ---------------------------------------------------------------------------------------------
  // The service of a booking

  /** `services.find(service => day.within(service.range)).id`: the id of the first range that
      contains the instant, both ends included; None when `find` gives `undefined` and `.id`
      throws. */
  function ResolveService(ranges: seq<ServiceRange>, t: Instant): (r: Option<string>)
  {
    if |ranges| == 0 then None
    else if ranges[0].start <= t <= ranges[0].end then Some(ranges[0].id)
    else ResolveService(ranges[1..], t)
  }

  /** The resolved id belongs to the first range containing the instant; None means that no
      range contains it. */
  lemma {:induction false} ResolveServiceFirst(ranges: seq<ServiceRange>, t: Instant)
    ensures ResolveService(ranges, t).None? <==> forall k :: 0 <= k < |ranges| ==> !(ranges[k].start <= t <= ranges[k].end)
    ensures ResolveService(ranges, t).Some? ==>
      exists k :: 0 <= k < |ranges| && ranges[k].start <= t <= ranges[k].end
        && ResolveService(ranges, t).value == ranges[k].id
        && forall j :: 0 <= j < k ==> !(ranges[j].start <= t <= ranges[j].end)
    decreases |ranges|
  {
    if |ranges| > 0 && !(ranges[0].start <= t <= ranges[0].end) {
      ResolveServiceFirst(ranges[1..], t);
      if ResolveService(ranges, t).Some? {
        var k :| 0 <= k < |ranges[1..]| && ranges[1..][k].start <= t <= ranges[1..][k].end
          && ResolveService(ranges[1..], t).value == ranges[1..][k].id
          && forall j :: 0 <= j < k ==> !(ranges[1..][j].start <= t <= ranges[1..][j].end);
        assert ranges[k + 1] == ranges[1..][k];
        forall j | 0 <= j < k + 1 ensures !(ranges[j].start <= t <= ranges[j].end) {
          if j > 0 { assert ranges[j] == ranges[1..][j - 1]; }
        }
      } else {
        forall k | 0 <= k < |ranges| ensures !(ranges[k].start <= t <= ranges[k].end) {
          if k > 0 { assert ranges[k] == ranges[1..][k - 1]; }
        }
      }
    }
  }

  // ---------------------------------------------------------------------------------------------
  // The closing days shown as disabled in the calendar

  /** `moment(dateStr, 'YYYY/MM/DD').toDate()`: midnight of the day, None for an invalid date. */
  function ParseDayInstant(s: string): (r: Option<Instant>)
    ensures r.Some? ==> r.value % MinutesPerDay == 0
  {
    match ParseDayKey(s)
    case Some(d) => Some(StartOfDay(DayNumber(d)))
    case None => None
  }

  lemma ParseDayInstantOfKey(n: nat)
    ensures ParseDayInstant(DayKeyOf(n)) == Some(StartOfDay(n))
  {
    FromDayNumberCounts(n);
    DayKeyRoundTrip(FromDayNumber(n));
  }

  /** moment's `a.diff(b, 'days')`: the whole days from b to a, truncated toward zero. */
  function DiffDays(a: Instant, b: Instant): int
  {
    if a >= b then (a - b) / MinutesPerDay else -((b - a) / MinutesPerDay)
  }

  /** moment's `a.diff(b, 'months') == 0`. moment measures a fractional month count from a to b
      against an anchor (a moved by the whole month difference w, its day clamped to the month's
      length) and truncates it, so the difference is 0 in the same month and also in the
      adjacent month on the near side of the anchor. */
  predicate SameMonthByDiff(a: Instant, b: Instant)
  {
    var da, db := DateOf(a), DateOf(b);
    var w := (db.year * 12 + db.month) - (da.year * 12 + da.month);
    var anchorDay := if da.day <= DaysInMonth(db.year, db.month) then da.day else DaysInMonth(db.year, db.month);
    var anchor := StartOfDay(DayNumber(Date(db.year, db.month, anchorDay))) + a % MinutesPerDay;
    w == 0 || (w == 1 && b < anchor) || (w == -1 && b > anchor)
  }

  /** Days of the same calendar month have month difference 0. */
  lemma SameMonthHasZeroDiff(a: Instant, b: Instant)
    requires DateOf(a).year == DateOf(b).year && DateOf(a).month == DateOf(b).month
    ensures SameMonthByDiff(a, b)
  {
  }

  /** The closing-day filter as written at :249: `today.diff(day, 'days') >= 0`. */
  predicate KeptAsWritten(now: Instant, day: Instant)
  {
    DiffDays(now, day) >= 0
  }

  /** The closing-day filter as its comment describes it: days on or after today. */
  predicate KeptAhead(now: Instant, day: Instant)
  {
    DayOf(day) >= DayOf(now)
  }

  /** The written filter keeps a midnight exactly when it is less than a day after now: every
      past closing day, today's and tomorrow's (unless now is exactly midnight), and no later
      one. The intended filter keeps the opposite side. */
  lemma KeptAsWrittenMeaning(now: Instant, n: nat)
    ensures KeptAsWritten(now, StartOfDay(n)) <==> StartOfDay(n) < now + MinutesPerDay
    ensures n < DayOf(now) ==> KeptAsWritten(now, StartOfDay(n)) && !KeptAhead(now, StartOfDay(n))
    ensures n >= DayOf(now) + 2 ==> !KeptAsWritten(now, StartOfDay(n)) && KeptAhead(now, StartOfDay(n))
  {
  }

  function FilterDays(days: seq<Option<Instant>>, now: Instant, currDay: Instant, ahead: bool): (r: seq<Instant>)
    ensures forall t :: t in r ==> (Some(t) in days && SameMonthByDiff(currDay, t)
      && (if ahead then KeptAhead(now, t) else KeptAsWritten(now, t)))
  {
    if |days| == 0 then []
    else
      var rest := FilterDays(days[1..], now, currDay, ahead);
      match days[0]
      case None => rest
      case Some(t) =>
        if SameMonthByDiff(currDay, t) && (if ahead then KeptAhead(now, t) else KeptAsWritten(now, t))
        then [t] + rest else rest
  }

  function ParseAll(days: seq<string>): (r: seq<Option<Instant>>)
    ensures |r| == |days| && forall i :: 0 <= i < |days| ==> r[i] == ParseDayInstant(days[i])
  {
    if |days| == 0 then [] else [ParseDayInstant(days[0])] + ParseAll(days[1..])
  }

  /** `getDisabledDaysInMonth` as written: the parsed closing days (invalid dates drop out,
      their differences being NaN) that pass the :249 filter. A missing list makes `.map`
      throw (None). */
  function DisabledDaysAsWritten(opening: Opening, now: Instant, currDay: Instant): (r: Option<seq<Instant>>)
    ensures r.None? <==> opening.closingDays.None?
  {
    match opening.closingDays
    case None => None
    case Some(days) => if |days| == 0 then Some([]) else Some(FilterDays(ParseAll(days), now, currDay, false))
  }

  /** `getDisabledDaysInMonth` with the filter its comment describes: the closing days from
      today on, within the displayed month. */
  function DisabledDays(opening: Opening, now: Instant, currDay: Instant): (r: Option<seq<Instant>>)
    ensures r.None? <==> opening.closingDays.None?
    ensures r.Some? ==> forall t :: t in r.value ==>
      DayOf(t) >= DayOf(now) && SameMonthByDiff(currDay, t)
      && exists i :: 0 <= i < |opening.closingDays.value| && ParseDayInstant(opening.closingDays.value[i]) == Some(t)
  {
    match opening.closingDays
    case None => None
    case Some(days) => if |days| == 0 then Some([]) else Some(FilterDays(ParseAll(days), now, currDay, true))
  }

  /** Every closing day from today on in the displayed month is disabled. */
  lemma DisabledDaysComplete(days: seq<string>, now: Instant, currDay: Instant, i: nat)
    requires i < |days|
    requires ParseDayInstant(days[i]).Some?
    requires var t := ParseDayInstant(days[i]).value; DayOf(t) >= DayOf(now) && SameMonthByDiff(currDay, t)
    ensures ParseDayInstant(days[i]).value in FilterDays(ParseAll(days), now, currDay, true)
  {
    FilterDaysComplete(ParseAll(days), now, currDay, i);
  }

  /** The filter keeps every parsed day that passes it. */
  lemma {:induction false} FilterDaysComplete(ds: seq<Option<Instant>>, now: Instant, currDay: Instant, i: nat)
    requires i < |ds| && ds[i].Some?
    requires KeptAhead(now, ds[i].value) && SameMonthByDiff(currDay, ds[i].value)
    ensures ds[i].value in FilterDays(ds, now, currDay, true)
    decreases |ds|
  {
    if i > 0 {
      FilterDaysComplete(ds[1..], now, currDay, i - 1);
    }
  }

  /** A closing day two or more days ahead is not disabled by the code as written, while the
      intended filter disables it. */
  lemma FutureClosingDayNotDisabled(now: Instant, n: nat)
    requires n >= DayOf(now) + 2
    ensures DisabledDaysAsWritten(Opening(None, Some([DayKeyOf(n)])), now, StartOfDay(n)) == Some([])
    ensures DisabledDays(Opening(None, Some([DayKeyOf(n)])), now, StartOfDay(n)) == Some([StartOfDay(n)])
  {
    var t := StartOfDay(n);
    ParseDayInstantOfKey(n);
    ParseAllSingle(DayKeyOf(n));
    SameMonthHasZeroDiff(t, t);
    KeptAsWrittenMeaning(now, n);
    FilterSingle(t, now, t, false);
    FilterSingle(t, now, t, true);
  }

  /** Parsing a one-element list of closing days. */
  lemma ParseAllSingle(s: string)
    ensures ParseAll([s]) == [ParseDayInstant(s)]
  {
  }

  /** Filtering one parsed day keeps it exactly when it passes the filter. */
  lemma FilterSingle(t: Instant, now: Instant, currDay: Instant, ahead: bool)
    ensures FilterDays([Some(t)], now, currDay, ahead)
      == if SameMonthByDiff(currDay, t) && (if ahead then KeptAhead(now, t) else KeptAsWritten(now, t)) then [t] else []
  {
    assert [Some(t)][1..] == [];
  }

  /** The answer the widget gives for instant t with a given memo table: the stored one for
      t's key, or a fresh one. */
  ghost function Answer(cache: map<string, seq<ServiceRange>>, opening: Opening, services: seq<Service>,
                        t: Instant, now: Instant): seq<ServiceRange>
  {
    if InstantKey(t) in cache then cache[InstantKey(t)] else DayServices(opening, services, t, now)
  }

  /** One call of the engine changes no answer other than that of `c`, which it stores. */
  lemma AnswerKept(before: map<string, seq<ServiceRange>>, after: map<string, seq<ServiceRange>>, c: Instant,
                   t: Instant, opening: Opening, services: seq<Service>, now: Instant)
    requires (InstantKey(c) in before && after == before)
      || (InstantKey(c) !in before && after == before[InstantKey(c) := DayServices(opening, services, c, now)])
    requires InstantKey(t) != InstantKey(c) || t == c
    ensures Answer(after, opening, services, t, now) == Answer(before, opening, services, t, now)
  {
  }

  /** A cache that keeps every old entry keeps the empty answers of the days `first` to `day`. */
  lemma EmptyDaysKept(before: map<string, seq<ServiceRange>>, after: map<string, seq<ServiceRange>>, day: nat, first: nat)
    requires forall n :: first <= n < day ==> DayKeyOf(n) in before && before[DayKeyOf(n)] == []
    requires DayKeyOf(day) in before && before[DayKeyOf(day)] == []
    requires forall k :: k in before ==> k in after && after[k] == before[k]
    ensures forall n :: first <= n < day + 1 ==> DayKeyOf(n) in after && after[DayKeyOf(n)] == []
  {
  }

  /** The entry for k was computed for an instant of the day with key k, by the engine at the
      clock reading stored with it. */
  ghost predicate Entry(cache: map<string, seq<ServiceRange>>, computed: map<string, (Instant, Instant)>,
                        opening: Opening, services: seq<Service>, k: string)
  {
    k in computed && k in cache && InstantKey(computed[k].0) == k
    && cache[k] == DayServices(opening, services, computed[k].0, computed[k].1)
  }

  /** Every cached answer is the engine's uncached answer for a day with that key. */
  ghost predicate ValidCache(cache: map<string, seq<ServiceRange>>, computed: map<string, (Instant, Instant)>,
                             opening: Opening, services: seq<Service>)
  {
    |services| > 0
    && computed.Keys == cache.Keys
    && forall k {:trigger Entry(cache, computed, opening, services, k)} :: k in computed ==>
         Entry(cache, computed, opening, services, k)
  }

  // ---------------------------------------------------------------------------------------------
  // The picked time and the cached range start

  /** What `setTime` does, as written, to the cached answer the booking day was taken from:
      `bookingInfo.day` is that answer's first `range.start` object, so `.hour().minute()`
      moves the first range to start at the picked time; the rest of the answer is untouched. */
  function RewriteFirstStart(ranges: seq<ServiceRange>, c: Clock): (r: seq<ServiceRange>)
    ensures |r| == |ranges|
    ensures forall k :: 0 < k < |ranges| ==> r[k] == ranges[k]
    ensures |ranges| > 0 ==> r[0].id == ranges[0].id && r[0].end == ranges[0].end
    ensures |ranges| > 0 && c.hour < 24 && c.minute < 60 ==> DayOf(r[0].start) == DayOf(ranges[0].start)
  {
    if ranges == [] then []
    else [ranges[0].(start := ClockTime(ranges[0].start, c))] + ranges[1..]
  }

  /** Picking one of the first range's own slots, as written, drops every earlier slot of that
      range from the list and keeps the later ones. */
  lemma RewriteDropsEarlierSlots(r: ServiceRange, c: Clock, t: Instant)
    requires OnHalfHour(r, ClockTime(r.start, c))
    ensures var picked := ClockTime(r.start, c);
      OnHalfHour(r.(start := picked), t) <==> OnHalfHour(r, t) && picked <= t
  {
    var picked := ClockTime(r.start, c);
    var q := (picked - r.start) / BookingInterval;
    assert picked == r.start + BookingInterval * q;
    if picked <= t {
      assert (t - r.start) == (t - picked) + BookingInterval * q;
    }
  }

  /** On a day with lunch 12:00-16:00, picking 14:00 as written leaves 14:00 to 15:30 as the
      day's only slots: 12:00 was offered before the pick and is not offered after it. */
  lemma SetTimeAsWrittenShrinksLunch(n: nat)
    ensures var lunch := ServiceRange("lunch", StartOfDay(n) + 720, StartOfDay(n) + 960);
      var after := RewriteFirstStart([lunch], Clock(14, 0));
      StartOfDay(n) + 720 in DisplaySlots([lunch]).value
      && DisplaySlots(after) == Some([StartOfDay(n) + 840, StartOfDay(n) + 870, StartOfDay(n) + 900, StartOfDay(n) + 930])
  {
    var lunch := ServiceRange("lunch", StartOfDay(n) + 720, StartOfDay(n) + 960);
    NoonDay(n);
    assert Slots(lunch)[0] == StartOfDay(n) + 720;
    var after := RewriteFirstStart([lunch], Clock(14, 0));
    assert after[0].start == StartOfDay(n) + 840;
    var s := Slots(after[0]);
    assert |s| == 4;
    assert s == [StartOfDay(n) + 840, StartOfDay(n) + 870, StartOfDay(n) + 900, StartOfDay(n) + 930];
  }

  // ---------------------------------------------------------------------------------------------
  // A restaurant that never opens

  /** A service the engine can offer on some weekday: bookable online, and either with no
      weekday list or with one that holds a lower-case English weekday name. */
  predicate OpensOnSomeWeekday(s: Service)
  {
    s.onlineAllowed && (s.openWeekdays.None? || exists w :: 0 <= w < 7 && WeekdayIndex[w] in s.openWeekdays.value)
  }

  /** `validateRestData` with its service test made the engine's own: the data is accepted only
      when some bookable service is offered on some weekday, so that the search of
      `findFirstBookingTime` ends. Everything else is as in `ValidateRestData`. */
  function ValidateRestDataStrict(opening: Opening, services: seq<Service>): (r: Result<bool, string>)
    ensures r.Err? <==> ValidateRestData(opening, services).Err?
    ensures r == Ok(true) ==> ValidateRestData(opening, services) == Ok(true)
  {
    match ValidateRestData(opening, services)
    case Ok(true) => Ok(exists i :: 0 <= i < |services| && Bookable(services[i]) && OpensOnSomeWeekday(services[i]))
    case other => other
  }

  /** A restaurant whose only service lists "Monday" is accepted by `validateRestData` as
      written, yet the engine offers nothing on any day, so the do-while loop of
      `findFirstBookingTime` never ends; the corrected validation rejects it. */
  lemma NeverOpenAccepted(t: Instant, now: Instant)
    ensures var s := Service("s", true, Some(["Monday"]), Clock(12, 0), Clock(16, 0), 0);
      var op := Opening(Some(["Monday"]), None);
      ValidateRestData(op, [s]) == Ok(true)
      && DayServices(op, [s], t, now) == []
      && ValidateRestDataStrict(op, [s]) == Ok(false)
  {
    var s := Service("s", true, Some(["Monday"]), Clock(12, 0), Clock(16, 0), 0);
    assert Bookable(s);
    assert WeekdayName(DayOf(t)) != "Monday";
    assert !OpenOnDay(s, t);
    assert [s][1..] == [];
    forall w | 0 <= w < 7
      ensures WeekdayIndex[w] !in s.openWeekdays.value
    {
    }
    assert !OpensOnSomeWeekday(s);
    var op := Opening(Some(["Monday"]), None);
    assert ValidateRestData(op, [s]) == Ok(true) by {
      assert Bookable([s][0]);
    }
    assert DayServices(op, [s], t, now) == [];
    assert ValidateRestDataStrict(op, [s]) == Ok(false);
  }

  /** The days d0, d0 + 7, ..., d0 + 7k. */
  function WeeklyDays(d0: nat, k: nat): (s: set<nat>)
    ensures |s| == k + 1
    ensures forall n :: n in s ==> d0 <= n <= d0 + 7 * k && (n - d0) % 7 == 0
    ensures d0 in s
  {
    if k == 0 then {d0} else WeeklyDays(d0, k - 1) + {d0 + 7 * k}
  }

  /** Among more days than there are closing-day strings, some day's key is not one of them. */
  lemma {:induction false} SomeDayNotClosing(closing: seq<string>, days: set<nat>)
    requires |days| > |closing|
    ensures exists n :: n in days && DayKeyOf(n) !in closing
    decreases |closing|
  {
    if |closing| == 0 {
      var n :| n in days;
      assert DayKeyOf(n) !in closing;
    } else {
      var x, rest := closing[0], closing[1..];
      assert closing == [x] + rest;
      var keep := set n | n in days && DayKeyOf(n) != x;
      if exists n0 :: n0 in days && DayKeyOf(n0) == x {
        var n0 :| n0 in days && DayKeyOf(n0) == x;
        forall n | n in days - {n0}
          ensures n in keep
        {
          DayKeyOfInjective(n, n0);
        }
        assert days - {n0} <= keep;
        assert |days - {n0}| == |days| - 1;
        SubsetCard(days - {n0}, keep);
      } else {
        assert keep == days;
      }
      SomeDayNotClosing(rest, keep);
      var n :| n in keep && DayKeyOf(n) !in rest;
      assert DayKeyOf(n) !in closing;
    }
  }

  /** A subset has no more members than its superset. */
  lemma {:induction false} SubsetCard(a: set<nat>, b: set<nat>)
    requires a <= b
    ensures |a| <= |b|
    decreases |b|
  {
    if a != {} {
      var x :| x in a;
      SubsetCard(a - {x}, b - {x});
    }
  }

  /** w days on from a (mod 7) is a day with weekday w. */
  lemma DayWithWeekday(a: nat, w: nat) returns (d: nat)
    requires w < 7
    ensures a <= d < a + 7 && Weekday(d) == w
  {
    var t := (w - Weekday(a) + 7) % 7;
    CalendarGrid.WeekdayAdd(a, t);
    d := a + t;
  }

  /** A day after today that is not a closing day and on which some service is offered has
      ranges. */
  lemma OfferedDayHasRanges(opening: Opening, services: seq<Service>, i: nat, n: nat, now: Instant)
    requires i < |services| && OpenOnDay(services[i], StartOfDay(n))
    requires DayOf(now) < n && DayKeyOf(n) !in opening.closingDays.GetOr([])
    ensures DayServices(opening, services, StartOfDay(n), now) != []
  {
    NoonDay(n);
    assert !IsClosingDay(opening, StartOfDay(n));
    OtherDayRanges(services, StartOfDay(n), now);
    assert services[i] in OpenServices(services, StartOfDay(n));
  }

  /** Under the corrected validation, some day after `from` has ranges: a day with the weekday
      of an offered service that is not one of the finitely many closing days. */
  lemma OpenDayAhead(opening: Opening, services: seq<Service>, from: nat, now: Instant)
    requires ValidateRestDataStrict(opening, services) == Ok(true)
    requires DayOf(now) <= from
    ensures exists n :: from < n && DayServices(opening, services, StartOfDay(n), now) != []
  {
    var i :| 0 <= i < |services| && Bookable(services[i]) && OpensOnSomeWeekday(services[i]);
    var w := 0;
    if services[i].openWeekdays.Some? {
      w :| 0 <= w < 7 && WeekdayIndex[w] in services[i].openWeekdays.value;
    }
    var n := WeekdayNotClosing(opening.closingDays.GetOr([]), from, w);
    NoonDay(n);
    assert OpenOnDay(services[i], StartOfDay(n));
    OfferedDayHasRanges(opening, services, i, n, now);
  }

  /** Whatever the closing days, every weekday comes again after `from` on a day that is not
      one of them. */
  lemma WeekdayNotClosing(closing: seq<string>, from: nat, w: nat) returns (n: nat)
    requires w < 7
    ensures from < n && Weekday(n) == w && DayKeyOf(n) !in closing
  {
    var d0 := DayWithWeekday(from + 1, w);
    var days := WeeklyDays(d0, |closing|);
    SomeDayNotClosing(closing, days);
    n :| n in days && DayKeyOf(n) !in closing;
    var q := (n - d0) / 7;
    assert n == d0 + 7 * q;
    WholeWeeks(d0, q);
  }

  /** Whole weeks later is the same weekday. */
  lemma {:induction false} WholeWeeks(d: nat, q: nat)
    ensures Weekday(d + 7 * q) == Weekday(d)
    decreases q
  {
    if q > 0 {
      WholeWeeks(d, q - 1);
      CalendarGrid.WeekdayAdd(d + 7 * (q - 1), 7);
    }
  }

  /** The corrected validation accepts exactly the data `validateRestData` accepts on which
      some future day has ranges, so the two differ only where the source's search never ends. */
  lemma StrictValidationExact(opening: Opening, services: seq<Service>, now: Instant)
    ensures ValidateRestDataStrict(opening, services) == Ok(true) <==>
      ValidateRestData(opening, services) == Ok(true)
      && exists n :: DayOf(now) < n && DayServices(opening, services, StartOfDay(n), now) != []
  {
    if ValidateRestDataStrict(opening, services) == Ok(true) {
      OpenDayAhead(opening, services, DayOf(now), now);
    }
    if ValidateRestData(opening, services) == Ok(true)
      && exists n :: DayOf(now) < n && DayServices(opening, services, StartOfDay(n), now) != [] {
      var n :| DayOf(now) < n && DayServices(opening, services, StartOfDay(n), now) != [];
      RangesComeFromOpenServices(services, StartOfDay(n), now, 0);
      var i :| 0 <= i < |services| && OpenOnDay(services[i], StartOfDay(n))
        && AllServiceRanges(services, StartOfDay(n), now)[0].id == services[i].rsId;
      ValidatedHasServices(opening, services);
      var wn := WeekdayName(DayOf(StartOfDay(n)));
      assert wn == WeekdayIndex[Weekday(DayOf(StartOfDay(n)))];
      assert wn in services[i].openWeekdays.value;
      assert Bookable(services[i]) && OpensOnSomeWeekday(services[i]);
    }
  }

  // ---------------------------------------------------------------------------------------------
  // The widget

  class BookingWidget {
    var restId: string
    var opening: Opening
    var services: seq<Service>
    /** `openHoursPerDay`: the engine's answers by "Y/M/D" key. */
    var openHoursPerDay: map<string, seq<ServiceRange>>
    /** For each cached key, the instant and the clock reading its answer was computed with. */
    ghost var computedFor: map<string, (Instant, Instant)>

    /** `bookingInfo.day` and `bookingInfo.pax`. */
    var bookingDay: Instant
    var pax: nat
    var showCalendar: bool
    var showTime: bool
    var showPax: bool
    var showHourMinute: bool
    var bookingState: BookingState
    var restaurantStatus: RestaurantState
    var calendarConfig: Option<BookingCalendar.CalendarConfig>

    /** Every cached answer is the engine's uncached answer for a day with that key, computed
        with the clock reading of the call that stored it. */
    ghost predicate CacheValid()
      reads this`openHoursPerDay, this`computedFor, this`opening, this`services
    {
      ValidCache(openHoursPerDay, computedFor, opening, services)
    }

    /** At most one of the three panels is shown. */
    predicate OnePanel()
      reads this`showCalendar, this`showTime, this`showPax
    {
      (showCalendar ==> !showTime && !showPax) && (showTime ==> !showPax)
    }

    /** The constructor: two guests, the booking day now, nothing shown, not submitted, no
        restaurant loaded. */
    constructor (now: Instant)
      ensures pax == 2 && bookingDay == now
      ensures !showCalendar && !showTime && !showPax && !showHourMinute && OnePanel()
      ensures bookingState == NotSubmitted && restaurantStatus == NotLoaded
      ensures openHoursPerDay == map[] && services == [] && calendarConfig == None
    {
      restId := "";
      opening := Opening(None, None);
      services := [];
      openHoursPerDay := map[];
      computedFor := map[];
      bookingDay := now;
      pax := 2;
      showCalendar, showTime, showPax := false, false, false;
      showHourMinute := false;
      bookingState := NotSubmitted;
      restaurantStatus := NotLoaded;
      calendarConfig := None;
    }

    /** `_getOpeningHoursForDay`: a cached key returns its stored answer and changes nothing;
        otherwise the answer is computed for `day` at `now` and stored under the day's key. */
    method GetOpeningHoursForDay(day: Instant, now: Instant) returns (r: seq<ServiceRange>)
      requires CacheValid()
      modifies this`openHoursPerDay, this`computedFor
      ensures CacheValid()
      ensures InstantKey(day) in openHoursPerDay && r == openHoursPerDay[InstantKey(day)]
      ensures InstantKey(day) in old(openHoursPerDay) ==>
        r == old(openHoursPerDay[InstantKey(day)]) && openHoursPerDay == old(openHoursPerDay)
      ensures InstantKey(day) !in old(openHoursPerDay) ==>
        r == DayServices(opening, services, day, now) && openHoursPerDay == old(openHoursPerDay)[InstantKey(day) := r]
      ensures forall k :: k in old(openHoursPerDay) ==> k in openHoursPerDay && openHoursPerDay[k] == old(openHoursPerDay)[k]
    {
      var key := InstantKey(day);
      if key in openHoursPerDay {
        return openHoursPerDay[key];
      }
      if opening.closingDays.Some? && key in opening.closingDays.value {
        r := [];
      } else {
        r := AllServiceRanges(services, day, now);
      }
      ghost var cache, before := openHoursPerDay, computedFor;
      openHoursPerDay := openHoursPerDay[key := r];
      computedFor := computedFor[key := (day, now)];
      forall k | k in computedFor
        ensures Entry(openHoursPerDay, computedFor, opening, services, k)
      {
        if k != key {
          assert Entry(cache, before, opening, services, k);
        }
      }
    }

    /** The search from `c` reaches a day with an answer: day `horizon` (at c itself when it is
        c's day, at its midnight otherwise) has a non-empty answer. */
    ghost predicate OpenBy(c: Instant, now: Instant, horizon: nat)
      reads this`openHoursPerDay, this`opening, this`services
    {
      DayOf(c) <= horizon
      && Answer(openHoursPerDay, opening, services, if horizon == DayOf(c) then c else StartOfDay(horizon), now) != []
    }

    /** The state of the search of `findFirstBookingTime` at `c`: the cache is valid and keeps
        every entry of `orig`, day `horizon` still has a non-empty answer, `hours` is the cached
        answer for `c`, and every day from `first` to the day before `c` has an empty answer. */
    ghost predicate Searching(c: Instant, hours: seq<ServiceRange>, now: Instant, first: nat, horizon: nat,
                              orig: map<string, seq<ServiceRange>>)
      reads this`openHoursPerDay, this`computedFor, this`opening, this`services
    {
      CacheValid()
      && first <= DayOf(c) && OpenBy(c, now, horizon)
      && InstantKey(c) in openHoursPerDay && hours == openHoursPerDay[InstantKey(c)]
      && (forall n :: first <= n < DayOf(c) ==> DayKeyOf(n) in openHoursPerDay && openHoursPerDay[DayKeyOf(n)] == [])
      && (forall k :: k in orig ==> k in openHoursPerDay && openHoursPerDay[k] == orig[k])
    }

    /** One turn of the search loop: c's day has no ranges, so move to the next midnight and ask
        the engine for it. */
    method NextDay(c: Instant, now: Instant, ghost first: nat, ghost horizon: nat,
                   ghost orig: map<string, seq<ServiceRange>>) returns (c': Instant, hours: seq<ServiceRange>)
      requires Searching(c, [], now, first, horizon, orig)
      modifies this`openHoursPerDay, this`computedFor
      ensures c' == StartOfDay(DayOf(c) + 1) && DayOf(c') == DayOf(c) + 1
      ensures Searching(c', hours, now, first, horizon, orig)
    {
      var day := DayOf(c);
      ghost var before := openHoursPerDay;
      assert Answer(before, opening, services, c, now) == [];
      ghost var goal := Answer(before, opening, services, StartOfDay(horizon), now);
      assert day < horizon && goal != [];
      NoonDay(day + 1);
      NoonDay(horizon);
      c' := StartOfDay(day + 1);
      hours := GetOpeningHoursForDay(c', now);
      InstantKeySameDay(StartOfDay(horizon), c');
      AnswerKept(before, openHoursPerDay, c', StartOfDay(horizon), opening, services, now);
      assert Answer(openHoursPerDay, opening, services, StartOfDay(horizon), now) == goal;
      EmptyDaysKept(before, openHoursPerDay, day, first);
    }

    /** `findFirstBookingTime`: from the candidate (now when absent), try each day in turn,
        later days from their midnight, until a day has ranges; return the start of its first
        range. The source has no bound on the search: the model takes a day known to have
        ranges as its premise. Every day skipped has an empty answer in the cache. */
    method FindFirstBookingTime(candidate: Option<Instant>, now: Instant, ghost horizon: nat)
      returns (t: Instant, ghost found: nat)
      requires CacheValid() && OpenBy(candidate.GetOr(now), now, horizon)
      modifies this`openHoursPerDay, this`computedFor
      ensures CacheValid()
      ensures DayOf(candidate.GetOr(now)) <= found <= horizon
      ensures DayKeyOf(found) in openHoursPerDay && openHoursPerDay[DayKeyOf(found)] != []
      ensures t == openHoursPerDay[DayKeyOf(found)][0].start
      ensures forall n :: DayOf(candidate.GetOr(now)) <= n < found ==>
        DayKeyOf(n) in openHoursPerDay && openHoursPerDay[DayKeyOf(n)] == []
      ensures forall k :: k in old(openHoursPerDay) ==> k in openHoursPerDay && openHoursPerDay[k] == old(openHoursPerDay[k])
    {
      var c := candidate.GetOr(now);
      ghost var first := DayOf(c);
      ghost var orig := openHoursPerDay;
      var hours := GetOpeningHoursForDay(c, now);
      NoonDay(horizon);
      InstantKeySameDay(StartOfDay(horizon), c);
      if horizon != DayOf(c) {
        AnswerKept(orig, openHoursPerDay, c, StartOfDay(horizon), opening, services, now);
      } else {
        AnswerKept(orig, openHoursPerDay, c, c, opening, services, now);
      }
      while |hours| == 0
        invariant Searching(c, hours, now, first, horizon, orig)
        decreases horizon - DayOf(c)
      {
        c, hours := NextDay(c, now, first, horizon, orig);
      }
      found := DayOf(c);
      t := hours[0].start;
    }

    /** `_getHoursToDisplayForDay`: the half-hour slots of the day's answer; None when the
        answer is empty and the seedless `reduce` throws. */
    method GetHoursToDisplayForDay(day: Instant, now: Instant) returns (r: Option<seq<Instant>>)
      requires CacheValid()
      modifies this`openHoursPerDay, this`computedFor
      ensures CacheValid()
      ensures InstantKey(day) in openHoursPerDay && r == DisplaySlots(openHoursPerDay[InstantKey(day)])
      ensures InstantKey(day) !in old(openHoursPerDay) ==> r == DisplaySlots(DayServices(opening, services, day, now))
    {
      var hours := GetOpeningHoursForDay(day, now);
      r := DisplaySlots(hours);
    }

    /** `getCalendarConfigFromDate`: the restaurant's weekdays, the disabled closing days of the
        booking day's month, single selection, from the booking day on. */
    function CalendarConfigFromDate(now: Instant): (r: Option<BookingCalendar.CalendarConfig>)
      reads this`opening, this`bookingDay
      ensures r.None? <==> opening.closingDays.None?
      ensures r.Some? ==> (r.value.dateFrom == Some(bookingDay) && r.value.multiSelection == Some(false)
        && r.value.weekdaysEnabled == opening.openWeekdays
        && r.value.disabledDays == DisabledDays(opening, now, bookingDay))
    {
      match DisabledDays(opening, now, bookingDay)
      case None => None
      case Some(disabled) =>
        Some(BookingCalendar.CalendarConfig(Some(bookingDay), Some(false), None, Some(disabled),
          opening.openWeekdays, Some(false)))
    }

    /** `setHourMinuteConfigForDate`. */
    method SetHourMinuteConfigForDate()
      modifies this`bookingState, this`showHourMinute
      ensures bookingState == NotSubmitted && showHourMinute
    {
      bookingState := NotSubmitted;
      showHourMinute := true;
    }

    /** The restaurant's data is stored with an empty cache, from which the search for a
        bookable time from now can start. */
    method StoreRestaurant(op: Opening, svs: seq<Service>, now: Instant, ghost horizon: nat)
      requires DayOf(now) <= horizon
      requires DayServices(op, svs, if horizon == DayOf(now) then now else StartOfDay(horizon), now) != []
      modifies this`opening, this`services, this`openHoursPerDay, this`computedFor
      ensures opening == op && services == svs && openHoursPerDay == map[] && computedFor == map[]
      ensures CacheValid() && OpenBy(now, now, horizon)
    {
      opening := op;
      services := svs;
      openHoursPerDay := map[];
      computedFor := map[];
    }

    /** Day `found` is the first day from day `first` on whose cached answer has ranges, and
        the booking day is the start of its first range. */
    ghost predicate BookedAtFirst(first: nat, found: nat)
      reads this`openHoursPerDay, this`bookingDay
    {
      first <= found
      && DayKeyOf(found) in openHoursPerDay && openHoursPerDay[DayKeyOf(found)] != []
      && bookingDay == openHoursPerDay[DayKeyOf(found)][0].start
      && forall n :: first <= n < found ==> DayKeyOf(n) in openHoursPerDay && openHoursPerDay[DayKeyOf(n)] == []
    }

    /** The booking day moves to the start of the first range of the first day from now that
        has one. */
    method StartAtFirstBookingTime(now: Instant, ghost horizon: nat) returns (ghost found: nat)
      requires CacheValid() && OpenBy(now, now, horizon)
      modifies this`openHoursPerDay, this`computedFor, this`bookingDay
      ensures CacheValid()
      ensures found <= horizon && BookedAtFirst(DayOf(now), found)
    {
      var first;
      first, found := FindFirstBookingTime(None, now, horizon);
      bookingDay := first;
    }

    /** The accepted branch of `componentWillLoad`: the restaurant's data is stored with an
        empty cache, the booking day moves to the first bookable time from now, and the calendar
        is configured (false when that throws because the restaurant has no closing days) before
        the hour picker is shown and the restaurant is ready. */
    method Accept(op: Opening, svs: seq<Service>, now: Instant, ghost horizon: nat) returns (ok: bool, ghost found: nat)
      requires |svs| > 0
      requires DayOf(now) <= horizon
      requires DayServices(op, svs, if horizon == DayOf(now) then now else StartOfDay(horizon), now) != []
      modifies this`opening, this`services, this`openHoursPerDay, this`computedFor, this`bookingDay,
        this`calendarConfig, this`bookingState, this`showHourMinute, this`restaurantStatus
      ensures opening == op && services == svs && CacheValid()
      ensures found <= horizon && BookedAtFirst(DayOf(now), found)
      ensures ok <==> op.closingDays.Some?
      ensures ok ==> restaurantStatus == StatusOk && bookingState == NotSubmitted && showHourMinute
                     && calendarConfig == CalendarConfigFromDate(now)
      ensures !ok ==> restaurantStatus == old(restaurantStatus)
    {
      StoreRestaurant(op, svs, now, horizon);
      found := StartAtFirstBookingTime(now, horizon);
      var config := CalendarConfigFromDate(now);
      ok := config.Some?;
      if ok {
        ShowReady(config);
      }
    }

    /** The calendar gets its configuration, the hour picker is shown and the restaurant is ready. */
    method ShowReady(config: Option<BookingCalendar.CalendarConfig>)
      modifies this`calendarConfig, this`bookingState, this`showHourMinute, this`restaurantStatus
      ensures calendarConfig == config && restaurantStatus == StatusOk && bookingState == NotSubmitted && showHourMinute
    {
      calendarConfig := config;
      SetHourMinuteConfigForDate();
      restaurantStatus := StatusOk;
    }

    /** `componentWillLoad` once the restaurant query has answered with `data`. An invalid key
        marks the widget INVALID_ID. Missing or rejected data leaves the restaurant
        LOAD_PENDING. Accepted data goes through `Accept`. When `validateRestData` throws, the
        load stops where it is. The data is checked by the corrected validation, so accepted
        data always has a day with ranges for the search to find. */
    method Load(apikey: string, data: RestData, now: Instant) returns (ok: bool)
      modifies this
      ensures !IsValidKey(apikey) ==> !ok && bookingState == InvalidId && restaurantStatus == old(restaurantStatus)
      ensures IsValidKey(apikey) ==> restId == apikey
      ensures IsValidKey(apikey) && (data.opening.None? || data.services.None?) ==>
        !ok && restaurantStatus == InfoPending
      ensures IsValidKey(apikey) && data.opening.Some? && data.services.Some? ==>
        match ValidateRestDataStrict(data.opening.value, data.services.value)
        case Err(_) => !ok && restaurantStatus == old(restaurantStatus)
        case Ok(false) => !ok && restaurantStatus == InfoPending
        case Ok(true) =>
          opening == data.opening.value && services == data.services.value && CacheValid()
          && (exists found :: BookedAtFirst(DayOf(now), found))
          && (ok <==> opening.closingDays.Some?)
          && (ok ==> restaurantStatus == StatusOk && bookingState == NotSubmitted && showHourMinute
                     && calendarConfig == CalendarConfigFromDate(now))
          && (!ok ==> restaurantStatus == old(restaurantStatus))
    {
      ok := false;
      if !IsValidKey(apikey) {
        bookingState := InvalidId;
        return;
      }
      restId := apikey;
      if data.opening.None? || data.services.None? {
        restaurantStatus := InfoPending;
        return;
      }
      var op, svs := data.opening.value, data.services.value;
      var valid := ValidateRestDataStrict(op, svs);
      if valid.Err? {
        return;
      }
      if !valid.value {
        restaurantStatus := InfoPending;
        return;
      }
      ValidatedHasServices(op, svs);
      OpenDayAhead(op, svs, DayOf(now), now);
      ghost var horizon :| DayOf(now) < horizon && DayServices(op, svs, StartOfDay(horizon), now) != [];
      ghost var found;
      ok, found := Accept(op, svs, now, horizon);
    }

    /** `toggleCalendarShow`: flip the calendar; showing it hides the other panels. */
    method ToggleCalendarShow()
      requires OnePanel()
      modifies this`showCalendar, this`showTime, this`showPax
      ensures OnePanel() && showCalendar == !old(showCalendar)
      ensures showCalendar ==> !showTime && !showPax
      ensures !showCalendar ==> showTime == old(showTime) && showPax == old(showPax)
    {
      showCalendar := !showCalendar;
      if showCalendar {
        showTime, showPax := false, false;
      }
    }

    /** `toggleTimeShow`: flip the time panel unless the day is invalid; a shown time panel
        hides the other panels. */
    method ToggleTimeShow()
      requires OnePanel()
      modifies this`showCalendar, this`showTime, this`showPax
      ensures OnePanel()
      ensures showTime == (if bookingState == InvalidDay then old(showTime) else !old(showTime))
      ensures showTime ==> !showCalendar && !showPax
      ensures !showTime ==> showCalendar == old(showCalendar) && showPax == old(showPax)
    {
      if bookingState != InvalidDay {
        showTime := !showTime;
      }
      if showTime {
        showCalendar, showPax := false, false;
      }
    }

    /** `togglePaxShow`: flip the guests panel; showing it hides the other panels. */
    method TogglePaxShow()
      requires OnePanel()
      modifies this`showCalendar, this`showTime, this`showPax
      ensures OnePanel() && showPax == !old(showPax)
      ensures showPax ==> !showCalendar && !showTime
      ensures !showPax ==> showCalendar == old(showCalendar) && showTime == old(showTime)
    {
      showPax := !showPax;
      if showPax {
        showCalendar, showTime := false, false;
      }
    }

    /** `setPax`: store the number of guests and flip the guests panel. */
    method SetPax(value: nat)
      requires OnePanel()
      modifies this`pax, this`showCalendar, this`showTime, this`showPax
      ensures OnePanel() && pax == value && showPax == !old(showPax)
    {
      pax := value;
      TogglePaxShow();
    }

    /** `setTime`: move the booking to the clicked time of its day and flip the time panel. */
    method SetTime(c: Clock)
      requires OnePanel()
      modifies this`bookingDay, this`showCalendar, this`showTime, this`showPax
      ensures OnePanel() && bookingDay == ClockTime(old(bookingDay), c)
      ensures DayOf(bookingDay) == DayOf(old(bookingDay)) || c.hour >= 24 || c.minute >= 60
      ensures showTime == (if bookingState == InvalidDay then old(showTime) else !old(showTime))
      ensures showTime ==> !showCalendar && !showPax
      ensures !showTime ==> showCalendar == old(showCalendar) && showPax == old(showPax)
      ensures openHoursPerDay == old(openHoursPerDay)
    {
      bookingDay := ClockTime(bookingDay, c);
      ToggleTimeShow();
    }

    /** The calendar's `onSelectDay` callback: the booking moves to the first range start of
        the last selected day (now when none is selected), then the hour picker is reset and the
        calendar flips. When the day has no ranges the callback throws before either. */
    method OnSelectDay(selected: seq<Instant>, now: Instant) returns (ok: bool)
      requires CacheValid() && OnePanel()
      modifies this`openHoursPerDay, this`computedFor, this`bookingDay, this`bookingState, this`showHourMinute,
        this`showCalendar, this`showTime, this`showPax
      ensures CacheValid() && OnePanel()
      ensures var day := PoppedOr(selected, now);
        InstantKey(day) in openHoursPerDay
        && (ok <==> openHoursPerDay[InstantKey(day)] != [])
        && (ok ==> bookingDay == openHoursPerDay[InstantKey(day)][0].start
                   && bookingState == NotSubmitted && showHourMinute && showCalendar == !old(showCalendar))
        && (!ok ==> bookingDay == old(bookingDay) && bookingState == old(bookingState))
    {
      var hours := GetOpeningHoursForDay(PoppedOr(selected, now), now);
      ok := |hours| > 0;
      if ok {
        BookFrom(hours[0].start);
      }
    }

    /** The booking moves to `start`, the hour picker is reset and the calendar flips. */
    method BookFrom(start: Instant)
      requires OnePanel()
      modifies this`bookingDay, this`bookingState, this`showHourMinute, this`showCalendar, this`showTime, this`showPax
      ensures OnePanel() && bookingDay == start && bookingState == NotSubmitted && showHourMinute
      ensures showCalendar == !old(showCalendar)
    {
      bookingDay := start;
      SetHourMinuteConfigForDate();
      ToggleCalendarShow();
    }

    /** The calendar's `onMonthChange` callback: in the current month the booking moves to the
        first bookable time from now, in another month to the first from the emitted date; the
        calendar is reconfigured and the hour picker hidden. */
    method OnMonthChange(date: Instant, now: Instant, ghost horizon: nat) returns (ok: bool, ghost found: nat)
      requires CacheValid()
      requires OpenBy(if SameMonth(now, date) then now else date, now, horizon)
      modifies this`openHoursPerDay, this`computedFor, this`bookingDay, this`calendarConfig, this`showHourMinute
      ensures CacheValid()
      ensures var from := if SameMonth(now, date) then now else date;
        DayOf(from) <= found <= horizon
        && DayKeyOf(found) in openHoursPerDay && openHoursPerDay[DayKeyOf(found)] != []
        && bookingDay == openHoursPerDay[DayKeyOf(found)][0].start
        && forall n :: DayOf(from) <= n < found ==> DayKeyOf(n) in openHoursPerDay && openHoursPerDay[DayKeyOf(n)] == []
      ensures ok <==> opening.closingDays.Some?
      ensures ok ==> calendarConfig == CalendarConfigFromDate(now) && !showHourMinute
      ensures !ok ==> calendarConfig == old(calendarConfig) && showHourMinute == old(showHourMinute)
    {
      if SameMonth(now, date) {
        bookingDay, found := FindFirstBookingTime(None, now, horizon);
      } else {
        bookingDay, found := FindFirstBookingTime(Some(date), now, horizon);
      }
      var config := CalendarConfigFromDate(now);
      if config.None? {
        return false, found;
      }
      calendarConfig := config;
      showHourMinute := false;
      ok := true;
    }

    /** `submitBooking`. An invalid form changes nothing. Otherwise the state is SUBMITTING, the
        service is resolved from the booking day's answer, and the mutation's outcome decides
        SUBMITTED_OK or SUBMITTED_KO. When no range contains the booking time the lookup
        throws and the state stays SUBMITTING. */
    method SubmitBooking(formValid: bool, now: Instant, mutationOk: bool) returns (service: Option<string>)
      requires CacheValid()
      modifies this`openHoursPerDay, this`computedFor, this`bookingState
      ensures CacheValid()
      ensures !formValid ==> service == None && bookingState == old(bookingState) && openHoursPerDay == old(openHoursPerDay)
      ensures formValid ==> (InstantKey(bookingDay) in openHoursPerDay
        && service == ResolveService(openHoursPerDay[InstantKey(bookingDay)], bookingDay)
        && bookingState == (if service.None? then Submitting else if mutationOk then SubmittedOk else SubmittedKo))
    {
      if !formValid {
        return None;
      }
      bookingState := Submitting;
      var hours := GetOpeningHoursForDay(bookingDay, now);
      service := ResolveService(hours, bookingDay);
      if service.None? {
        return;
      }
      bookingState := if mutationOk then SubmittedOk else SubmittedKo;
    }

    /** The "make another booking" button on the confirmation screen. */
    method ResetBooking()
      modifies this`bookingState
      ensures bookingState == NotSubmitted
    {
      bookingState := NotSubmitted;
    }
  }

  /** `moment(param.pop())`: the last selected day, or now when nothing is selected (moment of
      `undefined`). */
  function PoppedOr(selected: seq<Instant>, now: Instant): (d: Instant)
    ensures |selected| == 0 ==> d == now
    ensures |selected| > 0 ==> d == selected[|selected| - 1]
  {
    if |selected| == 0 then now else selected[|selected| - 1]
  }

  /** `moment().isSame(param, 'month')`: the same month of the same year. */
  predicate SameMonth(a: Instant, b: Instant)
  {
    DateOf(a).year == DateOf(b).year && DateOf(a).month == DateOf(b).month
  }
}
