/** The booking form `make-booking` (src/components/make-booking/make-booking.tsx): the
    hour-granular availability engine with its memo table, the list of days up to the end of a
    month, the disabled days handed to the calendar, the hour list handed to the time picker,
    the phone check and the service lookup when the booking is submitted. */
module MakeBooking {
  import opened Wrappers
  import opened Strings
  import opened Gregorian
  import opened HourMinuteComponent
  import opened TimeLists
  import opened CalendarComponent

  /** A restaurant service as the restaurant query returns it; `onlineAllowed` is the truthiness
      of `booking_config.online_allowed`, the times are the raw "HH:MM" strings. */
  datatype Service = Service(
    rsId: string,
    onlineAllowed: bool,
    openWeekdays: Option<seq<string>>,
    startsAt: string,
    endsAt: string)

  /** The restaurant's `opening`: its weekdays and its closing days as "Y/M/D" strings. */
  datatype Opening = Opening(openWeekdays: Option<seq<string>>, closingDays: Option<seq<string>>)

  /** `DayHours`: a day and the whole hours bookable on it. */
  datatype DayHours = DayHours(day: Instant, hours: seq<nat>)

  // ---------------------------------------------------------------------------------------------
  // Hours of one service on one day

  /** `parseInt(t.split(':')[0], 10)`: the hour of an "HH:MM" string, NaN (None) without a
      leading digit. */
  function HourOf(t: string): (r: Option<nat>)
    ensures r.Some? <==> |Split(t, ':')[0]| > 0 && IsDigit(Split(t, ':')[0][0])
  {
    ParseIntPrefix(Split(t, ':')[0])
  }

  /** A padded hour followed by any minutes reads back as the hour. */
  lemma HourOfPadded(h: nat, rest: string)
    requires h < 100
    ensures HourOf(ZeroPad2(h) + ":" + rest) == Some(h)
  {
    ZeroPad2RoundTrip(h);
    var p := ZeroPad2(h);
    assert ':' !in p by {
      forall i | 0 <= i < |p| ensures p[i] != ':' { assert IsDigit(p[i]); }
    }
    SplitCons(p, ':', rest);
    assert p + ":" + rest == p + [':'] + rest;
    ParseIntOfDigits(p);
  }

  /** `[...Array(to - from).keys()].map(x => x + from)`: the hours from `from` up to, not
      including, `to`. `Array` throws (None) on a NaN or negative length. */
  function Run(from: Option<nat>, to: Option<nat>): (r: Option<seq<nat>>)
    ensures r.Some? <==> from.Some? && to.Some? && from.value <= to.value
    ensures r.Some? ==> (|r.value| == to.value - from.value
      && forall i :: 0 <= i < |r.value| ==> r.value[i] == from.value + i)
  {
    if from.Some? && to.Some? && from.value <= to.value
    then Some(seq(to.value - from.value, i requires 0 <= i => from.value + i))
    else None
  }

  /** `todaysHour` as written: the hour shown by a clock 1 h 30 min from now, which wraps past
      midnight to 0 or 1 after 22:30. */
  function TodaysHourAsWritten(now: Instant): (h: nat)
    ensures h < 24
  {
    ((now + 90) % MinutesPerDay) / MinutesPerHour
  }

  /** `todaysHour` as evidently intended: the hour of today's clock 1 h 30 min from now, counting
      on past 23 when that is already tomorrow. */
  function TodaysHour(now: Instant): (h: nat)
    ensures h * MinutesPerHour <= now % MinutesPerDay + 90 < (h + 1) * MinutesPerHour
  {
    (now % MinutesPerDay + 90) / MinutesPerHour
  }

  /** Whether a service applies on a day: booked online and open on its weekday. `dow` is the
      weekday key `dowMD[day.getDay()].key`, None when the master data has no such entry. */
  predicate Eligible(s: Service, dow: Option<string>)
  {
    s.onlineAllowed && (s.openWeekdays.None? || (dow.Some? && dow.value in s.openWeekdays.value))
  }

  /** The hours one service offers on a day: none when it is not online or not open that weekday;
      on another day than today every hour from its start to its end; today only the hours from
      `todaysHour` on. None when the source throws: reading the key of a missing weekday entry, or
      an `Array` of NaN or negative length. */
  function ServiceHours(s: Service, dow: Option<string>, isToday: bool, todaysHour: nat): (r: Option<seq<nat>>)
    ensures !s.onlineAllowed ==> r == Some([])
    ensures s.onlineAllowed && s.openWeekdays.Some? && dow.None? ==> r.None?
    ensures s.onlineAllowed && s.openWeekdays.Some? && dow.Some? && dow.value !in s.openWeekdays.value
      ==> r == Some([])
    ensures Eligible(s, dow) && !isToday ==> r == Run(HourOf(s.startsAt), HourOf(s.endsAt))
  {
    if !s.onlineAllowed then Some([])
    else if s.openWeekdays.Some? && dow.None? then None
    else if s.openWeekdays.Some? && dow.value !in s.openWeekdays.value then Some([])
    else
      var start, end := HourOf(s.startsAt), HourOf(s.endsAt);
      if !isToday then Run(start, end)
      else if start.Some? && todaysHour <= start.value then Run(start, end)
      else if end.Some? && todaysHour >= end.value then Some([])
      else Run(Some(todaysHour), end)
  }

  /** Today: a service that has not started yet offers all its hours, one that is over offers
      none, and one under way offers the hours from `todaysHour` to its end. */
  lemma TodayCases(s: Service, dow: Option<string>, h: nat)
    requires Eligible(s, dow)
    ensures var start, end := HourOf(s.startsAt), HourOf(s.endsAt);
      var r := ServiceHours(s, dow, true, h);
      (start.Some? && h <= start.value ==> r == Run(start, end))
      && (start.Some? && end.Some? && start.value < h && end.value <= h ==> r == Some([]))
      && (start.Some? && end.Some? && start.value < h < end.value ==> r == Run(Some(h), end))
      && (r.Some? ==> forall x :: x in r.value ==> h <= x)
  {
    var r := ServiceHours(s, dow, true, h);
    if r.Some? {
      forall x | x in r.value ensures h <= x {
        var i :| 0 <= i < |r.value| && r.value[i] == x;
      }
    }
  }

  /** The hours offered today with the intended `todaysHour` all end more than 1 h 30 min after
      now. */
  lemma {:induction false} TodayHoursAhead(s: Service, dow: Option<string>, now: Instant)
    ensures var r := ServiceHours(s, dow, true, TodaysHour(now));
      r.Some? ==> forall x :: x in r.value ==> (x + 1) * MinutesPerHour > now % MinutesPerDay + 90
  {
    var r := ServiceHours(s, dow, true, TodaysHour(now));
    if r.Some? && Eligible(s, dow) {
      TodayCases(s, dow, TodaysHour(now));
      forall x | x in r.value ensures (x + 1) * MinutesPerHour > now % MinutesPerDay + 90 {
        assert TodaysHour(now) <= x;
      }
    }
  }

  /** The hour of a "12:00" time string. */
  lemma HourOfNoon()
    ensures HourOf("12:00") == Some(12) && HourOf("16:00") == Some(16)
  {
    assert DigitChar(1) == '1' && DigitChar(2) == '2' && DigitChar(6) == '6';
    assert NatToString(12) == "12" && NatToString(16) == "16";
    assert ("0" + "12")[1..] == "12" && ("0" + "16")[1..] == "16";
    assert ZeroPad2(12) == "12" && ZeroPad2(16) == "16";
    assert ZeroPad2(12) + ":" + "00" == "12:00" && ZeroPad2(16) + ":" + "00" == "16:00";
    HourOfPadded(12, "00");
    HourOfPadded(16, "00");
  }

  /** Late in the evening the written `todaysHour` wraps to 0, and a lunch service from 12:00 to
      16:00 is offered in full although all of it is past; the intended hour offers nothing. */
  lemma LateEveningAsWritten(n: nat)
    ensures var now := n * MinutesPerDay + 23 * MinutesPerHour;
      var s := Service("lunch", true, None, "12:00", "16:00");
      ServiceHours(s, None, true, TodaysHourAsWritten(now)) == Some([12, 13, 14, 15])
      && ServiceHours(s, None, true, TodaysHour(now)) == Some([])
  {
    var now := n * MinutesPerDay + 23 * MinutesPerHour;
    assert (now + 90) % MinutesPerDay == 30;
    assert now % MinutesPerDay == 1380;
    assert TodaysHourAsWritten(now) == 0 && TodaysHour(now) == 24;
    HourOfNoon();
    var run := Run(Some(12), Some(16)).value;
    assert run == [12, 13, 14, 15] by {
      assert |run| == 4 && run[0] == 12 && run[1] == 13 && run[2] == 14 && run[3] == 15;
    }
  }

  // ---------------------------------------------------------------------------------------------
  // Hours of a day

  /** `services.map(...)`, concatenated in service order; None as soon as one service throws. */
  function HoursOfServices(services: seq<Service>, dow: Option<string>, isToday: bool, todaysHour: nat): (r: Option<seq<nat>>)
    decreases |services|
  {
    if |services| == 0 then Some([])
    else match (ServiceHours(services[0], dow, isToday, todaysHour), HoursOfServices(services[1..], dow, isToday, todaysHour))
      case (Some(a), Some(b)) => Some(a + b)
      case _ => None
  }

  /** `.reduce((prev, curr) => prev.concat(curr))` without a seed: it throws (None) on an empty
      service list. */
  function AllHours(services: seq<Service>, dow: Option<string>, isToday: bool, todaysHour: nat): (r: Option<seq<nat>>)
    ensures |services| == 0 ==> r.None?
    ensures |services| > 0 ==> r == HoursOfServices(services, dow, isToday, todaysHour)
  {
    if |services| == 0 then None else HoursOfServices(services, dow, isToday, todaysHour)
  }

  /** Some service of the list offers hour x. */
  ghost predicate OfferedBySome(services: seq<Service>, dow: Option<string>, isToday: bool, h: nat, x: nat)
  {
    exists i :: 0 <= i < |services| && Offers(services[i], dow, isToday, h, x)
  }

  predicate Offers(s: Service, dow: Option<string>, isToday: bool, h: nat, x: nat)
  {
    var r := ServiceHours(s, dow, isToday, h); r.Some? && x in r.value
  }

  /** A day throws exactly when one of its services throws. */
  lemma {:induction false} HoursOfServicesDefined(services: seq<Service>, dow: Option<string>, isToday: bool, h: nat)
    ensures HoursOfServices(services, dow, isToday, h).Some? <==>
      forall i :: 0 <= i < |services| ==> ServiceHours(services[i], dow, isToday, h).Some?
    decreases |services|
  {
    if |services| > 0 {
      HoursOfServicesDefined(services[1..], dow, isToday, h);
      assert forall i :: 0 < i < |services| ==> services[1..][i - 1] == services[i];
    }
  }

  /** Every hour of a day comes from one of its services, and every hour of every service is in
      it. */
  lemma {:induction false} HoursOfServicesMembers(services: seq<Service>, dow: Option<string>, isToday: bool, h: nat, x: nat)
    requires HoursOfServices(services, dow, isToday, h).Some?
    ensures x in HoursOfServices(services, dow, isToday, h).value <==> OfferedBySome(services, dow, isToday, h, x)
    decreases |services|
  {
    if |services| > 0 {
      var tail := services[1..];
      HoursOfServicesMembers(tail, dow, isToday, h, x);
      var a := ServiceHours(services[0], dow, isToday, h).value;
      var b := HoursOfServices(tail, dow, isToday, h).value;
      assert HoursOfServices(services, dow, isToday, h).value == a + b;
      if x in b {
        var j :| 0 <= j < |tail| && Offers(tail[j], dow, isToday, h, x);
        assert Offers(services[j + 1], dow, isToday, h, x);
      }
      if OfferedBySome(services, dow, isToday, h, x) && x !in a {
        var i :| 0 <= i < |services| && Offers(services[i], dow, isToday, h, x);
        assert i > 0 && Offers(tail[i - 1], dow, isToday, h, x);
      }
      if x in a {
        assert Offers(services[0], dow, isToday, h, x);
      }
    }
  }

  /** On a day other than today the hours do not depend on the time of day. */
  lemma {:induction false} HoursOfServicesOtherDay(services: seq<Service>, dow: Option<string>, h1: nat, h2: nat)
    ensures HoursOfServices(services, dow, false, h1) == HoursOfServices(services, dow, false, h2)
    decreases |services|
  {
    if |services| > 0 {
      HoursOfServicesOtherDay(services[1..], dow, h1, h2);
    }
  }

  /** The weekday key of a day, None past the end of the weekday master data. */
  function DowKey(weekdays: seq<string>, day: nat): (r: Option<string>)
    ensures r.Some? <==> Weekday(day) < |weekdays|
    ensures r.Some? ==> r.value == weekdays[Weekday(day)]
  {
    if Weekday(day) < |weekdays| then Some(weekdays[Weekday(day)]) else None
  }

  /** The uncached hours of a day (`d.toDateString() === day.toDateString()` decides today). */
  function DayHoursFor(services: seq<Service>, weekdays: seq<string>, day: Instant, now: Instant): Option<seq<nat>>
  {
    AllHours(services, DowKey(weekdays, DayOf(day)), DayOf(day) == DayOf(now), TodaysHour(now))
  }

  /** Two instants of the same day, both computed on other days, have the same hours. */
  lemma SameDayOtherNow(services: seq<Service>, weekdays: seq<string>, d1: Instant, n1: Instant, d2: Instant, n2: Instant)
    requires DayOf(d1) == DayOf(d2) && DayOf(d1) != DayOf(n1) && DayOf(d2) != DayOf(n2)
    ensures DayHoursFor(services, weekdays, d1, n1) == DayHoursFor(services, weekdays, d2, n2)
  {
    HoursOfServicesOtherDay(services, DowKey(weekdays, DayOf(d1)), TodaysHour(n1), TodaysHour(n2));
  }

  /** The hours of a day with the wrapping `todaysHour` as written are the hours computed here,
      on every day but today and today until 22:30: only there does the correction change them. */
  lemma DayHoursAsWrittenAgree(services: seq<Service>, weekdays: seq<string>, day: Instant, now: Instant)
    requires DayOf(day) != DayOf(now) || now % MinutesPerDay + 90 < MinutesPerDay
    ensures DayHoursFor(services, weekdays, day, now)
      == AllHours(services, DowKey(weekdays, DayOf(day)), DayOf(day) == DayOf(now), TodaysHourAsWritten(now))
  {
    if DayOf(day) != DayOf(now) {
      HoursOfServicesOtherDay(services, DowKey(weekdays, DayOf(day)), TodaysHour(now), TodaysHourAsWritten(now));
    } else {
      var q, r := now / MinutesPerDay, now % MinutesPerDay;
      assert now + 90 == q * MinutesPerDay + (r + 90);
      assert (now + 90) % MinutesPerDay == r + 90;
    }
  }

  /** A closing day: the opening lists its key. */
  predicate IsClosingKey(opening: Opening, key: string)
  {
    opening.closingDays.Some? && key in opening.closingDays.value
  }

  // ---------------------------------------------------------------------------------------------
  // The day list of `getDates`

  /** The instant after t in `getDates`: the next day at 12:00. */
  function NextNoon(t: Instant): (r: Instant)
    ensures r > t && DayOf(r) == DayOf(t) + 1
  {
    NoonDay(DayOf(t) + 1);
    Noon(DayOf(t) + 1)
  }

  /** `getDates(start, stop)`: start, then the following days at 12:00, while not after stop. */
  function DatesBetween(start: Instant, stop: Instant): seq<Instant>
    decreases if start <= stop then stop - start + 1 else 0
  {
    if start > stop then [] else [start] + DatesBetween(NextNoon(start), stop)
  }

  /** The list starts at start, takes one instant per day at noon after it, never passes stop and
      ends with the last such noon not after stop; so it is strictly increasing. */
  lemma {:induction false} DatesBetweenShape(start: Instant, stop: Instant)
    ensures var d := DatesBetween(start, stop);
      (|d| > 0 <==> start <= stop) && (|d| > 0 ==> d[0] == start)
      && (forall i :: 0 <= i < |d| ==> d[i] <= stop && DayOf(d[i]) == DayOf(start) + i)
      && (forall i :: 0 < i < |d| ==> d[i] == Noon(DayOf(start) + i))
      && (|d| > 0 ==> Noon(DayOf(start) + |d|) > stop)
    decreases if start <= stop then stop - start + 1 else 0
  {
    if start <= stop {
      var next := NextNoon(start);
      DatesBetweenShape(next, stop);
      var d := DatesBetween(start, stop);
      var rest := DatesBetween(next, stop);
      assert d == [start] + rest;
      forall i | 0 < i < |d|
        ensures d[i] <= stop && DayOf(d[i]) == DayOf(start) + i && d[i] == Noon(DayOf(start) + i)
      {
        assert d[i] == rest[i - 1];
        if i > 1 {
        } else {
          assert rest[0] == next;
        }
      }
      if |rest| == 0 {
        assert NextNoon(start) == Noon(DayOf(start) + 1);
      }
    }
  }

  /** Instants on later days are later. */
  lemma {:induction false} DatesIncrease(start: Instant, stop: Instant)
    ensures var d := DatesBetween(start, stop);
      forall i, j :: 0 <= i < j < |d| ==> d[i] < d[j] && DayOf(d[i]) < DayOf(d[j])
  {
    DatesBetweenShape(start, stop);
    var d := DatesBetween(start, stop);
    forall i, j | 0 <= i < j < |d| ensures d[i] < d[j] && DayOf(d[i]) < DayOf(d[j]) {
      assert DayOf(d[i]) < DayOf(d[j]);
    }
  }

  /** `getDates`: a loop collecting the day instants from start while not after stop. */
  method GetDates(start: Instant, stop: Instant) returns (dates: seq<Instant>)
    ensures dates == DatesBetween(start, stop)
  {
    dates := [];
    var current := start;
    while current <= stop
      invariant dates + DatesBetween(current, stop) == DatesBetween(start, stop)
      decreases stop - current
    {
      dates := dates + [current];
      current := NextNoon(current);
    }
  }

  // ---------------------------------------------------------------------------------------------
  // The end of the month in `getDisabledDaysInMonth`

  /** The day number of the last day of t's month: `new Date(y, m, 0)` with t's 1-based month m. */
  function LastDayOfMonth(t: Instant): (n: nat)
    ensures FromDayNumber(n) == Date(DateOf(t).year, DateOf(t).month, DaysInMonth(DateOf(t).year, DateOf(t).month))
  {
    var d := DateOf(t);
    MakeDayZero(d.year, d.month);
    MakeDay(d.year, d.month, 0)
  }

  /** A day lies in its month: the last day of the month is that many days later. */
  lemma DayWithinMonth(t: Instant)
    ensures LastDayOfMonth(t) - DayOf(t) == DaysInMonth(DateOf(t).year, DateOf(t).month) - DateOf(t).day
    ensures DayOf(t) <= LastDayOfMonth(t)
  {
    var d := DateOf(t);
    var last := LastDayOfMonth(t);
    FromDayNumberCounts(DayOf(t));
    FromDayNumberCounts(last);
  }

  /** The last instant of stop in the corrected `getDisabledDaysInMonth`: 23:59 on the last day of
      the month of its start. */
  function MonthStop(t: Instant): Instant
  {
    StartOfDay(LastDayOfMonth(t)) + MinutesPerDay - 1
  }

  /** The stop as written: one month later by `setMonth(getMonth() + 1)` (which overflows into the
      month after when the day does not exist), then day 0 of that month at 00:00. */
  function MonthStopAsWritten(t: Instant): Instant
  {
    var d := DateOf(t);
    var next := MakeDay(d.year, d.month, d.day);
    var nd := FromDayNumber(next);
    var last := MakeDay(nd.year, nd.month - 1, 0);
    StartOfDay(if last >= 0 then last else 0)
  }

  /** Up to the 28th one month later is the same day of the next month, and the written stop is
      the last day of the month at 00:00. */
  lemma MonthStopAsWrittenIsMidnight(t: Instant)
    requires DateOf(t).day <= 28
    ensures MonthStopAsWritten(t) == StartOfDay(LastDayOfMonth(t))
  {
    var d := DateOf(t);
    var ny, nm := if d.month == 12 then d.year + 1 else d.year, if d.month == 12 then 1 else d.month + 1;
    var nd := Date(ny, nm, d.day);
    assert ValidDate(nd);
    MakeDayOfDate(nd);
    assert ny * 12 + (nm - 1) == d.year * 12 + d.month;
    assert MakeDay(d.year, d.month, d.day) == DayNumber(nd);
    FromDayNumberOfDate(nd);
    assert MakeDay(ny, nm - 1, 0) == MakeDay(d.year, d.month, 0);
  }

  /** As written the list stops at 00:00 on the last day of the month, so when the start is
      before that day (and up to the 28th) the last day of the month is never listed. */
  lemma MonthAsWrittenMissesLastDay(t: Instant)
    requires DateOf(t).day <= 28 && DayOf(t) < LastDayOfMonth(t)
    ensures forall x :: x in DatesBetween(t, MonthStopAsWritten(t)) ==> DayOf(x) < LastDayOfMonth(t)
  {
    MonthStopAsWrittenIsMidnight(t);
    var stop := MonthStopAsWritten(t);
    DatesBetweenShape(t, stop);
    var d := DatesBetween(t, stop);
    forall x | x in d ensures DayOf(x) < LastDayOfMonth(t) {
      var i :| 0 <= i < |d| && d[i] == x;
      if i > 0 {
        assert x == Noon(DayOf(t) + i);
      }
    }
  }

  /** The corrected list covers the month exactly: one day each from the start's day through the
      last day of its month. */
  lemma MonthDatesCover(t: Instant)
    ensures var d := DatesBetween(t, MonthStop(t));
      |d| == LastDayOfMonth(t) - DayOf(t) + 1
      && forall i :: 0 <= i < |d| ==> DayOf(d[i]) == DayOf(t) + i
  {
    DayWithinMonth(t);
    var stop := MonthStop(t);
    var last := LastDayOfMonth(t);
    assert t <= stop;
    DatesBetweenShape(t, stop);
    var d := DatesBetween(t, stop);
    assert DayOf(d[|d| - 1]) <= last;
    assert Noon(DayOf(t) + |d|) > stop;
  }

  /** Up to the 28th, and before the last day of the month, the dates listed as written are the
      corrected ones without the last day of the month. */
  lemma MonthDatesAsWrittenDropLast(t: Instant)
    requires DateOf(t).day <= 28 && DayOf(t) < LastDayOfMonth(t)
    ensures var c := DatesBetween(t, MonthStop(t));
      |c| >= 1 && DatesBetween(t, MonthStopAsWritten(t)) == c[..|c| - 1]
  {
    MonthDatesCover(t);
    MonthStopAsWrittenIsMidnight(t);
    var last := LastDayOfMonth(t);
    var c := DatesBetween(t, MonthStop(t));
    var d := DatesBetween(t, StartOfDay(last));
    AsWrittenLength(t, last);
    DatesBetweenShape(t, MonthStop(t));
    forall i | 0 <= i < |d| ensures d[i] == c[i] {
      if i == 0 {
        assert d[0] == t == c[0];
      } else {
        assert d[i] == Noon(DayOf(t) + i) == c[i];
      }
    }
  }

  /** The list up to 00:00 of a later day holds one date per day before it. */
  lemma AsWrittenLength(t: Instant, last: nat)
    requires DayOf(t) < last
    ensures |DatesBetween(t, StartOfDay(last))| == last - DayOf(t)
    ensures var d := DatesBetween(t, StartOfDay(last));
      |d| >= 1 && d[0] == t && forall i :: 0 < i < |d| ==> d[i] == Noon(DayOf(t) + i)
  {
    var stop := StartOfDay(last);
    DatesBetweenShape(t, stop);
    var d := DatesBetween(t, stop);
    var k := |d|;
    assert t <= stop;
    assert Noon(DayOf(t) + k) > stop;
    assert DayOf(t) + k >= last;
    if k > 1 {
      assert d[k - 1] == Noon(DayOf(t) + k - 1) <= stop;
      assert DayOf(t) + k - 1 < last;
    }
  }

  // ---------------------------------------------------------------------------------------------
  // The hour list handed to the time picker

  predicate Ascending(s: seq<nat>)
  {
    forall i, j :: 0 <= i < j < |s| ==> s[i] <= s[j]
  }

  /** Inserting into an ascending list keeps it ascending and adds exactly one element. */
  function Insert(x: nat, s: seq<nat>): (r: seq<nat>)
    requires Ascending(s)
    ensures Ascending(r) && multiset(r) == multiset(s) + multiset{x}
    ensures |r| == |s| + 1 && (r[0] == x || (|s| > 0 && r[0] == s[0]))
    decreases |s|
  {
    if |s| == 0 then [x]
    else if x <= s[0] then
      AscendingCons(x, s);
      [x] + s
    else
      var rest := Insert(x, s[1..]);
      assert s == [s[0]] + s[1..];
      AscendingCons(s[0], rest);
      [s[0]] + rest
  }

  /** An element no larger than the head of an ascending list extends it. */
  lemma AscendingCons(h: nat, t: seq<nat>)
    requires Ascending(t) && (|t| > 0 ==> h <= t[0])
    ensures Ascending([h] + t)
  {
    var r := [h] + t;
    forall i, j | 0 <= i < j < |r| ensures r[i] <= r[j] {
      if i > 0 {
        assert r[i] == t[i - 1] && r[j] == t[j - 1];
      } else {
        assert r[j] == t[j - 1] && t[0] <= t[j - 1];
      }
    }
  }

  /** The tail of an ascending list is ascending and holds the other elements. */
  lemma AscendingTail(a: seq<nat>)
    requires Ascending(a) && |a| > 0
    ensures Ascending(a[1..]) && multiset(a[1..]) == multiset(a) - multiset{a[0]}
  {
    assert a == [a[0]] + a[1..];
    var t := a[1..];
    forall i, j | 0 <= i < j < |t| ensures t[i] <= t[j] {
      assert t[i] == a[i + 1] && t[j] == a[j + 1];
    }
  }

  /** The head of an ascending list is its least element. */
  lemma AscendingHeadLeast(a: seq<nat>, y: nat)
    requires Ascending(a) && y in multiset(a)
    ensures a[0] <= y
  {
    var i :| 0 <= i < |a| && a[i] == y;
    assert a[0] <= a[i];
  }

  /** `hours.sort((a, b) => a - b)`: the hours in ascending order, the same hours as before. */
  function SortHours(s: seq<nat>): (r: seq<nat>)
    ensures Ascending(r) && multiset(r) == multiset(s) && |r| == |s|
    decreases |s|
  {
    if |s| == 0 then []
    else
      assert s == [s[0]] + s[1..];
      Insert(s[0], SortHours(s[1..]))
  }

  /** Two ascending lists with the same elements are equal: the sorted list depends only on the
      hours, not on their order. */
  lemma {:induction false} AscendingUnique(a: seq<nat>, b: seq<nat>)
    requires Ascending(a) && Ascending(b) && multiset(a) == multiset(b)
    ensures a == b
    decreases |a|
  {
    assert |a| == |multiset(a)| && |b| == |multiset(b)|;
    if |a| > 0 {
      AscendingHeadsAgree(a, b);
      AscendingTail(a);
      AscendingTail(b);
      AscendingUnique(a[1..], b[1..]);
      assert a == [a[0]] + a[1..] && b == [b[0]] + b[1..];
    }
  }

  /** Two non-empty ascending lists with the same elements start with the same element. */
  lemma AscendingHeadsAgree(a: seq<nat>, b: seq<nat>)
    requires Ascending(a) && Ascending(b) && multiset(a) == multiset(b) && |a| > 0 && |b| > 0
    ensures a[0] == b[0]
  {
    assert a[0] in multiset(b) && b[0] in multiset(a);
    AscendingHeadLeast(a, b[0]);
    AscendingHeadLeast(b, a[0]);
  }

  /** `.map(h => '0'.concat(h.toString()).slice(-2))`. */
  function PadHours(hs: seq<nat>): (r: seq<string>)
    ensures |r| == |hs|
  {
    seq(|hs|, i requires 0 <= i < |hs| => ZeroPad2(hs[i]))
  }

  /** The time-picker configuration `setHourMinuteConfigForDate` builds for a day's hours. */
  function HourConfigFor(hours: seq<nat>): (c: HourMinuteComponentConfig)
  {
    var labels := PadHours(SortHours(hours));
    HourMinuteComponentConfig(false, if |labels| > 0 then Some(labels[0] + ":00") else None,
      None, None, None, Some(labels), Some(Half),
      "BOOKING_COMPONENT.HOUR_TITLE", "BOOKING_COMPONENT.MINUTE_TITLE")
  }

  /** The picker shows the day's hours ascending as two-digit labels, starting at the first one on
      the hour, in half hours; a day without hours shows none. */
  lemma HourConfigShowsHours(hours: seq<nat>)
    requires forall i :: 0 <= i < |hours| ==> hours[i] < 100
    ensures var c := HourConfigFor(hours);
      c.hoursToShow.Some? && |c.hoursToShow.value| == |hours| && c.interval == Some(Half) && !c.bigHourMinute
    ensures var labels := HourConfigFor(hours).hoursToShow.value;
      forall i :: 0 <= i < |labels| ==> |labels[i]| == 2 && AllDigits(labels[i])
    ensures var labels := HourConfigFor(hours).hoursToShow.value;
      forall i, j :: 0 <= i < j < |labels| ==> DigitsValue(labels[i]) <= DigitsValue(labels[j])
    ensures var labels := HourConfigFor(hours).hoursToShow.value;
      multiset(seq(|labels|, i requires 0 <= i < |labels| => DigitsValue(labels[i]))) == multiset(hours)
    ensures var c := HourConfigFor(hours);
      (c.initialValue.Some? <==> |hours| > 0)
      && (|hours| > 0 ==> c.initialValue == Some(c.hoursToShow.value[0] + ":00"))
  {
    var sorted := SortHours(hours);
    var labels := PadHours(sorted);
    forall i | 0 <= i < |sorted| ensures sorted[i] < 100 {
      assert sorted[i] in multiset(hours);
    }
    forall i | 0 <= i < |labels| ensures |labels[i]| == 2 && AllDigits(labels[i]) && DigitsValue(labels[i]) == sorted[i] {
      ZeroPad2RoundTrip(sorted[i]);
    }
    var values := seq(|labels|, i requires 0 <= i < |labels| => DigitsValue(labels[i]));
    assert values == sorted;
    forall i, j | 0 <= i < j < |labels| ensures DigitsValue(labels[i]) <= DigitsValue(labels[j]) {
      assert sorted[i] <= sorted[j];
    }
  }

  /** Reordering the hours of a day (as the in-place sort does to the cached entry) changes
      nothing in the picker configuration. */
  lemma HourConfigIgnoresOrder(a: seq<nat>, b: seq<nat>)
    requires multiset(a) == multiset(b)
    ensures HourConfigFor(a) == HourConfigFor(b)
  {
    AscendingUnique(SortHours(a), SortHours(b));
  }

  /** In the hour picker the configuration selects the first hour; a day without hours falls back
      to the picker's default initial value "08:00". */
  lemma PickerSelectsFirstHour(hours: seq<nat>)
    requires forall i :: 0 <= i < |hours| ==> hours[i] < 100
    ensures var m := Merge(Some(HourConfigFor(hours)));
      HoursOf(m) == HourConfigFor(hours).hoursToShow
      && MinuteLabels(m.interval.value) == ["00", "30"]
      && (|hours| > 0 ==> Split(m.initialValue.value, ':')[0] == HourConfigFor(hours).hoursToShow.value[0])
      && (|hours| == 0 ==> m.initialValue == Some("08:00"))
  {
    HourConfigShowsHours(hours);
    if |hours| > 0 {
      var first := HourConfigFor(hours).hoursToShow.value[0];
      assert ':' !in first by {
        forall i | 0 <= i < |first| ensures first[i] != ':' { assert IsDigit(first[i]); }
      }
      SplitCons(first, ':', "00");
      assert first + ":00" == first + [':'] + "00";
    }
  }

  // ---------------------------------------------------------------------------------------------
  // Submitting

  /** `/^[0-9]{9,9}$/.test(phone)`: the form never stores a phone, and `test(undefined)` tests the
      string "undefined". */
  function PhoneValid(phone: Option<string>): (ok: bool)
    ensures ok <==> phone.Some? && |phone.value| == 9 && AllDigits(phone.value)
  {
    var s := phone.GetOr("undefined");
    assert !IsDigit("undefined"[0]);
    |s| == 9 && AllDigits(s)
  }

  /** The submit gate: a valid phone when one is required. */
  function SubmitAllowed(phoneRequired: bool, phoneValid: bool): (ok: bool)
    ensures ok <==> !phoneRequired || phoneValid
  {
    (phoneRequired && phoneValid) || !phoneRequired
  }

  /** `services.find(p)`: the index of the first service satisfying p, None when none does. */
  function FindService(services: seq<Service>, p: Service -> bool): (r: Option<nat>)
    ensures r.Some? ==> (r.value < |services| && p(services[r.value])
      && forall j :: 0 <= j < r.value ==> !p(services[j]))
    ensures r.None? ==> forall j :: 0 <= j < |services| ==> !p(services[j])
    decreases |services|
  {
    if |services| == 0 then None
    else if p(services[0]) then Some(0)
    else match FindService(services[1..], p)
      case None => None
      case Some(i) => Some(i + 1)
  }

  /** The service lookup as written: `bookHour >= starts_at && bookHour < ends_at` compares the
      hour string with the full "HH:MM" strings. */
  function ResolveAsWritten(services: seq<Service>, time: string): Option<nat>
  {
    var bookHour := Split(time, ':')[0];
    FindService(services, (s: Service) => !LexLess(bookHour, s.startsAt) && LexLess(bookHour, s.endsAt))
  }

  /** A service's hours contain h: the ones the engine offers for it. */
  predicate ServesHour(s: Service, h: nat)
  {
    HourOf(s.startsAt).Some? && HourOf(s.endsAt).Some? && HourOf(s.startsAt).value <= h < HourOf(s.endsAt).value
  }

  /** The service lookup as evidently intended: the first service whose hours contain the booked
      hour, compared as numbers. */
  function Resolve(services: seq<Service>, time: string): Option<nat>
  {
    match HourOf(time)
    case None => None
    case Some(h) => FindService(services, (s: Service) => ServesHour(s, h))
  }

  /** "12" sorts before "12:00", so the first hour of a service starting at 12:00 finds no
      service as written; the intended lookup finds it. */
  lemma FirstHourMissedAsWritten()
    ensures var s := Service("lunch", true, None, "12:00", "16:00");
      ResolveAsWritten([s], "12:00").None? && Resolve([s], "12:00") == Some(0)
  {
    FirstHourNotFoundAsWritten();
    FirstHourFound();
  }

  /** As written, "12" is not at or after "12:00", so the lunch service is skipped. */
  lemma FirstHourNotFoundAsWritten()
    ensures ResolveAsWritten([Service("lunch", true, None, "12:00", "16:00")], "12:00").None?
  {
    SplitCons("12", ':', "00");
    assert "12:00" == "12" + [':'] + "00";
    SplitNoSep("00", ':');
    ProperPrefixIsLess("12", "12:00");
  }

  /** Compared as numbers, hour 12 is within 12:00 to 16:00. */
  lemma FirstHourFound()
    ensures Resolve([Service("lunch", true, None, "12:00", "16:00")], "12:00") == Some(0)
  {
    var s := Service("lunch", true, None, "12:00", "16:00");
    HourOfNoon();
    assert ServesHour(s, 12);
    var p := (s: Service) => ServesHour(s, 12);
    assert p([s][0]);
  }

  /** Every hour the engine offers for a service with a readable start finds a service when it is
      booked: the shown label, a ':' and any minutes resolve. */
  lemma OfferedHourResolves(services: seq<Service>, i: nat, dow: Option<string>, isToday: bool, th: nat, x: nat, minute: string)
    requires i < |services| && x < 100 && HourOf(services[i].startsAt).Some?
    requires ServiceHours(services[i], dow, isToday, th).Some? && x in ServiceHours(services[i], dow, isToday, th).value
    ensures Resolve(services, ZeroPad2(x) + ":" + minute).Some?
  {
    HourOfPadded(x, minute);
    var s := services[i];
    var r := ServiceHours(s, dow, isToday, th).value;
    var k :| 0 <= k < |r| && r[k] == x;
    assert ServesHour(s, x);
  }

  // ---------------------------------------------------------------------------------------------
  // The cache

  /** The date the booking is for: `undefined`, an invalid `Date`, or an instant. */
  datatype BookingDay = Unset | InvalidDate | At(t: Instant)

  datatype BookingState = NotSubmitted | Submitting | SubmittedOk | SubmittedKo

  datatype RestaurantStatus = StatusOk | InfoPending | NotLoaded

  /** The restaurant record of the restaurant query. */
  datatype RestData = RestData(opening: Option<Opening>, services: Option<seq<Service>>)

  /** The restaurant query's outcome: an error, or data whose `getRestaurantById` may be null. */
  datatype QueryResult = QueryFailed | Fetched(restaurant: Option<RestData>)

  /** The booking request sent on submit; the notes are never filled in and are left out. */
  datatype BookRequest = BookRequest(restId: string, madeOn: Instant, bookDate: Instant, numPax: nat,
    channel: string, service: string)

  /** What a cache entry was computed from: the day asked for, the time then and the weekdays. */
  datatype Computed = Computed(day: Instant, now: Instant, weekdays: seq<string>)

  /** The answer of `_getOpeningHoursForDay`: the cached entry of the day's key; else empty hours
      on a closing day; else the computed hours. None when it throws (no restaurant loaded yet,
      or the computation throws). */
  function DayAnswer(cache: map<string, DayHours>, opening: Option<Opening>, services: seq<Service>,
                     weekdays: seq<string>, day: Instant, now: Instant): (r: Option<DayHours>)
    ensures opening.None? ==> r.None?
    ensures opening.Some? && InstantKey(day) in cache ==> r == Some(cache[InstantKey(day)])
    ensures opening.Some? && InstantKey(day) !in cache && IsClosingKey(opening.value, InstantKey(day))
      ==> r == Some(DayHours(day, []))
  {
    if opening.None? then None
    else
      var key := InstantKey(day);
      if key in cache then Some(cache[key])
      else if IsClosingKey(opening.value, key) then Some(DayHours(day, []))
      else match DayHoursFor(services, weekdays, day, now)
        case None => None
        case Some(h) => Some(DayHours(day, h))
  }

  /** An entry agrees with the computation it came from, up to the order of its hours, and is not
      for a closing day. */
  ghost predicate Entry(cache: map<string, DayHours>, computed: map<string, Computed>,
                        opening: Option<Opening>, services: seq<Service>, k: string)
  {
    k in cache && k in computed && InstantKey(computed[k].day) == k && cache[k].day == computed[k].day
    && opening.Some? && !IsClosingKey(opening.value, k)
    && var h := DayHoursFor(services, computed[k].weekdays, computed[k].day, computed[k].now);
       h.Some? && multiset(cache[k].hours) == multiset(h.value)
  }

  ghost predicate ValidCache(cache: map<string, DayHours>, computed: map<string, Computed>,
                             opening: Option<Opening>, services: seq<Service>)
  {
    computed.Keys == cache.Keys
    && forall k {:trigger Entry(cache, computed, opening, services, k)} :: k in computed ==> Entry(cache, computed, opening, services, k)
  }

  /** The cache is transparent for days that are not today, when the entry was not computed on its
      own day and with the same weekdays: cached and uncached answers agree up to order. */
  lemma CacheTransparent(cache: map<string, DayHours>, computed: map<string, Computed>, opening: Option<Opening>,
                         services: seq<Service>, weekdays: seq<string>, day: Instant, now: Instant)
    requires ValidCache(cache, computed, opening, services)
    requires DayOf(day) != DayOf(now)
    requires InstantKey(day) in computed ==> (computed[InstantKey(day)].weekdays == weekdays
      && DayOf(computed[InstantKey(day)].day) != DayOf(computed[InstantKey(day)].now))
    ensures var a, u := DayAnswer(cache, opening, services, weekdays, day, now),
                        DayAnswer(map[], opening, services, weekdays, day, now);
      (a.Some? <==> u.Some?)
      && (a.Some? ==> (multiset(a.value.hours) == multiset(u.value.hours) && DayOf(a.value.day) == DayOf(day)))
  {
    var key := InstantKey(day);
    if key in cache {
      assert Entry(cache, computed, opening, services, key);
      var c := computed[key];
      InstantKeySameDay(c.day, day);
      SameDayOtherNow(services, weekdays, c.day, c.now, day, now);
    }
  }

  /** A closing day has no hours, cached or not. */
  lemma ClosingDayHasNoHours(cache: map<string, DayHours>, computed: map<string, Computed>, opening: Opening,
                             services: seq<Service>, weekdays: seq<string>, day: Instant, now: Instant)
    requires ValidCache(cache, computed, Some(opening), services)
    requires IsClosingKey(opening, InstantKey(day))
    ensures DayAnswer(cache, Some(opening), services, weekdays, day, now) == Some(DayHours(day, []))
  {
    CachedDaysOpen(cache, computed, Some(opening), services);
  }

  /** Only days of a loaded restaurant that are not closing days are ever cached. */
  lemma CachedDaysOpen(cache: map<string, DayHours>, computed: map<string, Computed>,
                       opening: Option<Opening>, services: seq<Service>)
    requires ValidCache(cache, computed, opening, services)
    ensures forall k :: k in cache ==> opening.Some? && !IsClosingKey(opening.value, k)
  {
    forall k | k in cache ensures opening.Some? && !IsClosingKey(opening.value, k) {
      assert Entry(cache, computed, opening, services, k);
    }
  }

  /** Answers only depend on the entry of the day's own key. */
  lemma AnswerSame(c1: map<string, DayHours>, c2: map<string, DayHours>, opening: Option<Opening>,
                   services: seq<Service>, weekdays: seq<string>, day: Instant, now: Instant)
    requires InstantKey(day) in c1 <==> InstantKey(day) in c2
    requires InstantKey(day) in c1 ==> c1[InstantKey(day)] == c2[InstantKey(day)]
    ensures DayAnswer(c1, opening, services, weekdays, day, now) == DayAnswer(c2, opening, services, weekdays, day, now)
  {
  }

  /** `getDisabledDaysInMonth`'s `.filter(dh => dh.hours.length === 0).map(dh => dh.day)` over the
      answers for the listed days; None when one of them throws. */
  function EmptyDays(cache: map<string, DayHours>, opening: Option<Opening>, services: seq<Service>,
                     weekdays: seq<string>, days: seq<Instant>, now: Instant): (r: Option<seq<Instant>>)
    ensures r.Some? ==> |r.value| <= |days|
    decreases |days|
  {
    if |days| == 0 then Some([])
    else
      var last := days[|days| - 1];
      match (EmptyDays(cache, opening, services, weekdays, days[..|days| - 1], now),
             DayAnswer(cache, opening, services, weekdays, last, now))
      case (Some(acc), Some(a)) => Some(if |a.hours| == 0 then acc + [a.day] else acc)
      case _ => None
  }

  /** Once one day throws, so do all the longer lists. */
  lemma {:induction false} EmptyDaysStaysNone(cache: map<string, DayHours>, opening: Option<Opening>, services: seq<Service>,
                                             weekdays: seq<string>, days: seq<Instant>, i: nat, now: Instant)
    requires i <= |days| && EmptyDays(cache, opening, services, weekdays, days[..i], now).None?
    ensures EmptyDays(cache, opening, services, weekdays, days, now).None?
    decreases |days| - i
  {
    if i < |days| {
      assert days[..i + 1][..i] == days[..i];
      EmptyDaysStaysNone(cache, opening, services, weekdays, days, i + 1, now);
    } else {
      assert days[..i] == days;
    }
  }

  /** On a fresh cache the disabled days are exactly the listed days without hours, and the list
      is defined exactly when every day's answer is. */
  lemma EmptyDaysFresh(opening: Option<Opening>, services: seq<Service>, weekdays: seq<string>,
                       days: seq<Instant>, now: Instant)
    ensures var r := EmptyDays(map[], opening, services, weekdays, days, now);
      (r.Some? <==> forall i :: 0 <= i < |days| ==> DayAnswer(map[], opening, services, weekdays, days[i], now).Some?)
      && (r.Some? ==> forall t :: t in r.value <==>
           t in days && DayAnswer(map[], opening, services, weekdays, t, now).value.hours == [])
  {
    EmptyDaysFreshDefined(opening, services, weekdays, days, now);
    if EmptyDays(map[], opening, services, weekdays, days, now).Some? {
      EmptyDaysFreshMembers(opening, services, weekdays, days, now);
    }
  }

  /** On a fresh cache the list is defined exactly when every day's answer is. */
  lemma {:induction false} EmptyDaysFreshDefined(opening: Option<Opening>, services: seq<Service>, weekdays: seq<string>,
                                                days: seq<Instant>, now: Instant)
    ensures EmptyDays(map[], opening, services, weekdays, days, now).Some? <==>
      forall i :: 0 <= i < |days| ==> DayAnswer(map[], opening, services, weekdays, days[i], now).Some?
    decreases |days|
  {
    if |days| > 0 {
      var init := days[..|days| - 1];
      EmptyDaysFreshDefined(opening, services, weekdays, init, now);
      assert forall i :: 0 <= i < |init| ==> init[i] == days[i];
    }
  }

  /** On a fresh cache a defined list holds exactly the listed days without hours. */
  lemma {:induction false} EmptyDaysFreshMembers(opening: Option<Opening>, services: seq<Service>, weekdays: seq<string>,
                                                days: seq<Instant>, now: Instant)
    requires EmptyDays(map[], opening, services, weekdays, days, now).Some?
    ensures forall t :: t in EmptyDays(map[], opening, services, weekdays, days, now).value <==>
      t in days && DayAnswer(map[], opening, services, weekdays, t, now).Some?
      && DayAnswer(map[], opening, services, weekdays, t, now).value.hours == []
    decreases |days|
  {
    if |days| > 0 {
      var init := days[..|days| - 1];
      var last := days[|days| - 1];
      EmptyDaysFreshMembers(opening, services, weekdays, init, now);
      FreshAnswerIsForDay(opening, services, weekdays, last, now);
      var acc := EmptyDays(map[], opening, services, weekdays, init, now).value;
      var a := DayAnswer(map[], opening, services, weekdays, last, now).value;
      var r := EmptyDays(map[], opening, services, weekdays, days, now).value;
      assert r == if |a.hours| == 0 then acc + [last] else acc;
      assert forall t :: t in days <==> t in init || t == last by {
        assert days == init + [last];
      }
      assert forall t :: t in r <==> t in acc || (t == last && a.hours == []);
    }
  }

  /** An answer computed without a cache is about the day asked for. */
  lemma FreshAnswerIsForDay(opening: Option<Opening>, services: seq<Service>, weekdays: seq<string>,
                            day: Instant, now: Instant)
    ensures var a := DayAnswer(map[], opening, services, weekdays, day, now); a.Some? ==> a.value.day == day
  {
  }

  /** The instant the calendar starts from: the month of `initialDay` is compared with the
      current one (the month number only), and in the current month the start is 1h30 ahead. */
  function CalendarStart(initialDay: Instant, now: Instant): (t: Instant)
    ensures DateOf(initialDay).month == DateOf(now).month ==> t == now + 90
    ensures DateOf(initialDay).month != DateOf(now).month ==> t == initialDay
  {
    if DateOf(initialDay).month == DateOf(now).month then now + 90 else initialDay
  }

  /** The booking day after `setHours(+hour, +minutes, 0, 0)`: the day's midnight plus the given
      hours and minutes (an overflow runs into the next days), or an invalid date when a part
      reads as NaN. */
  function WithTime(t: Instant, time: string): (d: BookingDay)
    ensures d.At? <==> (JsNumber(Split(time, ':')[0]).Some? && Piece(time, ':', 1).Some?
      && JsNumber(Piece(time, ':', 1).value).Some?)
    ensures d.InvalidDate? <==> !d.At?
  {
    var parts := Split(time, ':');
    match (JsNumber(parts[0]), Piece(time, ':', 1))
    case (Some(h), Some(m)) =>
      (match JsNumber(m)
       case Some(mm) => At(StartOfDay(DayOf(t)) + h * 60 + mm)
       case None => InvalidDate)
    case _ => InvalidDate
  }

  /** The calendar configuration: a compact single-selection calendar from `start`, with the
      restaurant's weekdays enabled and the given days disabled. */
  function CalendarConfigFor(start: Instant, disabled: seq<Instant>, opening: Opening): CalendarComponentConfig
  {
    CalendarComponentConfig(Some(false), Some(start), Some(false), None, Some(disabled), opening.openWeekdays, Some(false))
  }

  /** A picked time of the shown form "HH:MM" keeps the day and sets its time of day. */
  lemma WithTimeKeepsDay(t: Instant, h: nat, m: nat)
    requires h < 24 && m < 60
    ensures var d := WithTime(t, ZeroPad2(h) + ":" + ZeroPad2(m));
      d.At? && DayOf(d.t) == DayOf(t) && d.t % MinutesPerDay == h * 60 + m
  {
    ZeroPad2RoundTrip(h);
    ZeroPad2RoundTrip(m);
    var hs, ms := ZeroPad2(h), ZeroPad2(m);
    assert ':' !in hs by { assert forall i :: 0 <= i < |hs| ==> IsDigit(hs[i]); }
    assert ':' !in ms by { assert forall i :: 0 <= i < |ms| ==> IsDigit(ms[i]); }
    SplitCons(hs, ':', ms);
    SplitNoSep(ms, ':');
    assert hs + ":" + ms == hs + [':'] + ms;
    var v := StartOfDay(DayOf(t)) + h * 60 + m;
    assert v == DayOf(t) * MinutesPerDay + (h * 60 + m);
  }

  /** `MakeBookingComponent`. The clock (`new Date()`), the weekday master data and the outcome of
      the booking mutation are parameters of the methods that read them. */
  class MakeBookingWidget {
    var restId: string
    /** `bookingInfo`: day, time, guests, phone (never filled in by the form) and its flag. */
    var bookingDay: BookingDay
    var bookingTime: string
    var pax: nat
    var phone: Option<string>
    var phoneChanged: bool
    var userPhoneValid: bool
    /** `phone_required`, never assigned: falsy. */
    var phoneRequired: bool
    /** The loaded restaurant; None while `opening` is undefined. */
    var opening: Option<Opening>
    var services: seq<Service>
    /** `openHoursPerDay`, keyed by "Y/M/D". */
    var cache: map<string, DayHours>
    /** What each cached entry was computed from. */
    ghost var computed: map<string, Computed>
    var calendarConfig: Option<CalendarComponentConfig>
    var hourMinuteConfig: Option<HourMinuteComponentConfig>
    var showHourMinute: bool
    var showCalendar: bool
    var showTime: bool
    var showPax: bool
    var bookingState: BookingState
    var restaurantStatus: RestaurantStatus

    /** Every cached entry holds the day's computed hours, up to order. */
    ghost predicate CacheValid()
      reads this`cache, this`computed, this`opening, this`services
    {
      ValidCache(cache, computed, opening, services)
    }

    /** The constructor: two guests, the booking one hour from now and its hour as the time
        ("H:00", no padding), nothing shown, not submitted, no restaurant loaded. */
    constructor (restid: string, now: Instant)
      ensures restId == restid && pax == 2 && bookingDay == At(now + 60)
      ensures bookingTime == NatToString(((now + 60) % MinutesPerDay) / 60) + ":00"
      ensures phone.None? && !phoneChanged && !userPhoneValid && !phoneRequired
      ensures opening.None? && services == [] && cache == map[] && CacheValid()
      ensures calendarConfig.None? && hourMinuteConfig.None? && !showHourMinute
      ensures !showCalendar && !showTime && !showPax
      ensures bookingState == NotSubmitted && restaurantStatus == NotLoaded
    {
      restId := restid;
      bookingDay := At(now + 60);
      bookingTime := NatToString(((now + 60) % MinutesPerDay) / 60) + ":00";
      pax := 2;
      phone := None;
      phoneChanged := false;
      userPhoneValid := false;
      phoneRequired := false;
      opening := None;
      services := [];
      cache := map[];
      computed := map[];
      calendarConfig := None;
      hourMinuteConfig := None;
      showHourMinute := false;
      showCalendar, showTime, showPax := false, false, false;
      bookingState := NotSubmitted;
      restaurantStatus := NotLoaded;
    }

    /** `_getOpeningHoursForDay`: answers as `DayAnswer` on the cache before the call, and stores
        a computed answer under the day's key (closing days are answered, not stored). */
    method GetOpeningHoursForDay(day: Instant, now: Instant, weekdays: seq<string>) returns (r: Option<DayHours>)
      requires CacheValid()
      modifies this`cache, this`computed
      ensures CacheValid()
      ensures r == DayAnswer(old(cache), opening, services, weekdays, day, now)
      ensures cache == (if r.Some? && opening.Some? && InstantKey(day) !in old(cache)
                          && !IsClosingKey(opening.value, InstantKey(day))
                        then old(cache)[InstantKey(day) := r.value] else old(cache))
    {
      if opening.None? {
        return None;
      }
      var key := InstantKey(day);
      if key in cache {
        return Some(cache[key]);
      }
      if IsClosingKey(opening.value, key) {
        return Some(DayHours(day, []));
      }
      var h := DayHoursFor(services, weekdays, day, now);
      if h.None? {
        return None;
      }
      r := Some(DayHours(day, h.value));
      ghost var c0, m0 := cache, computed;
      cache := cache[key := r.value];
      computed := computed[key := Computed(day, now, weekdays)];
      NoonDay(DayOf(day));
      forall k | k in computed ensures Entry(cache, computed, opening, services, k) {
        if k != key {
          assert Entry(c0, m0, opening, services, k);
        }
      }
    }

    /** The loop of `getDisabledDaysInMonth` over days in increasing order: the days whose answer
        has no hours, None when an answer throws. Entries already cached stay as they are. */
    method DisabledAmong(days: seq<Instant>, now: Instant, weekdays: seq<string>) returns (r: Option<seq<Instant>>)
      requires CacheValid()
      requires forall i, j :: 0 <= i < j < |days| ==> DayOf(days[i]) < DayOf(days[j])
      modifies this`cache, this`computed
      ensures CacheValid()
      ensures r == EmptyDays(old(cache), opening, services, weekdays, days, now)
      ensures forall k :: k in old(cache) ==> k in cache && cache[k] == old(cache)[k]
    {
      var acc: seq<Instant> := [];
      var i := 0;
      while i < |days|
        invariant 0 <= i <= |days|
        invariant CacheValid()
        invariant EmptyDays(old(cache), opening, services, weekdays, days[..i], now) == Some(acc)
        invariant forall k :: k in old(cache) ==> k in cache && cache[k] == old(cache)[k]
        invariant forall j :: i <= j < |days| ==> (InstantKey(days[j]) in cache <==> InstantKey(days[j]) in old(cache))
      {
        ghost var before := cache;
        AnswerSame(old(cache), before, opening, services, weekdays, days[i], now);
        var a := GetOpeningHoursForDay(days[i], now, weekdays);
        assert days[..i + 1][..i] == days[..i];
        if a.None? {
          EmptyDaysStaysNone(old(cache), opening, services, weekdays, days, i + 1, now);
          return None;
        }
        if |a.value.hours| == 0 {
          acc := acc + [a.value.day];
        }
        forall j | i + 1 <= j < |days|
          ensures InstantKey(days[j]) in cache <==> InstantKey(days[j]) in old(cache)
        {
          InstantKeySameDay(days[i], days[j]);
        }
        i := i + 1;
      }
      assert days[..i] == days;
      r := Some(acc);
    }

    /** `getDisabledDaysInMonth` with the corrected stop: the days from `from` to the end of its
        month that have no hours. */
    method GetDisabledDaysInMonth(from: Instant, now: Instant, weekdays: seq<string>) returns (r: Option<seq<Instant>>)
      requires CacheValid()
      modifies this`cache, this`computed
      ensures CacheValid()
      ensures r == EmptyDays(old(cache), opening, services, weekdays, DatesBetween(from, MonthStop(from)), now)
      ensures forall k :: k in old(cache) ==> k in cache && cache[k] == old(cache)[k]
    {
      var days := GetDates(from, MonthStop(from));
      DatesIncrease(from, MonthStop(from));
      r := DisabledAmong(days, now, weekdays);
    }

    /** `setCalendarConfigFromDate`: the calendar of the start's month, its days without hours
        disabled, and no time picker until a day is chosen. Nothing is configured when the
        restaurant is not loaded or a day's answer throws. */
    method SetCalendarConfigFromDate(initialDay: Instant, now: Instant, weekdays: seq<string>) returns (ok: bool)
      requires CacheValid()
      modifies this`cache, this`computed, this`calendarConfig, this`hourMinuteConfig, this`showHourMinute
      ensures CacheValid()
      ensures var start := CalendarStart(initialDay, now);
        var d := EmptyDays(old(cache), opening, services, weekdays, DatesBetween(start, MonthStop(start)), now);
        (ok <==> opening.Some? && d.Some?)
        && (ok ==> calendarConfig == Some(CalendarConfigFor(start, d.value, opening.value))
                   && hourMinuteConfig.None? && !showHourMinute)
        && (!ok ==> calendarConfig == old(calendarConfig) && hourMinuteConfig == old(hourMinuteConfig)
                    && showHourMinute == old(showHourMinute))
      ensures forall k :: k in old(cache) ==> k in cache && cache[k] == old(cache)[k]
    {
      var start := CalendarStart(initialDay, now);
      var d := GetDisabledDaysInMonth(start, now, weekdays);
      if opening.None? || d.None? {
        return false;
      }
      calendarConfig := Some(CalendarConfigFor(start, d.value, opening.value));
      hourMinuteConfig := None;
      showHourMinute := false;
      ok := true;
    }

    /** `componentWillLoad`'s handling of the restaurant query: a failed query marks the
        restaurant not loaded; a null restaurant throws and changes nothing; a restaurant with an
        opening and services is stored with an empty cache and its calendar is configured from
        1h30 ahead (the status is OK however that goes); one without is marked pending. */
    method Load(result: QueryResult, now: Instant, weekdays: seq<string>)
      requires CacheValid()
      modifies this`opening, this`services, this`cache, this`computed, this`calendarConfig,
        this`hourMinuteConfig, this`showHourMinute, this`restaurantStatus
      ensures CacheValid()
      ensures result.QueryFailed? ==> (restaurantStatus == NotLoaded && opening == old(opening)
        && services == old(services) && cache == old(cache) && calendarConfig == old(calendarConfig))
      ensures result == Fetched(None) ==> (restaurantStatus == old(restaurantStatus) && opening == old(opening)
        && services == old(services) && cache == old(cache) && calendarConfig == old(calendarConfig))
      ensures result.Fetched? && result.restaurant.Some? ==>
        var rd := result.restaurant.value;
        if rd.opening.Some? && rd.services.Some? && |rd.services.value| > 0 then
          var start := now + 90;
          var d := EmptyDays(map[], opening, services, weekdays, DatesBetween(start, MonthStop(start)), now);
          restaurantStatus == StatusOk && opening == rd.opening && services == rd.services.value
          && (d.Some? ==> calendarConfig == Some(CalendarConfigFor(start, d.value, rd.opening.value))
                          && hourMinuteConfig.None? && !showHourMinute)
          && (d.None? ==> calendarConfig == old(calendarConfig) && hourMinuteConfig == old(hourMinuteConfig)
                          && showHourMinute == old(showHourMinute))
        else
          restaurantStatus == InfoPending && opening == old(opening) && services == old(services)
          && cache == old(cache) && calendarConfig == old(calendarConfig)
    {
      match result
      case QueryFailed =>
        restaurantStatus := NotLoaded;
      case Fetched(None) =>
      case Fetched(Some(rd)) =>
        if rd.opening.Some? && rd.services.Some? && |rd.services.value| > 0 {
          opening := rd.opening;
          services := rd.services.value;
          cache := map[];
          computed := map[];
          var ok := SetCalendarConfigFromDate(now + 90, now, weekdays);
          restaurantStatus := StatusOk;
        } else {
          restaurantStatus := InfoPending;
        }
    }
  
    /** `setHourMinuteConfigForDate`: the time picker shows the hours of the chosen day. The
        cached entry (the very array the answer returned) is sorted in place, which keeps the
        cache valid. Nothing changes beyond the cache when no day is chosen or the answer throws. */
    method SetHourMinuteConfigForDate(date: Option<Instant>, now: Instant, weekdays: seq<string>) returns (ok: bool)
      requires CacheValid()
      modifies this`cache, this`computed, this`hourMinuteConfig, this`showHourMinute
      ensures CacheValid()
      ensures var a := if date.Some? then DayAnswer(old(cache), opening, services, weekdays, date.value, now) else None;
        (ok <==> a.Some?)
        && (ok ==> hourMinuteConfig == Some(HourConfigFor(a.value.hours)) && showHourMinute)
        && (!ok ==> hourMinuteConfig == old(hourMinuteConfig) && showHourMinute == old(showHourMinute))
        && (ok && InstantKey(date.value) in cache ==>
              cache[InstantKey(date.value)] == DayHours(a.value.day, SortHours(a.value.hours)))
      ensures forall k :: k in old(cache) && (date.None? || k != InstantKey(date.value)) ==> k in cache && cache[k] == old(cache)[k]
      ensures cache.Keys <= old(cache).Keys + (if date.Some? then {InstantKey(date.value)} else {})
    {
      if date.None? {
        return false;
      }
      var r := GetOpeningHoursForDay(date.value, now, weekdays);
      if r.None? {
        return false;
      }
      var key := InstantKey(date.value);
      if key in cache {
        assert cache[key] == r.value;
        SortCachedEntry(key);
      }
      hourMinuteConfig := Some(HourConfigFor(r.value.hours));
      showHourMinute := true;
      ok := true;
    }

    /** `dayHours.hours.sort(...)` on the cached array: the entry's hours, ascending. */
    method SortCachedEntry(key: string)
      requires CacheValid() && key in cache
      modifies this`cache
      ensures CacheValid()
      ensures cache == old(cache)[key := DayHours(old(cache)[key].day, SortHours(old(cache)[key].hours))]
    {
      ghost var c0 := cache;
      cache := cache[key := DayHours(cache[key].day, SortHours(cache[key].hours))];
      forall k | k in computed ensures Entry(cache, computed, opening, services, k) {
        assert Entry(c0, computed, opening, services, k);
      }
    }

    /** `onMonthChange`: the calendar of the new month, and no time picker. */
    method OnMonthChange(firstDoM: Instant, now: Instant, weekdays: seq<string>) returns (ok: bool)
      requires CacheValid()
      modifies this`cache, this`computed, this`calendarConfig, this`hourMinuteConfig, this`showHourMinute
      ensures CacheValid()
      ensures var start := CalendarStart(firstDoM, now);
        var d := EmptyDays(old(cache), opening, services, weekdays, DatesBetween(start, MonthStop(start)), now);
        (ok <==> opening.Some? && d.Some?)
        && (ok ==> calendarConfig == Some(CalendarConfigFor(start, d.value, opening.value)))
        && (!ok ==> calendarConfig == old(calendarConfig))
      ensures hourMinuteConfig.None? && !showHourMinute
    {
      ok := SetCalendarConfigFromDate(firstDoM, now, weekdays);
      hourMinuteConfig := None;
      showHourMinute := false;
    }

    method ToggleCalendarShow()
      modifies this`showCalendar
      ensures showCalendar == !old(showCalendar)
    {
      showCalendar := !showCalendar;
    }

    method ToggleTimeShow()
      modifies this`showTime
      ensures showTime == !old(showTime)
    {
      showTime := !showTime;
    }

    method TogglePaxShow()
      modifies this`showPax
      ensures showPax == !old(showPax)
    {
      showPax := !showPax;
    }

    /** `setPax`: stores the guests and toggles the guests list. */
    method SetPax(numPax: nat)
      modifies this`pax, this`showPax
      ensures pax == numPax && showPax == !old(showPax)
    {
      pax := numPax;
      TogglePaxShow();
    }

    /** `onCalendarChange`: the last selected day (none when the selection is empty) becomes
        the booking day, the time picker is configured for it and the calendar is toggled. */
    method OnCalendarChange(days: seq<Instant>, now: Instant, weekdays: seq<string>) returns (ok: bool)
      requires CacheValid()
      modifies this`bookingDay, this`cache, this`computed, this`hourMinuteConfig, this`showHourMinute, this`showCalendar
      ensures CacheValid()
      ensures bookingDay == (if |days| > 0 then At(days[|days| - 1]) else Unset)
      ensures showCalendar == !old(showCalendar)
      ensures |days| == 0 ==> !ok && hourMinuteConfig == old(hourMinuteConfig)
      ensures |days| > 0 ==>
        var a := DayAnswer(old(cache), opening, services, weekdays, days[|days| - 1], now);
        (ok <==> a.Some?) && (ok ==> hourMinuteConfig == Some(HourConfigFor(a.value.hours)) && showHourMinute)
    {
      var selected := if |days| > 0 then Some(days[|days| - 1]) else None;
      bookingDay := if selected.Some? then At(selected.value) else Unset;
      ok := SetHourMinuteConfigForDate(selected, now, weekdays);
      ToggleCalendarShow();
    }

    /** `onHourMinuteChange`: stores the time and sets the booking day's hours and minutes; with
        no booking day `setHours` throws before the time list is toggled. */
    method OnHourMinuteChange(time: string) returns (ok: bool)
      modifies this`bookingTime, this`bookingDay, this`showTime
      ensures bookingTime == time
      ensures ok <==> old(bookingDay) != Unset
      ensures old(bookingDay).Unset? ==> bookingDay == Unset && showTime == old(showTime)
      ensures old(bookingDay).InvalidDate? ==> bookingDay == InvalidDate && showTime == !old(showTime)
      ensures old(bookingDay).At? ==> bookingDay == WithTime(old(bookingDay).t, time) && showTime == !old(showTime)
    {
      bookingTime := time;
      if bookingDay.Unset? {
        return false;
      }
      if bookingDay.At? {
        bookingDay := WithTime(bookingDay.t, time);
      }
      ToggleTimeShow();
      ok := true;
    }

    /** `onPhoneChange`: marks the phone as changed and tests it against nine digits. */
    method OnPhoneChange()
      modifies this`phoneChanged, this`userPhoneValid
      ensures phoneChanged
      ensures userPhoneValid <==> phone.Some? && |phone.value| == 9 && AllDigits(phone.value)
    {
      phoneChanged := true;
      userPhoneValid := PhoneValid(phone);
    }

    /** `submitBooking` with the corrected service lookup: past the phone gate the state becomes
        submitting; the request is built from a valid booking day and the first service whose
        hours hold the booked hour, else it throws and stays submitting; the mutation's outcome
        decides the final state. */
    method SubmitBooking(now: Instant, mutationOk: bool) returns (request: Option<BookRequest>)
      modifies this`bookingState
      ensures !SubmitAllowed(phoneRequired, userPhoneValid) ==> request.None? && bookingState == old(bookingState)
      ensures SubmitAllowed(phoneRequired, userPhoneValid) && (!bookingDay.At? || Resolve(services, bookingTime).None?)
        ==> request.None? && bookingState == Submitting
      ensures SubmitAllowed(phoneRequired, userPhoneValid) && bookingDay.At? && Resolve(services, bookingTime).Some? ==>
        var i := Resolve(services, bookingTime).value;
        request == Some(BookRequest(restId, now, bookingDay.t, pax, "external_web", services[i].rsId))
        && bookingState == (if mutationOk then SubmittedOk else SubmittedKo)
    {
      if !SubmitAllowed(phoneRequired, userPhoneValid) {
        return None;
      }
      bookingState := Submitting;
      if !bookingDay.At? {
        return None;
      }
      var found := Resolve(services, bookingTime);
      if found.None? {
        return None;
      }
      request := Some(BookRequest(restId, now, bookingDay.t, pax, "external_web", services[found.value].rsId));
      bookingState := if mutationOk then SubmittedOk else SubmittedKo;
    }
  }
}
