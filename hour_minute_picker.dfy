/** The time list the booking form renders (src/components/make-booking/hour-minute.tsx): like the
    component picker, but it always lists every time and reports the chosen one to its owner. */
module HourMinutePicker {
  import opened Wrappers
  import opened Strings
  import opened TimeLists

  /** `HourMinuteConfig`; None is an optional key that is absent. */
  datatype HourMinuteConfig = HourMinuteConfig(
    initialValue: Option<string>,
    from: Option<string>,
    to: Option<string>,
    showAllHours: Option<bool>,
    hoursToShow: Option<seq<string>>,
    interval: Option<MinutesInterval>,
    hourHeaderTranslateKey: string,
    minuteHeaderTranslateKey: string)

  /** `defaultHourMinuteConfig`. */
  const Default := HourMinuteConfig(Some("08:00"), Some("00:00"), Some("23:00"), Some(true), None,
    Some(Quarterly), "", "")

  /** A configuration in which every key the picker reads is present. */
  predicate Complete(c: HourMinuteConfig)
  {
    c.initialValue.Some? && c.from.Some? && c.to.Some? && c.showAllHours.Some? && c.interval.Some?
  }

  /** `{...defaultHourMinuteConfig, ...config}`. */
  function Merge(config: Option<HourMinuteConfig>): (m: HourMinuteConfig)
    ensures Complete(m)
    ensures config.None? ==> m == Default
    ensures config.Some? ==>
      m.initialValue == Some(config.value.initialValue.GetOr("08:00"))
      && m.from == Some(config.value.from.GetOr("00:00"))
      && m.to == Some(config.value.to.GetOr("23:00"))
      && m.showAllHours == Some(config.value.showAllHours.GetOr(true))
      && m.hoursToShow == config.value.hoursToShow
      && m.interval == Some(config.value.interval.GetOr(Quarterly))
      && m.hourHeaderTranslateKey == config.value.hourHeaderTranslateKey
      && m.minuteHeaderTranslateKey == config.value.minuteHeaderTranslateKey
  {
    match config
    case None => Default
    case Some(c) =>
      HourMinuteConfig(
        Some(c.initialValue.GetOr(Default.initialValue.value)),
        Some(c.from.GetOr(Default.from.value)),
        Some(c.to.GetOr(Default.to.value)),
        Some(c.showAllHours.GetOr(Default.showAllHours.value)),
        c.hoursToShow,
        Some(c.interval.GetOr(Default.interval.value)),
        c.hourHeaderTranslateKey, c.minuteHeaderTranslateKey)
  }

  /** The hours a complete configuration shows: `hoursToShow` when given, else `fillHours`. */
  function HoursOf(m: HourMinuteConfig): (r: Option<seq<string>>)
    requires Complete(m)
    ensures m.hoursToShow.Some? ==> r == m.hoursToShow
    ensures m.hoursToShow.None? ==> (r.Some? <==> HourCount(m.showAllHours.value, m.from.value, m.to.value).Some?)
  {
    if m.hoursToShow.Some? then m.hoursToShow
    else FillHours(m.showAllHours.value, m.from.value, m.to.value)
  }

  /** The times listed for a configuration with explicit hours: hour-major, every minute label of
      the interval after every hour, and each splits back into its hour and minute. */
  lemma ListedTimes(c: HourMinuteConfig, i: nat, j: nat)
    requires c.hoursToShow.Some? && c.interval.Some?
    requires i < |c.hoursToShow.value| && j < |MinuteLabels(c.interval.value)|
    requires ':' !in c.hoursToShow.value[i]
    ensures var m := Merge(Some(c)); var hs := HoursOf(m).value; var ms := MinuteLabels(m.interval.value);
      var all := AllTimes(hs, ms);
      i * |ms| + j < |all|
      && Split(all[i * |ms| + j], ':') == [hs[i], ms[j]]
  {
    var m := Merge(Some(c));
    var hs := HoursOf(m).value;
    var ms := MinuteLabels(m.interval.value);
    AllTimesAt(hs, ms, i, j);
    MinuteLabelsAreMultiples(m.interval.value);
    assert |ms[j]| == 2 && AllDigits(ms[j]);
    TimeSplitsBack(hs[i], ms[j]);
  }

  /** `HourMinute`. Fields the source leaves undefined until the first configuration are None. */
  class TimePicker {
    var hourMinuteConfig: Option<HourMinuteConfig>
    var hours: Option<seq<string>>
    var minutes: seq<string>
    var allTimes: Option<seq<string>>
    var selectedHour: Option<string>
    var selectedMinute: Option<string>

    constructor ()
      ensures hourMinuteConfig.None? && hours.None? && allTimes.None?
      ensures minutes == MinuteLabels(Quarterly)
      ensures selectedHour.None? && selectedMinute.None?
    {
      hourMinuteConfig := None;
      hours := None;
      minutes := ["00", "15", "30", "45"];
      allTimes := None;
      selectedHour := None;
      selectedMinute := None;
    }

    /** `initHourMinute`: merges, picks the minute labels, selects the initial value, fills the
        hours and lists every time. `ok` is false when `fillHours` throws, which leaves the lists
        as they were. */
    method InitHourMinute() returns (ok: bool)
      modifies this
      ensures hourMinuteConfig == Some(Merge(old(hourMinuteConfig)))
      ensures var m := Merge(old(hourMinuteConfig));
        minutes == MinuteLabels(m.interval.value)
        && selectedHour == Some(Split(m.initialValue.value, ':')[0])
        && selectedMinute == Piece(m.initialValue.value, ':', 1)
        && (ok <==> HoursOf(m).Some?)
        && (ok ==> hours == HoursOf(m) && allTimes == Some(AllTimes(HoursOf(m).value, minutes)))
        && (!ok ==> hours == old(hours) && allTimes == old(allTimes))
    {
      var m := Merge(hourMinuteConfig);
      hourMinuteConfig := Some(m);
      minutes := MinuteLabels(m.interval.value);
      var parts := Split(m.initialValue.value, ':');
      selectedHour := Some(parts[0]);
      selectedMinute := if |parts| > 1 then Some(parts[1]) else None;
      var hs := HoursOf(m);
      if hs.None? {
        return false;
      }
      hours := hs;
      allTimes := Some(AllTimes(hs.value, minutes));
      ok := true;
    }

    /** `setConfig`: an undefined configuration is ignored; any other one is stored and the
        picker is initialised from it. */
    method SetConfig(config: Option<HourMinuteConfig>) returns (ok: bool)
      modifies this
      ensures config.None? ==> (ok && hourMinuteConfig == old(hourMinuteConfig)
        && hours == old(hours) && allTimes == old(allTimes) && minutes == old(minutes)
        && selectedHour == old(selectedHour) && selectedMinute == old(selectedMinute))
      ensures config.Some? ==> var m := Merge(config);
        hourMinuteConfig == Some(m)
        && minutes == MinuteLabels(m.interval.value)
        && selectedHour == Some(Split(m.initialValue.value, ':')[0])
        && selectedMinute == Piece(m.initialValue.value, ':', 1)
        && (ok <==> HoursOf(m).Some?)
        && (ok ==> hours == HoursOf(m) && allTimes == Some(AllTimes(HoursOf(m).value, minutes)))
        && (!ok ==> hours == old(hours) && allTimes == old(allTimes))
    {
      ok := true;
      if config.Some? {
        hourMinuteConfig := config;
        ok := InitHourMinute();
      }
    }

    /** `setTime`: the chosen time's pieces become the selected hour and minute, and the time
        itself is what `onSelectTime` receives. */
    method SetTime(text: string) returns (selected: string)
      modifies this`selectedHour, this`selectedMinute
      ensures selectedHour == Some(Split(text, ':')[0])
      ensures selectedMinute == Piece(text, ':', 1)
      ensures selected == text
    {
      var parts := Split(text, ':');
      selectedHour := Some(parts[0]);
      selectedMinute := if |parts| > 1 then Some(parts[1]) else None;
      selected := text;
    }
  }
}
