/** The hour and minute picker of the widget (src/components/hour-minute/hour-minute.ts): a
    configuration merged with defaults, the lists of hours, minutes and "hour:minute" times it
    shows, and the selected hour and minute. */
module HourMinuteComponent {
  import opened Wrappers
  import opened Strings
  import opened TimeLists

  /** `HourMinuteComponentConfig`; None is an optional key that is absent. */
  datatype HourMinuteComponentConfig = HourMinuteComponentConfig(
    bigHourMinute: bool,
    initialValue: Option<string>,
    from: Option<string>,
    to: Option<string>,
    showAllHours: Option<bool>,
    hoursToShow: Option<seq<string>>,
    interval: Option<MinutesInterval>,
    hourHeaderTranslateKey: string,
    minuteHeaderTranslateKey: string)

  /** `defaultHourMinuteConfig`. */
  const Default := HourMinuteComponentConfig(false, Some("08:00"), Some("00:00"), Some("23:00"),
    Some(true), None, Some(Quarterly), "", "")

  /** A configuration in which every key the component reads is present. */
  predicate Complete(c: HourMinuteComponentConfig)
  {
    c.initialValue.Some? && c.from.Some? && c.to.Some? && c.showAllHours.Some? && c.interval.Some?
  }

  /** `{...defaultHourMinuteConfig, ...config}`: every key the incoming object holds wins; spreading
      an undefined configuration gives the defaults. */
  function Merge(config: Option<HourMinuteComponentConfig>): (m: HourMinuteComponentConfig)
    ensures Complete(m)
    ensures config.None? ==> m == Default
    ensures config.Some? ==>
      m.bigHourMinute == config.value.bigHourMinute
      && m.initialValue == Some(config.value.initialValue.GetOr("08:00"))
      && m.from == Some(config.value.from.GetOr("00:00"))
      && m.to == Some(config.value.to.GetOr("23:00"))
      && m.showAllHours == Some(config.value.showAllHours.GetOr(true))
      && m.hoursToShow == config.value.hoursToShow
      && m.interval == Some(config.value.interval.GetOr(Quarterly))
      && m.hourHeaderTranslateKey == config.value.hourHeaderTranslateKey
      && m.minuteHeaderTranslateKey == config.value.minuteHeaderTranslateKey
  {
    match config
    case None => Default
    case Some(c) =>
      HourMinuteComponentConfig(c.bigHourMinute,
        Some(c.initialValue.GetOr(Default.initialValue.value)),
        Some(c.from.GetOr(Default.from.value)),
        Some(c.to.GetOr(Default.to.value)),
        Some(c.showAllHours.GetOr(Default.showAllHours.value)),
        c.hoursToShow,
        Some(c.interval.GetOr(Default.interval.value)),
        c.hourHeaderTranslateKey, c.minuteHeaderTranslateKey)
  }

  /** Every initialisation merges the stored configuration again; a merged one is a fixed point. */
  lemma MergeIdempotent(config: Option<HourMinuteComponentConfig>)
    ensures Merge(Some(Merge(config))) == Merge(config)
  {
  }

  /** The hours a complete configuration shows: `hoursToShow` when given, else `fillHours`. */
  function HoursOf(m: HourMinuteComponentConfig): (r: Option<seq<string>>)
    requires Complete(m)
    ensures m.hoursToShow.Some? ==> r == m.hoursToShow
    ensures m.hoursToShow.None? ==> (r.Some? <==> HourCount(m.showAllHours.value, m.from.value, m.to.value).Some?)
  {
    if m.hoursToShow.Some? then m.hoursToShow
    else FillHours(m.showAllHours.value, m.from.value, m.to.value)
  }

  /** With no configuration the picker shows the 24 hours of the day in quarters. */
  lemma DefaultLists()
    ensures HoursOf(Default).Some? && |HoursOf(Default).value| == 24
    ensures |AllTimes(HoursOf(Default).value, MinuteLabels(Default.interval.value))| == 96
    ensures Split(Default.initialValue.value, ':') == ["08", "00"]
  {
    AllTimesLength(HoursOf(Default).value, MinuteLabels(Default.interval.value));
    TimeSplitsBack("08", "00");
    assert "08" + ":" + "00" == "08:00";
  }

  /** The CSS class of a hour or minute button. */
  function ButtonClass(value: string, selected: Option<string>): (cls: string)
    ensures cls == "selectedButton" <==> selected == Some(value)
    ensures cls != "selectedButton" ==> cls == ""
  {
    if selected == Some(value) then "selectedButton" else ""
  }

  /** `HourMinuteComponent`. Fields the source leaves undefined until initialisation are None. */
  class HourMinutePanel {
    var hourMinuteConfig: Option<HourMinuteComponentConfig>
    var hours: Option<seq<string>>
    var minutes: seq<string>
    var allTimes: Option<seq<string>>
    var selectedHour: Option<string>
    var selectedMinute: Option<string>

    constructor ()
      ensures hourMinuteConfig.None? && hours.None? && allTimes.None?
      ensures minutes == MinuteLabels(Quarterly)
      ensures selectedHour.None? && selectedMinute.None?
    {
      hourMinuteConfig := None;
      hours := None;
      minutes := ["00", "15", "30", "45"];
      allTimes := None;
      selectedHour := None;
      selectedMinute := None;
    }

    /** `initHourMinute`: merges the configuration, picks the minute labels, selects the initial
        value's hour and minute and fills the hours; the compact picker (not `bigHourMinute`) also
        lists every time. `ok` is false when `fillHours` throws, which leaves the lists as they were. */
    method InitHourMinute() returns (ok: bool)
      modifies this
      ensures hourMinuteConfig == Some(Merge(old(hourMinuteConfig)))
      ensures var m := Merge(old(hourMinuteConfig));
        minutes == MinuteLabels(m.interval.value)
        && selectedHour == Some(Split(m.initialValue.value, ':')[0])
        && selectedMinute == Piece(m.initialValue.value, ':', 1)
        && (ok <==> HoursOf(m).Some?)
        && (ok ==> hours == HoursOf(m))
        && (ok && !m.bigHourMinute ==> allTimes == Some(AllTimes(HoursOf(m).value, minutes)))
        && (ok && m.bigHourMinute ==> allTimes == old(allTimes))
        && (!ok ==> hours == old(hours) && allTimes == old(allTimes))
    {
      var m := Merge(hourMinuteConfig);
      hourMinuteConfig := Some(m);
      minutes := MinuteLabels(m.interval.value);
      var parts := Split(m.initialValue.value, ':');
      selectedHour := Some(parts[0]);
      selectedMinute := if |parts| > 1 then Some(parts[1]) else None;
      var hs := HoursOf(m);
      if hs.None? {
        return false;
      }
      hours := hs;
      if !m.bigHourMinute {
        allTimes := Some(AllTimes(hs.value, minutes));
      }
      ok := true;
    }

    /** `ngOnChanges`: takes the new configuration and initialises again. */
    method OnChanges(current: Option<HourMinuteComponentConfig>) returns (ok: bool)
      modifies this
      ensures hourMinuteConfig == Some(Merge(current))
      ensures var m := Merge(current);
        minutes == MinuteLabels(m.interval.value)
        && selectedHour == Some(Split(m.initialValue.value, ':')[0])
        && selectedMinute == Piece(m.initialValue.value, ':', 1)
        && (ok <==> HoursOf(m).Some?)
        && (ok ==> hours == HoursOf(m))
        && (ok && !m.bigHourMinute ==> allTimes == Some(AllTimes(HoursOf(m).value, minutes)))
        && (ok && m.bigHourMinute ==> allTimes == old(allTimes))
        && (!ok ==> hours == old(hours) && allTimes == old(allTimes))
    {
      hourMinuteConfig := current;
      ok := InitHourMinute();
    }

    /** `setTime`: the two pieces of the chosen time become the selected hour and minute. */
    method SetTime(time: string)
      modifies this`selectedHour, this`selectedMinute
      ensures selectedHour == Some(Split(time, ':')[0])
      ensures selectedMinute == Piece(time, ':', 1)
    {
      var parts := Split(time, ':');
      selectedHour := Some(parts[0]);
      selectedMinute := if |parts| > 1 then Some(parts[1]) else None;
    }

    /** `setHour`. */
    method SetHour(hour: string)
      modifies this`selectedHour
      ensures selectedHour == Some(hour)
    {
      selectedHour := Some(hour);
    }

    /** `setMinute`. */
    method SetMinute(minute: string)
      modifies this`selectedMinute
      ensures selectedMinute == Some(minute)
    {
      selectedMinute := Some(minute);
    }

    /** `isSelectedHour`. */
    function IsSelectedHour(hour: string): (cls: string)
      reads this`selectedHour
      ensures cls == ButtonClass(hour, selectedHour)
    {
      ButtonClass(hour, selectedHour)
    }

    /** `isSelectedMinute`. */
    function IsSelectedMinute(minute: string): (cls: string)
      reads this`selectedMinute
      ensures cls == ButtonClass(minute, selectedMinute)
    {
      ButtonClass(minute, selectedMinute)
    }
  }

  /** Picking a listed time selects exactly its hour and minute, so both buttons light up. */
  lemma PickedTimeSelected(hour: string, minute: string)
    requires ':' !in hour && ':' !in minute
    ensures ButtonClass(hour, Some(Split(hour + ":" + minute, ':')[0])) == "selectedButton"
    ensures ButtonClass(minute, Piece(hour + ":" + minute, ':', 1)) == "selectedButton"
  {
    TimeSplitsBack(hour, minute);
  }
}
