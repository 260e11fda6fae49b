/** The list builders shared by the two hour pickers (src/components/hour-minute/hour-minute.ts
    and src/components/make-booking/hour-minute.tsx): the minute labels of an interval, the
    hour labels of `fillHours` and the hour-major list of "hour:minute" times. */
module TimeLists {
  import opened Wrappers
  import opened Strings

  /** `MinutesInterval`. */
  datatype MinutesInterval = Quarterly | Half | Full

  /** The minutes between two labels of an interval. */
  function Step(i: MinutesInterval): (n: nat)
    ensures n > 0 && 60 % n == 0
  {
    match i
    case Quarterly => 15
    case Half => 30
    case Full => 60
  }

  /** The `switch` on the interval in `initHourMinute`. */
  function MinuteLabels(i: MinutesInterval): seq<string>
  {
    match i
    case Quarterly => ["00", "15", "30", "45"]
    case Half => ["00", "30"]
    case Full => ["00"]
  }

  /** The labels of an interval are the two-digit multiples of its step below 60, in order. */
  lemma MinuteLabelsAreMultiples(i: MinutesInterval)
    ensures |MinuteLabels(i)| == 60 / Step(i)
    ensures forall k :: 0 <= k < |MinuteLabels(i)| ==>
      var l := MinuteLabels(i)[k]; |l| == 2 && AllDigits(l) && DigitsValue(l) == k * Step(i)
  {
    var labels := MinuteLabels(i);
    forall k | 0 <= k < |labels|
      ensures |labels[k]| == 2 && AllDigits(labels[k]) && DigitsValue(labels[k]) == k * Step(i)
    {
      var l := labels[k];
      assert l[..1][..0] == "" && l[..|l| - 1] == l[..1];
    }
  }

  /** `hours.map(hour => minutes.map(minute => hour + ':' + minute)).reduce(concat, [])`. */
  function AllTimes(hours: seq<string>, minutes: seq<string>): (r: seq<string>)
  {
    if |hours| == 0 then []
    else TimesOfHour(hours[0], minutes) + AllTimes(hours[1..], minutes)
  }

  /** `minutes.map(minute => hour + ':' + minute)`. */
  function TimesOfHour(hour: string, minutes: seq<string>): (r: seq<string>)
    ensures |r| == |minutes| && forall j :: 0 <= j < |r| ==> r[j] == hour + ":" + minutes[j]
  {
    seq(|minutes|, j requires 0 <= j < |minutes| => hour + ":" + minutes[j])
  }

  /** The times list has one entry per hour and minute. */
  lemma {:induction false} AllTimesLength(hours: seq<string>, minutes: seq<string>)
    ensures |AllTimes(hours, minutes)| == |hours| * |minutes|
    decreases |hours|
  {
    if |hours| > 0 {
      AllTimesLength(hours[1..], minutes);
      assert |hours| * |minutes| == |minutes| + (|hours| - 1) * |minutes|;
    }
  }

  /** The times list is hour-major: entry i * |minutes| + j is hour i with minute j. */
  lemma {:induction false} AllTimesAt(hours: seq<string>, minutes: seq<string>, i: nat, j: nat)
    requires i < |hours| && j < |minutes|
    ensures i * |minutes| + j < |AllTimes(hours, minutes)|
    ensures AllTimes(hours, minutes)[i * |minutes| + j] == hours[i] + ":" + minutes[j]
    decreases i
  {
    AllTimesLength(hours, minutes);
    var head := TimesOfHour(hours[0], minutes);
    var rest := AllTimes(hours[1..], minutes);
    assert AllTimes(hours, minutes) == head + rest;
    if i > 0 {
      AllTimesAt(hours[1..], minutes, i - 1, j);
      assert i * |minutes| + j == |minutes| + ((i - 1) * |minutes| + j);
      assert hours[1..][i - 1] == hours[i];
    }
  }

  /** Splitting a listed time on ':' gives back its hour and minute, when neither holds a ':'. */
  lemma TimeSplitsBack(hour: string, minute: string)
    requires ':' !in hour && ':' !in minute
    ensures Split(hour + ":" + minute, ':') == [hour, minute]
  {
    SplitCons(hour, ':', minute);
    SplitNoSep(minute, ':');
  }

  /** `Number(s.split(':')[0])`: the leading part of an "HH:MM" bound read as a number, NaN (None)
      unless it is all digits. */
  function HourPart(s: string): Option<nat>
  {
    JsNumber(Split(s, ':')[0])
  }

  /** The number of hours `fillHours` lists: 24 when every hour is shown, otherwise `to`'s hour
      minus `from`'s hour; `Array` throws (None) when that is NaN or negative. */
  function HourCount(showAllHours: bool, from: string, to: string): (r: Option<nat>)
    ensures showAllHours ==> r == Some(24)
    ensures !showAllHours ==> (r.Some? <==>
      HourPart(from).Some? && HourPart(to).Some? && HourPart(from).value <= HourPart(to).value)
    ensures !showAllHours && r.Some? ==> r.value + HourPart(from).value == HourPart(to).value
  {
    if showAllHours then Some(24)
    else match (HourPart(from), HourPart(to))
      case (Some(a), Some(b)) => if a <= b then Some(b - a) else None
      case _ => None
  }

  /** `fillHours` as written: the `map` callback destructures `index` from the empty string the
      array was filled with, so every label is `('0' + undefined).slice(-2)`. */
  function FillHoursAsWritten(showAllHours: bool, from: string, to: string): (r: Option<seq<string>>)
    ensures r.Some? <==> HourCount(showAllHours, from, to).Some?
    ensures r.Some? ==> |r.value| == HourCount(showAllHours, from, to).value
  {
    match HourCount(showAllHours, from, to)
    case None => None
    case Some(n) => Some(seq(n, _ => Last2("0" + "undefined")))
  }

  /** Every hour of a full day gets the same label "ed". */
  lemma FillHoursAsWrittenRepeats(from: string, to: string)
    ensures var r := FillHoursAsWritten(true, from, to);
      r.Some? && |r.value| == 24 && r.value[0] == r.value[1] == "ed"
  {
  }

  /** `fillHours` as evidently intended: label k is k padded to two digits. */
  function FillHours(showAllHours: bool, from: string, to: string): (r: Option<seq<string>>)
    ensures r.Some? <==> HourCount(showAllHours, from, to).Some?
    ensures r.Some? ==> |r.value| == HourCount(showAllHours, from, to).value
  {
    match HourCount(showAllHours, from, to)
    case None => None
    case Some(n) => Some(seq(n, k requires 0 <= k => ZeroPad2(k)))
  }

  /** The intended labels are two-digit numerals counting up from 00, hence all different. */
  lemma FillHoursCounts(showAllHours: bool, from: string, to: string)
    requires FillHours(showAllHours, from, to).Some?
    ensures var hs := FillHours(showAllHours, from, to).value;
      forall k :: 0 <= k < |hs| && k < 100 ==>
        |hs[k]| == 2 && AllDigits(hs[k]) && DigitsValue(hs[k]) == k
    ensures var hs := FillHours(showAllHours, from, to).value;
      forall k, l :: 0 <= k < l < |hs| && l < 100 ==> hs[k] != hs[l]
  {
    var hs := FillHours(showAllHours, from, to).value;
    forall k | 0 <= k < |hs| && k < 100
      ensures |hs[k]| == 2 && AllDigits(hs[k]) && DigitsValue(hs[k]) == k
    {
      ZeroPad2RoundTrip(k);
    }
    forall k, l | 0 <= k < l < |hs| && l < 100 ensures hs[k] != hs[l]
    {
      ZeroPad2RoundTrip(k);
      ZeroPad2RoundTrip(l);
    }
  }
}
