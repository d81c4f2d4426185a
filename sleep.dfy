/**
 * Sleep timing of a dream entry: the times of day the user went to sleep and
 * woke up, the minutes slept between them (across midnight when the end is
 * earlier than the start), and the "H時間MM分" text shown for those minutes.
 */
module Sleep {
  import opened Wrappers
  import opened Numbers

  type Hour = h: int | 0 <= h < 24
  type Minute = m: int | 0 <= m < 60

  /** A `datetime.time` to the minute. */
  datatype Time = Time(hour: Hour, minute: Minute)

  /** Minutes since midnight. */
  function MinuteOfDay(t: Time): (m: int)
    ensures 0 <= m < 1440
  {
    t.hour * 60 + t.minute
  }

  /** Two decimal digits, as `f"{n:02d}"` writes a number below 100. */
  function TwoDigits(n: int): (r: string)
    requires 0 <= n < 100
    ensures |r| == 2 && IsDigit(r[0]) && IsDigit(r[1])
    ensures DigitValue(r[0]) * 10 + DigitValue(r[1]) == n
  {
    [DigitChar(n / 10), DigitChar(n % 10)]
  }

  /** The `HH:MM` text of a time, the form in which a time field is submitted. */
  function FormatTime(t: Time): string {
    TwoDigits(t.hour) + ":" + TwoDigits(t.minute)
  }

  /**
   * `parse_time(value)`: an ISO 8601 `HH:MM` text gives its time of day; an
   * empty text, any other shape, an hour above 23 or a minute above 59 gives none.
   */
  function ParseTime(value: string): Option<Time> {
    if value == "" then None
    else if |value| == 5 && IsDigit(value[0]) && IsDigit(value[1]) && value[2] == ':'
            && IsDigit(value[3]) && IsDigit(value[4]) then
      var h := DigitValue(value[0]) * 10 + DigitValue(value[1]);
      var m := DigitValue(value[3]) * 10 + DigitValue(value[4]);
      if h < 24 && m < 60 then Some(Time(h, m)) else None
    else None
  }

  /** Every time of day is read back from its `HH:MM` text. */
  lemma ParseFormatTime(t: Time)
    ensures ParseTime(FormatTime(t)) == Some(t)
  {
    var s := FormatTime(t);
    assert s[0] == TwoDigits(t.hour)[0] && s[1] == TwoDigits(t.hour)[1] && s[2] == ':';
    assert s[3] == TwoDigits(t.minute)[0] && s[4] == TwoDigits(t.minute)[1];
  }

  /** A text that parses is exactly the `HH:MM` text of its time. */
  lemma FormatParseTime(value: string)
    requires ParseTime(value).Some?
    ensures FormatTime(ParseTime(value).value) == value
  {
    var t := ParseTime(value).value;
    var s := FormatTime(t);
    assert |s| == 5;
    forall i | 0 <= i < 5
      ensures s[i] == value[i]
    {
      if i == 0 || i == 1 {
        assert s[i] == TwoDigits(t.hour)[i];
      } else if i == 3 || i == 4 {
        assert s[i] == TwoDigits(t.minute)[i - 3];
      }
    }
  }

  /**
   * `compute_sleep_minutes(start, end)`: none when either time is missing;
   * otherwise the minutes from start forward to end, wrapping past midnight,
   * so always below a full day.
   */
  function ComputeSleepMinutes(start: Option<Time>, end: Option<Time>): (r: Option<int>)
    ensures r.None? <==> start.None? || end.None?
    ensures r.Some? ==> 0 <= r.value < 1440
    ensures r.Some? ==> r.value == (MinuteOfDay(end.value) - MinuteOfDay(start.value)) % 1440
  {
    if start.None? || end.None? then None
    else
      var startMinutes := MinuteOfDay(start.value);
      var endMinutes := MinuteOfDay(end.value);
      var wrapped := if endMinutes < startMinutes then endMinutes + 24 * 60 else endMinutes;
      WithinADay(endMinutes - startMinutes);
      Some(wrapped - startMinutes)
  }

  /** A difference of two minutes of the day, taken modulo a day. */
  lemma WithinADay(x: int)
    requires -1440 < x < 1440
    ensures x % 1440 == if x < 0 then x + 1440 else x
  {
    var q, r := x / 1440, x % 1440;
    assert x == 1440 * q + r && 0 <= r < 1440;
    if x < 0 {
      assert q == -1;
    } else {
      assert q == 0;
    }
  }

  /**
   * The computed duration is the one number of minutes below a day that
   * leads from the start time to the end time on a 24-hour clock.
   */
  lemma SleepMinutesLeadToEnd(start: Time, end: Time, d: int)
    requires 0 <= d < 1440
    ensures (MinuteOfDay(start) + d) % 1440 == MinuteOfDay(end) <==> ComputeSleepMinutes(Some(start), Some(end)) == Some(d)
  {
    var s, e := MinuteOfDay(start), MinuteOfDay(end);
    if s + d < 1440 {
      assert (s + d) % 1440 == s + d;
    } else {
      assert (s + d) % 1440 == s + d - 1440;
    }
  }

  /** An overnight session, a zero-length one, and one with a missing time. */
  lemma SleepMinutesExamples()
    ensures ComputeSleepMinutes(ParseTime("23:30"), ParseTime("00:15")) == Some(45)
    ensures ComputeSleepMinutes(ParseTime("08:00"), ParseTime("08:00")) == Some(0)
    ensures ComputeSleepMinutes(None, ParseTime("08:00")) == None
  {
  }

  /** `format_sleep_minutes(minutes)`: "-" for none, otherwise whole hours, "時間", two-digit minutes, "分". */
  function FormatSleepMinutes(minutes: Option<int>): string {
    match minutes
    case None => "-"
    case Some(m) =>
      var hours := m / 60;
      var mins := m % 60;
      DecimalString(hours) + "時間" + TwoDigits(mins) + "分"
  }

  /** Reads an "H時間MM分" text back into minutes: hours times sixty plus minutes. */
  function DisplayedMinutes(s: string): Option<int> {
    var n := |s|;
    if n >= 5 && s[n - 5] == '時' && s[n - 4] == '間' && IsDigit(s[n - 3]) && IsDigit(s[n - 2]) && s[n - 1] == '分' then
      var mins := DigitValue(s[n - 3]) * 10 + DigitValue(s[n - 2]);
      match LiteralValue(s[..n - 5])
      case Some(hours) => if mins < 60 then Some(hours * 60 + mins) else None
      case None => None
    else None
  }

  /** Where the parts of an "H時間MM分" text sit. */
  lemma DisplayParts(h: string, mm: string)
    requires |mm| == 2
    ensures var s := h + "時間" + mm + "分";
            var n := |s|;
            && n == |h| + 5 && s[..n - 5] == h
            && s[n - 5] == '時' && s[n - 4] == '間' && s[n - 3] == mm[0] && s[n - 2] == mm[1] && s[n - 1] == '分'
  {
    var s := h + "時間" + mm + "分";
    assert s[..|h|] == h;
  }

  /** An "H時間MM分" text reads as H hours and MM minutes. */
  lemma DisplayedParts(h: string, mm: string, hours: int, mins: int)
    requires LiteralValue(h) == Some(hours)
    requires |mm| == 2 && IsDigit(mm[0]) && IsDigit(mm[1])
    requires DigitValue(mm[0]) * 10 + DigitValue(mm[1]) == mins < 60
    ensures DisplayedMinutes(h + "時間" + mm + "分") == Some(hours * 60 + mins)
  {
    DisplayParts(h, mm);
  }

  /** Whole hours and minutes below sixty read back from their display. */
  lemma DisplayedHoursMinutes(hours: int, mins: int)
    requires 0 <= mins < 60
    ensures DisplayedMinutes(DecimalString(hours) + "時間" + TwoDigits(mins) + "分") == Some(hours * 60 + mins)
  {
    ValueOfDecimalString(hours);
    DisplayedParts(DecimalString(hours), TwoDigits(mins), hours, mins);
  }

  /**
   * The display loses nothing: its hour and minute parts give the minutes
   * back (hours * 60 + mins == minutes with 0 <= mins < 60), and "-" reads as none.
   */
  lemma SleepDisplayRoundTrip(minutes: Option<int>)
    ensures DisplayedMinutes(FormatSleepMinutes(minutes)) == minutes
  {
    match minutes
    case None =>
      assert |FormatSleepMinutes(minutes)| == 1;
    case Some(m) =>
      var hours, mins := m / 60, m % 60;
      assert m == hours * 60 + mins;
      assert FormatSleepMinutes(minutes) == DecimalString(hours) + "時間" + TwoDigits(mins) + "分";
      DisplayedHoursMinutes(hours, mins);
  }
}
