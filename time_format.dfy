/**
 * format_time: a duration in seconds shown as "Hh Mm Ss", "Mm Ss" or "Ss".
 * Durations are real seconds; Python's `//` and `%` on floats floor, so the
 * fields below are floors of exact real quotients.
 */
module TimeFormat {

  /** The three layouts format_time picks from. */
  datatype Clock =
    | HoursMinutesSeconds(hours: int, minutes: int, secs: int)
    | MinutesSeconds(minutes: int, secs: int)
    | SecondsOnly(secs: int)

  /** The three fields format_time computes: seconds // 3600, (seconds % 3600) // 60 and int(seconds % 60). */
  datatype Fields = Fields(hours: int, minutes: int, secs: int)

  /** Python's `x % 3600` on a real: what is left after the whole hours. */
  function ModHour(x: real): (r: real)
    ensures 0.0 <= r < 3600.0
  {
    x - 3600.0 * (x / 3600.0).Floor as real
  }

  /** Python's `x % 60` on a real: what is left after the whole minutes. */
  function ModMinute(x: real): (r: real)
    ensures 0.0 <= r < 60.0
  {
    x - 60.0 * (x / 60.0).Floor as real
  }

  /** The three fields; minutes and seconds are in [0, 59] however negative the input. */
  function SplitSeconds(seconds: real): (f: Fields)
    ensures 0 <= f.minutes < 60 && 0 <= f.secs < 60
  {
    var hours := (seconds / 3600.0).Floor;
    var minutes := (ModHour(seconds) / 60.0).Floor;
    var secs := ModMinute(seconds).Floor;
    Fields(hours, minutes, secs)
  }

  /**
   * The fields are a mixed-radix decomposition of the whole seconds:
   * minutes and seconds each in [0, 59] and hours*3600 + minutes*60 + secs
   * equal to the floor of the input, for every real input.
   */
  lemma SplitSecondsDecomposes(seconds: real)
    ensures 0 <= SplitSeconds(seconds).minutes < 60
    ensures 0 <= SplitSeconds(seconds).secs < 60
    ensures SplitSeconds(seconds).hours * 3600 + SplitSeconds(seconds).minutes * 60
            + SplitSeconds(seconds).secs == seconds.Floor
  {
    var f := SplitSeconds(seconds);
    var h := (seconds / 3600.0).Floor;
    var rest := seconds - h as real * 3600.0;
    assert 0.0 <= rest < 3600.0;
    var m := (rest / 60.0).Floor;
    assert 0 <= m < 60;
    var low := rest - m as real * 60.0;
    assert 0.0 <= low < 60.0;
    // seconds = 60 * (60h + m) + low with low in [0, 60), so seconds % 60 == low
    var q := (seconds / 60.0).Floor;
    assert seconds / 60.0 == (60 * h + m) as real + low / 60.0;
    assert q == 60 * h + m;
    assert ModMinute(seconds) == low;
    assert seconds == (3600 * h + 60 * m) as real + low;
    assert seconds.Floor == 3600 * h + 60 * m + low.Floor;
  }

  /** format_time: the layout is picked by the first non-zero leading field. */
  function FormatTime(seconds: real): (c: Clock)
    ensures var f := SplitSeconds(seconds);
            && (c.HoursMinutesSeconds? <==> f.hours > 0)
            && (c.MinutesSeconds? <==> f.hours <= 0 && f.minutes > 0)
            && (c.SecondsOnly? <==> f.hours <= 0 && f.minutes <= 0)
    ensures c.secs == SplitSeconds(seconds).secs
    ensures !c.SecondsOnly? ==> c.minutes == SplitSeconds(seconds).minutes
    ensures c.HoursMinutesSeconds? ==> c.hours == SplitSeconds(seconds).hours
  {
    var f := SplitSeconds(seconds);
    if f.hours > 0 then HoursMinutesSeconds(f.hours, f.minutes, f.secs)
    else if f.minutes > 0 then MinutesSeconds(f.minutes, f.secs)
    else SecondsOnly(f.secs)
  }

  /** The number of seconds a shown duration stands for. */
  function ShownSeconds(c: Clock): int
  {
    match c
    case HoursMinutesSeconds(h, m, s) => h * 3600 + m * 60 + s
    case MinutesSeconds(m, s) => m * 60 + s
    case SecondsOnly(s) => s
  }

  /**
   * For a non-negative duration nothing is lost: the shown duration is the
   * whole number of seconds, and every shown field after the first is in [0, 59].
   */
  lemma FormatTimeShowsWholeSeconds(seconds: real)
    requires seconds >= 0.0
    ensures ShownSeconds(FormatTime(seconds)) == seconds.Floor
    ensures 0 <= FormatTime(seconds).secs < 60
    ensures !FormatTime(seconds).SecondsOnly? ==> 0 <= FormatTime(seconds).minutes < 60
  {
    SplitSecondsDecomposes(seconds);
    var f := SplitSeconds(seconds);
    assert f.hours >= 0;
  }
}
