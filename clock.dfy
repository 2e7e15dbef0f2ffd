/**
 * Local time of day as the controller reads it (the fields of a `struct tm`
 * that it uses), the daily irrigation window, and the "HH:MM:SS" text the
 * status message carries.
 */
module Clock {
  import opened Wrappers

  type Hour = h: int | 0 <= h < 24
  type Minute = m: int | 0 <= m < 60
  // `tm_sec` admits a leap second
  type Second = s: int | 0 <= s <= 60

  datatype LocalTime = LocalTime(hour: Hour, minute: Minute, second: Second)

  /**
   * The irrigation window: hours [7, 9) and [16, 19) of local time, and never
   * when no local time is available. `None` stands for a failed `getLocalTime`.
   */
  predicate IsIrrigationTime(clock: Option<LocalTime>)
    ensures IsIrrigationTime(clock) ==> clock.Some? && clock.value.hour < 19
  {
    match clock
    case None => false
    case Some(t) => (t.hour >= 7 && t.hour < 9) || (t.hour >= 16 && t.hour < 19)
  }

  /** Reference definition of the window: the five whole hours it covers. */
  const WindowHours: set<int> := {7, 8, 16, 17, 18}

  /** The window is exactly the five listed hours, and closed without a clock. */
  lemma WindowIsFiveHours(clock: Option<LocalTime>)
    ensures IsIrrigationTime(clock) <==> clock.Some? && clock.value.hour in WindowHours
  {
    if clock.Some? {
      var h := clock.value.hour;
      assert h in WindowHours <==> h == 7 || h == 8 || h == 16 || h == 17 || h == 18;
    }
  }

  /** Only the hour decides: minutes and seconds never open or close the window. */
  lemma WindowIgnoresMinutesAndSeconds(a: LocalTime, b: LocalTime)
    requires a.hour == b.hour
    ensures IsIrrigationTime(Some(a)) == IsIrrigationTime(Some(b))
  {
  }

  // ---- "%H:%M:%S" ----

  function DigitChar(d: int): (c: char)
    requires 0 <= d < 10
    ensures '0' <= c <= '9'
  {
    ('0' as int + d) as char
  }

  function DigitValue(c: char): (r: Option<int>)
    ensures r.Some? <==> '0' <= c <= '9'
    ensures r.Some? ==> 0 <= r.value < 10 && DigitChar(r.value) == c
  {
    if '0' <= c <= '9' then Some(c as int - '0' as int) else None
  }

  /** Two decimal digits with a leading zero, as `%H`, `%M` and `%S` print. */
  function TwoDigits(n: int): (s: string)
    requires 0 <= n < 100
  {
    [DigitChar(n / 10), DigitChar(n % 10)]
  }

  function FormatClock(t: LocalTime): (s: string)
    ensures |s| == 8 && s[2] == ':' && s[5] == ':'
  {
    TwoDigits(t.hour) + ":" + TwoDigits(t.minute) + ":" + TwoDigits(t.second)
  }

  function ParseTwoDigits(s: string): (r: Option<int>)
    requires |s| == 2
    ensures r.Some? ==> 0 <= r.value < 100
  {
    match (DigitValue(s[0]), DigitValue(s[1]))
    case (Some(hi), Some(lo)) => Some(hi * 10 + lo)
    case _ => None
  }

  /** How a subscriber reads the `current_time` field back. */
  function ParseClock(s: string): (r: Option<LocalTime>)
  {
    if |s| != 8 || s[2] != ':' || s[5] != ':' then None
    else
      match (ParseTwoDigits(s[0..2]), ParseTwoDigits(s[3..5]), ParseTwoDigits(s[6..8]))
      case (Some(h), Some(m), Some(sec)) =>
        if h < 24 && m < 60 && sec <= 60 then Some(LocalTime(h, m, sec)) else None
      case _ => None
  }

  lemma ParseTwoDigitsOf(n: int)
    requires 0 <= n < 100
    ensures ParseTwoDigits(TwoDigits(n)) == Some(n)
  {
    var s := TwoDigits(n);
    assert DigitValue(s[0]) == Some(n / 10);
    assert DigitValue(s[1]) == Some(n % 10);
  }

  /** The printed time of day loses nothing: it reads back as the same time. */
  lemma ParseFormatClock(t: LocalTime)
    ensures ParseClock(FormatClock(t)) == Some(t)
  {
    var s := FormatClock(t);
    assert s[0..2] == TwoDigits(t.hour);
    assert s[3..5] == TwoDigits(t.minute);
    assert s[6..8] == TwoDigits(t.second);
    ParseTwoDigitsOf(t.hour);
    ParseTwoDigitsOf(t.minute);
    ParseTwoDigitsOf(t.second);
  }
}
