/** Clock times as the parser handles them: `datetime.strptime(s, '%H:%M')`
    and `strftime('%H:%M')`. Every parsed value falls on 1900-01-01, so a
    time of day is all there is to compare. */
module ClockTime {

  import opened Wrappers

  datatype Time = Time(hour: nat, minute: nat)

  /** A valid time of day, 00:00 to 23:59. */
  type Clock = t: Time | t.hour < 24 && t.minute < 60 witness Time(0, 0)

  const MinutesPerDay: int := 1440

  /** Minutes since midnight; datetimes on one date compare as these do. */
  function ToMinutes(t: Clock): (m: int)
    ensures 0 <= m < MinutesPerDay
    ensures m / 60 == t.hour && m % 60 == t.minute
  {
    t.hour * 60 + t.minute
  }

  predicate IsDigit(ch: char) {
    '0' <= ch <= '9'
  }

  function DigitValue(ch: char): (d: nat)
    requires IsDigit(ch)
    ensures d < 10
  {
    (ch as int) - ('0' as int)
  }

  function DigitChar(d: nat): (ch: char)
    requires d < 10
    ensures IsDigit(ch) && DigitValue(ch) == d
  {
    (('0' as int) + d) as char
  }

  /** The hour field of strptime's `%H`: one digit, or two digits that
      read `00` to `23`. */
  function ParseHour(h: string): (r: Option<nat>)
    ensures r.Some? ==> r.value < 24
  {
    if |h| == 1 && IsDigit(h[0]) then Some(DigitValue(h[0]))
    else if |h| == 2 && IsDigit(h[0]) && IsDigit(h[1])
                     && (h[0] <= '1' || (h[0] == '2' && h[1] <= '3'))
    then Some(10 * DigitValue(h[0]) + DigitValue(h[1]))
    else None
  }

  /** The minute field of strptime's `%M`: one digit, or two digits whose
      first is `0` to `5`. */
  function ParseMinute(m: string): (r: Option<nat>)
    ensures r.Some? ==> r.value < 60
  {
    if |m| == 1 && IsDigit(m[0]) then Some(DigitValue(m[0]))
    else if |m| == 2 && '0' <= m[0] <= '5' && IsDigit(m[1])
    then Some(10 * DigitValue(m[0]) + DigitValue(m[1]))
    else None
  }

  /** `datetime.strptime(s, '%H:%M')`; `None` stands for the `ValueError`
      it raises. The whole string must match: no surrounding blanks, no
      trailing characters. */
  function ParseClock(s: string): (r: Option<Clock>)
    ensures r.Some? ==> exists p :: 1 <= p <= 2 && p < |s| && s[p] == ':'
  {
    if |s| >= 2 && s[1] == ':' then
      Combine(ParseHour(s[..1]), ParseMinute(s[2..]))
    else if |s| >= 3 && s[2] == ':' then
      Combine(ParseHour(s[..2]), ParseMinute(s[3..]))
    else None
  }

  function Combine(h: Option<nat>, m: Option<nat>): (r: Option<Clock>)
    requires h.Some? ==> h.value < 24
    requires m.Some? ==> m.value < 60
    ensures r.Some? <==> h.Some? && m.Some?
  {
    if h.Some? && m.Some? then Some(Time(h.value, m.value)) else None
  }

  /** `strftime('%H:%M')`: always two digits for each field. */
  function FormatClock(t: Clock): (s: string)
    ensures |s| == 5 && s[2] == ':'
  {
    [DigitChar(t.hour / 10), DigitChar(t.hour % 10), ':',
     DigitChar(t.minute / 10), DigitChar(t.minute % 10)]
  }

  /** Formatting and then parsing gives back the same time. */
  lemma ParseFormat(t: Clock)
    ensures ParseClock(FormatClock(t)) == Some(t)
  {
    var s := FormatClock(t);
    assert s[..2] == [s[0], s[1]];
    assert s[3..] == [s[3], s[4]];
    assert DigitValue(s[0]) == t.hour / 10 && DigitValue(s[1]) == t.hour % 10;
    assert DigitValue(s[3]) == t.minute / 10 && DigitValue(s[4]) == t.minute % 10;
  }
}
