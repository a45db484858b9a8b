/** The deterministic rules of `OvertimeParser`: rounding a duration up to
    half hours, the working-hours test, subtracting the break windows and
    aligning a clock time down to five minutes. */
module OvertimeRules {

  import opened Wrappers
  import opened ClockTime

  // ---------------------------------------------------------------------
  // round_up_to_half_hour
  // ---------------------------------------------------------------------

  /** The rounded duration before the one-hour floor, in half hours:
      `minutes // 30` when the division is exact, one more otherwise. */
  function RawHalfHours(minutes: int): (raw: int)
    ensures 30 * (raw - 1) < minutes <= 30 * raw
  {
    if minutes % 30 == 0 then minutes / 30 else minutes / 30 + 1
  }

  /** `round_up_to_half_hour`, counted in half hours: the least number of
      half hours that covers `minutes`, but never less than two (one hour). */
  function RoundUpToHalfHour(minutes: int): (h: int)
    ensures h >= 2
    ensures 30 * h >= minutes
    ensures h == 2 || 30 * (h - 1) < minutes
  {
    var raw := RawHalfHours(minutes);
    if raw >= 2 then raw else 2
  }

  /** Exact multiples of half an hour map directly, a remainder rounds up,
      and anything up to an hour gives the one-hour minimum. */
  lemma RoundingCases(minutes: int)
    ensures minutes % 30 == 0 && minutes >= 60 ==> RoundUpToHalfHour(minutes) == minutes / 30
    ensures minutes % 30 != 0 && minutes >= 60 ==> RoundUpToHalfHour(minutes) == minutes / 30 + 1
    ensures minutes <= 60 ==> RoundUpToHalfHour(minutes) == 2
  {
  }

  /** Rounding never loses minutes and never adds a half hour or more,
      except where the one-hour floor applies. */
  lemma RoundingIsTight(minutes: int)
    requires minutes > 60
    ensures minutes <= 30 * RoundUpToHalfHour(minutes) < minutes + 30
  {
  }

  /** Rounding is monotone: more minutes never bill fewer half hours. */
  lemma RoundingMonotone(m1: int, m2: int)
    requires m1 <= m2
    ensures RoundUpToHalfHour(m1) <= RoundUpToHalfHour(m2)
  {
  }

  // ---------------------------------------------------------------------
  // str(round_up_to_half_hour(...))
  // ---------------------------------------------------------------------

  predicate AllDigits(s: string) {
    forall i :: 0 <= i < |s| ==> IsDigit(s[i])
  }

  /** Decimal notation of a natural number, without leading zeros. */
  function DecimalText(n: nat): (s: string)
    ensures |s| >= 1 && AllDigits(s)
    ensures |s| > 1 ==> s[0] != '0'
  {
    if n < 10 then [DigitChar(n)] else DecimalText(n / 10) + [DigitChar(n % 10)]
  }

  /** The number a string of decimal digits denotes. */
  function DecimalValue(s: string): nat
    requires AllDigits(s)
  {
    if s == [] then 0 else 10 * DecimalValue(s[..|s| - 1]) + DigitValue(s[|s| - 1])
  }

  lemma {:induction false} DecimalRoundTrip(n: nat)
    ensures DecimalValue(DecimalText(n)) == n
  {
    if n >= 10 {
      DecimalRoundTrip(n / 10);
      var s := DecimalText(n);
      assert s[..|s| - 1] == DecimalText(n / 10);
    }
  }

  /** What Python's `str` prints for `round_up_to_half_hour(minutes)`:
      the integer `1` when the floor applied to a smaller value, otherwise
      the float of the half hours, which prints as `k.0` or `k.5`. (`max`
      keeps its first argument on a tie, so exactly one hour prints as
      `1.0`.) */
  function SumTimeText(minutes: int): string {
    var raw := RawHalfHours(minutes);
    if raw < 2 then "1"
    else DecimalText(raw / 2) + (if raw % 2 == 0 then ".0" else ".5")
  }

  /** Reads a `sum_time` text back as a number of half hours. */
  function HalfHoursOfText(t: string): Option<int> {
    if t == "1" then Some(2)
    else if |t| >= 3 && t[|t| - 2] == '.' && AllDigits(t[..|t| - 2])
            && (t[|t| - 1] == '0' || t[|t| - 1] == '5')
    then Some(2 * DecimalValue(t[..|t| - 2]) + (if t[|t| - 1] == '5' then 1 else 0))
    else None
  }

  /** The stored text denotes exactly the rounded duration. */
  lemma SumTimeTextReadsBack(minutes: int)
    ensures HalfHoursOfText(SumTimeText(minutes)) == Some(RoundUpToHalfHour(minutes))
  {
    var raw := RawHalfHours(minutes);
    if raw >= 2 {
      var d := DecimalText(raw / 2);
      var t := SumTimeText(minutes);
      assert t[..|t| - 2] == d;
      DecimalRoundTrip(raw / 2);
    }
  }

  /** The integer `1` is printed only when `max` picked its second
      argument; exactly one hour is the float `1.0`. */
  lemma SumTimeTextExamples()
    ensures SumTimeText(0) == "1" && SumTimeText(30) == "1"
    ensures SumTimeText(45) == "1.0" && SumTimeText(60) == "1.0"
    ensures SumTimeText(61) == "1.5" && SumTimeText(108) == "2.0"
    ensures SumTimeText(600) == "10.0"
  {
    assert DecimalText(1) == "1";
    assert DecimalText(2) == "2";
    assert DecimalText(10) == "10";
  }

  /** Up to half an hour `max` keeps the integer `1`; from 31 minutes to
      one hour the rounding is the float `1.0`, which wins the tie. */
  lemma SumTimeTextUpToOneHour(minutes: int)
    ensures minutes <= 30 ==> SumTimeText(minutes) == "1"
    ensures 30 < minutes <= 60 ==> SumTimeText(minutes) == "1.0"
  {
    assert DecimalText(1) == "1";
  }

  // ---------------------------------------------------------------------
  // is_working_hours
  // ---------------------------------------------------------------------

  /** Python's `weekday()`: 0 is Monday, 6 is Sunday. */
  type Weekday = d: nat | d < 7

  /** Every time parsed with strptime('%H:%M') falls on 1900-01-01, a Monday. */
  const StrptimeWeekday: Weekday := 0

  const MorningStart: Clock := Time(8, 30)
  const MorningEnd: Clock := Time(11, 0)
  const AfternoonStart: Clock := Time(13, 30)
  const AfternoonEnd: Clock := Time(18, 0)

  /** `is_working_hours`: False on Saturday and Sunday, otherwise whether
      the time lies in one of the two windows, both ends included. */
  predicate IsWorkingHours(weekday: Weekday, t: Clock) {
    if weekday >= 5 then false
    else
      var m := ToMinutes(t);
      (ToMinutes(MorningStart) <= m <= ToMinutes(MorningEnd))
      || (ToMinutes(AfternoonStart) <= m <= ToMinutes(AfternoonEnd))
  }

  /** The working-hours test stated on the hour and minute fields. */
  lemma WorkingHoursByFields(weekday: Weekday, t: Clock)
    ensures IsWorkingHours(weekday, t) <==>
      weekday < 5 &&
      (   (t.hour == 8 && t.minute >= 30) || 9 <= t.hour <= 10 || (t.hour == 11 && t.minute == 0)
       || (t.hour == 13 && t.minute >= 30) || 14 <= t.hour <= 17 || (t.hour == 18 && t.minute == 0))
  {
  }

  lemma WorkingHoursExamples()
    ensures IsWorkingHours(1, Time(9, 0))
    ensures !IsWorkingHours(5, Time(9, 0))
    ensures !IsWorkingHours(1, Time(12, 15))
    ensures IsWorkingHours(0, Time(8, 30)) && IsWorkingHours(0, Time(11, 0))
    ensures IsWorkingHours(0, Time(13, 30)) && IsWorkingHours(0, Time(18, 0))
    ensures !IsWorkingHours(0, Time(8, 29)) && !IsWorkingHours(0, Time(11, 1))
    ensures !IsWorkingHours(0, Time(13, 29)) && !IsWorkingHours(0, Time(18, 1))
  {
  }

  // ---------------------------------------------------------------------
  // adjust_for_breaks
  // ---------------------------------------------------------------------

  datatype Window = Window(from: Clock, to: Clock)

  /** The midday break 12:00-13:30 and the evening break 18:00-19:00. */
  const Breaks: seq<Window> := [Window(Time(12, 0), Time(13, 30)), Window(Time(18, 0), Time(19, 0))]

  /** `timedelta.seconds // 60` of a difference of two whole-minute times on
      one date: the difference taken modulo a day, so never negative. */
  function WrapMinutes(d: int): (r: int)
    ensures 0 <= r < MinutesPerDay
    ensures 0 <= d < MinutesPerDay ==> r == d
    ensures -MinutesPerDay <= d < 0 ==> r == d + MinutesPerDay
  {
    d % MinutesPerDay
  }

  function Min(a: int, b: int): int { if a <= b then a else b }
  function Max(a: int, b: int): int { if a >= b then a else b }

  /** The minutes one break removes: counted only when the window starts
      before the end and ends after the start (both strict). */
  function BreakOverlap(s: Clock, e: Clock, b: Window): int {
    if ToMinutes(b.from) < ToMinutes(e) && ToMinutes(b.to) > ToMinutes(s) then
      WrapMinutes(Min(ToMinutes(e), ToMinutes(b.to)) - Max(ToMinutes(s), ToMinutes(b.from)))
    else 0
  }

  /** The minutes the first `|bs|` breaks remove together. */
  function OverlapSum(s: Clock, e: Clock, bs: seq<Window>): int {
    if bs == [] then 0 else OverlapSum(s, e, bs[..|bs| - 1]) + BreakOverlap(s, e, bs[|bs| - 1])
  }

  /** The value `adjust_for_breaks(start, end)` returns. */
  function AdjustedMinutes(s: Clock, e: Clock): int {
    WrapMinutes(ToMinutes(e) - ToMinutes(s)) - OverlapSum(s, e, Breaks)
  }

  /** `adjust_for_breaks`: the elapsed minutes, less each break's overlap. */
  method AdjustForBreaks(s: Clock, e: Clock) returns (total: int)
    ensures total == AdjustedMinutes(s, e)
  {
    var breaks := Breaks;
    total := WrapMinutes(ToMinutes(e) - ToMinutes(s));
    var i := 0;
    while i < |breaks|
      invariant 0 <= i <= |breaks|
      invariant total == WrapMinutes(ToMinutes(e) - ToMinutes(s)) - OverlapSum(s, e, breaks[..i])
    {
      var b := breaks[i];
      if ToMinutes(b.from) < ToMinutes(e) && ToMinutes(b.to) > ToMinutes(s) {
        var overlapStart := Max(ToMinutes(s), ToMinutes(b.from));
        var overlapEnd := Min(ToMinutes(e), ToMinutes(b.to));
        var overlapMinutes := WrapMinutes(overlapEnd - overlapStart);
        total := total - overlapMinutes;
      }
      assert breaks[..i + 1][..i] == breaks[..i];
      i := i + 1;
    }
    assert breaks[..i] == Breaks;
  }

  /** The overlap of the interval [a, b) with a window, clipped at zero. */
  function Clipped(a: int, b: int, w: Window): int {
    Max(0, Min(b, ToMinutes(w.to)) - Max(a, ToMinutes(w.from)))
  }

  /** Whether minute `x` of the day falls inside one of the breaks. */
  predicate InBreak(x: int) {
    exists k :: 0 <= k < |Breaks| && ToMinutes(Breaks[k].from) <= x < ToMinutes(Breaks[k].to)
  }

  /** The minutes of [a, b) that lie outside every break, counted one by one. */
  function BillableMinutes(a: int, b: int): (n: int)
    decreases b - a
  {
    if b <= a then 0 else BillableMinutes(a, b - 1) + (if InBreak(b - 1) then 0 else 1)
  }

  /** The fixed list of breaks, unrolled. */
  lemma OverlapOfBreaks(s: Clock, e: Clock)
    ensures OverlapSum(s, e, Breaks) == BreakOverlap(s, e, Breaks[0]) + BreakOverlap(s, e, Breaks[1])
  {
    var first := Breaks[..1];
    assert first[..|first| - 1] == [];
    assert OverlapSum(s, e, first) == BreakOverlap(s, e, Breaks[0]);
    assert Breaks[..|Breaks| - 1] == first;
  }

  /** On one day a counted overlap never wraps, and an uncounted one would
      have been clipped to zero. */
  lemma SameDayOverlap(s: Clock, e: Clock, w: Window)
    requires ToMinutes(s) <= ToMinutes(e)
    requires ToMinutes(w.from) < ToMinutes(w.to)
    ensures BreakOverlap(s, e, w) == Clipped(ToMinutes(s), ToMinutes(e), w)
  {
  }

  /** On one day (start not after end) no wrap happens: the result is the
      elapsed minutes less the clipped overlap with each break. */
  lemma SameDayFormula(s: Clock, e: Clock)
    requires ToMinutes(s) <= ToMinutes(e)
    ensures AdjustedMinutes(s, e) ==
      (ToMinutes(e) - ToMinutes(s))
      - Clipped(ToMinutes(s), ToMinutes(e), Breaks[0])
      - Clipped(ToMinutes(s), ToMinutes(e), Breaks[1])
  {
    OverlapOfBreaks(s, e);
    SameDayOverlap(s, e, Breaks[0]);
    SameDayOverlap(s, e, Breaks[1]);
  }

  /** One more minute at the end adds one billable minute unless it lies in
      a break. */
  lemma {:induction false} ClippedStep(a: int, b: int)
    requires a <= b
    ensures (b + 1 - a) - Clipped(a, b + 1, Breaks[0]) - Clipped(a, b + 1, Breaks[1])
         == (b - a) - Clipped(a, b, Breaks[0]) - Clipped(a, b, Breaks[1]) + (if InBreak(b) then 0 else 1)
  {
    if InBreak(b) {
      var k :| 0 <= k < |Breaks| && ToMinutes(Breaks[k].from) <= b < ToMinutes(Breaks[k].to);
      assert k == 0 || k == 1;
    }
  }

  lemma {:induction false} ClippedCountsBillable(a: int, b: int)
    requires a <= b
    ensures BillableMinutes(a, b) ==
      (b - a) - Clipped(a, b, Breaks[0]) - Clipped(a, b, Breaks[1])
    decreases b - a
  {
    if a < b {
      ClippedCountsBillable(a, b - 1);
      ClippedStep(a, b - 1);
    }
  }

  /** For a start not after the end, `adjust_for_breaks` counts exactly the
      minutes of [start, end) that lie outside both breaks, so the result
      is between zero and the elapsed minutes. */
  lemma AdjustedIsBillable(s: Clock, e: Clock)
    requires ToMinutes(s) <= ToMinutes(e)
    ensures AdjustedMinutes(s, e) == BillableMinutes(ToMinutes(s), ToMinutes(e))
    ensures 0 <= AdjustedMinutes(s, e) <= ToMinutes(e) - ToMinutes(s)
  {
    SameDayFormula(s, e);
    ClippedCountsBillable(ToMinutes(s), ToMinutes(e));
  }

  /** An interval that only touches a break (ends at its start or starts at
      its end) loses nothing to it. */
  lemma TouchingBreakLosesNothing(s: Clock, e: Clock)
    requires ToMinutes(s) <= ToMinutes(e)
    requires forall k :: 0 <= k < |Breaks| ==>
      ToMinutes(e) <= ToMinutes(Breaks[k].from) || ToMinutes(Breaks[k].to) <= ToMinutes(s)
    ensures AdjustedMinutes(s, e) == ToMinutes(e) - ToMinutes(s)
  {
    SameDayFormula(s, e);
    assert ToMinutes(e) <= ToMinutes(Breaks[0].from) || ToMinutes(Breaks[0].to) <= ToMinutes(s);
    assert ToMinutes(e) <= ToMinutes(Breaks[1].from) || ToMinutes(Breaks[1].to) <= ToMinutes(s);
  }

  /** An end before the start wraps around midnight: the result is a day
      plus the (negative) difference, except when both times lie strictly
      inside the same break, where the wrapped overlap cancels it to zero. */
  lemma WrappedInterval(s: Clock, e: Clock)
    requires ToMinutes(e) < ToMinutes(s)
    ensures AdjustedMinutes(s, e) ==
      if exists k :: 0 <= k < |Breaks| && ToMinutes(Breaks[k].from) < ToMinutes(e) && ToMinutes(s) < ToMinutes(Breaks[k].to)
      then 0
      else MinutesPerDay + ToMinutes(e) - ToMinutes(s)
  {
    OverlapOfBreaks(s, e);
  }

  /** Whatever the order of the two times, the result lies in [0, 1440). */
  lemma AdjustedBounds(s: Clock, e: Clock)
    ensures 0 <= AdjustedMinutes(s, e) < MinutesPerDay
  {
    if ToMinutes(s) <= ToMinutes(e) {
      AdjustedIsBillable(s, e);
    } else {
      WrappedInterval(s, e);
    }
  }

  lemma BreakExamples()
    ensures AdjustedMinutes(Time(11, 0), Time(14, 0)) == 90
    ensures AdjustedMinutes(Time(8, 0), Time(9, 10)) == 70
    ensures AdjustedMinutes(Time(20, 0), Time(22, 0)) == 120
    ensures AdjustedMinutes(Time(17, 0), Time(20, 0)) == 120
    ensures AdjustedMinutes(Time(10, 0), Time(12, 0)) == 120
  {
    OverlapOfBreaks(Time(11, 0), Time(14, 0));
    OverlapOfBreaks(Time(8, 0), Time(9, 10));
    OverlapOfBreaks(Time(20, 0), Time(22, 0));
    OverlapOfBreaks(Time(17, 0), Time(20, 0));
    OverlapOfBreaks(Time(10, 0), Time(12, 0));
  }

  // ---------------------------------------------------------------------
  // align_time_to_five_minutes
  // ---------------------------------------------------------------------

  /** The minute floored to a multiple of five, the hour kept. */
  function AlignDown(t: Clock): (a: Clock)
    ensures a == Time(t.hour, t.minute - t.minute % 5)
  {
    var aligned := (t.minute / 5) * 5;
    if aligned != t.minute then Time(t.hour, aligned) else t
  }

  /** `align_time_to_five_minutes`: parse, floor the minute, format again;
      `None` stands for the `ValueError` of an unparseable string. */
  function AlignTimeToFiveMinutes(s: string): Option<string> {
    match ParseClock(s)
    case None => None
    case Some(t) => Some(FormatClock(AlignDown(t)))
  }

  /** An aligned time keeps the hour, sits on a five-minute mark, and is
      never later than the input and at most four minutes earlier. */
  lemma AlignmentBounds(s: string)
    requires ParseClock(s).Some?
    ensures AlignTimeToFiveMinutes(s).Some?
    ensures var t := ParseClock(s).value;
            var r := ParseClock(AlignTimeToFiveMinutes(s).value);
            && r.Some?
            && r.value.hour == t.hour
            && r.value.minute % 5 == 0
            && ToMinutes(r.value) <= ToMinutes(t) <= ToMinutes(r.value) + 4
  {
    ParseFormat(AlignDown(ParseClock(s).value));
  }

  /** Aligning an aligned string changes nothing. */
  lemma AlignmentIdempotent(s: string)
    requires ParseClock(s).Some?
    ensures AlignTimeToFiveMinutes(AlignTimeToFiveMinutes(s).value) == AlignTimeToFiveMinutes(s)
  {
    var a := AlignDown(ParseClock(s).value);
    ParseFormat(a);
    assert AlignDown(a) == a;
  }

  /** Alignment fails exactly when parsing does. */
  lemma AlignmentFailsOnlyOnBadInput(s: string)
    ensures AlignTimeToFiveMinutes(s).None? <==> ParseClock(s).None?
  {
  }

  lemma AlignmentExamples()
    ensures AlignTimeToFiveMinutes("20:12") == Some("20:10")
    ensures AlignTimeToFiveMinutes("20:15") == Some("20:15")
    ensures AlignTimeToFiveMinutes("8:07") == Some("08:05")
    ensures AlignTimeToFiveMinutes("24:00") == None
    ensures AlignTimeToFiveMinutes(" 20:00") == None
  {
    assert ParseClock("20:12") == Some(Time(20, 12));
    assert ParseClock("20:15") == Some(Time(20, 15));
    assert ParseClock("8:07") == Some(Time(8, 7));
  }
}
