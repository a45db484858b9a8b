# Overtime parser — verified model of the deterministic core

The repository is a small HTTP endpoint that hands a free-text overtime
description to a locally hosted language model, asks it for the start time,
end time, location, reason and date as JSON, and then post-processes the
answer with fixed rules before returning a payload. This project models
those rules and the post-processing in `over_time_ollama.py` and proves
their properties:

- **Duration** (`OvertimeRules`): `adjust_for_breaks` subtracts the overlap
  with the 12:00–13:30 and 18:00–19:00 breaks from the elapsed minutes;
  `round_up_to_half_hour` rounds up to half hours with a one-hour floor,
  modelled as an integer count of half hours; `str()` of that value as the
  text stored in `sum_time` (`"1"`, `"1.0"`, `"1.5"`, …).
- **Working hours** (`OvertimeRules.IsWorkingHours`): over an explicit
  weekday and a clock time; the extraction flow passes Monday, the weekday
  of 1900-01-01 every `strptime('%H:%M')` value falls on.
- **Five-minute alignment** (`OvertimeRules.AlignTimeToFiveMinutes`), over
  an exact model of `strptime('%H:%M')` and `strftime('%H:%M')`
  (`ClockTime`).
- **Extraction loop** (`Extraction`): the ordered missing-field list of
  `validate_and_fill` and its seeding of `sum_time`, the
  `result.update(...)` merge, the finalisation once the record is complete,
  and one iteration of the `while incomplete` loop as a pure function
  (`NextStep`) and as a method on a class holding the loop's state
  (`ExtractionLoop`), proved equal.
- **Output mapping** (`Output`): `transform_result`, with Python's
  `str.split()` and the `REGION_MAPPING` table.

Values of the decoded reply are a small JSON datatype with Python's
truthiness (`Json`). The model call, its prompt, the console and the clock
are parameters: a step receives the decoded reply (or the fact that the
call raised, that the text was not JSON, or that it was not an object) and
the operator's typed answers.

Files: `wrappers.dfy` (Option, Result), `json.dfy`, `clock.dfy`,
`rules.dfy`, `extraction.dfy`, `output.dfy`.

### Behaviour of the code worth knowing

- The merge overwrites with every key of the reply, not only keys with
  non-empty values: an empty or null value replaces what was there.
- `sum_time` is seeded with `"1"` when it is falsy, not only when absent.
- The elapsed time is `timedelta.seconds // 60`, which wraps modulo a day:
  an end before the start is not an error. The model keeps the wrap
  (`WrapMinutes`) and states the result for both orders
  (`AdjustedIsBillable`, `WrappedInterval`).
- A start or end value that `strptime` refuses (not a string, not `H:M`,
  `H:MM`, `HH:M` or `HH:MM` with hour 0-23 and minute 0-59, a leading
  blank as in the prompt's own `" HH:MM"` template), and a
  reply that `dict.update` refuses (null, a boolean, a number, a non-empty
  string or array that is not made of pairs), end the request
  with the same error dictionary as a failing model call, because the outer
  `except Exception` catches them (`Fault`).
- `transform_result` emits `reason`, `overtimeDate`, `beginTime` and
  `endTime` as null when the record lacks them; the keys are always present.
- `transform_result` raises on a location that is not a string or has no
  word (the HTTP handler turns that into a 500); the model returns `Err`.

## Model

| member | source | states |
|---|---|---|
| `OvertimeRules.RawHalfHours` | over_time_ollama.py:35 | the unclamped rounding is the ceiling of minutes/30: `30*(raw-1) < m <= 30*raw` |
| `OvertimeRules.RoundUpToHalfHour` | over_time_ollama.py:33-36 | the result is the least count of half hours covering the minutes, but at least 2 (one hour) |
| `OvertimeRules.RoundingCases` | over_time_ollama.py:33-36 | exact multiples of 30 map directly, a remainder rounds up, up to 60 minutes gives one hour |
| `OvertimeRules.RoundingIsTight` | over_time_ollama.py:33-36 | above one hour the rounding adds less than 30 minutes and loses none |
| `OvertimeRules.RoundingMonotone` | over_time_ollama.py:33-36 | more minutes never bill fewer half hours |
| `OvertimeRules.DecimalText` | over_time_ollama.py:202 | decimal digits of a natural number, no leading zero |
| `OvertimeRules.DecimalRoundTrip` | over_time_ollama.py:202 | reading the decimal text back gives the number |
| `OvertimeRules.SumTimeTextReadsBack` | over_time_ollama.py:201-202 | the stored `sum_time` text (`"1"`, `"k.0"`, `"k.5"`) reads back as exactly the rounded half hours |
| `OvertimeRules.SumTimeTextExamples` | over_time_ollama.py:35-36 | sample points: 0 and 30 minutes print `1`, 45 and 60 print `1.0`, 61 prints `1.5`, 108 prints `2.0`, 600 prints `10.0` |
| `OvertimeRules.SumTimeTextUpToOneHour` | over_time_ollama.py:35-36 | for every input up to 30 minutes `str` prints the integer `1`; for every input from 31 to 60 minutes it prints the float `1.0` |
| `OvertimeRules.WorkingHoursByFields` | over_time_ollama.py:38-55 | false whenever weekday >= 5; otherwise true iff the time is in 08:30–11:00 or 13:30–18:00, ends included |
| `OvertimeRules.WorkingHoursExamples` | over_time_ollama.py:41-55 | Tuesday 09:00 true, Saturday 09:00 false, 12:15 false, each window edge inside and one minute outside |
| `OvertimeRules.WrapMinutes` | over_time_ollama.py:64 | `timedelta.seconds // 60`: in [0, 1440), the difference itself when non-negative, plus a day when negative |
| `OvertimeRules.AdjustForBreaks` | over_time_ollama.py:57-74 | the loop over the break list returns the elapsed minutes less each counted overlap (`AdjustedMinutes`) |
| `OvertimeRules.SameDayFormula` | over_time_ollama.py:64-72 | for start <= end the result is the elapsed minutes less `max(0, min(end, bEnd) - max(start, bStart))` per break |
| `OvertimeRules.AdjustedIsBillable` | over_time_ollama.py:57-74 | for start <= end the result counts exactly the minutes of [start, end) outside both breaks, so it lies between 0 and end - start |
| `OvertimeRules.TouchingBreakLosesNothing` | over_time_ollama.py:67 | an interval that only touches a break boundary loses nothing |
| `OvertimeRules.WrappedInterval` | over_time_ollama.py:64-72 | for end < start the result is 1440 + end - start, or 0 when both lie strictly inside one break |
| `OvertimeRules.AdjustedBounds` | over_time_ollama.py:57-74 | for any two times the result lies in [0, 1440) |
| `OvertimeRules.BreakExamples` | over_time_ollama.py:57-74 | 11:00–14:00 gives 90, 08:00–09:10 gives 70, 17:00–20:00 gives 120, 10:00–12:00 gives 120 |
| `ClockTime.ParseFormat` | over_time_ollama.py:78-87 | `strptime('%H:%M')` of `strftime('%H:%M')` gives the same time back |
| `OvertimeRules.AlignDown` | over_time_ollama.py:79-86 | the hour is kept and the minute becomes `minute - minute % 5` |
| `OvertimeRules.AlignmentBounds` | over_time_ollama.py:76-87 | the aligned text parses to the same hour, a multiple of five minutes, not later than the input and at most 4 minutes earlier |
| `OvertimeRules.AlignmentIdempotent` | over_time_ollama.py:76-87 | aligning an aligned text changes nothing |
| `OvertimeRules.AlignmentFailsOnlyOnBadInput` | over_time_ollama.py:78 | alignment raises exactly when strptime does |
| `OvertimeRules.AlignmentExamples` | over_time_ollama.py:76-87 | "20:12" to "20:10", "20:15" unchanged, "8:07" to "08:05", "24:00" and " 20:00" refused |
| `Extraction.SeedSumTime` | over_time_ollama.py:142-143 | a falsy `sum_time` becomes "1", a truthy one is kept, no other key changes |
| `Extraction.MissingMembership` | over_time_ollama.py:133-146 | a field's label is listed iff it is absent or falsy (or the reason is "null"); only the four labels ever appear, never `sum_time` |
| `Extraction.MissingFieldsInOrder` | over_time_ollama.py:135-146 | the list is the four checks in their fixed order: start, end, location, reason |
| `Extraction.EmptyMissingIffComplete` | over_time_ollama.py:171-172 | the list is empty exactly when all four fields are truthy and the reason is not "null" |
| `Extraction.SeedKeepsMissing` | over_time_ollama.py:142-146 | the seeding never changes which fields are missing |
| `Extraction.Merge` | over_time_ollama.py:169 | every key of the reply overwrites, keys the reply lacks keep their values, no key is lost |
| `Extraction.FinaliseFailsOnBadTime` | over_time_ollama.py:179-183 | a complete record ends in an error exactly when a time value is not parseable |
| `Extraction.FinaliseRejectsIff` | over_time_ollama.py:192-197 | the rejection, carrying the source's error text, happens exactly when the unaligned start is in working hours and the answer is not "是" |
| `Extraction.FinaliseCompleted` | over_time_ollama.py:179-204 | on completion start and end are the aligned texts, `sum_time` reads back as the rounding of the UNALIGNED interval, other keys are unchanged |
| `Extraction.FinaliseNormalises` | over_time_ollama.py:179-204 | a completed finalisation yields a complete record with aligned times and `sum_time` of at least one hour |
| `Extraction.RetryKeepsKeys` | over_time_ollama.py:166-176 | a retried iteration loses no key; missing fields append the supplement to the text, an undecodable reply replaces the text and leaves the record |
| `Extraction.DecodedFinishesIffComplete` | over_time_ollama.py:169-177 | a decoded reply ends the loop exactly when the merged record is complete, and then finalises the seeded merge |
| `Extraction.CompletedRecordIsNormalised` | over_time_ollama.py:148-218 | any completed outcome of an iteration is complete, has aligned HH:MM times and a `sum_time` of at least one hour |
| `Extraction.ExtractionLoop.constructor` | over_time_ollama.py:148-149 | the loop starts with the given text, an empty record, and `incomplete` set |
| `Extraction.ExtractionLoop.ValidateAndFill` | over_time_ollama.py:133-146 | returns the missing list of the old record and leaves exactly the seeded record |
| `Extraction.ExtractionLoop.Finish` | over_time_ollama.py:179-204 | returns the finalisation outcome; on completion the record is its data and `incomplete` is cleared |
| `Extraction.ExtractionLoop.Step` | over_time_ollama.py:150-211 | the in-place iteration yields exactly the text, record, flag and outcome `NextStep` gives |
| `Output.RegionCode` | over_time_ollama.py:12-21 | every code lies in 1..8 |
| `Output.SplitWordsAreWords` | over_time_ollama.py:233 | every word of `str.split()` is non-empty and has no white space |
| `Output.SplitEmptyIffBlank` | over_time_ollama.py:233 | `split()` yields no word exactly when the string is white space only |
| `Output.SplitFirstWord` | over_time_ollama.py:233 | the first word starts at the first non-space character and runs to the next space or the end |
| `Output.TransformContract` | over_time_ollama.py:223-259 | fails iff the location is not a string or is blank; else exactly five keys, `cBgcc` the table code of the first word or 6, the other four passed through (null when absent) |
| `Output.MissingLocationIsOther` | over_time_ollama.py:232-233 | a record without location maps to 6 |
| `Output.FirstWordExample` | over_time_ollama.py:232-258 | "深圳 办公室" maps to 1 and absent fields become null |
| `Output.LeadingSpaceExample` | over_time_ollama.py:233 | a location "惠州" led by an ideographic space maps to 3 |
| `Output.UnknownAndBlankExamples` | over_time_ollama.py:233 | "北京" maps to 6; a blank location and a null location fail |
| `Output.SampleStepFinalises` | over_time_ollama.py:169-177 | a complete first reply finalises in one iteration |
| `Output.SampleFinalised` | over_time_ollama.py:179-204 | "20:12"–"22:00" stores "20:10" and `sum_time` "2.0" (108 minutes) |
| `Output.SamplePayload` | over_time_ollama.py:250-258 | that record maps to region 1 with begin "20:10" and end "22:00" |
| `Output.WorkingHoursRejectionExample` | over_time_ollama.py:192-197 | a 09:00 start answered "否" is rejected |

## Left out

- HTTP routing and status codes (over_time_ollama.py:261-288) and the unreachable code after its `return` (lines 290-314): framework plumbing.
- The Ollama call, its streaming and `json.loads` (lines 154-167): external; the decoded reply is a parameter (`Extraction.Reply`).
- The prompt text and the current time (lines 29-31, 100-129): wall-clock, time zone and string templating with no behaviour beyond formatting; the working text is kept, the prompt is not built.
- Console `print` and `input` (lines 164, 174-175, 194-195, 206-208): the typed answers are parameters of a step, the messages are not modelled.
- The unbounded `while incomplete` loop as a whole (line 150): its termination depends on the model and the operator; one iteration is modelled.
- Error messages are abstracted: an error outcome carries a `Fault` naming its cause, not the text of the Python exception. The working-hours rejection does carry its fixed message (`NotOvertimeMessage`).
- A decoded reply that is not an object but that `dict.update` accepts (an empty array or string, an array of pairs) is treated like every other non-object reply, as an error.
- Numbers, arrays and objects in a reply are represented only as far as the code looks at them (zero or not, empty or not).
- `ClockTime.ParseClock`: Python's `\d` in the strptime pattern also accepts non-ASCII decimal digits (such as full-width ones); the model accepts ASCII digits only.
- `OvertimeRules.SumTimeText`: renders the exact decimal of the half-hour value; Python's float printing agrees for the at most 24 hours the duration can reach.
- `OvertimeRules.IsWorkingHours`: compares minutes of the day; parsed times have zero seconds, so the seconds the Python comparison also sees never matter.
- `Output.TransformResult`: returns only the `data` part of the payload; the wrapper `{"completed": True, ...}` is constant.
- `Extraction.ExtractionLoop.Finish`: after a rejection or a failed time parse, the record is not specified, although the source has already stored the aligned texts in it (lines 189-190) before returning at line 197; the record is discarded, so no caller sees it.
- `Extraction.ExtractionLoop.Step`: after an iteration that ends the request with an error, the state of the discarded record is not specified.
- `OvertimeParser.__init__` (lines 24-27): the model name and time zone are configuration.
- post.py: a one-shot HTTP test client with no logic.
