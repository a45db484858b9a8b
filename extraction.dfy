/** The extraction loop of `parse_overtime_info`: merging each decoded model
    reply into the accumulated record, the completeness check
    `validate_and_fill`, and the finalisation once the record is complete.
    The model call, the prompt and the console are outside: a step receives
    the decoded reply and the operator's answers as parameters. */
module Extraction {

  import opened Wrappers
  import opened Json
  import opened ClockTime
  import opened OvertimeRules

  // ---------------------------------------------------------------------
  // validate_and_fill
  // ---------------------------------------------------------------------

  /** The required keys in the order they are checked, each with the label
      reported to the operator. */
  const RequiredFields: seq<(string, string)> := [
    ("start_time", "加班开始时间"),
    ("end_time", "加班结束时间"),
    ("location", "加班地点"),
    ("reason", "加班事由")
  ]

  /** The literal the model is told to use for an absent reason. */
  const NullMarker: string := "null"

  /** A required key is missing when its value is absent or falsy; the
      reason is also missing when it is the text "null". */
  predicate IsMissing(r: Record, key: string) {
    Falsy(r, key) || (key == "reason" && key in r && r[key] == Str(NullMarker))
  }

  /** The labels of the missing keys among `fields`, in the order of `fields`. */
  function MissingLabels(r: Record, fields: seq<(string, string)>): seq<string> {
    if fields == [] then []
    else (if IsMissing(r, fields[0].0) then [fields[0].1] else []) + MissingLabels(r, fields[1..])
  }

  /** The list `validate_and_fill` returns: the required fields that are
      missing, in checking order. */
  function MissingFields(r: Record): seq<string> {
    MissingLabels(r, RequiredFields)
  }

  /** The one mutation of `validate_and_fill`: a falsy `sum_time` is seeded
      with the text "1"; every other key is left alone. */
  function SeedSumTime(r: Record): (r': Record)
    ensures r'.Keys == r.Keys + {"sum_time"}
    ensures Truthy(r'["sum_time"])
    ensures !Falsy(r, "sum_time") ==> r'["sum_time"] == r["sum_time"]
    ensures Falsy(r, "sum_time") ==> r'["sum_time"] == Str("1")
    ensures forall k :: k in r && k != "sum_time" ==> r'[k] == r[k]
  {
    if Falsy(r, "sum_time") then r["sum_time" := Str("1")] else r
  }

  lemma {:induction false} LabelsComeFromFields(r: Record, fields: seq<(string, string)>, l: string)
    requires l in MissingLabels(r, fields)
    ensures exists j :: 0 <= j < |fields| && fields[j].1 == l && IsMissing(r, fields[j].0)
  {
    if fields != [] {
      if IsMissing(r, fields[0].0) && l == fields[0].1 {
      } else {
        LabelsComeFromFields(r, fields[1..], l);
        var j :| 0 <= j < |fields[1..]| && fields[1..][j].1 == l && IsMissing(r, fields[1..][j].0);
        assert fields[j + 1].1 == l;
      }
    }
  }

  lemma {:induction false} LabelsMembership(r: Record, fields: seq<(string, string)>, i: nat)
    requires i < |fields|
    requires forall a, b :: 0 <= a < b < |fields| ==> fields[a].1 != fields[b].1
    ensures fields[i].1 in MissingLabels(r, fields) <==> IsMissing(r, fields[i].0)
  {
    var rest := MissingLabels(r, fields[1..]);
    if i == 0 {
      if fields[0].1 in rest {
        LabelsComeFromFields(r, fields[1..], fields[0].1);
        assert false;
      }
    } else {
      LabelsMembership(r, fields[1..], i - 1);
      assert fields[0].1 != fields[i].1;
    }
  }

  /** A required field's label is reported exactly when that field is
      missing; nothing else (in particular not `sum_time`) is ever reported. */
  lemma MissingMembership(r: Record)
    ensures forall i :: 0 <= i < |RequiredFields| ==>
      (RequiredFields[i].1 in MissingFields(r) <==> IsMissing(r, RequiredFields[i].0))
    ensures forall l :: l in MissingFields(r) ==>
      exists j :: 0 <= j < |RequiredFields| && RequiredFields[j].1 == l
  {
    forall i | 0 <= i < |RequiredFields|
      ensures RequiredFields[i].1 in MissingFields(r) <==> IsMissing(r, RequiredFields[i].0)
    {
      LabelsMembership(r, RequiredFields, i);
    }
    forall l | l in MissingFields(r)
      ensures exists j :: 0 <= j < |RequiredFields| && RequiredFields[j].1 == l
    {
      LabelsComeFromFields(r, RequiredFields, l);
    }
  }

  /** A record is complete when no required field is missing. */
  predicate IsComplete(r: Record) {
    && "start_time" in r && Truthy(r["start_time"])
    && "end_time" in r && Truthy(r["end_time"])
    && "location" in r && Truthy(r["location"])
    && "reason" in r && Truthy(r["reason"]) && r["reason"] != Str(NullMarker)
  }

  /** The missing list is empty exactly when the record is complete. */
  lemma EmptyMissingIffComplete(r: Record)
    ensures MissingFields(r) == [] <==> IsComplete(r)
  {
    MissingMembership(r);
    if MissingFields(r) == [] {
      assert !IsMissing(r, RequiredFields[0].0);
      assert !IsMissing(r, RequiredFields[1].0);
      assert !IsMissing(r, RequiredFields[2].0);
      assert !IsMissing(r, RequiredFields[3].0);
    } else {
      var l := MissingFields(r)[0];
      assert l in MissingFields(r);
      var j :| 0 <= j < |RequiredFields| && RequiredFields[j].1 == l;
      assert IsMissing(r, RequiredFields[j].0);
    }
  }

  /** The missing list unrolled: the four checks in their fixed order. */
  lemma MissingFieldsInOrder(r: Record)
    ensures MissingFields(r) ==
      (if IsMissing(r, "start_time") then ["加班开始时间"] else [])
      + (if IsMissing(r, "end_time") then ["加班结束时间"] else [])
      + (if IsMissing(r, "location") then ["加班地点"] else [])
      + (if IsMissing(r, "reason") then ["加班事由"] else [])
  {
    var f1 := RequiredFields[1..];
    var f2 := f1[1..];
    var f3 := f2[1..];
    assert f3 == [("reason", "加班事由")] && f3[1..] == [];
    assert MissingLabels(r, f3) == (if IsMissing(r, "reason") then ["加班事由"] else []) + [];
    assert f2[0] == ("location", "加班地点");
    assert MissingLabels(r, f2) == (if IsMissing(r, "location") then ["加班地点"] else []) + MissingLabels(r, f3);
    assert f1[0] == ("end_time", "加班结束时间");
    assert MissingLabels(r, f1) == (if IsMissing(r, "end_time") then ["加班结束时间"] else []) + MissingLabels(r, f2);
  }

  /** Records that agree on which required keys are missing have the same
      missing list. */
  lemma {:induction false} LabelsAgree(r1: Record, r2: Record, fields: seq<(string, string)>)
    requires forall i :: 0 <= i < |fields| ==> IsMissing(r1, fields[i].0) == IsMissing(r2, fields[i].0)
    ensures MissingLabels(r1, fields) == MissingLabels(r2, fields)
  {
    if fields != [] {
      assert IsMissing(r1, fields[0].0) == IsMissing(r2, fields[0].0);
      forall i | 0 <= i < |fields[1..]|
        ensures IsMissing(r1, fields[1..][i].0) == IsMissing(r2, fields[1..][i].0)
      {
        assert fields[1..][i] == fields[i + 1];
      }
      LabelsAgree(r1, r2, fields[1..]);
    }
  }

  /** Seeding `sum_time` does not change which fields are missing. */
  lemma SeedKeepsMissing(r: Record)
    ensures MissingFields(SeedSumTime(r)) == MissingFields(r)
  {
    LabelsAgree(SeedSumTime(r), r, RequiredFields);
  }

  // ---------------------------------------------------------------------
  // result.update(partial_result)
  // ---------------------------------------------------------------------

  /** `result.update(partial)`: every key of the reply overwrites the
      accumulated value, even with an empty or null value; keys the reply
      leaves out keep their previous values. */
  function Merge(acc: Record, partial: Record): (r: Record)
    ensures r.Keys == acc.Keys + partial.Keys
    ensures forall k :: k in partial ==> r[k] == partial[k]
    ensures forall k :: k in acc && k !in partial ==> r[k] == acc[k]
  {
    acc + partial
  }

  // ---------------------------------------------------------------------
  // Finalisation
  // ---------------------------------------------------------------------

  /** What ends a request early: the model call raising, a reply that
      `dict.update` refuses, or a time value strptime refuses (not a
      string, or not `H:M`, `H:MM`, `HH:M` or `HH:MM` with hour 0-23 and
      minute 0-59). */
  datatype Fault = ModelCallFailed | ReplyNotAnObject | BadTime(value: Value)

  /** The value `parse_overtime_info` returns: the completed record, the
      working-hours rejection, or an error. */
  datatype Outcome = Completed(data: Record) | NotOvertime(message: string) | Failed(fault: Fault)

  /** The message of the error dictionary returned for the working-hours
      rejection. */
  const NotOvertimeMessage: string := "该时间段为正常工作时间，未视为加班。"

  /** The only operator answer that confirms a working-hours interval. */
  const Confirmation: string := "是"

  /** `datetime.strptime(v, '%H:%M')` on a record value. */
  function ParseTimeValue(v: Value): (t: Option<Clock>)
    ensures t.Some? ==> v.Str? && ParseClock(v.s) == t
  {
    if v.Str? then ParseClock(v.s) else None
  }

  /** The record with the aligned start and end texts stored. */
  function StoreAligned(r: Record, s: Clock, e: Clock): Record {
    r["start_time" := Str(FormatClock(AlignDown(s)))]["end_time" := Str(FormatClock(AlignDown(e)))]
  }

  /** The branch taken once nothing is missing: parse both times, store
      their aligned texts, ask for confirmation when the (unaligned) start is
      in working hours, and store the rounded duration of the (unaligned)
      interval. `confirmation` is the operator's answer, read only when the
      start is in working hours. */
  function Finalise(r: Record, confirmation: string): Outcome {
    var startValue := GetOrNull(r, "start_time");
    var endValue := GetOrNull(r, "end_time");
    if !(Truthy(startValue) && Truthy(endValue)) then Completed(r)
    else
      match ParseTimeValue(startValue)
      case None => Failed(BadTime(startValue))
      case Some(s) =>
        match ParseTimeValue(endValue)
        case None => Failed(BadTime(endValue))
        case Some(e) =>
          if IsWorkingHours(StrptimeWeekday, s) && confirmation != Confirmation then NotOvertime(NotOvertimeMessage)
          else Completed(StoreAligned(r, s, e)["sum_time" := Str(SumTimeText(AdjustedMinutes(s, e)))])
  }

  /** A start or end value strptime refuses ends the request with an error,
      before any confirmation is asked. */
  lemma FinaliseFailsOnBadTime(r: Record, confirmation: string)
    requires IsComplete(r)
    ensures Finalise(r, confirmation).Failed? <==>
      ParseTimeValue(r["start_time"]).None? || ParseTimeValue(r["end_time"]).None?
  {
  }

  /** With parseable times, the request is rejected exactly when the
      unaligned start lies in working hours and the answer is not "是". */
  lemma FinaliseRejectsIff(r: Record, confirmation: string, s: Clock, e: Clock)
    requires IsComplete(r)
    requires ParseTimeValue(r["start_time"]) == Some(s) && ParseTimeValue(r["end_time"]) == Some(e)
    ensures Finalise(r, confirmation) == NotOvertime(NotOvertimeMessage) <==>
      IsWorkingHours(StrptimeWeekday, s) && confirmation != Confirmation
    ensures Finalise(r, confirmation).NotOvertime? || Finalise(r, confirmation).Completed?
  {
  }

  /** A completed finalisation stores the aligned texts, and a `sum_time`
      whose text reads back as the rounded duration of the UNALIGNED
      interval; every other key is unchanged, and the record stays
      complete. */
  lemma FinaliseCompleted(r: Record, confirmation: string, s: Clock, e: Clock)
    requires IsComplete(r)
    requires ParseTimeValue(r["start_time"]) == Some(s) && ParseTimeValue(r["end_time"]) == Some(e)
    requires Finalise(r, confirmation).Completed?
    ensures var d := Finalise(r, confirmation).data;
      && d.Keys == r.Keys + {"sum_time"}
      && d["start_time"] == Str(FormatClock(AlignDown(s)))
      && d["end_time"] == Str(FormatClock(AlignDown(e)))
      && d["sum_time"].Str?
      && HalfHoursOfText(d["sum_time"].s) == Some(RoundUpToHalfHour(AdjustedMinutes(s, e)))
      && (forall k :: k in r && k !in {"start_time", "end_time", "sum_time"} ==> d[k] == r[k])
      && IsComplete(d)
  {
    SumTimeTextReadsBack(AdjustedMinutes(s, e));
  }

  // ---------------------------------------------------------------------
  // One iteration of the retry loop
  // ---------------------------------------------------------------------

  /** What the model call produced in one iteration: it raised, its text
      was not JSON, it decoded to something other than an object, or it
      decoded to an object. */
  datatype Reply = CallRaised | Undecodable | NonObject | Decoded(fields: Record)

  /** After one iteration the loop either runs again with a new text and
      record, or the request is over. */
  datatype StepResult = Retry(text: string, result: Record) | Finished(outcome: Outcome)

  /** One iteration of the `while incomplete` loop. `operatorText` is what
      the operator types when asked (a replacement text after an
      undecodable reply, a supplement when fields are missing);
      `confirmation` is the answer to the working-hours question. */
  function NextStep(text: string, result: Record, reply: Reply,
                    operatorText: string, confirmation: string): StepResult
  {
    match reply
    case CallRaised => Finished(Failed(ModelCallFailed))
    case Undecodable => Retry(operatorText, result)
    case NonObject => Finished(Failed(ReplyNotAnObject))
    case Decoded(partial) =>
      var merged := Merge(result, partial);
      if MissingFields(merged) != [] then Retry(text + " " + operatorText, SeedSumTime(merged))
      else Finished(Finalise(SeedSumTime(merged), confirmation))
  }

  /** A retried iteration never loses a key: previously captured values stay
      unless the reply overwrote them. After a decoded reply `sum_time` is
      always present. An undecodable reply REPLACES the text; missing fields
      APPEND the supplement to it. */
  lemma RetryKeepsKeys(text: string, result: Record, reply: Reply, operatorText: string, confirmation: string)
    requires NextStep(text, result, reply, operatorText, confirmation).Retry?
    ensures var next := NextStep(text, result, reply, operatorText, confirmation);
      && result.Keys <= next.result.Keys
      && (reply.Decoded? ==> "sum_time" in next.result && next.text == text + " " + operatorText
                             && MissingFields(next.result) != [])
      && (reply.Undecodable? ==> next.text == operatorText && next.result == result)
  {
    if reply.Decoded? {
      SeedKeepsMissing(Merge(result, reply.fields));
    }
  }

  /** A decoded reply ends the loop exactly when the merged record is
      complete. */
  lemma DecodedFinishesIffComplete(text: string, result: Record, partial: Record,
                                   operatorText: string, confirmation: string)
    ensures NextStep(text, result, Decoded(partial), operatorText, confirmation).Finished?
        <==> IsComplete(Merge(result, partial))
    ensures IsComplete(Merge(result, partial)) ==>
      NextStep(text, result, Decoded(partial), operatorText, confirmation)
        == Finished(Finalise(SeedSumTime(Merge(result, partial)), confirmation))
  {
    EmptyMissingIffComplete(Merge(result, partial));
  }

  /** A record value that is the canonical HH:MM text (two digits each) of
      a time on a five-minute mark. */
  predicate IsAlignedText(v: Value) {
    && v.Str? && ParseClock(v.s).Some?
    && FormatClock(ParseClock(v.s).value) == v.s
    && ParseClock(v.s).value.minute % 5 == 0
  }

  /** What may be returned as a completed record: every required field
      present and truthy, the reason not "null", start and end stored as
      aligned HH:MM texts, and a `sum_time` of at least one hour. */
  predicate IsNormalised(d: Record) {
    && IsComplete(d)
    && IsAlignedText(d["start_time"]) && IsAlignedText(d["end_time"])
    && "sum_time" in d && d["sum_time"].Str?
    && HalfHoursOfText(d["sum_time"].s).Some? && HalfHoursOfText(d["sum_time"].s).value >= 2
  }

  /** The stored text of an aligned time is aligned. */
  lemma AlignedTextOf(t: Clock)
    ensures IsAlignedText(Str(FormatClock(AlignDown(t))))
  {
    ParseFormat(AlignDown(t));
  }

  lemma FinaliseNormalises(r: Record, confirmation: string)
    requires IsComplete(r)
    requires Finalise(r, confirmation).Completed?
    ensures IsNormalised(Finalise(r, confirmation).data)
  {
    var s := ParseTimeValue(r["start_time"]).value;
    var e := ParseTimeValue(r["end_time"]).value;
    FinaliseCompleted(r, confirmation, s, e);
    AlignedTextOf(s);
    AlignedTextOf(e);
  }

  /** Whatever the replies and answers, a completed request returns a
      normalised record. */
  lemma CompletedRecordIsNormalised(text: string, result: Record, reply: Reply,
                                    operatorText: string, confirmation: string)
    requires NextStep(text, result, reply, operatorText, confirmation).Finished?
    requires NextStep(text, result, reply, operatorText, confirmation).outcome.Completed?
    ensures IsNormalised(NextStep(text, result, reply, operatorText, confirmation).outcome.data)
  {
    assert reply.Decoded?;
    var merged := Merge(result, reply.fields);
    SeedKeepsMissing(merged);
    EmptyMissingIffComplete(SeedSumTime(merged));
    FinaliseNormalises(SeedSumTime(merged), confirmation);
  }

  // ---------------------------------------------------------------------
  // The loop's state, updated in place
  // ---------------------------------------------------------------------

  /** The local state of `parse_overtime_info`: the working text, the
      accumulated record and the `incomplete` flag. */
  class ExtractionLoop {
    var text: string
    var result: Record
    var incomplete: bool

    constructor (initialText: string)
      ensures text == initialText && result == map[] && incomplete
    {
      text := initialText;
      result := map[];
      incomplete := true;
    }

    /** `validate_and_fill(result)`: report the missing fields in order and
        seed a falsy `sum_time`. */
    method ValidateAndFill() returns (missing: seq<string>)
      modifies this`result
      ensures missing == MissingFields(old(result))
      ensures result == SeedSumTime(old(result))
    {
      MissingFieldsInOrder(result);
      missing := [];
      if Falsy(result, "start_time") {
        missing := missing + ["加班开始时间"];
      }
      if Falsy(result, "end_time") {
        missing := missing + ["加班结束时间"];
      }
      if Falsy(result, "location") {
        missing := missing + ["加班地点"];
      }
      ghost var before := result;
      if Falsy(result, "sum_time") {
        result := result["sum_time" := Str("1")];
      }
      if Falsy(result, "reason") || result["reason"] == Str(NullMarker) {
        missing := missing + ["加班事由"];
      }
      assert IsMissing(result, "reason") == IsMissing(before, "reason");
    }

    /** The branch taken once nothing is missing; the loop ends with the
        returned outcome. */
    method Finish(confirmation: string) returns (outcome: Outcome)
      modifies this`result, this`incomplete
      ensures outcome == Finalise(old(result), confirmation)
      ensures outcome.Completed? ==> result == outcome.data && !incomplete
      ensures !outcome.Completed? ==> incomplete == old(incomplete)
    {
      var startValue := GetOrNull(result, "start_time");
      var endValue := GetOrNull(result, "end_time");
      if Truthy(startValue) && Truthy(endValue) {
        var start := ParseTimeValue(startValue);
        if start.None? {
          return Failed(BadTime(startValue));
        }
        var end := ParseTimeValue(endValue);
        if end.None? {
          return Failed(BadTime(endValue));
        }
        var alignedStart := AlignTimeToFiveMinutes(startValue.s);
        var alignedEnd := AlignTimeToFiveMinutes(endValue.s);
        result := result["start_time" := Str(alignedStart.value)];
        result := result["end_time" := Str(alignedEnd.value)];
        if IsWorkingHours(StrptimeWeekday, start.value) {
          if confirmation != Confirmation {
            return NotOvertime(NotOvertimeMessage);
          }
        }
        var adjustedMinutes := AdjustForBreaks(start.value, end.value);
        result := result["sum_time" := Str(SumTimeText(adjustedMinutes))];
      }
      incomplete := false;
      outcome := Completed(result);
    }

    /** One iteration of the `while incomplete` loop; `None` means the loop
        goes round again. */
    method Step(reply: Reply, operatorText: string, confirmation: string) returns (outcome: Option<Outcome>)
      requires incomplete
      modifies this
      ensures match NextStep(old(text), old(result), reply, operatorText, confirmation)
        case Retry(t, r) => outcome == None && text == t && result == r && incomplete
        case Finished(o) => outcome == Some(o) && text == old(text)
                            && (o.Completed? <==> !incomplete)
                            && (o.Completed? ==> result == o.data)
    {
      match reply
      case CallRaised =>
        outcome := Some(Failed(ModelCallFailed));
      case Undecodable =>
        text := operatorText;
        outcome := None;
      case NonObject =>
        outcome := Some(Failed(ReplyNotAnObject));
      case Decoded(partial) =>
        result := result + partial;
        var missing := ValidateAndFill();
        if missing != [] {
          text := text + " " + operatorText;
          outcome := None;
        } else {
          var o := Finish(confirmation);
          outcome := Some(o);
        }
    }
  }
}
