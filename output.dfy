/** `transform_result`: the completed record mapped to the response payload,
    with the location's first word looked up in `REGION_MAPPING`. */
module Output {

  import opened Wrappers
  import opened Json
  import opened ClockTime
  import opened OvertimeRules
  import opened Extraction

  /** Region names and their codes. */
  const RegionMapping: map<string, int> := map[
    "深圳" := 1,
    "无锡" := 2,
    "惠州" := 3,
    "泰州" := 4,
    "项目基地" := 5,
    "其他" := 6,
    "广州" := 7,
    "西安" := 8
  ]

  /** The code of a name that is not in the table. */
  const DefaultRegion: int := 6

  /** The location assumed when the record has none. */
  const DefaultLocation: string := "其他"

  /** The characters Python's `str.split()` separates on. */
  predicate IsSpace(c: char) {
    || '\t' <= c <= '\r' || '\U{1C}' <= c <= '\U{20}'
    || c == '\U{85}' || c == '\U{A0}' || c == '\U{1680}'
    || '\U{2000}' <= c <= '\U{200A}' || c == '\U{2028}' || c == '\U{2029}'
    || c == '\U{202F}' || c == '\U{205F}' || c == '\U{3000}'
  }

  /** The length of the run of non-space characters that starts `s`. */
  function TokenLength(s: string): (n: nat)
    ensures n <= |s|
    ensures forall i :: 0 <= i < n ==> !IsSpace(s[i])
    ensures n < |s| ==> IsSpace(s[n])
  {
    if s == [] || IsSpace(s[0]) then 0 else 1 + TokenLength(s[1..])
  }

  /** Python's `str.split()` with no separator: the maximal runs of
      non-space characters, in order; leading, trailing and repeated spaces
      produce no empty words. */
  function Split(s: string): seq<string>
    decreases |s|
  {
    if s == [] then []
    else if IsSpace(s[0]) then Split(s[1..])
    else var n := TokenLength(s); [s[..n]] + Split(s[n..])
  }

  /** Every word is non-empty and free of spaces. */
  lemma {:induction false} SplitWordsAreWords(s: string)
    ensures forall w :: w in Split(s) ==> w != [] && forall i :: 0 <= i < |w| ==> !IsSpace(w[i])
    decreases |s|
  {
    if s != [] {
      if IsSpace(s[0]) {
        SplitWordsAreWords(s[1..]);
      } else {
        SplitWordsAreWords(s[TokenLength(s)..]);
      }
    }
  }

  /** There is no word exactly when the string is all spaces (or empty). */
  lemma {:induction false} SplitEmptyIffBlank(s: string)
    ensures Split(s) == [] <==> forall i :: 0 <= i < |s| ==> IsSpace(s[i])
    decreases |s|
  {
    if s != [] {
      if IsSpace(s[0]) {
        SplitEmptyIffBlank(s[1..]);
        if forall i :: 0 <= i < |s[1..]| ==> IsSpace(s[1..][i]) {
          forall i | 0 <= i < |s| ensures IsSpace(s[i]) {
            if i > 0 { assert s[i] == s[1..][i - 1]; }
          }
        }
      }
    }
  }

  /** The number of spaces that open `s`. */
  function LeadingSpaces(s: string): (k: nat)
    ensures k <= |s|
    ensures forall i :: 0 <= i < k ==> IsSpace(s[i])
    ensures k < |s| ==> !IsSpace(s[k])
  {
    if s != [] && IsSpace(s[0]) then 1 + LeadingSpaces(s[1..]) else 0
  }

  /** Whether the first word of `s` is the run of non-space characters that
      begins at the first non-space character and ends at the next space or
      at the end. */
  predicate FirstWordIsLeadingRun(s: string)
    requires Split(s) != []
  {
    var k := LeadingSpaces(s);
    k < |s| && Split(s)[0] == s[k..][..TokenLength(s[k..])]
  }

  lemma {:induction false} SplitFirstWord(s: string)
    requires Split(s) != []
    ensures FirstWordIsLeadingRun(s)
    decreases |s|
  {
    if IsSpace(s[0]) {
      SkipSpace(s);
      SplitFirstWord(s[1..]);
      FirstWordAfterSpace(s);
    } else {
      assert LeadingSpaces(s) == 0;
      assert s[0..] == s;
      assert Split(s)[0] == s[..TokenLength(s)];
    }
  }

  /** A leading space contributes no word and one leading space. */
  lemma SkipSpace(s: string)
    requires s != [] && IsSpace(s[0])
    ensures Split(s) == Split(s[1..])
    ensures LeadingSpaces(s) == 1 + LeadingSpaces(s[1..])
  {
  }

  lemma FirstWordAfterSpace(s: string)
    requires s != [] && IsSpace(s[0])
    requires Split(s[1..]) != [] && FirstWordIsLeadingRun(s[1..])
    ensures Split(s) != [] && FirstWordIsLeadingRun(s)
  {
    SkipSpace(s);
    var t := s[1..];
    var k := LeadingSpaces(t);
    assert t[k..] == s[k + 1..];
  }

  /** The code of a region name: its table entry, or the default. */
  function RegionCode(name: string): (code: int)
    ensures 1 <= code <= 8
  {
    if name in RegionMapping then RegionMapping[name] else DefaultRegion
  }

  /** What `transform_result` raises: `split` on a location that is not a
      string (AttributeError), or `[0]` on a location without any word
      (IndexError). */
  datatype TransformError = LocationNotText(location: Value) | NoLocationWord

  /** `parsed_data.get("location", "其他")`. */
  function LocationOf(data: Record): Value {
    if "location" in data then data["location"] else Str(DefaultLocation)
  }

  /** The key names of the payload. */
  const PayloadKeys: set<string> := {"cBgcc", "reason", "overtimeDate", "beginTime", "endTime"}

  /** `transform_result(parsed_data)["data"]`; the constant
      `"completed": True` wrapper is not represented. */
  function TransformResult(data: Record): Result<Record, TransformError> {
    var location := LocationOf(data);
    if !location.Str? then Err(LocationNotText(location))
    else
      var words := Split(location.s);
      if words == [] then Err(NoLocationWord)
      else Ok(map[
        "cBgcc" := Num(RegionCode(words[0])),
        "reason" := GetOrNull(data, "reason"),
        "overtimeDate" := GetOrNull(data, "overtimeDate"),
        "beginTime" := GetOrNull(data, "start_time"),
        "endTime" := GetOrNull(data, "end_time")
      ])
  }

  /** The transformation fails exactly when the location is not a string, or
      is a string of spaces only; otherwise the payload has exactly the five
      keys, carries the code of the first word of the location, and passes
      reason, date, start and end through (an absent key as null). */
  lemma TransformContract(data: Record)
    ensures var location := LocationOf(data);
      TransformResult(data).Err? <==>
        !location.Str? || forall i :: 0 <= i < |location.s| ==> IsSpace(location.s[i])
    ensures TransformResult(data).Ok? ==>
      var p := TransformResult(data).value;
      var words := Split(LocationOf(data).s);
      && words != []
      && p.Keys == PayloadKeys
      && p["cBgcc"] == Num(if words[0] in RegionMapping then RegionMapping[words[0]] else DefaultRegion)
      && p["reason"] == GetOrNull(data, "reason")
      && p["overtimeDate"] == GetOrNull(data, "overtimeDate")
      && p["beginTime"] == GetOrNull(data, "start_time")
      && p["endTime"] == GetOrNull(data, "end_time")
  {
    if LocationOf(data).Str? {
      SplitEmptyIffBlank(LocationOf(data).s);
    }
  }

  /** A record without a location is mapped to the default region. */
  lemma MissingLocationIsOther(data: Record)
    requires "location" !in data
    ensures TransformResult(data).Ok? && TransformResult(data).value["cBgcc"] == Num(DefaultRegion)
  {
    assert DefaultLocation[..TokenLength(DefaultLocation)] == DefaultLocation;
    assert Split(DefaultLocation) == [DefaultLocation];
  }

  /** The first word decides the region: "深圳 办公室" maps to 1. */
  lemma FirstWordExample()
    ensures TransformResult(map["location" := Str("深圳 办公室")]) == Ok(map[
      "cBgcc" := Num(1), "reason" := Null, "overtimeDate" := Null, "beginTime" := Null, "endTime" := Null])
  {
    var a := "深圳 办公室";
    assert TokenLength(a) == 2;
    assert a[..2] == "深圳";
    assert Split(a)[0] == "深圳";
  }

  /** A leading ideographic space is skipped: "\U{3000}惠州" maps to 3. */
  lemma LeadingSpaceExample()
    ensures TransformResult(map["location" := Str("\U{3000}惠州")]).Ok?
    ensures TransformResult(map["location" := Str("\U{3000}惠州")]).value["cBgcc"] == Num(3)
  {
    var b := "\U{3000}惠州";
    var c := b[1..];
    assert c == "惠州";
    assert TokenLength(c) == 2;
    assert c[..2] == c;
    assert Split(b) == Split(c) == [c];
  }

  /** An unknown name maps to 6; a blank or null location fails. */
  lemma UnknownAndBlankExamples()
    ensures TransformResult(map["location" := Str("北京")]).Ok?
    ensures TransformResult(map["location" := Str("北京")]).value["cBgcc"] == Num(DefaultRegion)
    ensures TransformResult(map["location" := Str(" ")]) == Err(NoLocationWord)
    ensures TransformResult(map["location" := Null]) == Err(LocationNotText(Null))
  {
    var c := "北京";
    assert TokenLength(c) == 2;
    assert c[..2] == c;
    assert Split(c) == [c];
    assert Split(" ") == Split(" "[1..]) == [];
  }

  /** A reply with every field, for the request "明天下午8点12到晚上10点在深圳加班写代码". */
  const SampleReply: Record := map[
    "start_time" := Str("20:12"),
    "end_time" := Str("22:00"),
    "location" := Str("深圳"),
    "overtimeDate" := Str("2026-10-15"),
    "reason" := Str("写代码")
  ]

  /** The sample reply is complete, so one round trip finalises it. */
  lemma SampleStepFinalises(text: string, confirmation: string)
    ensures NextStep(text, map[], Decoded(SampleReply), "", confirmation)
         == Finished(Finalise(SampleReply["sum_time" := Str("1")], confirmation))
  {
    SampleMergesUnchanged();
    DecodedFinishesIffComplete(text, map[], SampleReply, "", confirmation);
  }

  lemma SampleMergesUnchanged()
    ensures Merge(map[], SampleReply) == SampleReply
    ensures IsComplete(SampleReply)
    ensures SeedSumTime(SampleReply) == SampleReply["sum_time" := Str("1")]
  {
    assert map[] + SampleReply == SampleReply;
    assert SampleReply["start_time"] == Str("20:12");
    assert SampleReply["end_time"] == Str("22:00");
    assert SampleReply["location"] == Str("深圳");
    assert SampleReply["reason"] == Str("写代码");
    assert "sum_time" !in SampleReply;
  }

  /** The sample's finalised record: aligned start, and 108 billable minutes
      stored as two hours. */
  lemma SampleFinalised()
    ensures Finalise(SampleReply["sum_time" := Str("1")], "")
         == Completed(SampleReply["start_time" := Str("20:10")]["sum_time" := Str("2.0")])
  {
    var r := SampleReply["sum_time" := Str("1")];
    assert ParseTimeValue(r["start_time"]) == Some(Time(20, 12));
    assert ParseTimeValue(r["end_time"]) == Some(Time(22, 0));
    assert !IsWorkingHours(StrptimeWeekday, Time(20, 12));
    OverlapOfBreaks(Time(20, 12), Time(22, 0));
    assert AdjustedMinutes(Time(20, 12), Time(22, 0)) == 108;
    assert DecimalText(2) == "2";
    assert SumTimeText(108) == "2.0";
    assert FormatClock(AlignDown(Time(20, 12))) == "20:10";
    assert FormatClock(AlignDown(Time(22, 0))) == "22:00";
  }

  /** The sample's payload carries region 1 and the aligned times. */
  lemma SamplePayload()
    ensures TransformResult(SampleReply["start_time" := Str("20:10")]["sum_time" := Str("2.0")]) == Ok(map[
           "cBgcc" := Num(1),
           "reason" := Str("写代码"),
           "overtimeDate" := Str("2026-10-15"),
           "beginTime" := Str("20:10"),
           "endTime" := Str("22:00")])
  {
    var loc := "深圳";
    assert loc[..TokenLength(loc)] == loc;
    assert Split(loc) == [loc];
  }

  /** A start inside working hours without the confirming answer ends the
      request with the rejection. */
  lemma WorkingHoursRejectionExample()
    ensures Finalise(SampleReply["start_time" := Str("09:00")], "否") == NotOvertime(NotOvertimeMessage)
  {
    assert ParseClock("09:00") == Some(Time(9, 0));
    assert ParseClock("22:00") == Some(Time(22, 0));
  }
}
