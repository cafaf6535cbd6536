/** The AI worker's reply post-processor: it descends the text-generation
    endpoint's JSON envelope to the embedded answer, strips the Markdown code
    fence around it, parses it and turns it into a Recommendation; every
    failure on the way yields the fixed fallback recommendation instead. */
module ActivityAIService {
  import opened Common
  import opened JsonNode
  import opened JavaString

  /** The activity as the worker receives it from the queue; its type is the
      enum constant's name. */
  datatype Activity = Activity(
    id: string,
    userId: string,
    duration: int,
    activityType: string,
    caloriesBurned: int,
    startTime: Timestamp,
    additionalMetrics: map<string, Json>,
    createdAt: Timestamp,
    updatedAt: Timestamp)

  /** The stored recommendation, without its creation timestamp. */
  datatype Recommendation = Recommendation(
    activityId: string,
    userId: string,
    activityType: string,
    recommendation: string,
    improvementAreas: seq<string>,
    suggestedActivities: seq<string>,
    safety: seq<string>)

  const OpeningFence := "```json\n"
  const ClosingFence := "\n```"

  const NoImprovements := "No specific improvements suggested."
  const NoSuggestions := "No specific workout suggestions provided."
  const NoSafety := "No specific safety guidelines provided."
  const NoRecommendation := "No specific recommendations available."
  const ContinueRoutine := "Continue with your current routine."

  /** The Markdown code fence around the embedded answer, removed: every
      opening delimiter, then every closing delimiter, then `trim()`. */
  function StripFences(text: string): (r: string)
    ensures |r| <= |text|
    ensures Trim(r) == r
    ensures !Contains(text, OpeningFence) && !Contains(text, ClosingFence) ==> r == Trim(text)
  {
    var unfenced := RemoveAll(RemoveAll(text, OpeningFence), ClosingFence);
    TrimIdempotent(unfenced);
    UnfencedTextKept(text);
    Trim(unfenced)
  }

  /** Text with neither delimiter goes through both removals unchanged. */
  lemma UnfencedTextKept(text: string)
    ensures !Contains(text, OpeningFence) && !Contains(text, ClosingFence) ==>
      RemoveAll(RemoveAll(text, OpeningFence), ClosingFence) == text
  {
    if !Contains(text, OpeningFence) && !Contains(text, ClosingFence) {
      RemoveAllAbsent(text, OpeningFence);
      RemoveAllAbsent(text, ClosingFence);
    }
  }

  // ----- the embedded answer -----

  /** `candidates[0].content.parts[0].text`. None where `get(0)` returns null
      and the next `path` call would dereference it. */
  function ReplyTextNode(root: Json): (r: Option<Json>)
    ensures r.Some? <==>
      && root.Obj? && "candidates" in root.fields
      && root.fields["candidates"].Arr? && |root.fields["candidates"].elems| > 0
      && var candidate := root.fields["candidates"].elems[0];
      && candidate.Obj? && "content" in candidate.fields
      && candidate.fields["content"].Obj? && "parts" in candidate.fields["content"].fields
      && var parts := candidate.fields["content"].fields["parts"];
      && parts.Arr? && |parts.elems| > 0
    ensures r.Some? ==>
      var parts := root.fields["candidates"].elems[0].fields["content"].fields["parts"];
      r.value == Path(parts.elems[0], "text")
  {
    match Get(Path(root, "candidates"), 0)
    case None => None
    case Some(candidate) =>
      match Get(Path(Path(candidate, "content"), "parts"), 0)
      case None => None
      case Some(part) => Some(Path(part, "text"))
  }

  /** The parsed answer document, or None on every path on which the
      processing throws: the reply does not parse, the envelope lacks a
      candidate or a part, or the unfenced text does not parse. */
  function AnswerDocument(readTree: string -> Option<Json>, aiResponse: string): (r: Option<Json>)
    ensures readTree(aiResponse).None? ==> r.None?
    ensures readTree(aiResponse).Some? && ReplyTextNode(readTree(aiResponse).value).None? ==> r.None?
    ensures readTree(aiResponse).Some? && ReplyTextNode(readTree(aiResponse).value).Some? ==>
      var textNode := ReplyTextNode(readTree(aiResponse).value).value;
      r == readTree(StripFences(AsText(textNode)))
  {
    match readTree(aiResponse)
    case None => None
    case Some(root) =>
      match ReplyTextNode(root)
      case None => None
      case Some(textNode) => readTree(StripFences(AsText(textNode)))
  }

  // ----- the summary -----

  /** One summary line, present only when the analysis has the key (an
      explicit JSON null counts as present). */
  function Section(analysis: Json, key: string, prefix: string): (r: string)
    ensures r == "" <==> IsMissingNode(Path(analysis, key))
    ensures r != "" ==> IsPrefix(prefix + " ", r) && r[|r| - 1] == '\n'
  {
    var value := Path(analysis, key);
    if IsMissingNode(value) then "" else prefix + " " + AsText(value) + "\n"
  }

  function SummaryBuffer(analysis: Json): (r: string)
    ensures r == "" <==> NoSectionPresent(analysis)
    ensures r != "" ==> r[0] in {'O', 'P', 'H', 'C'} && r[|r| - 1] == '\n'
  {
    Section(analysis, "overall", "Overall Analysis:")
    + Section(analysis, "pace", "Pace:")
    + Section(analysis, "heartRate", "Heart Rate:")
    + Section(analysis, "caloriesBurned", "Calories:")
  }

  /** The recommendation text: the present sections in the fixed key order,
      trimmed. It is empty exactly when no section is present, and otherwise
      starts with the first letter of a section prefix. */
  function Summary(analysis: Json): (r: string)
    ensures r == "" <==> NoSectionPresent(analysis)
    ensures r != "" ==> r[0] in {'O', 'P', 'H', 'C'}
  {
    var buffer := SummaryBuffer(analysis);
    if buffer != "" then
      TrimKeepsFirst(buffer);
      Trim(buffer)
    else
      Trim(buffer)
  }

  predicate NoSectionPresent(analysis: Json) {
    && IsMissingNode(Path(analysis, "overall"))
    && IsMissingNode(Path(analysis, "pace"))
    && IsMissingNode(Path(analysis, "heartRate"))
    && IsMissingNode(Path(analysis, "caloriesBurned"))
  }

  /** The analysis keys in the order the summary lists them, each with the
      prefix of its line. */
  const SectionTable: seq<(string, string)> :=
    [("overall", "Overall Analysis:"), ("pace", "Pace:"),
     ("heartRate", "Heart Rate:"), ("caloriesBurned", "Calories:")]

  /** The line of one key without its newline, or none when the key is missing. */
  function LineOf(analysis: Json, key: string, prefix: string): seq<string> {
    var value := Path(analysis, key);
    if IsMissingNode(value) then [] else [prefix + " " + AsText(value)]
  }

  /** The lines of the keys of `table` that the analysis has, in table order. */
  function LinesOf(analysis: Json, table: seq<(string, string)>): (r: seq<string>)
    ensures |r| <= |table|
    ensures r == [] <==> forall j :: 0 <= j < |table| ==> IsMissingNode(Path(analysis, table[j].0))
    decreases |table|
  {
    if table == [] then []
    else
      assert forall j :: 1 <= j < |table| ==> table[j] == table[1..][j - 1];
      LineOf(analysis, table[0].0, table[0].1) + LinesOf(analysis, table[1..])
  }

  /** The summary's lines: one per present key, in key order. */
  function PresentLines(analysis: Json): (r: seq<string>)
    ensures |r| <= 4
    ensures r == [] <==> NoSectionPresent(analysis)
  {
    assert SectionTable[0].0 == "overall" && SectionTable[1].0 == "pace";
    assert SectionTable[2].0 == "heartRate" && SectionTable[3].0 == "caloriesBurned";
    LinesOf(analysis, SectionTable)
  }

  /** Lines each followed by a newline, as the builder accumulates them. */
  function Terminated(lines: seq<string>): string {
    if lines == [] then "" else lines[0] + "\n" + Terminated(lines[1..])
  }

  /** Lines separated by `sep`. */
  function Join(lines: seq<string>, sep: string): string {
    if lines == [] then ""
    else if |lines| == 1 then lines[0]
    else lines[0] + sep + Join(lines[1..], sep)
  }

  predicate EndsClean(s: string) {
    s != [] && !IsTrimmable(s[|s| - 1])
  }

  // ----- the three lists -----

  /** `String.format("%s: %s", ...)` of two fields of one array element. */
  function Labelled(element: Json, labelKey: string, textKey: string): string {
    AsText(Path(element, labelKey)) + ": " + AsText(Path(element, textKey))
  }

  /** The `forEach` that appends one labelled line per array element. */
  function LabelEach(elems: seq<Json>, labelKey: string, textKey: string): (r: seq<string>)
    ensures |r| == |elems|
    ensures forall i :: 0 <= i < |elems| ==> r[i] == Labelled(elems[i], labelKey, textKey)
    decreases |elems|
  {
    if elems == [] then []
    else
      var last := |elems| - 1;
      LabelEach(elems[..last], labelKey, textKey) + [Labelled(elems[last], labelKey, textKey)]
  }

  /** The `forEach` that appends the text of each array element. */
  function TextOfEach(elems: seq<Json>): (r: seq<string>)
    ensures |r| == |elems|
    ensures forall i :: 0 <= i < |elems| ==> r[i] == AsText(elems[i])
    decreases |elems|
  {
    if elems == [] then []
    else
      var last := |elems| - 1;
      TextOfEach(elems[..last]) + [AsText(elems[last])]
  }

  function OrPlaceholder(lines: seq<string>, placeholder: string): seq<string> {
    if lines == [] then [placeholder] else lines
  }

  function ExtractImprovements(node: Json): (r: seq<string>)
    ensures r != []
    ensures !IsArray(node) || node.elems == [] ==> r == [NoImprovements]
    ensures IsArray(node) && node.elems != [] ==>
      && |r| == |node.elems|
      && forall i :: 0 <= i < |r| ==> r[i] == Labelled(node.elems[i], "area", "recommendation")
  {
    var lines := if IsArray(node) then LabelEach(node.elems, "area", "recommendation") else [];
    OrPlaceholder(lines, NoImprovements)
  }

  function ExtractSuggestions(node: Json): (r: seq<string>)
    ensures r != []
    ensures !IsArray(node) || node.elems == [] ==> r == [NoSuggestions]
    ensures IsArray(node) && node.elems != [] ==>
      && |r| == |node.elems|
      && forall i :: 0 <= i < |r| ==> r[i] == Labelled(node.elems[i], "workout", "description")
  {
    var lines := if IsArray(node) then LabelEach(node.elems, "workout", "description") else [];
    OrPlaceholder(lines, NoSuggestions)
  }

  function ExtractSafety(node: Json): (r: seq<string>)
    ensures r != []
    ensures !IsArray(node) || node.elems == [] ==> r == [NoSafety]
    ensures IsArray(node) && node.elems != [] ==>
      && |r| == |node.elems|
      && forall i :: 0 <= i < |r| ==> r[i] == AsText(node.elems[i])
  {
    var lines := if IsArray(node) then TextOfEach(node.elems) else [];
    OrPlaceholder(lines, NoSafety)
  }

  // ----- the recommendation -----

  /** The recommendation built from a parsed answer document. */
  function FromDocument(activity: Activity, doc: Json): (r: Recommendation)
    ensures r.activityId == activity.id && r.userId == activity.userId && r.activityType == activity.activityType
    ensures r.improvementAreas != [] && r.suggestedActivities != [] && r.safety != []
    ensures r.recommendation != NoRecommendation
  {
    SummaryIsNeverFallbackText(Path(doc, "analysis"));
    Recommendation(
      activity.id,
      activity.userId,
      activity.activityType,
      Summary(Path(doc, "analysis")),
      ExtractImprovements(Path(doc, "improvements")),
      ExtractSuggestions(Path(doc, "suggestions")),
      ExtractSafety(Path(doc, "safety")))
  }

  /** The fallback: fixed texts and one-element lists, with the activity's
      identity copied. Its improvements text is not the one an empty
      improvements array yields. */
  function DefaultRecommendation(activity: Activity): (r: Recommendation)
    ensures r.activityId == activity.id && r.userId == activity.userId && r.activityType == activity.activityType
    ensures r.recommendation == NoRecommendation
    ensures r.improvementAreas == [ContinueRoutine] && r.improvementAreas != ExtractImprovements(Arr([]))
    ensures r.suggestedActivities == [NoSuggestions] && r.safety == [NoSafety]
  {
    Recommendation(
      activity.id,
      activity.userId,
      activity.activityType,
      NoRecommendation,
      [ContinueRoutine],
      [NoSuggestions],
      [NoSafety])
  }

  /** `processAiResponse`: total; the fallback exactly when the answer could
      not be reached, and then nothing from the reply leaks into it. */
  function ProcessAiResponse(readTree: string -> Option<Json>, activity: Activity, aiResponse: string): (r: Recommendation)
    ensures r.activityId == activity.id && r.userId == activity.userId && r.activityType == activity.activityType
    ensures r.improvementAreas != [] && r.suggestedActivities != [] && r.safety != []
    ensures AnswerDocument(readTree, aiResponse).None? ==> r == DefaultRecommendation(activity)
    ensures r.recommendation == NoRecommendation <==> AnswerDocument(readTree, aiResponse).None?
    ensures AnswerDocument(readTree, aiResponse).Some? ==>
      var doc := AnswerDocument(readTree, aiResponse).value;
      && r.recommendation == Summary(Path(doc, "analysis"))
      && r.improvementAreas == ExtractImprovements(Path(doc, "improvements"))
      && r.suggestedActivities == ExtractSuggestions(Path(doc, "suggestions"))
      && r.safety == ExtractSafety(Path(doc, "safety"))
  {
    match AnswerDocument(readTree, aiResponse)
    case None => DefaultRecommendation(activity)
    case Some(doc) => FromDocument(activity, doc)
  }

  // ----- properties of the summary -----

  /** A parsed answer never produces the fallback's recommendation text. */
  lemma SummaryIsNeverFallbackText(analysis: Json)
    ensures Summary(analysis) != NoRecommendation
  {
    assert NoRecommendation[0] == 'N';
  }

  lemma SectionOfText(analysis: Json, key: string, prefix: string, text: string)
    requires Path(analysis, key) == Str(text)
    ensures Section(analysis, key, prefix) == prefix + " " + text + "\n"
  {
  }

  /** The four lines of a full analysis, in key order. */
  function FullSummary(overall: string, pace: string, heartRate: string, calories: string): string {
    "Overall Analysis:" + " " + overall + "\n" + "Pace:" + " " + pace + "\n"
    + "Heart Rate:" + " " + heartRate + "\n" + "Calories:" + " " + calories
  }

  lemma FullBuffer(analysis: Json, overall: string, pace: string, heartRate: string, calories: string)
    requires Path(analysis, "overall") == Str(overall)
    requires Path(analysis, "pace") == Str(pace)
    requires Path(analysis, "heartRate") == Str(heartRate)
    requires Path(analysis, "caloriesBurned") == Str(calories)
    ensures SummaryBuffer(analysis) == FullSummary(overall, pace, heartRate, calories) + "\n"
  {
    SectionOfText(analysis, "overall", "Overall Analysis:", overall);
    SectionOfText(analysis, "pace", "Pace:", pace);
    SectionOfText(analysis, "heartRate", "Heart Rate:", heartRate);
    SectionOfText(analysis, "caloriesBurned", "Calories:", calories);
    var front := Section(analysis, "overall", "Overall Analysis:") + Section(analysis, "pace", "Pace:")
                 + Section(analysis, "heartRate", "Heart Rate:");
    var last := "Calories:" + " " + calories;
    assert front + "Calories:" + " " + calories == FullSummary(overall, pace, heartRate, calories);
    assert front + (last + "\n") == (front + last) + "\n";
  }

  /** With all four sections present as strings, the summary is the four
      lines in key order, without the final newline. */
  lemma SummaryOfFullAnalysis(analysis: Json, overall: string, pace: string, heartRate: string, calories: string)
    requires Path(analysis, "overall") == Str(overall)
    requires Path(analysis, "pace") == Str(pace)
    requires Path(analysis, "heartRate") == Str(heartRate)
    requires Path(analysis, "caloriesBurned") == Str(calories)
    requires calories != [] && !IsTrimmable(calories[|calories| - 1])
    ensures Summary(analysis) == FullSummary(overall, pace, heartRate, calories)
  {
    var lines := FullSummary(overall, pace, heartRate, calories);
    FullBuffer(analysis, overall, pace, heartRate, calories);
    assert lines[0] == 'O';
    assert lines[|lines| - 1] == calories[|calories| - 1];
    TrimDropsNewline(lines);
  }

  lemma {:induction false} TerminatedAppend(a: seq<string>, b: seq<string>)
    ensures Terminated(a + b) == Terminated(a) + Terminated(b)
    decreases |a|
  {
    if a != [] {
      assert (a + b)[1..] == a[1..] + b;
      TerminatedAppend(a[1..], b);
    } else {
      assert a + b == b;
    }
  }

  lemma {:induction false} TerminatedIsJoin(lines: seq<string>)
    requires lines != []
    ensures Terminated(lines) == Join(lines, "\n") + "\n"
    decreases |lines|
  {
    if |lines| == 1 {
      assert lines[1..] == [];
    } else {
      TerminatedIsJoin(lines[1..]);
    }
  }

  /** The last character of joined lines is that of the last line. */
  lemma {:induction false} JoinEnd(lines: seq<string>)
    requires lines != [] && lines[|lines| - 1] != []
    ensures var j := Join(lines, "\n"); j != [] && j[|j| - 1] == lines[|lines| - 1][|lines[|lines| - 1]| - 1]
    decreases |lines|
  {
    if |lines| > 1 {
      JoinEnd(lines[1..]);
    }
  }

  lemma SectionIsTerminatedLine(analysis: Json, key: string, prefix: string)
    ensures Section(analysis, key, prefix) == Terminated(LineOf(analysis, key, prefix))
  {
    if !IsMissingNode(Path(analysis, key)) {
      var line := prefix + " " + AsText(Path(analysis, key));
      assert Terminated([line]) == line + "\n" + Terminated([]);
    }
  }

  /** The table read out: one optional line per key, in key order. */
  lemma PresentLinesInOrder(analysis: Json)
    ensures PresentLines(analysis) ==
      LineOf(analysis, "overall", "Overall Analysis:") + LineOf(analysis, "pace", "Pace:")
      + LineOf(analysis, "heartRate", "Heart Rate:") + LineOf(analysis, "caloriesBurned", "Calories:")
  {
    var t3 := [("caloriesBurned", "Calories:")];
    var t2 := [("heartRate", "Heart Rate:")] + t3;
    var t1 := [("pace", "Pace:")] + t2;
    assert SectionTable == [("overall", "Overall Analysis:")] + t1;
    assert t3[1..] == [];
    assert t2[1..] == t3;
    assert t1[1..] == t2;
    assert SectionTable[1..] == t1;
    var l1 := LineOf(analysis, "overall", "Overall Analysis:");
    var l2 := LineOf(analysis, "pace", "Pace:");
    var l3 := LineOf(analysis, "heartRate", "Heart Rate:");
    var l4 := LineOf(analysis, "caloriesBurned", "Calories:");
    assert LinesOf(analysis, t3) == l4 + [];
    assert LinesOf(analysis, t1) == l2 + (l3 + l4);
    assert l1 + (l2 + (l3 + l4)) == l1 + l2 + l3 + l4;
  }

  /** The builder holds the present lines, each followed by a newline. */
  lemma BufferIsTerminatedLines(analysis: Json)
    ensures SummaryBuffer(analysis) == Terminated(PresentLines(analysis))
  {
    var l1 := LineOf(analysis, "overall", "Overall Analysis:");
    var l2 := LineOf(analysis, "pace", "Pace:");
    var l3 := LineOf(analysis, "heartRate", "Heart Rate:");
    var l4 := LineOf(analysis, "caloriesBurned", "Calories:");
    PresentLinesInOrder(analysis);
    TerminatedAppend(l1 + l2 + l3, l4);
    TerminatedAppend(l1 + l2, l3);
    TerminatedAppend(l1, l2);
    SectionIsTerminatedLine(analysis, "overall", "Overall Analysis:");
    SectionIsTerminatedLine(analysis, "pace", "Pace:");
    SectionIsTerminatedLine(analysis, "heartRate", "Heart Rate:");
    SectionIsTerminatedLine(analysis, "caloriesBurned", "Calories:");
  }

  /** For any analysis, full or partial, the summary is the present lines in
      key order joined by newlines, provided the last line does not end in
      whitespace (its value's text is non-empty and does not end in a
      character at or below U+0020), since `trim()` would cut that too. */
  lemma SummaryOfPresentLines(analysis: Json)
    requires var lines := PresentLines(analysis); lines == [] || EndsClean(lines[|lines| - 1])
    ensures Summary(analysis) == Join(PresentLines(analysis), "\n")
  {
    var lines := PresentLines(analysis);
    if lines != [] {
      BufferIsTerminatedLines(analysis);
      TrimOfTerminated(lines);
    }
  }

  /** `trim()` of newline-terminated lines removes only the last newline when
      the text starts and ends clean. */
  lemma TrimOfTerminated(lines: seq<string>)
    requires lines != [] && EndsClean(lines[|lines| - 1])
    requires Terminated(lines)[0] > ' '
    ensures Trim(Terminated(lines)) == Join(lines, "\n")
  {
    var joined := Join(lines, "\n");
    TerminatedIsJoin(lines);
    JoinEnd(lines);
    assert Terminated(lines)[0] == joined[0];
    TrimDropsNewline(joined);
  }

  // ----- end to end -----

  /** Each way the answer can fail to be reached takes the fallback. */
  lemma FailuresFallBack(readTree: string -> Option<Json>, activity: Activity, aiResponse: string)
    ensures readTree(aiResponse).None? ==>
      ProcessAiResponse(readTree, activity, aiResponse) == DefaultRecommendation(activity)
    ensures readTree(aiResponse).Some? && Get(Path(readTree(aiResponse).value, "candidates"), 0).None? ==>
      ProcessAiResponse(readTree, activity, aiResponse) == DefaultRecommendation(activity)
    ensures (&& readTree(aiResponse).Some?
             && Get(Path(readTree(aiResponse).value, "candidates"), 0).Some?
             && Get(Path(Path(Get(Path(readTree(aiResponse).value, "candidates"), 0).value, "content"), "parts"), 0).None?) ==>
      ProcessAiResponse(readTree, activity, aiResponse) == DefaultRecommendation(activity)
    ensures (&& readTree(aiResponse).Some?
             && ReplyTextNode(readTree(aiResponse).value).Some?
             && readTree(StripFences(AsText(ReplyTextNode(readTree(aiResponse).value).value))).None?) ==>
      ProcessAiResponse(readTree, activity, aiResponse) == DefaultRecommendation(activity)
  {
  }

  /** An answer without analysis fields gives an empty summary, not the
      fallback text, and its lists still follow the answer. */
  lemma AnswerWithoutAnalysis(readTree: string -> Option<Json>, activity: Activity, aiResponse: string)
    requires AnswerDocument(readTree, aiResponse).Some?
    requires NoSectionPresent(Path(AnswerDocument(readTree, aiResponse).value, "analysis"))
    ensures var r := ProcessAiResponse(readTree, activity, aiResponse);
      r.recommendation == "" && r != DefaultRecommendation(activity)
  {
    var doc := AnswerDocument(readTree, aiResponse).value;
    var r := ProcessAiResponse(readTree, activity, aiResponse);
    assert r == FromDocument(activity, doc);
    assert r.recommendation == "";
    assert r.recommendation != DefaultRecommendation(activity).recommendation;
  }

  /** An answer object without a `safety` array yields the safety placeholder. */
  lemma AnswerWithoutSafety(readTree: string -> Option<Json>, activity: Activity, aiResponse: string)
    requires AnswerDocument(readTree, aiResponse).Some?
    requires var doc := AnswerDocument(readTree, aiResponse).value; doc.Obj? && "safety" !in doc.fields
    ensures ProcessAiResponse(readTree, activity, aiResponse).safety == [NoSafety]
  {
  }

  /** A reply whose `candidates[0].content.parts[0].text` is a fenced answer
      that parses is processed into the recommendation built from that
      answer, whatever other fields the envelope carries. */
  lemma FencedAnswerIsUsed(readTree: string -> Option<Json>, activity: Activity, aiResponse: string, body: string, doc: Json)
    requires readTree(aiResponse).Some?
    requires ReplyTextNode(readTree(aiResponse).value) == Some(Str(OpeningFence + body + ClosingFence))
    requires !Contains(body, OpeningFence) && !Contains(body, ClosingFence)
    requires !EndsWith(body, "```json")
    requires body == [] || (!IsTrimmable(body[0]) && !IsTrimmable(body[|body| - 1]))
    requires readTree(body) == Some(doc)
    ensures ProcessAiResponse(readTree, activity, aiResponse) == FromDocument(activity, doc)
  {
    FencedAnswerDocument(readTree, aiResponse, body);
  }

  lemma FencedAnswerDocument(readTree: string -> Option<Json>, aiResponse: string, body: string)
    requires readTree(aiResponse).Some?
    requires ReplyTextNode(readTree(aiResponse).value) == Some(Str(OpeningFence + body + ClosingFence))
    requires !Contains(body, OpeningFence) && !Contains(body, ClosingFence)
    requires !EndsWith(body, "```json")
    requires body == [] || (!IsTrimmable(body[0]) && !IsTrimmable(body[|body| - 1]))
    ensures AnswerDocument(readTree, aiResponse) == readTree(body)
  {
    FenceRoundTrip(body);
    assert AsText(Str(OpeningFence + body + ClosingFence)) == OpeningFence + body + ClosingFence;
  }

  // ----- the fence -----

  /** A match that lies wholly inside the body would be an occurrence in it. */
  lemma MatchInsideBody(body: string, p: string, i: nat)
    requires i + |p| <= |body| && !Contains(body, p)
    ensures !IsPrefix(p, (body + ClosingFence)[i..])
  {
    if IsPrefix(p, body[i..]) {
      ContainsAt(body, p, i);
    }
    assert (body + ClosingFence)[i..][..|p|] == body[i..][..|p|];
  }

  /** An opening delimiter overlapping the closing fence would need the
      body to end with its first seven characters. */
  lemma OpeningAcrossEnd(body: string, i: nat)
    requires i < |body| < i + |OpeningFence|
    requires !EndsWith(body, "```json")
    ensures !IsPrefix(OpeningFence, (body + ClosingFence)[i..])
  {
    var s := (body + ClosingFence)[i..];
    var j := |body| - i;
    assert s[j] == '\n';
    if j < 7 {
      assert OpeningFence[j] != '\n';
    } else {
      assert s[..7] == body[|body| - 7..];
      assert OpeningFence[..7] == "```json";
      assert s[..|OpeningFence|][..7] == s[..7];
    }
  }

  /** No opening delimiter starts inside the body once the closing fence
      follows it. */
  lemma OpeningFenceNotAt(body: string, i: nat)
    requires i < |body|
    requires !Contains(body, OpeningFence) && !EndsWith(body, "```json")
    ensures !IsPrefix(OpeningFence, (body + ClosingFence)[i..])
  {
    if i + |OpeningFence| <= |body| {
      MatchInsideBody(body, OpeningFence, i);
    } else {
      OpeningAcrossEnd(body, i);
    }
  }

  /** No closing delimiter starts inside a body free of it, even with the
      closing fence following. */
  lemma ClosingFenceNotAt(body: string, i: nat)
    requires i < |body|
    requires !Contains(body, ClosingFence)
    ensures !IsPrefix(ClosingFence, (body + ClosingFence)[i..])
  {
    var s := (body + ClosingFence)[i..];
    if i + |ClosingFence| <= |body| {
      if IsPrefix(ClosingFence, body[i..]) {
        ContainsAt(body, ClosingFence, i);
      }
      assert s[..|ClosingFence|] == body[i..][..|ClosingFence|];
    } else {
      var j := |body| - i;
      assert s[j] == '\n';
      assert ClosingFence[j] == '`';
    }
  }

  /** Removing the opening delimiter leaves the body and the closing fence. */
  lemma OpeningPass(body: string)
    requires !Contains(body, OpeningFence) && !EndsWith(body, "```json")
    ensures RemoveAll(OpeningFence + body + ClosingFence, OpeningFence) == body + ClosingFence
  {
    var fenced := body + ClosingFence;
    assert OpeningFence + body + ClosingFence == OpeningFence + fenced;
    RemoveAllLeading(OpeningFence, fenced);
    forall i | 0 <= i < |body|
      ensures !IsPrefix(OpeningFence, fenced[i..])
    {
      OpeningFenceNotAt(body, i);
    }
    RemoveAllKeepsPrefix(body, ClosingFence, OpeningFence);
    ShortNotContains(ClosingFence, OpeningFence);
    RemoveAllAbsent(ClosingFence, OpeningFence);
  }

  /** Removing the closing delimiter then leaves the body alone. */
  lemma ClosingPass(body: string)
    requires !Contains(body, ClosingFence)
    ensures RemoveAll(body + ClosingFence, ClosingFence) == body
  {
    forall i | 0 <= i < |body|
      ensures !IsPrefix(ClosingFence, (body + ClosingFence)[i..])
    {
      ClosingFenceNotAt(body, i);
    }
    RemoveAllKeepsPrefix(body, ClosingFence, ClosingFence);
    assert ClosingFence + [] == ClosingFence;
    RemoveAllLeading(ClosingFence, []);
    assert body + [] == body;
  }

  /** A body wrapped in the fence the model is asked to produce comes back
      unchanged, provided it contains neither delimiter, has no surrounding
      whitespace, and does not end with the opening delimiter's text before
      its newline. */
  lemma FenceRoundTrip(body: string)
    requires !Contains(body, OpeningFence) && !Contains(body, ClosingFence)
    requires !EndsWith(body, "```json")
    requires body == [] || (!IsTrimmable(body[0]) && !IsTrimmable(body[|body| - 1]))
    ensures StripFences(OpeningFence + body + ClosingFence) == body
  {
    OpeningPass(body);
    ClosingPass(body);
    TrimClean(body);
  }

  lemma CounterexampleBody(body: string)
    requires body == "x```json"
    ensures !Contains(body, OpeningFence) && !Contains(body, ClosingFence)
  {
    assert body[..|OpeningFence|][0] == 'x' != OpeningFence[0];
    assert body[1..] == "```json";
    ShortNotContains(body[1..], OpeningFence);
    assert '\n' !in body;
    NotContainsWithoutFirst(body, ClosingFence);
  }

  lemma CounterexampleOpeningPass(body: string)
    requires body == "x```json"
    ensures RemoveAll(OpeningFence + body + ClosingFence, OpeningFence) == "x```"
  {
    var rest := body + ClosingFence;
    assert OpeningFence + body + ClosingFence == OpeningFence + rest;
    RemoveAllLeading(OpeningFence, rest);
    assert rest[0] == 'x' && OpeningFence[0] == '`';
    assert !IsPrefix(OpeningFence, rest);
    assert rest[1..] == OpeningFence + "```";
    RemoveAllLeading(OpeningFence, "```");
    ShortNotContains("```", OpeningFence);
    RemoveAllAbsent("```", OpeningFence);
    assert RemoveAll(rest, OpeningFence) == [rest[0]] + RemoveAll(rest[1..], OpeningFence);
  }

  lemma CounterexampleRest(text: string)
    requires text == "x```"
    ensures Trim(RemoveAll(text, ClosingFence)) == text
  {
    assert '\n' !in text;
    NotContainsWithoutFirst(text, ClosingFence);
    RemoveAllAbsent(text, ClosingFence);
    TrimClean(text);
  }

  /** The end condition in FenceRoundTrip is needed: this body contains
      neither delimiter and has no surrounding whitespace, yet its tail and
      the closing fence's newline form an opening delimiter, which the first
      pass deletes. */
  lemma FenceRoundTripNeedsEndCondition(body: string)
    requires body == "x```json"
    ensures !Contains(body, OpeningFence) && !Contains(body, ClosingFence)
    ensures !IsTrimmable(body[0]) && !IsTrimmable(body[|body| - 1])
    ensures StripFences(OpeningFence + body + ClosingFence) == "x```" != body
  {
    CounterexampleBody(body);
    CounterexampleOpeningPass(body);
    CounterexampleRest("x```");
  }
}
