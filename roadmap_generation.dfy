/**
 * The whole-roadmap endpoint (generate-roadmap): the first greedy brace match
 * of the completion is parsed, or the whole completion when nothing matches;
 * any failure, including a missing completion, is a 500.
 */
module RoadmapGeneration {
  import opened Wrappers
  import opened JsonValue
  import opened Text
  import opened Braces

  /** The endpoint's reply: the parsed roadmap, or status 500 with an error message. */
  datatype RoadmapResponse =
    | RoadmapOk(roadmap: Json)
    | RoadmapFailure(status: int, error: string)

  const RoadmapParseFailure: string := "Failed to parse roadmap JSON from AI response."

  /**
   * The text handed to `JSON.parse`: `text.match(/\{[\s\S]*\}/)[0]` when the
   * pattern matches, which is the slice from the first '{' to the last '}',
   * and the whole text otherwise.
   */
  function RoadmapParseInput(text: string): (r: string)
    ensures BraceSlice(text).Some? ==> r == BraceSlice(text).value && r[0] == '{' && r[|r| - 1] == '}'
    ensures BraceSlice(text).None? ==> r == text
  {
    StarMatchIsSlice(text);
    match GreedyBraceMatch(text, 0)
    case Some(m) => text[m.start..m.end]
    case None => text
  }

  /**
   * The endpoint's handling of a completion. A missing completion makes
   * `.match` throw inside the same `try`, so it fails like a parse error; a
   * successful parse is returned unchanged, without any shape check.
   */
  function RespondRoadmap(text: Option<string>, parse: string -> Option<Json>): (r: RoadmapResponse)
    ensures text.None? ==> r == RoadmapFailure(500, RoadmapParseFailure)
    ensures text.Some? && parse(RoadmapParseInput(text.value)).None? ==> r == RoadmapFailure(500, RoadmapParseFailure)
    ensures text.Some? && parse(RoadmapParseInput(text.value)).Some? ==>
      r == RoadmapOk(parse(RoadmapParseInput(text.value)).value)
  {
    match text
    case None => RoadmapFailure(500, RoadmapParseFailure)
    case Some(t) =>
      var input := RoadmapParseInput(t);
      match parse(input)
      case None => RoadmapFailure(500, RoadmapParseFailure)
      case Some(j) => RoadmapOk(j)
  }

  /**
   * A JSON object surrounded by prose that contains no braces is parsed on its
   * own, whatever the prose says.
   */
  lemma {:induction false} ObjectInProseIsParsed(before: string, obj: string, after: string)
    requires '{' !in before && '}' !in after
    requires |obj| >= 2 && obj[0] == '{' && obj[|obj| - 1] == '}'
    ensures RoadmapParseInput(before + obj + after) == obj
  {
    var s := before + obj + after;
    var f, l := |before|, |before| + |obj| - 1;
    assert s[f] == '{' && s[..f] == before;
    assert IndexOf(s, '{') == f by {
      var k := IndexOf(s, '{');
      assert k != -1;
    }
    assert s[l] == '}' && s[l + 1..] == after;
    assert LastIndexOf(s, '}') == l by {
      var k := LastIndexOf(s, '}');
    }
    assert s[f..l + 1] == obj;
  }
}
