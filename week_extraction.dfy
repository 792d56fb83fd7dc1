/**
 * The per-week plan endpoint (generate-detailed-transformation-plan): the
 * completion text of the language model is turned into the string handed to
 * `JSON.parse`, and the parse outcome into the endpoint's response.
 *
 * Pipeline: prefer the body of a ```json fenced block; without a fence, slice
 * from the first '{' to the last '}'; then trim, strip stray backticks and
 * delete C0 control characters other than TAB, LF and CR.
 */
module WeekExtraction {
  import opened Wrappers
  import opened JsonValue
  import opened Text
  import opened Braces

  const JsonFence: string := "```json"
  const Fence: string := "```"

  /** A match of /```json\s*([\s\S]*?)```/: the opening fence at `open`, group 1 is `s[start..end]`. */
  datatype FenceMatch = FenceMatch(open: nat, start: nat, end: nat)

  /**
   * `s` matches the fence pattern with the opening at `p` and group 1 at
   * `s[b..e]`, regardless of which match the regex engine prefers.
   */
  ghost predicate FenceMatchesAt(s: string, p: nat, b: nat, e: nat) {
    && StartsAt(s, p, JsonFence)
    && p + |JsonFence| <= b <= e
    && StartsAt(s, e, Fence)
    && AllSpace(s[p + |JsonFence|..b])
  }

  /** The end of the run of white space that starts at `from`. */
  function SpaceRunEnd(s: string, from: nat): (r: nat)
    requires from <= |s|
    decreases |s| - from
    ensures from <= r <= |s|
    ensures AllSpace(s[from..r])
    ensures r < |s| ==> !IsSpace(s[r])
  {
    if from < |s| && IsSpace(s[from]) then
      var r := SpaceRunEnd(s, from + 1);
      assert s[from..r] == [s[from]] + s[from + 1..r];
      r
    else from
  }

  /**
   * `content.match(/```json\s*([\s\S]*?)```/)`. Only the first "```json" can
   * start a match: any later one begins with a backtick past the white space
   * that follows the first, and its closing fence would close the first too.
   * The greedy `\s*` takes the whole white-space run and the lazy group stops
   * at the first closing fence after it.
   */
  function MatchFence(s: string): (m: Option<FenceMatch>)
    ensures m.Some? ==> FenceMatchesAt(s, m.value.open, m.value.start, m.value.end)
    ensures m.Some? ==> forall q: nat :: q < m.value.open ==> !StartsAt(s, q, JsonFence)
    ensures m.Some? ==> m.value.start == |s| || !IsSpace(s[m.value.start])
    ensures m.Some? ==> forall k :: m.value.start <= k < m.value.end ==> !StartsAt(s, k, Fence)
    ensures m.None? ==> forall p: nat, b: nat, e: nat :: !FenceMatchesAt(s, p, b, e)
  {
    match FindFrom(s, JsonFence, 0)
    case None => None
    case Some(p) =>
      var q := SpaceRunEnd(s, p + |JsonFence|);
      match FindFrom(s, Fence, q)
      case Some(k) => Some(FenceMatch(p, q, k))
      case None =>
        NoLaterFence(s, p, q);
        None
  }

  /** With no closing fence after the white space that follows the first opening, nothing matches. */
  lemma NoLaterFence(s: string, p: nat, q: nat)
    requires StartsAt(s, p, JsonFence) && forall p': nat :: p' < p ==> !StartsAt(s, p', JsonFence)
    requires p + |JsonFence| <= q <= |s| && AllSpace(s[p + |JsonFence|..q])
    requires forall k :: q <= k ==> !StartsAt(s, k, Fence)
    ensures forall p': nat, b: nat, e: nat :: !FenceMatchesAt(s, p', b, e)
  {
    forall p': nat, b: nat, e: nat | FenceMatchesAt(s, p', b, e)
      ensures false
    {
      ClosingFenceAfterRun(s, p, q, p', b, e);
    }
  }

  /** Any closing fence of a match lies past the white space that follows the first opening. */
  lemma ClosingFenceAfterRun(s: string, p: nat, q: nat, p': nat, b: nat, e: nat)
    requires StartsAt(s, p, JsonFence) && forall p'': nat :: p'' < p ==> !StartsAt(s, p'', JsonFence)
    requires p + |JsonFence| <= q <= |s| && AllSpace(s[p + |JsonFence|..q])
    requires FenceMatchesAt(s, p', b, e)
    ensures q <= e
  {
    assert s[e..e + |Fence|] == Fence;
    assert !IsSpace(s[e]) by { assert s[e] == Fence[0]; }
  }

  /**
   * The text chosen for parsing before cleaning: the fenced body when the
   * fence matched with a non-empty body; the whole content when it matched
   * with an empty body (no brace slicing then); otherwise the brace slice if
   * there is one, else the whole content.
   */
  function Candidate(content: string): (c: string)
    ensures MatchFence(content).Some? ==>
      var m := MatchFence(content).value;
      c == if m.start < m.end then content[m.start..m.end] else content
    ensures MatchFence(content).None? && BraceSlice(content).Some? ==>
      c == BraceSlice(content).value && c[0] == '{' && c[|c| - 1] == '}'
    ensures MatchFence(content).None? && BraceSlice(content).None? ==> c == content
  {
    match MatchFence(content)
    case Some(m) =>
      var body := content[m.start..m.end];
      if body != "" then body else content
    case None =>
      match BraceSlice(content)
      case Some(slice) => slice
      case None => content
  }

  /** The number of backticks `s` starts with, at most `max`. */
  function LeadingTicks(s: string, max: nat): (n: nat)
    ensures n <= max && n <= |s|
    ensures forall i :: 0 <= i < n ==> s[i] == '`'
    ensures n < max && n < |s| ==> s[n] != '`'
  {
    if max == 0 || s == [] || s[0] != '`' then 0
    else 1 + LeadingTicks(s[1..], max - 1)
  }

  /** The number of backticks `s` ends with, at most `max`. */
  function TrailingTicks(s: string, max: nat): (n: nat)
    ensures n <= max && n <= |s|
    ensures forall i :: |s| - n <= i < |s| ==> s[i] == '`'
    ensures n < max && n < |s| ==> s[|s| - 1 - n] != '`'
  {
    if max == 0 || s == [] || s[|s| - 1] != '`' then 0
    else 1 + TrailingTicks(s[..|s| - 1], max - 1)
  }

  /**
   * `.replace(/^`{1,3}(json)?/, "")`: drops the longest run of at most three
   * leading backticks and, only after such a run, a following "json".
   */
  function StripOpeningTicks(s: string): (r: string)
    ensures |r| <= |s| && r == s[|s| - |r|..]
    ensures var n := LeadingTicks(s, 3);
      && (n == 0 ==> r == s)
      && (n > 0 && StartsAt(s, n, "json") ==> r == s[n + 4..])
      && (n > 0 && !StartsAt(s, n, "json") ==> r == s[n..])
  {
    var n := LeadingTicks(s, 3);
    if n == 0 then s
    else if StartsAt(s, n, "json") then s[n + 4..]
    else s[n..]
  }

  /** `.replace(/`{1,3}$/, "")`: drops the last one to three backticks, as many as there are up to three. */
  function StripClosingTicks(s: string): (r: string)
    ensures |r| <= |s| && r == s[..|r|]
    ensures |s| - |r| <= 3
    ensures forall i :: |r| <= i < |s| ==> s[i] == '`'
    ensures |s| - |r| < 3 ==> r == [] || r[|r| - 1] != '`'
  {
    s[..|s| - TrailingTicks(s, 3)]
  }

  /** The C0 control characters the endpoint deletes: U+0000-U+0008, U+000B, U+000C, U+000E-U+001F. */
  predicate IsStrippedControl(c: char) {
    var n := c as int;
    (0 <= n <= 8) || n == 0x0B || n == 0x0C || (0x0E <= n <= 0x1F)
  }

  /** `.replace(/[\u0000-\u0008\u000B\u000C\u000E-\u001F]/g, "")`. */
  function RemoveControls(s: string): (r: string)
    ensures |r| <= |s|
    ensures forall i :: 0 <= i < |r| ==> !IsStrippedControl(r[i])
  {
    if s == [] then []
    else if IsStrippedControl(s[0]) then RemoveControls(s[1..])
    else [s[0]] + RemoveControls(s[1..])
  }

  /** Every character other than the deleted ones is kept, as often as it occurs. */
  lemma {:induction false} RemoveControlsKeepsOthers(s: string, c: char)
    requires !IsStrippedControl(c)
    ensures multiset(RemoveControls(s))[c] == multiset(s)[c]
  {
    if s != [] {
      assert s == [s[0]] + s[1..];
      RemoveControlsKeepsOthers(s[1..], c);
    }
  }

  /** Deleting control characters works piecewise: characters keep their order. */
  lemma {:induction false} RemoveControlsAppend(a: string, b: string)
    ensures RemoveControls(a + b) == RemoveControls(a) + RemoveControls(b)
  {
    if a == [] {
      assert a + b == b;
    } else {
      assert (a + b)[0] == a[0];
      assert (a + b)[1..] == a[1..] + b;
      RemoveControlsAppend(a[1..], b);
    }
  }

  /** A string without control characters is kept as it is. */
  lemma {:induction false} RemoveControlsKeepsClean(s: string)
    requires forall i :: 0 <= i < |s| ==> !IsStrippedControl(s[i])
    ensures RemoveControls(s) == s
  {
    if s != [] {
      RemoveControlsKeepsClean(s[1..]);
    }
  }

  /** Deleting the control characters twice is deleting them once. */
  lemma RemoveControlsIdempotent(s: string)
    ensures RemoveControls(RemoveControls(s)) == RemoveControls(s)
  {
    RemoveControlsKeepsClean(RemoveControls(s));
  }

  /** The cleaning applied to the candidate before `JSON.parse`. */
  function Clean(candidate: string): (r: string)
    ensures forall i :: 0 <= i < |r| ==> !IsStrippedControl(r[i])
  {
    RemoveControls(StripClosingTicks(StripOpeningTicks(Trim(candidate))))
  }

  /** The endpoint's reply: the parsed week, or status 500 with an error message. */
  datatype WeekResponse =
    | WeekData(weekData: Json)
    | WeekFailure(status: int, error: string)

  const ParseFailureMessage: string := "Failed to parse AI response for week."

  /**
   * The text handed to `JSON.parse` for a completion; a missing or empty
   * completion counts as "".
   */
  function ParseInput(content: Option<string>): (r: string)
    ensures forall i :: 0 <= i < |r| ==> !IsStrippedControl(r[i])
    ensures content.None? ==> r == ""
  {
    Clean(Candidate(content.GetOr("")))
  }

  /**
   * The endpoint's handling of a completion. Parse failure is a 500 that
   * carries no week; a successful parse is returned unchanged, without any
   * check of its `week` number or shape.
   */
  function RespondWeek(content: Option<string>, parse: string -> Option<Json>): (r: WeekResponse)
    ensures parse(ParseInput(content)).None? ==> r == WeekFailure(500, ParseFailureMessage)
    ensures parse(ParseInput(content)).Some? ==> r == WeekData(parse(ParseInput(content)).value)
  {
    var input := ParseInput(content);
    match parse(input)
    case None => WeekFailure(500, ParseFailureMessage)
    case Some(j) => WeekData(j)
  }

  /** The fence pattern finds a fenced body that has no fence of its own. */
  lemma FenceFindsBody(prose: string, body: string, rest: string)
    requires forall q: nat :: q < |prose| ==> !StartsAt(prose + JsonFence, q, JsonFence)
    requires body != [] && !IsSpace(body[0])
    requires forall k: nat :: k < |body| ==> !StartsAt(body + Fence, k, Fence)
    ensures var s := prose + JsonFence + body + Fence + rest;
      MatchFence(s) == Some(FenceMatch(|prose|, |prose| + |JsonFence|, |prose| + |JsonFence| + |body|))
  {
    var s := prose + JsonFence + body + Fence + rest;
    var b := |prose| + |JsonFence|;
    OpeningFenceFound(prose, body, rest);
    assert s[b] == body[0];
    assert SpaceRunEnd(s, b) == b;
    ClosingFenceFound(prose + JsonFence, body, rest);
  }

  /** When `prose` holds no "```json", the first one is the one right after it. */
  lemma OpeningFenceFound(prose: string, body: string, rest: string)
    requires forall q: nat :: q < |prose| ==> !StartsAt(prose + JsonFence, q, JsonFence)
    ensures FindFrom(prose + JsonFence + body + Fence + rest, JsonFence, 0) == Some(|prose|)
  {
    var s := prose + JsonFence + body + Fence + rest;
    var p, b := |prose|, |prose| + |JsonFence|;
    assert s[..b] == prose + JsonFence;
    forall q: nat | q < p
      ensures !StartsAt(s, q, JsonFence)
    {
      assert !StartsAt(prose + JsonFence, q, JsonFence);
      assert s[q..q + |JsonFence|] == (prose + JsonFence)[q..q + |JsonFence|];
    }
    assert s[p..b] == JsonFence;
    FindFromFirst(s, JsonFence, 0, p);
  }

  /** From the start of a body without a fence of its own, the first "```" is the one after the body. */
  lemma ClosingFenceFound(head: string, body: string, rest: string)
    requires forall k: nat :: k < |body| ==> !StartsAt(body + Fence, k, Fence)
    ensures FindFrom(head + body + Fence + rest, Fence, |head|) == Some(|head| + |body|)
  {
    var s := head + body + Fence + rest;
    var b, e := |head|, |head| + |body|;
    assert s[b..e + |Fence|] == body + Fence;
    forall k: nat | b <= k < e
      ensures !StartsAt(s, k, Fence)
    {
      assert !StartsAt(body + Fence, k - b, Fence);
      assert s[k..k + |Fence|] == (body + Fence)[k - b..k - b + |Fence|];
    }
    assert s[e..e + |Fence|] == Fence;
    FindFromFirst(s, Fence, b, e);
  }

  /**
   * A body wrapped in a ```json fence, as the prompt asks the model to answer,
   * is handed to the parser exactly as it is when it has no fence of its own,
   * no outer white space, no backtick at either end and no control characters.
   */
  lemma FencedBodyRecovered(prose: string, body: string, rest: string)
    requires forall q: nat :: q < |prose| ==> !StartsAt(prose + JsonFence, q, JsonFence)
    requires body != [] && NoOuterSpace(body) && body[0] != '`' && body[|body| - 1] != '`'
    requires forall k: nat :: k < |body| ==> !StartsAt(body + Fence, k, Fence)
    requires forall i :: 0 <= i < |body| ==> !IsStrippedControl(body[i])
    ensures ParseInput(Some(prose + JsonFence + body + Fence + rest)) == body
  {
    var s := prose + JsonFence + body + Fence + rest;
    FenceFindsBody(prose, body, rest);
    var b, e := |prose| + |JsonFence|, |prose| + |JsonFence| + |body|;
    assert s[b..e] == body;
    assert Candidate(s) == body;
    CleanBodyUnchanged(body);
  }

  /** A body with no outer white space, no backtick at either end and no control characters is already clean. */
  lemma CleanBodyUnchanged(body: string)
    requires body != [] && NoOuterSpace(body) && body[0] != '`' && body[|body| - 1] != '`'
    requires forall i :: 0 <= i < |body| ==> !IsStrippedControl(body[i])
    ensures Clean(body) == body
  {
    TrimKeepsTrimmed(body);
    assert StripOpeningTicks(body) == body;
    assert StripClosingTicks(body) == body;
    RemoveControlsKeepsClean(body);
  }
}
