/**
 * The cached roadmap endpoint (generate-or-fetch-roadmap): a stored plan for
 * the same (user, goal, time commitment) is served as it is; otherwise a
 * roadmap is generated, extracted from the completion, accepted only when it
 * has truthy `weeks`, and stored under the same key.
 *
 * The backend table is the map `rows`, keyed by the triple the lookup filters
 * on. Every call to the backend or to the language model is a parameter that
 * says how it went.
 */
module RoadmapCache {
  import opened Wrappers
  import opened JsonValue
  import opened Text
  import opened Braces
  import RoadmapGeneration

  /** The first text handed to `JSON.parse`: the brace slice if there is one, else the trimmed text. */
  function FirstParseInput(text: string): (r: string)
    ensures BraceSlice(text).Some? ==> r == BraceSlice(text).value && r[0] == '{' && r[|r| - 1] == '}'
    ensures BraceSlice(text).None? ==> r == Trim(text) && NoOuterSpace(r)
  {
    match BraceSlice(text)
    case Some(slice) => slice
    case None => Trim(text)
  }

  /**
   * The roadmap after extraction, `None` standing for the `null` the handler
   * keeps when parsing fails: the first parse, and after a failure a second
   * parse of `text.match(/\{[\s\S]+\}/)[0]` when that pattern matches. A
   * missing completion counts as "".
   */
  function ExtractRoadmap(content: Option<string>, parse: string -> Option<Json>): (r: Option<Json>)
    ensures parse(FirstParseInput(content.GetOr(""))).Some? ==> r == parse(FirstParseInput(content.GetOr("")))
  {
    var text := content.GetOr("");
    match parse(FirstParseInput(text))
    case Some(j) => Some(j)
    case None =>
      match GreedyBraceMatch(text, 1)
      case Some(m) => parse(text[m.start..m.end])
      case None => None
  }

  /**
   * The retry never rescues a completion: whenever its pattern matches it
   * selects the text the first parse already rejected.
   */
  lemma RetryNeverRescues(content: Option<string>, parse: string -> Option<Json>)
    requires parse(FirstParseInput(content.GetOr(""))).None?
    ensures ExtractRoadmap(content, parse).None?
  {
    var text := content.GetOr("");
    if GreedyBraceMatch(text, 1).Some? {
      PlusMatchIsSlice(text);
    }
  }

  /** `!roadmap || !roadmap.weeks` fails: the handler accepts only a roadmap with truthy `weeks`. */
  function Accepted(roadmap: Option<Json>): (r: bool)
    ensures r <==> (roadmap.Some? && roadmap.value.JObject? && "weeks" in roadmap.value.fields
      && Truthy(roadmap.value.fields["weeks"]))
  {
    roadmap.Some? && Truthy(roadmap.value) && HasTruthyMember(roadmap.value, "weeks")
  }

  /** The natural key of a stored plan: user, goal and time commitment. */
  datatype PlanKey = PlanKey(userId: string, goal: string, timeCommitment: string)

  /** A stored plan and its current week index. */
  datatype PlanRow = PlanRow(plan: Json, currentWeekIndex: int)

  /**
   * `fetchSupabaseRoadmap`: a hit only when the response is ok, a row exists
   * for the key and its plan has truthy `weeks`; the plan is returned as stored.
   */
  function Lookup(rows: map<PlanKey, PlanRow>, key: PlanKey, ok: bool): (r: Option<Json>)
    ensures r.Some? <==> ok && key in rows && HasTruthyMember(rows[key].plan, "weeks")
    ensures r.Some? ==> r.value == rows[key].plan
  {
    if ok && key in rows && HasTruthyMember(rows[key].plan, "weeks") then Some(rows[key].plan) else None
  }

  /** `storeSupabaseRoadmap`: the row for the key becomes the plan with current week index 1. */
  function Store(rows: map<PlanKey, PlanRow>, key: PlanKey, plan: Json): (r: map<PlanKey, PlanRow>)
    ensures r.Keys == rows.Keys + {key}
    ensures r[key] == PlanRow(plan, 1)
    ensures forall k :: k in rows && k != key ==> r[k] == rows[k]
  {
    rows[key := PlanRow(plan, 1)]
  }

  /** A plan the handler accepted and stored is found by the next lookup with the same key. */
  lemma StoredPlanIsHit(rows: map<PlanKey, PlanRow>, key: PlanKey, roadmap: Option<Json>)
    requires Accepted(roadmap)
    ensures Lookup(Store(rows, key, roadmap.value), key, true) == roadmap
  {
  }

  /** The request fields the handler reads; "" stands for a missing or empty field. */
  datatype Request = Request(userId: string, userGoal: string, timeCommitment: string)

  /** How a backend call went: a response with its `ok` flag, or a rejected `fetch`. */
  datatype Reply = Reached(ok: bool) | Unreachable(reason: string)

  /** How the language-model call went: a response with its completion, or a rejected `fetch`. */
  datatype Completion = Completion(content: Option<string>) | CompletionUnreachable(reason: string)

  /** The handler's reply: the roadmap, or status 500 with an error message. */
  datatype HandlerResponse = Served(roadmap: Json) | Failed(status: int, error: string)

  class RoadmapService {
    /** The stored plans, one per key. */
    var rows: map<PlanKey, PlanRow>
    /** The backend settings read from the environment; "" when unset. */
    const backendUrl: string
    const backendKey: string

    constructor(url: string, key: string, stored: map<PlanKey, PlanRow>)
      ensures backendUrl == url && backendKey == key && rows == stored
    {
      backendUrl, backendKey, rows := url, key, stored;
    }

    /** The store is consulted, and written, only when all five values are truthy. */
    predicate CacheEnabled(req: Request) {
      && req.userId != "" && req.userGoal != "" && req.timeCommitment != ""
      && backendUrl != "" && backendKey != ""
    }

    function KeyOf(req: Request): PlanKey {
      PlanKey(req.userId, req.userGoal, req.timeCommitment)
    }

    /** The plan the lookup returns for this request, if the store is consulted and hits. */
    function CachedPlan(req: Request, lookup: Reply): (r: Option<Json>)
      reads this
    {
      if CacheEnabled(req) && lookup.Reached? then Lookup(rows, KeyOf(req), lookup.ok) else None
    }

    /**
     * The request handler. `generated` says whether the language model was
     * called. A rejected `fetch` anywhere escapes to the outer `catch` and
     * becomes a 500 carrying its message.
     */
    method Handle(req: Request, lookup: Reply, completion: Completion, store: Reply, parse: string -> Option<Json>)
      returns (resp: HandlerResponse, generated: bool)
      modifies this
      ensures CacheEnabled(req) && lookup.Unreachable? ==>
        resp == Failed(500, lookup.reason) && !generated && rows == old(rows)
      ensures old(CachedPlan(req, lookup)).Some? ==>
        resp == Served(old(CachedPlan(req, lookup)).value) && !generated && rows == old(rows)
      ensures !(CacheEnabled(req) && lookup.Unreachable?) && old(CachedPlan(req, lookup)).None? ==>
        && generated
        && (completion.CompletionUnreachable? ==> resp == Failed(500, completion.reason) && rows == old(rows))
        && (completion.Completion? && !Accepted(ExtractRoadmap(completion.content, parse)) ==>
              resp == Failed(500, RoadmapGeneration.RoadmapParseFailure) && rows == old(rows))
        && (completion.Completion? && Accepted(ExtractRoadmap(completion.content, parse)) ==>
              var roadmap := ExtractRoadmap(completion.content, parse).value;
              && (CacheEnabled(req) && store.Unreachable? ==> resp == Failed(500, store.reason) && rows == old(rows))
              && (CacheEnabled(req) && store.Reached? && store.ok ==>
                    resp == Served(roadmap) && rows == Store(old(rows), KeyOf(req), roadmap))
              && (CacheEnabled(req) && store.Reached? && !store.ok ==> resp == Served(roadmap) && rows == old(rows))
              && (!CacheEnabled(req) ==> resp == Served(roadmap) && rows == old(rows)))
    {
      var roadmap: Option<Json> := None;
      generated := false;
      if CacheEnabled(req) {
        match lookup
        case Unreachable(reason) =>
          return Failed(500, reason), false;
        case Reached(ok) =>
          roadmap := Lookup(rows, KeyOf(req), ok);
      }
      if !OptTruthy(roadmap) {
        generated := true;
        match completion
        case CompletionUnreachable(reason) =>
          return Failed(500, reason), true;
        case Completion(content) =>
          roadmap := ExtractRoadmap(content, parse);
        if !Accepted(roadmap) {
          return Failed(500, RoadmapGeneration.RoadmapParseFailure), true;
        }
        if CacheEnabled(req) {
          match store
          case Unreachable(reason) =>
            return Failed(500, reason), true;
          case Reached(ok) =>
            if ok {
              rows := Store(rows, KeyOf(req), roadmap.value);
            }
        }
      }
      resp := Served(roadmap.value);
    }
  }

  /**
   * Two identical requests in a row, the first generating and storing a
   * roadmap: the second is served the same roadmap without calling the model.
   */
  method RepeatedRequest(service: RoadmapService, req: Request, completion: Completion,
                         parse: string -> Option<Json>, later: Completion)
    returns (first: HandlerResponse, second: HandlerResponse, generatedAgain: bool)
    requires service.CacheEnabled(req)
    requires completion.Completion? && Accepted(ExtractRoadmap(completion.content, parse))
    modifies service
    ensures first.Served? && second == first && !generatedAgain
  {
    var roadmap := ExtractRoadmap(completion.content, parse);
    var cached := service.CachedPlan(req, Reached(true));
    var generated;
    first, generated := service.Handle(req, Reached(true), completion, Reached(true), parse);
    if cached.None? {
      assert first == Served(roadmap.value);
      StoredPlanIsHit(old(service.rows), service.KeyOf(req), roadmap);
      assert service.CachedPlan(req, Reached(true)) == roadmap;
    } else {
      assert first == Served(cached.value);
      assert service.CachedPlan(req, Reached(true)) == cached;
    }
    second, generatedAgain := service.Handle(req, Reached(true), later, Reached(true), parse);
  }
}
