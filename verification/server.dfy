/** The server's endpoints (backend/app/main.py): the recommendation endpoint,
    which turns the search engine's raw output into a typed response, and the
    health endpoint's alerting rules. The engine itself is a parameter. */
module Server {
  import opened Options
  import opened Schemas
  import Numbers

  /** A JSON value as the engine's dictionaries hold it. */
  datatype Json =
    | JNull
    | JBool(b: bool)
    | JNumber(n: real)
    | JString(s: string)
    | JArray(items: seq<Json>)
    | JObject(fields: map<string, Json>)

  type RawPaper = map<string, Json>

  /** One entry of the engine's `results`: the paper's dictionary and its score. */
  datatype EngineItem = EngineItem(paper: RawPaper, score: real)

  /** What `engine.search(q, top_k=limit)` did. */
  datatype EngineOutcome =
    | Raised
    | Returned(results: seq<EngineItem>, meta: map<string, Json>)

  datatype SearchResponse = SearchResponse(results: seq<SearchResultItem>, meta: map<string, Json>)

  datatype Response<T> =
    | Success(body: T)
    | HttpError(status: int, detail: string)

  const NotReadyDetail := "AI Engine is still loading. Please try again in a few seconds."
  const SearchFailedDetail := "Internal Server Error during search processing"

  /** `dict.get(key, default)`. */
  function Get(m: RawPaper, key: string, default: Json): (v: Json)
    ensures key in m ==> v == m[key]
    ensures key !in m ==> v == default
  {
    if key in m then m[key] else default
  }

  /** A `str` field: only a string validates. */
  function AsText(v: Json): Option<string> {
    if v.JString? then Some(v.s) else None
  }

  predicate AllText(items: seq<Json>) {
    forall i :: 0 <= i < |items| ==> items[i].JString?
  }

  function Texts(items: seq<Json>): (r: seq<string>)
    requires AllText(items)
    ensures |r| == |items|
    ensures forall i :: 0 <= i < |items| ==> items[i] == JString(r[i])
  {
    if |items| == 0 then [] else [items[0].s] + Texts(items[1..])
  }

  /** A `List[str]` field: an array of strings validates. */
  function AsTextList(v: Json): Option<seq<string>> {
    if v.JArray? && AllText(v.items) then Some(Texts(v.items)) else None
  }

  /** A field is acceptable when absent or of the declared kind. */
  predicate TextOrAbsent(m: RawPaper, key: string) {
    key in m ==> m[key].JString?
  }

  predicate TextListOrAbsent(m: RawPaper, key: string) {
    key in m ==> m[key].JArray? && AllText(m[key].items)
  }

  predicate WellTyped(raw: RawPaper) {
    && TextOrAbsent(raw, "arxiv_id") && TextOrAbsent(raw, "title") && TextOrAbsent(raw, "abstract")
    && TextListOrAbsent(raw, "authors") && TextOrAbsent(raw, "published") && TextOrAbsent(raw, "url")
    && TextListOrAbsent(raw, "categories")
  }

  /** Building `PaperMetadata` from a paper dictionary with `.get` defaults; a
      present value of the wrong kind fails validation (None). */
  function FormatPaper(raw: RawPaper): (r: Option<PaperMetadata>)
    ensures r.Some? <==> WellTyped(raw)
    ensures r.Some? ==> Get(raw, "arxiv_id", JString("unknown")) == JString(r.value.id)
    ensures r.Some? ==> Get(raw, "title", JString("Untitled")) == JString(r.value.title)
    ensures r.Some? ==> Get(raw, "abstract", JString("")) == JString(r.value.abstractText)
    ensures r.Some? ==> Get(raw, "published", JString("")) == JString(r.value.published)
    ensures r.Some? ==> Get(raw, "url", JString("")) == JString(r.value.url)
    ensures r.Some? ==> "authors" !in raw ==> r.value.authors == []
    ensures r.Some? ==> "categories" !in raw ==> r.value.categories == []
    ensures r.Some? && "authors" in raw ==>
              && |r.value.authors| == |raw["authors"].items|
              && forall i :: 0 <= i < |r.value.authors| ==> raw["authors"].items[i] == JString(r.value.authors[i])
    ensures r.Some? && "categories" in raw ==>
              && |r.value.categories| == |raw["categories"].items|
              && forall i :: 0 <= i < |r.value.categories| ==> raw["categories"].items[i] == JString(r.value.categories[i])
  {
    var id := AsText(Get(raw, "arxiv_id", JString("unknown")));
    var title := AsText(Get(raw, "title", JString("Untitled")));
    var abs := AsText(Get(raw, "abstract", JString("")));
    var authors := AsTextList(Get(raw, "authors", JArray([])));
    var published := AsText(Get(raw, "published", JString("")));
    var url := AsText(Get(raw, "url", JString("")));
    var categories := AsTextList(Get(raw, "categories", JArray([])));
    if id.Some? && title.Some? && abs.Some? && authors.Some? && published.Some? && url.Some? && categories.Some? then
      Some(PaperMetadata(id.value, title.value, abs.value, authors.value, published.value, url.value, categories.value))
    else None
  }

  /** An empty dictionary yields the documented placeholder paper. */
  lemma EmptyPaperDefaults()
    ensures FormatPaper(map[]) == Some(PaperMetadata("unknown", "Untitled", "", [], "", "", []))
  {
  }

  /** `int(score * 100)`. */
  function Confidence(score: real): (c: int)
    ensures score >= 0.0 ==> 0 <= c && c as real <= score * 100.0 < c as real + 1.0
    ensures score < 0.0 ==> c <= 0 && c as real - 1.0 < score * 100.0 <= c as real
    ensures 0.0 <= score <= 1.0 ==> 0 <= c <= 100
  {
    Numbers.TruncateTowardZero(score * 100.0)
  }

  function Explanation(confidence: int): (e: string)
    ensures var prefix := "This paper is a ";
      var suffix := "% semantic match to your query context.";
      |prefix| + |suffix| < |e| && e[..|prefix|] == prefix && e[|e| - |suffix|..] == suffix
    ensures confidence < 0 <==> e[16] == '-'
  {
    "This paper is a " + Numbers.IntToString(confidence) + "% semantic match to your query context."
  }

  /** The percentage can be read back out of the explanation: it sits between
      the fixed prefix and suffix. */
  lemma ExplanationCarriesConfidence(confidence: int)
    ensures var e := Explanation(confidence);
      var prefix := "This paper is a ";
      var suffix := "% semantic match to your query context.";
      |prefix| + |suffix| < |e| && e[..|prefix|] == prefix && e[|e| - |suffix|..] == suffix
      && Numbers.ParseInt(e[|prefix|..|e| - |suffix|]) == confidence
  {
    var prefix := "This paper is a ";
    var suffix := "% semantic match to your query context.";
    var s := Numbers.IntToString(confidence);
    var e := Explanation(confidence);
    assert e == prefix + s + suffix;
    assert e[|prefix|..|e| - |suffix|] == s;
    Numbers.IntToStringRoundTrip(confidence);
  }

  /** The formatting loop: every result kept, in order, or a failure on the first
      paper that does not validate. */
  function FormatResults(items: seq<EngineItem>): (r: Option<seq<SearchResultItem>>)
    ensures r.Some? <==> forall i :: 0 <= i < |items| ==> WellTyped(items[i].paper)
    ensures r.Some? ==> |r.value| == |items|
    ensures r.Some? ==> forall i :: 0 <= i < |items| ==>
              && Some(r.value[i].paper) == FormatPaper(items[i].paper)
              && r.value[i].score == items[i].score
              && r.value[i].explanation == Explanation(Confidence(items[i].score))
  {
    if |items| == 0 then Some([])
    else
      var head := FormatPaper(items[0].paper);
      var rest := FormatResults(items[1..]);
      if head.Some? && rest.Some? then
        Some([SearchResultItem(head.value, items[0].score, Explanation(Confidence(items[0].score)))] + rest.value)
      else
        assert !WellTyped(items[0].paper) || exists i :: 0 <= i < |items| - 1 && !WellTyped(items[1..][i].paper);
        None
  }

  /** `recommend_papers` once its parameters have validated: 503 without
      consulting the engine when it is not ready, 500 when the engine raises or
      returns a paper that does not validate, and otherwise one item per engine
      result, in the engine's order, with the engine's meta. */
  function Recommend(ready: bool, q: string, limit: int, search: (string, int) -> EngineOutcome): (r: Response<SearchResponse>)
    ensures !ready ==> r == HttpError(503, NotReadyDetail)
    ensures ready && search(q, limit).Raised? ==> r == HttpError(500, SearchFailedDetail)
    ensures ready && search(q, limit).Returned? ==>
              (r.Success? <==> forall i :: 0 <= i < |search(q, limit).results| ==> WellTyped(search(q, limit).results[i].paper))
    ensures r.HttpError? ==> r.status in {500, 503}
    ensures r.Success? ==> |r.body.results| == |search(q, limit).results| && r.body.meta == search(q, limit).meta
    ensures r.Success? ==> search(q, limit).Returned? && Some(r.body.results) == FormatResults(search(q, limit).results)
  {
    if !ready then HttpError(503, NotReadyDetail)
    else match search(q, limit)
      case Raised => HttpError(500, SearchFailedDetail)
      case Returned(results, meta) =>
        match FormatResults(results)
        case None => HttpError(500, SearchFailedDetail)
        case Some(items) => Success(SearchResponse(items, meta))
  }

  /** An engine that is not ready is never consulted: the answer does not depend
      on what the engine would have done. */
  lemma NotReadyIgnoresEngine(q: string, limit: int, s1: (string, int) -> EngineOutcome, s2: (string, int) -> EngineOutcome)
    ensures Recommend(false, q, limit, s1) == Recommend(false, q, limit, s2)
  {
  }

  /** The endpoint as routed: the query parameters are validated first (422 for
      a missing `q`, or either one out of bounds), with the limit defaulting to 5;
      the query is passed on unstripped. */
  function RecommendEndpoint(ready: bool, q: Option<string>, limit: Option<int>, search: (string, int) -> EngineOutcome): (r: Response<SearchResponse>)
    ensures q.None? ==> r.HttpError? && r.status == 422
    ensures q.Some? && !(QueryMinLength <= |q.value| <= QueryMaxLength && LimitMin <= limit.GetOr(LimitDefault) <= LimitMax) ==>
              r.HttpError? && r.status == 422
    ensures q.Some? && QueryMinLength <= |q.value| <= QueryMaxLength && LimitMin <= limit.GetOr(LimitDefault) <= LimitMax ==>
              r == Recommend(ready, q.value, limit.GetOr(LimitDefault), search)
  {
    var n := limit.GetOr(LimitDefault);
    if q.Some? && QueryMinLength <= |q.value| <= QueryMaxLength && LimitMin <= n <= LimitMax then
      Recommend(ready, q.value, n, search)
    else HttpError(422, "Unprocessable Entity")
  }

  // ---------------------------------------------------------------------
  // Health

  datatype Status = Healthy | Degraded | Critical

  function Severity(s: Status): nat {
    match s
    case Healthy => 0
    case Degraded => 1
    case Critical => 2
  }

  function StatusName(s: Status): string {
    match s
    case Healthy => "healthy"
    case Degraded => "degraded"
    case Critical => "critical"
  }

  const EngineAlert := "AI Engine is not ready."
  const CpuCriticalAlert := "Critical CPU load detected (>90%)"
  const CpuHighAlert := "High CPU load detected (>70%)"
  const MemoryCriticalAlert := "Critical Memory usage detected (>90%)"
  const MemoryHighAlert := "High Memory usage detected (>80%)"

  /** The engine's status as both `/` and `/health` report it. */
  function AiStatus(ready: bool): (s: string)
    ensures s == "ready" <==> ready
  {
    if ready then "ready" else "loading_or_failed"
  }

  datatype Assessment = Assessment(status: Status, alerts: seq<string>)

  /** The engine check: an engine that is not ready degrades the status and
      appends its alert after the earlier ones. */
  function EngineCheck(a: Assessment, ready: bool): (r: Assessment)
    ensures ready ==> r == a
    ensures !ready ==> r.status == Degraded
    ensures |r.alerts| == |a.alerts| + (if ready then 0 else 1)
    ensures r.alerts[..|a.alerts|] == a.alerts
    ensures !ready ==> r.alerts[|a.alerts|] == EngineAlert
  {
    if !ready then Assessment(Degraded, a.alerts + [EngineAlert]) else a
  }

  /** A threshold check: above `critical` the status becomes critical; above
      `high` it becomes degraded unless already critical. */
  function ResourceCheck(a: Assessment, usage: real, critical: real, high: real,
                         criticalAlert: string, highAlert: string): (r: Assessment)
    ensures Severity(r.status) >= Severity(a.status)
    ensures a.status == Critical ==> r.status == Critical
    ensures |r.alerts| == |a.alerts| + (if usage > high || usage > critical then 1 else 0)
  {
    if usage > critical then Assessment(Critical, a.alerts + [criticalAlert])
    else if usage > high then Assessment(if a.status != Critical then Degraded else Critical, a.alerts + [highAlert])
    else a
  }

  /** The health check's verdict on the engine, CPU load and memory use. */
  function Assess(ready: bool, cpu: real, memory: real): (a: Assessment)
    ensures a.status == Critical <==> cpu > 90.0 || memory > 90.0
    ensures a.status == Healthy <==> ready && cpu <= 70.0 && memory <= 80.0
    ensures |a.alerts| == (if ready then 0 else 1) + (if cpu > 70.0 then 1 else 0) + (if memory > 80.0 then 1 else 0)
    ensures !ready ==> a.alerts[0] == EngineAlert
    ensures cpu > 70.0 ==> a.alerts[if ready then 0 else 1] == (if cpu > 90.0 then CpuCriticalAlert else CpuHighAlert)
    ensures (CpuCriticalAlert in a.alerts <==> cpu > 90.0) && (CpuHighAlert in a.alerts <==> 70.0 < cpu <= 90.0)
    ensures (MemoryCriticalAlert in a.alerts <==> memory > 90.0) && (MemoryHighAlert in a.alerts <==> 80.0 < memory <= 90.0)
    ensures memory > 80.0 ==> a.alerts[|a.alerts| - 1] == (if memory > 90.0 then MemoryCriticalAlert else MemoryHighAlert)
  {
    var a0 := EngineCheck(Assessment(Healthy, []), ready);
    var a1 := ResourceCheck(a0, cpu, 90.0, 70.0, CpuCriticalAlert, CpuHighAlert);
    ResourceCheck(a1, memory, 90.0, 80.0, MemoryCriticalAlert, MemoryHighAlert)
  }

  /** Higher usage never gives a better verdict. */
  lemma AssessMonotone(ready: bool, cpu: real, memory: real, cpu': real, memory': real)
    requires cpu <= cpu' && memory <= memory'
    ensures Severity(Assess(ready, cpu, memory).status) <= Severity(Assess(ready, cpu', memory').status)
    ensures Severity(Assess(true, cpu, memory).status) <= Severity(Assess(false, cpu, memory).status)
  {
  }

  /** `health_check`: readings, version and available memory come from outside. */
  function HealthCheck(ready: bool, cpu: real, memory: real, memoryAvailableGb: real, version: string): (r: HealthResponse)
    ensures r.status == StatusName(Assess(ready, cpu, memory).status)
    ensures r.alerts == Assess(ready, cpu, memory).alerts
    ensures r.aiEngineStatus == AiStatus(ready) && r.version == version
    ensures r.system == SystemResources(cpu, memory, memoryAvailableGb)
  {
    var a := Assess(ready, cpu, memory);
    MakeHealthResponse(StatusName(a.status), version, AiStatus(ready),
                       SystemResources(cpu, memory, memoryAvailableGb), Some(a.alerts))
  }
}
