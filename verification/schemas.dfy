/** The server's request and response models (backend/app/schemas.py). */
module Schemas {
  import opened Options
  import opened Text

  const QueryMinLength := 3
  const QueryMaxLength := 300
  const LimitMin := 1
  const LimitMax := 50
  const LimitDefault := 5
  const BlankQueryMessage := "Query cannot be empty or whitespace only"

  /** `validate_query_content`: rejects a query that is only whitespace and
      otherwise stores it stripped. */
  function ValidateQueryContent(v: string): (r: Result<string, string>)
    ensures r.Err? <==> AllSpace(Python, v)
    ensures r.Err? ==> r.error == BlankQueryMessage
    ensures r.Ok? ==> |r.value| > 0 && !IsSpace(Python, r.value[0]) && !IsSpace(Python, r.value[|r.value| - 1])
    ensures r.Ok? ==> exists i :: 0 <= i && i + |r.value| <= |v| && r.value == v[i..i + |r.value|]
                        && AllSpace(Python, v[..i]) && AllSpace(Python, v[i + |r.value|..])
  {
    var t := Strip(Python, v);
    if t == "" then Err(BlankQueryMessage) else Ok(t)
  }

  /** Validating an accepted query again accepts it unchanged. */
  lemma ValidateIdempotent(v: string)
    ensures ValidateQueryContent(v).Ok? ==>
              ValidateQueryContent(ValidateQueryContent(v).value) == ValidateQueryContent(v)
  {
    if ValidateQueryContent(v).Ok? {
      StripIdempotent(Python, v);
    }
  }

  datatype SearchQuery = SearchQuery(q: string, limit: int)

  /** Building a `SearchQuery`: the length and range constraints apply to the
      query as sent, then the validator strips it. A missing limit is 5. */
  function MakeSearchQuery(q: string, limit: Option<int>): (r: Result<SearchQuery, string>)
    ensures r.Ok? <==>
              QueryMinLength <= |q| <= QueryMaxLength && !AllSpace(Python, q)
              && LimitMin <= limit.GetOr(LimitDefault) <= LimitMax
    ensures r.Ok? ==> r.value.q == ValidateQueryContent(q).value && r.value.limit == limit.GetOr(LimitDefault)
  {
    var n := limit.GetOr(LimitDefault);
    if !(QueryMinLength <= |q| <= QueryMaxLength) then Err("q: length must be between 3 and 300")
    else if !(LimitMin <= n <= LimitMax) then Err("limit: must be between 1 and 50")
    else match ValidateQueryContent(q)
      case Err(e) => Err(e)
      case Ok(stripped) => Ok(SearchQuery(stripped, n))
  }

  /** The length bound is checked before stripping, so an accepted query can be
      shorter than three characters once stored. */
  lemma StoredQueryMayBeShort()
    ensures MakeSearchQuery("  a", None) == Ok(SearchQuery("a", LimitDefault))
  {
    assert LeadingSpace(Python, "  a") == 2;
    assert TrailingSpace(Python, "  a") == 0;
    assert "  a"[2..3] == "a";
  }

  /** A paper in a response. The server builds it from `arxiv_id`, which the
      model exposes as `id`. */
  datatype PaperMetadata = PaperMetadata(
    id: string,
    title: string,
    abstractText: string,
    authors: seq<string>,
    published: string,
    url: string,
    categories: seq<string>
  )

  datatype SearchResultItem = SearchResultItem(paper: PaperMetadata, score: real, explanation: string)

  datatype SystemResources = SystemResources(cpuPercent: real, memoryPercent: real, memoryAvailableGb: real)

  datatype HealthResponse = HealthResponse(
    status: string,
    version: string,
    aiEngineStatus: string,
    system: SystemResources,
    alerts: seq<string>
  )

  /** Building a `HealthResponse`; alerts default to none. */
  function MakeHealthResponse(status: string, version: string, aiEngineStatus: string,
                              system: SystemResources, alerts: Option<seq<string>>): (r: HealthResponse)
    ensures alerts.None? ==> r.alerts == []
    ensures alerts.Some? ==> r.alerts == alerts.value
    ensures r.status == status && r.version == version && r.aiEngineStatus == aiEngineStatus
    ensures r.system == system
  {
    HealthResponse(status, version, aiEngineStatus, system, alerts.GetOr([]))
  }
}
