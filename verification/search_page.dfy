/** The results page's state and handlers: query validation, the mocked
    search, and the sorted, paginated view handed to the results panel
    (frontend/src/pages/SearchPage.tsx). */
module SearchPage {
  import opened Options
  import opened Text
  import opened Papers
  import Seqs
  import Sorting
  import Pagination
  import ResultsList

  /** The page's fixed dataset. */
  const MockResults: seq<Paper> := [
    Paper(NumericId(1), "Deep Learning Approaches...", "Zhang, L.", 2023, "This is abstract section", 100),
    Paper(NumericId(2), "Transformer Models...", "Patel, R.", 2024, "This is abstract section", 92),
    Paper(NumericId(3), "Reinforcement Learning...", "Thompson, K.", 2023, "This is abstract section", 100),
    Paper(NumericId(4), "Federated Learning...", "Williams, D.", 2024, "...", 87),
    Paper(NumericId(5), "Explainable AI...", "Martinez, C.", 2023, "...", 85),
    Paper(NumericId(6), "Transfer Learning...", "Nguyen, H.", 2024, "...", 82),
    Paper(NumericId(7), "Quantum Computing in AI", "Schr\U{221A}\U{2202}dinger, E.", 2023, "Exploring quantum states...", 81),
    Paper(NumericId(8), "Ethical AI Frameworks", "Good, T.", 2022, "Defining morality in code...", 78)
  ]

  const TooShortMessage := "Please enter at least 3 characters."
  const FetchFailedMessage := "Failed to fetch results."
  /** The query that lists the whole dataset. */
  const ShowAll := "all"
  /** Any query containing this, in any ASCII case, makes the mock fetch fail. */
  const FailureTrigger := "error"

  datatype State = State(
    isLoading: bool,
    results: seq<Paper>,
    error: Option<string>,
    sortBy: string,
    currentPage: int
  )

  const Initial := State(false, [], None, "Relevance", 1)

  datatype Validation = Blank | TooShort | Valid

  /** `validateQuery`, classifying by the length of the trimmed query. */
  function ValidateQuery(query: string): (v: Validation)
    ensures v == Blank <==> Strip(JavaScript, query) == ""
    ensures v == TooShort <==> 0 < |Strip(JavaScript, query)| < 3
    ensures v == Valid <==> |Strip(JavaScript, query)| >= 3
  {
    var t := Strip(JavaScript, query);
    if t == "" then Blank else if |t| < 3 then TooShort else Valid
  }

  /** The mock filter: the title contains the query, ASCII case ignored, or the
      query is exactly "all". */
  function MatchesQuery(query: string): (m: Paper -> bool)
    ensures query == ShowAll || query == "" ==> forall p :: m(p)
    ensures forall p :: m(p) <==> m(p.(title := AsciiLower(p.title)))
  {
    var m := (p: Paper) => Contains(AsciiLower(p.title), AsciiLower(query)) || query == ShowAll;
    assert forall p: Paper :: m(p) <==> m(p.(title := AsciiLower(p.title))) by {
      forall p: Paper ensures m(p) <==> m(p.(title := AsciiLower(p.title))) {
        AsciiLowerFixes(p.title);
      }
    }
    assert query == "" ==> forall p: Paper :: m(p) by {
      forall p: Paper | query == "" ensures m(p) {
        assert AsciiLower(query) == "";
        assert AsciiLower(p.title)[0..0] == "";
        assert OccursAt(AsciiLower(p.title), AsciiLower(query), 0);
      }
    }
    m
  }

  /** The mocked fetch after its delay: a failure, or the papers to show. */
  function MockFetch(data: seq<Paper>, query: string): (r: Result<seq<Paper>, string>)
    ensures r.Err? <==> Contains(AsciiLower(query), FailureTrigger)
    ensures r.Ok? && query == ShowAll ==> r.value == data
    ensures r.Ok? ==> Seqs.IsSubseq(r.value, data) && multiset(r.value) <= multiset(data)
    ensures r.Ok? ==> forall p :: p in r.value <==>
              p in data && (Contains(AsciiLower(p.title), AsciiLower(query)) || query == ShowAll)
    ensures r.Ok? ==>
              forall p :: multiset(r.value)[p] == (if MatchesQuery(query)(p) then multiset(data)[p] else 0)
  {
    if Contains(AsciiLower(query), FailureTrigger) then Err("Simulated failure")
    else
      var filtered := Seqs.Filter(data, MatchesQuery(query));
      FilteredFacts(data, query);
      if query == ShowAll then Ok(data) else Ok(filtered)
  }

  lemma FilteredFacts(data: seq<Paper>, query: string)
    ensures var f := Seqs.Filter(data, MatchesQuery(query));
      && Seqs.IsSubseq(f, data) && multiset(f) <= multiset(data)
      && (forall p :: p in f <==> p in data && MatchesQuery(query)(p))
      && (forall p :: multiset(f)[p] == (if MatchesQuery(query)(p) then multiset(data)[p] else 0))
      && (query == ShowAll ==> f == data)
  {
    var f := Seqs.Filter(data, MatchesQuery(query));
    Seqs.FilterSubseq(data, MatchesQuery(query));
    Seqs.FilterMembers(data, MatchesQuery(query));
    Seqs.FilterCounts(data, MatchesQuery(query));
    assert multiset(f) <= multiset(data) by {
      forall x ensures multiset(f)[x] <= multiset(data)[x] { }
    }
    if query == ShowAll {
      Seqs.FilterKeepsAll(data, MatchesQuery(query));
    }
  }

  /** The synchronous part of `handleSearch`, up to the awaited delay. */
  function BeginSearch(s: State, query: string): (r: State)
    ensures ValidateQuery(query) == Blank ==> r == s.(error := None)
    ensures ValidateQuery(query) == TooShort ==> r == s.(error := Some(TooShortMessage), results := [])
    ensures ValidateQuery(query) == Valid ==>
              r == s.(error := None, isLoading := true, currentPage := 1)
  {
    var s1 := s.(error := None);
    match ValidateQuery(query)
    case Blank => s1
    case TooShort => s1.(error := Some(TooShortMessage), results := [])
    case Valid => s1.(isLoading := true, currentPage := 1)
  }

  /** The part of `handleSearch` after the delay: the `try`, `catch` and `finally`. */
  function CompleteSearch(s: State, query: string): (r: State)
    ensures !r.isLoading
    ensures r.sortBy == s.sortBy && r.currentPage == s.currentPage
    ensures MockFetch(MockResults, query).Err? ==> r.error == Some(FetchFailedMessage) && r.results == []
    ensures MockFetch(MockResults, query).Ok? ==>
              r.error == s.error && r.results == MockFetch(MockResults, query).value
  {
    match MockFetch(MockResults, query)
    case Err(_) => s.(error := Some(FetchFailedMessage), results := [], isLoading := false)
    case Ok(papers) => s.(results := papers, isLoading := false)
  }

  /** `handleSearch` run to completion. */
  function HandleSearch(s: State, query: string): (r: State)
    ensures ValidateQuery(query) != Valid ==> r == BeginSearch(s, query)
    ensures ValidateQuery(query) == Valid ==> r == CompleteSearch(BeginSearch(s, query), query)
  {
    var started := BeginSearch(s, query);
    if ValidateQuery(query) == Valid then CompleteSearch(started, query) else started
  }

  /** What a completed search leaves behind, by case. */
  lemma SearchOutcome(s: State, query: string)
    ensures var r := HandleSearch(s, query);
      && (ValidateQuery(query) == Blank ==> r == s.(error := None))
      && (ValidateQuery(query) == TooShort ==>
            r.error == Some(TooShortMessage) && r.results == [] && r.currentPage == s.currentPage)
      && (ValidateQuery(query) == Valid ==> !r.isLoading && r.currentPage == 1 && r.sortBy == s.sortBy)
      && (ValidateQuery(query) == Valid && Contains(AsciiLower(query), FailureTrigger) ==>
            r.error == Some(FetchFailedMessage) && r.results == [])
      && (ValidateQuery(query) == Valid && !Contains(AsciiLower(query), FailureTrigger) ==>
            r.error == None && multiset(r.results) <= multiset(MockResults))
  {
  }

  /** Searching for "all" lists the whole dataset, in its own order. */
  lemma ShowAllListsEverything(s: State)
    ensures HandleSearch(s, ShowAll).results == MockResults
  {
    assert !Contains(AsciiLower(ShowAll), FailureTrigger);
    assert ValidateQuery(ShowAll) == Valid by {
      assert Strip(JavaScript, ShowAll) == ShowAll by {
        assert LeadingSpace(JavaScript, ShowAll) == 0;
        assert TrailingSpace(JavaScript, ShowAll) == 0;
      }
    }
  }

  lemma InsertSecond<T>(x: T, s: seq<T>, le: (T, T) -> bool)
    requires |s| > 1 && !le(x, s[0]) && le(x, s[1])
    ensures Sorting.Insert(x, s, le) == [s[0], x] + s[1..]
  {
    assert s[1..][0] == s[1];
    assert Sorting.Insert(x, s[1..], le) == [x] + s[1..];
  }

  /** Inserting an element that belongs second. */
  lemma SecondInsertion(m: seq<Paper>, le: (Paper, Paper) -> bool)
    requires |m| > 2 && Sorting.StableSort(m[1..], le) == m[1..]
    requires !le(m[0], m[1]) && le(m[0], m[2])
    ensures Sorting.StableSort(m, le) == [m[1], m[0]] + m[2..]
  {
    var t := m[1..];
    assert t[0] == m[1] && t[1] == m[2] && t[1..] == m[2..];
    InsertSecond(m[0], t, le);
  }

  /** Inserting an element that belongs first. */
  lemma FirstInsertion(m: seq<Paper>, le: (Paper, Paper) -> bool, rest: seq<Paper>)
    requires |m| > 0 && Sorting.StableSort(m[1..], le) == rest
    requires |rest| > 0 && le(m[0], rest[0])
    ensures Sorting.StableSort(m, le) == [m[0]] + rest
  {
  }

  /** Six papers in non-increasing score are already in relevance order. */
  lemma TailInOrder(m: seq<Paper>, le: (Paper, Paper) -> bool, titleCompare: (string, string) -> int)
    requires le == Sorting.Precedes(Sorting.Relevance, titleCompare)
    requires |m| == 8
    requires m[2].relevanceScore >= m[3].relevanceScore >= m[4].relevanceScore
             >= m[5].relevanceScore >= m[6].relevanceScore >= m[7].relevanceScore
    ensures Sorting.StableSort(m[2..], le) == m[2..]
  {
    var tail := m[2..];
    assert Sorting.Sorted(tail, le) by {
      forall i, j | 0 <= i < j < |tail| ensures le(tail[i], tail[j]) {
        assert tail[i].relevanceScore >= tail[j].relevanceScore;
      }
    }
    Sorting.SortedIsFixed(tail, le);
  }

  /** Eight papers ranked by score alone: the first and third score the same and
      highest, so they lead in dataset order; the rest follow by score. */
  lemma RelevanceRanking(m: seq<Paper>, titleCompare: (string, string) -> int)
    requires |m| == 8
    requires m[0].relevanceScore == m[2].relevanceScore > m[1].relevanceScore >= m[3].relevanceScore
    requires m[3].relevanceScore >= m[4].relevanceScore >= m[5].relevanceScore
             >= m[6].relevanceScore >= m[7].relevanceScore
    ensures Sorting.StableSort(m, Sorting.Precedes(Sorting.Relevance, titleCompare))
         == [m[0], m[2], m[1]] + m[3..]
  {
    var le := Sorting.Precedes(Sorting.Relevance, titleCompare);
    TailInOrder(m, le, titleCompare);
    var m1 := m[1..];
    assert m1[1..] == m[2..] && m1[0] == m[1] && m1[1] == m[2] && m1[2] == m[3];
    SecondInsertion(m1, le);
    assert m1[2..] == m[3..];
    var rest := [m[2], m[1]] + m[3..];
    FirstInsertion(m, le, rest);
    assert [m[0]] + rest == [m[0], m[2], m[1]] + m[3..];
  }

  /** The scores of the dataset, from the top. */
  lemma MockScores()
    ensures |MockResults| == 8
    ensures MockResults[0].relevanceScore == MockResults[2].relevanceScore > MockResults[1].relevanceScore
    ensures MockResults[1].relevanceScore >= MockResults[3].relevanceScore >= MockResults[4].relevanceScore
    ensures MockResults[4].relevanceScore >= MockResults[5].relevanceScore >= MockResults[6].relevanceScore
    ensures MockResults[6].relevanceScore >= MockResults[7].relevanceScore
  {
  }

  /** The first page of such a ranking under the default order. */
  lemma FirstPageOfRanking(m: seq<Paper>, titleCompare: (string, string) -> int)
    requires Sorting.ConsistentTitleOrder(titleCompare)
    requires |m| == 8
    requires m[0].relevanceScore == m[2].relevanceScore > m[1].relevanceScore >= m[3].relevanceScore
    requires m[3].relevanceScore >= m[4].relevanceScore >= m[5].relevanceScore
             >= m[6].relevanceScore >= m[7].relevanceScore
    ensures Pagination.PageItems(Sorting.SortResults(m, "Relevance", titleCompare), 1)
         == [m[0], m[2], m[1], m[3], m[4], m[5]]
  {
    RelevanceRanking(m, titleCompare);
    var sorted := [m[0], m[2], m[1]] + m[3..];
    assert Sorting.SortResults(m, "Relevance", titleCompare) == sorted;
    assert Pagination.PageItems(sorted, 1) == sorted[0..6];
  }

  /** Searching for "all" under the default order shows papers 1, 3, 2, 4, 5
      and 6 on the first page. */
  lemma ShowAllFirstPage(titleCompare: (string, string) -> int)
    requires Sorting.ConsistentTitleOrder(titleCompare)
    ensures var m := MockResults;
      Pagination.PageItems(Sorting.SortResults(m, "Relevance", titleCompare), 1) == [m[0], m[2], m[1], m[3], m[4], m[5]]
  {
    MockScores();
    FirstPageOfRanking(MockResults, titleCompare);
  }

  /** `handlePageChange`: only the page number changes; it is stored as given. */
  function HandlePageChange(s: State, newPage: int): (r: State)
    ensures r.currentPage == newPage
    ensures r.(currentPage := s.currentPage) == s
  {
    s.(currentPage := newPage)
  }

  /** `onSortChange={setSortBy}`: only the sort label changes; the page is kept. */
  function SetSortBy(s: State, sortBy: string): (r: State)
    ensures r.sortBy == sortBy
    ensures r.(sortBy := s.sortBy) == s
  {
    s.(sortBy := sortBy)
  }

  /** `sortedResults`. */
  function SortedResults(s: State, titleCompare: (string, string) -> int): (r: seq<Paper>)
    requires Sorting.ConsistentTitleOrder(titleCompare)
    ensures multiset(r) == multiset(s.results)
  {
    Sorting.SortResults(s.results, s.sortBy, titleCompare)
  }

  /** The props the page hands to the results panel. */
  function PanelProps(s: State, titleCompare: (string, string) -> int): (p: ResultsList.Props)
    requires Sorting.ConsistentTitleOrder(titleCompare)
    ensures p.totalResults == |s.results|
    ensures p.totalPages == Pagination.TotalPages(|s.results|)
    ensures |p.papers| <= Pagination.ItemsPerPage
    ensures multiset(p.papers) <= multiset(s.results)
    ensures p.isLoading == s.isLoading && p.error == s.error && p.sortBy == s.sortBy
    ensures p.currentPage == s.currentPage
    ensures p.papers == Pagination.PageItems(SortedResults(s, titleCompare), s.currentPage)
  {
    var sorted := SortedResults(s, titleCompare);
    var page := Pagination.PageItems(sorted, s.currentPage);
    PageIsPart(sorted, s.currentPage);
    ResultsList.Props(page, s.isLoading, s.error, |sorted|, s.sortBy, s.currentPage,
                      Pagination.TotalPages(|sorted|))
  }

  /** Every page holds items of the list it was cut from. */
  lemma PageIsPart<T>(sorted: seq<T>, page: int)
    ensures multiset(Pagination.PageItems(sorted, page)) <= multiset(sorted)
  {
    var r := Pagination.PageItems(sorted, page);
    if r != [] {
      var start := Pagination.SliceIndex((page - 1) * Pagination.ItemsPerPage, |sorted|);
      var end := Pagination.SliceIndex((page - 1) * Pagination.ItemsPerPage + Pagination.ItemsPerPage, |sorted|);
      assert sorted == sorted[..start] + r + sorted[end..];
      assert multiset(sorted) == multiset(sorted[..start]) + multiset(r) + multiset(sorted[end..]);
    }
  }

  /** What the page shows. */
  function View(s: State, titleCompare: (string, string) -> int): (v: ResultsList.View)
    requires Sorting.ConsistentTitleOrder(titleCompare)
    ensures v.Loading? <==> s.isLoading
    ensures v.NoResults? <==> !s.isLoading && !ResultsList.Truthy(s.error) && s.results == []
    ensures v.Grid? ==> v.totalResults == |s.results| && v.sortBy == s.sortBy
    ensures v.Grid? ==> v.cards == Pagination.PageItems(SortedResults(s, titleCompare), s.currentPage)
  {
    ResultsList.Render(PanelProps(s, titleCompare))
  }
}
