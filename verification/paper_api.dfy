/** The frontend's search service: the request it sends and how each paper of
    the server's response becomes a card (frontend/src/api/papers.ts). */
module PaperApi {
  import opened Options
  import opened Text
  import opened Papers
  import Numbers

  /** A paper as the server sends it. */
  datatype BackendPaper = BackendPaper(
    arxivId: string,
    title: string,
    abstractText: string,
    authors: seq<string>,
    published: string,
    url: string,
    categories: seq<string>
  )

  datatype SearchResultItem = SearchResultItem(paper: BackendPaper, score: real, explanation: string)

  /** A GET request: the path and its two query parameters. */
  datatype Request = Request(path: string, q: string, limit: int)

  const SearchPath := "/recommend"
  const DefaultLimit := 10
  const AuthorSeparator := ", "

  /** `searchService.search(query, limit = 10)`: the request it issues. */
  function SearchRequest(query: string, limit: Option<int>): (r: Request)
    ensures r.path == SearchPath && r.q == query
    ensures limit.Some? ==> r.limit == limit.value
    ensures limit.None? ==> r.limit == DefaultLimit
  {
    Request(SearchPath, query, limit.GetOr(DefaultLimit))
  }

  /** `new Date(published).getFullYear() || new Date().getFullYear()`: the parsed
      year, unless parsing failed (NaN) or gave year 0, both falsy. */
  function DisplayYear(parsed: Option<int>, currentYear: int): (year: int)
    ensures parsed.Some? && parsed.value != 0 ==> year == parsed.value
    ensures parsed.None? || parsed.value == 0 ==> year == currentYear
    ensures currentYear != 0 ==> year != 0
  {
    if parsed.Some? && parsed.value != 0 then parsed.value else currentYear
  }

  /** `authors.join(", ")`. */
  function JoinAuthors(names: seq<string>): string {
    Join(names, AuthorSeparator)
  }

  /** The author line's shape: no authors give an empty line, one author gives
      the name itself, and k authors add k - 1 separators to their names. */
  lemma AuthorLineShape(a: string, names: seq<string>)
    ensures JoinAuthors([]) == ""
    ensures JoinAuthors([a]) == a
    ensures |names| > 0 ==> |JoinAuthors(names)| == TotalLength(names) + (|names| - 1) * |AuthorSeparator|
  {
    if |names| > 0 {
      JoinLength(names, AuthorSeparator);
    }
  }

  /** Splitting a string at every ", ": the inverse of `JoinAuthors` on names
      without commas. */
  function SplitAuthors(s: string): (parts: seq<string>)
    ensures |parts| > 0
    decreases |s|
  {
    if |s| == 0 then [""]
    else if |s| >= 2 && s[0] == ',' && s[1] == ' ' then [""] + SplitAuthors(s[2..])
    else
      var rest := SplitAuthors(s[1..]);
      [[s[0]] + rest[0]] + rest[1..]
  }

  lemma {:induction false} SplitAfterName(w: string, tail: string)
    requires ',' !in w
    ensures SplitAuthors(w + tail) == [w + SplitAuthors(tail)[0]] + SplitAuthors(tail)[1..]
    decreases |w|
  {
    if |w| > 0 {
      var s := w + tail;
      assert s[1..] == w[1..] + tail;
      assert s[0] == w[0] && s[0] != ',';
      SplitAfterName(w[1..], tail);
      assert [w[0]] + (w[1..] + SplitAuthors(tail)[0]) == w + SplitAuthors(tail)[0];
    } else {
      var p := SplitAuthors(tail);
      assert w + tail == tail && w + p[0] == p[0];
      assert p == [p[0]] + p[1..];
    }
  }

  /** Names without commas survive the join: the card's author line determines
      the author list. */
  lemma {:induction false} AuthorsRoundTrip(names: seq<string>)
    requires |names| > 0
    requires forall i :: 0 <= i < |names| ==> ',' !in names[i]
    ensures SplitAuthors(JoinAuthors(names)) == names
    decreases |names|
  {
    if |names| == 1 {
      assert JoinAuthors(names) == names[0] + "";
      SplitAfterName(names[0], "");
    } else {
      var rest := JoinAuthors(names[1..]);
      AuthorsRoundTrip(names[1..]);
      assert JoinAuthors(names) == names[0] + (AuthorSeparator + rest);
      SplitAfterName(names[0], AuthorSeparator + rest);
      assert (AuthorSeparator + rest)[2..] == rest;
      var p := SplitAuthors(AuthorSeparator + rest);
      assert p == [""] + names[1..];
      assert p[0] == "" && p[1..] == names[1..];
      assert names[0] + "" == names[0];
      assert names == [names[0]] + names[1..];
    }
  }

  /** With commas inside names the join is lossy: one author written "Surname,
      Initial" and two authors give the same line. */
  lemma CommaNamesAreAmbiguous()
    ensures JoinAuthors(["Zhang, L."]) == JoinAuthors(["Zhang", "L."])
  {
    assert JoinAuthors(["Zhang", "L."]) == "Zhang" + ", " + JoinAuthors(["L."]);
  }

  /** One result as the card shows it. `parseYear` stands for `new Date(..)`'s
      year (None for an invalid date) and `currentYear` for today's. */
  function ToCard(item: SearchResultItem, parseYear: string -> Option<int>, currentYear: int): (p: Paper)
    ensures p.id == TextId(item.paper.arxivId)
    ensures p.title == item.paper.title && p.abstractText == item.paper.abstractText
    ensures p.authors == JoinAuthors(item.paper.authors)
    ensures p.year == DisplayYear(parseYear(item.paper.published), currentYear)
    ensures p.relevanceScore as real - 0.5 <= item.score * 100.0 < p.relevanceScore as real + 0.5
  {
    Paper(TextId(item.paper.arxivId), item.paper.title, JoinAuthors(item.paper.authors),
          DisplayYear(parseYear(item.paper.published), currentYear),
          item.paper.abstractText, Numbers.RoundHalfUp(item.score * 100.0))
  }

  /** The `map` over the response's results: one card per result, same order. */
  function ToCards(items: seq<SearchResultItem>, parseYear: string -> Option<int>, currentYear: int): (r: seq<Paper>)
    ensures |r| == |items|
    ensures forall i :: 0 <= i < |items| ==> r[i] == ToCard(items[i], parseYear, currentYear)
  {
    if |items| == 0 then []
    else [ToCard(items[0], parseYear, currentYear)] + ToCards(items[1..], parseYear, currentYear)
  }

  /** Mapping commutes with concatenation, so a response split in two maps to
      the two halves' cards. */
  lemma {:induction false} ToCardsAppend(a: seq<SearchResultItem>, b: seq<SearchResultItem>,
                                        parseYear: string -> Option<int>, currentYear: int)
    ensures ToCards(a + b, parseYear, currentYear) == ToCards(a, parseYear, currentYear) + ToCards(b, parseYear, currentYear)
  {
    var l := ToCards(a + b, parseYear, currentYear);
    var r := ToCards(a, parseYear, currentYear) + ToCards(b, parseYear, currentYear);
    assert |l| == |r|;
    forall i | 0 <= i < |l| ensures l[i] == r[i] {
      if i < |a| {
        assert (a + b)[i] == a[i];
      } else {
        assert (a + b)[i] == b[i - |a|];
      }
    }
  }
}
