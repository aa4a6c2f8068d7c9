/** The search page as the user drives it: the search box, the results page's
    state and the results panel wired together as in
    frontend/src/pages/SearchPage.tsx, with the delayed mock fetch settling as
    a separate event. */
module Session {
  import opened Options
  import opened SearchPage
  import SearchSection
  import ResultsList
  import Sorting
  import Pagination

  datatype Session = Session(
    page: SearchPage.State,
    box: SearchSection.Box,
    /** The query whose fetch has started and not yet settled. */
    inFlight: Option<string>
  )

  const Start := Session(SearchPage.Initial, SearchSection.Box(""), None)

  /** What the user can do, and the timer firing. Tags and sort options are
      picked by position. */
  datatype Event =
    | Type(text: string)
    | ClickSearch
    | PressKey(key: string)
    | ClickTag(tag: int)
    | FetchSettles
    | ChooseSort(option: int)
    | ClickPrevious
    | ClickNext

  /** The search box forwarding (or not) a query to the page's `handleSearch`. */
  function Submit(s: Session, forwarded: Option<string>): (r: Session)
    ensures forwarded.None? ==> r == s
    ensures forwarded.Some? ==> r.page == BeginSearch(s.page, forwarded.value) && r.box == s.box
    ensures forwarded.Some? ==>
              (r.inFlight.Some? <==> ValidateQuery(forwarded.value) == Valid)
              && (r.inFlight.Some? ==> r.inFlight.value == forwarded.value)
  {
    match forwarded
    case None => s
    case Some(q) =>
      s.(page := BeginSearch(s.page, q),
         inFlight := if ValidateQuery(q) == Valid then Some(q) else None)
  }

  /** The page after one event. The input and the search button are disabled while
      a search runs; the sort selector and the page buttons exist only in the grid,
      and a disabled page button does nothing. */
  function Step(s: Session, e: Event, titleCompare: (string, string) -> int): Session
    requires Sorting.ConsistentTitleOrder(titleCompare)
  {
    var loading := s.page.isLoading;
    match e
    case Type(text) =>
      if loading then s else s.(box := SearchSection.Edit(s.box, text))
    case ClickSearch =>
      Submit(s, SearchSection.SubmitQuery(s.box, loading))
    case PressKey(key) =>
      if loading then s else Submit(s, SearchSection.KeyDown(s.box, key, loading))
    case ClickTag(i) =>
      if 0 <= i < |SearchSection.ExampleQueries| then
        var clicked := SearchSection.TagClick(s.box, SearchSection.ExampleQueries[i], loading);
        Submit(s.(box := clicked.0), clicked.1)
      else s
    case FetchSettles =>
      if s.inFlight.Some? then
        s.(page := CompleteSearch(s.page, s.inFlight.value), inFlight := None)
      else s
    case ChooseSort(i) =>
      if View(s.page, titleCompare).Grid? && 0 <= i < |ResultsList.SortOptions| then
        s.(page := SetSortBy(s.page, ResultsList.SortOptions[i]))
      else s
    case ClickPrevious => PressPageButton(s, View(s.page, titleCompare), true)
    case ClickNext => PressPageButton(s, View(s.page, titleCompare), false)
  }

  /** Clicking Previous (or Next) in the view `v`: only a button the grid shows,
      and that is enabled, moves to its target page. */
  function PressPageButton(s: Session, v: ResultsList.View, previous: bool): Session
  {
    if v.Grid? && v.controls.Some? then
      var c := v.controls.value;
      if previous && !c.previousDisabled then s.(page := HandlePageChange(s.page, c.previousTarget))
      else if !previous && !c.nextDisabled then s.(page := HandlePageChange(s.page, c.nextTarget))
      else s
    else s
  }

  /** A page button changes nothing but the page number; one the grid does not
      show, or shows disabled, does nothing, and an enabled one moves to its target. */
  lemma PageButtonEffect(s: Session, v: ResultsList.View, previous: bool)
    ensures var r := PressPageButton(s, v, previous);
      && r.page.(currentPage := s.page.currentPage) == s.page && r.box == s.box && r.inFlight == s.inFlight
      && (!(v.Grid? && v.controls.Some?) ==> r == s)
      && (v.Grid? && v.controls.Some? ==>
            var c := v.controls.value;
            && (previous && c.previousDisabled ==> r == s)
            && (!previous && c.nextDisabled ==> r == s)
            && (previous && !c.previousDisabled ==> r.page.currentPage == c.previousTarget)
            && (!previous && !c.nextDisabled ==> r.page.currentPage == c.nextTarget))
  {
  }

  /** What each event may change: typing touches only the box, nothing but a
      search or a settle happens while loading, a settle clears the pending
      query, the sort selector changes only the sort order and the page buttons
      only the page number. */
  lemma StepChangesOnlyItsPart(s: Session, e: Event, titleCompare: (string, string) -> int)
    requires Sorting.ConsistentTitleOrder(titleCompare)
    ensures var r := Step(s, e, titleCompare);
      && (e.Type? ==> r.page == s.page && r.inFlight == s.inFlight)
      && (s.page.isLoading && (e.Type? || e.PressKey?) ==> r == s)
      && (e.FetchSettles? ==> r.inFlight.None? && r.box == s.box)
      && (e.FetchSettles? && s.inFlight.None? ==> r == s)
      && (e.ChooseSort? ==>
            r.page.(sortBy := s.page.sortBy) == s.page && r.box == s.box && r.inFlight == s.inFlight)
      && (e.ClickPrevious? || e.ClickNext? ==>
            r.page.(currentPage := s.page.currentPage) == s.page && r.box == s.box && r.inFlight == s.inFlight)
  {
  }

  /** What holds of every session the user can reach: the spinner shows exactly
      while a fetch is pending, a pending search starts on page 1, and whenever
      there are results the current page is one of theirs. */
  ghost predicate Inv(s: Session) {
    && (s.page.isLoading <==> s.inFlight.Some?)
    && (s.inFlight.Some? ==> s.page.currentPage == 1 && ValidateQuery(s.inFlight.value) == Valid)
    && 1 <= s.page.currentPage
    && (|s.page.results| > 0 ==> s.page.currentPage <= Pagination.TotalPages(|s.page.results|))
  }

  lemma StartSatisfiesInv()
    ensures Inv(Start)
  {
  }

  lemma SubmitPreservesInv(s: Session, forwarded: Option<string>)
    requires Inv(s) && !s.page.isLoading
    ensures Inv(Submit(s, forwarded))
  {
  }

  lemma SettlePreservesInv(s: Session, titleCompare: (string, string) -> int)
    requires Sorting.ConsistentTitleOrder(titleCompare)
    requires Inv(s)
    ensures Inv(Step(s, FetchSettles, titleCompare))
  {
    if s.inFlight.Some? {
      var r := CompleteSearch(s.page, s.inFlight.value);
      assert r.currentPage == 1 && !r.isLoading;
    }
  }

  lemma SortPreservesInv(s: Session, i: int, titleCompare: (string, string) -> int)
    requires Sorting.ConsistentTitleOrder(titleCompare)
    requires Inv(s)
    ensures Inv(Step(s, ChooseSort(i), titleCompare))
  {
  }

  /** The pagination bar a grid shows is the one for the session's own page and
      result count, and a grid is only shown once loading has ended. */
  lemma GridControlsMatchSession(s: Session, titleCompare: (string, string) -> int)
    requires Sorting.ConsistentTitleOrder(titleCompare)
    requires Inv(s)
    ensures var v := View(s.page, titleCompare);
      v.Grid? && v.controls.Some? ==>
        && !s.page.isLoading && s.inFlight.None? && |s.page.results| > 0
        && v.controls.value.totalPages == Pagination.TotalPages(|s.page.results|)
        && 1 <= v.controls.value.previousTarget <= v.controls.value.totalPages
        && 1 <= v.controls.value.nextTarget <= v.controls.value.totalPages
  {
    var v := View(s.page, titleCompare);
    var p := PanelProps(s.page, titleCompare);
    if v.Grid? && v.controls.Some? {
      assert v.controls == ResultsList.PaginationBar(p.currentPage, p.totalPages);
      ResultsList.ControlsStayInRange(p.currentPage, p.totalPages);
    }
  }

  /** Moving to a page within range, with no search pending, keeps the invariant. */
  lemma PageChangeKeepsInv(s: Session, target: int)
    requires Inv(s) && s.inFlight.None? && |s.page.results| > 0
    requires 1 <= target <= Pagination.TotalPages(|s.page.results|)
    ensures Inv(s.(page := HandlePageChange(s.page, target)))
  {
  }

  /** The page buttons act on the view of the session's current page. */
  lemma PageButtonsActOnView(s: Session, titleCompare: (string, string) -> int)
    requires Sorting.ConsistentTitleOrder(titleCompare)
    ensures Step(s, ClickPrevious, titleCompare) == PressPageButton(s, View(s.page, titleCompare), true)
    ensures Step(s, ClickNext, titleCompare) == PressPageButton(s, View(s.page, titleCompare), false)
  {
  }

  /** An enabled Previous button requests a page within range. */
  lemma PreviousPreservesInv(s: Session, titleCompare: (string, string) -> int)
    requires Sorting.ConsistentTitleOrder(titleCompare)
    requires Inv(s)
    ensures Inv(Step(s, ClickPrevious, titleCompare))
  {
    PageButtonsActOnView(s, titleCompare);
    var v := View(s.page, titleCompare);
    if v.Grid? && v.controls.Some? && !v.controls.value.previousDisabled {
      GridControlsMatchSession(s, titleCompare);
      var target := v.controls.value.previousTarget;
      PageChangeKeepsInv(s, target);
      assert PressPageButton(s, v, true) == s.(page := HandlePageChange(s.page, target));
    } else {
      assert PressPageButton(s, v, true) == s;
    }
  }

  /** An enabled Next button requests a page within range. */
  lemma NextPreservesInv(s: Session, titleCompare: (string, string) -> int)
    requires Sorting.ConsistentTitleOrder(titleCompare)
    requires Inv(s)
    ensures Inv(Step(s, ClickNext, titleCompare))
  {
    PageButtonsActOnView(s, titleCompare);
    var v := View(s.page, titleCompare);
    if v.Grid? && v.controls.Some? && !v.controls.value.nextDisabled {
      GridControlsMatchSession(s, titleCompare);
      var target := v.controls.value.nextTarget;
      PageChangeKeepsInv(s, target);
      assert PressPageButton(s, v, false) == s.(page := HandlePageChange(s.page, target));
    } else {
      assert PressPageButton(s, v, false) == s;
    }
  }

  lemma TagPreservesInv(s: Session, i: int, titleCompare: (string, string) -> int)
    requires Sorting.ConsistentTitleOrder(titleCompare)
    requires Inv(s)
    ensures Inv(Step(s, ClickTag(i), titleCompare))
  {
    if 0 <= i < |SearchSection.ExampleQueries| && !s.page.isLoading {
      var clicked := SearchSection.TagClick(s.box, SearchSection.ExampleQueries[i], false);
      SubmitPreservesInv(s.(box := clicked.0), clicked.1);
    }
  }

  /** Every event keeps the invariant. */
  lemma StepPreservesInv(s: Session, e: Event, titleCompare: (string, string) -> int)
    requires Sorting.ConsistentTitleOrder(titleCompare)
    requires Inv(s)
    ensures Inv(Step(s, e, titleCompare))
  {
    match e
    case ClickSearch =>
      if !s.page.isLoading {
        SubmitPreservesInv(s, SearchSection.SubmitQuery(s.box, false));
      }
    case PressKey(key) =>
      if !s.page.isLoading {
        SubmitPreservesInv(s, SearchSection.KeyDown(s.box, key, false));
      }
    case ClickTag(i) => TagPreservesInv(s, i, titleCompare);
    case FetchSettles => SettlePreservesInv(s, titleCompare);
    case ChooseSort(i) => SortPreservesInv(s, i, titleCompare);
    case ClickPrevious => PreviousPreservesInv(s, titleCompare);
    case ClickNext => NextPreservesInv(s, titleCompare);
    case Type(_) =>
  }

  /** In every reachable session, the grid shows the current page of the sorted
      results, which is never empty: between one and six cards, all drawn from the
      results, and the page buttons stay within range. */
  lemma GridShowsAPageOfResults(s: Session, titleCompare: (string, string) -> int)
    requires Sorting.ConsistentTitleOrder(titleCompare)
    requires Inv(s)
    ensures var v := View(s.page, titleCompare);
      v.Grid? ==>
        && v.cards == Pagination.PageItems(SortedResults(s.page, titleCompare), s.page.currentPage)
        && multiset(v.cards) <= multiset(s.page.results)
        && 1 <= |v.cards| <= Pagination.ItemsPerPage
        && (v.controls.Some? ==>
              && 1 <= v.controls.value.previousTarget <= v.controls.value.totalPages
              && 1 <= v.controls.value.nextTarget <= v.controls.value.totalPages)
  {
    var v := View(s.page, titleCompare);
    var p := PanelProps(s.page, titleCompare);
    if v.Grid? && v.controls.Some? {
      ResultsList.ControlsStayInRange(p.currentPage, p.totalPages);
    }
  }

  /** A settled fetch always ends the loading state. */
  lemma SettlingEndsLoading(s: Session, titleCompare: (string, string) -> int)
    requires Sorting.ConsistentTitleOrder(titleCompare)
    requires Inv(s)
    ensures !Step(s, FetchSettles, titleCompare).page.isLoading
    ensures Step(s, FetchSettles, titleCompare).inFlight == None
  {
  }
}
