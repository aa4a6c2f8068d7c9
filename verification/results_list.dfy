/** What the results panel renders for the props it is given
    (frontend/src/components/features/ResultsList.tsx). */
module ResultsList {
  import opened Options
  import opened Papers
  import Sorting

  /** The values of the sort selector, in display order. */
  const SortOptions: seq<string> := ["Relevance", "Date (Newest)", "Date (Oldest)", "Title (A-Z)"]

  datatype Props = Props(
    papers: seq<Paper>,
    isLoading: bool,
    error: Option<string>,
    totalResults: int,
    sortBy: string,
    currentPage: int,
    totalPages: int
  )

  /** The Previous / "Page X of Y" / Next bar: the page each button requests
      and whether it is disabled. */
  datatype Controls = Controls(
    currentPage: int,
    totalPages: int,
    previousTarget: int,
    previousDisabled: bool,
    nextTarget: int,
    nextDisabled: bool
  )

  datatype View =
    | Loading
    | Failed(message: string)
    | NoResults
    | Grid(totalResults: int, sortBy: string, options: seq<string>, cards: seq<Paper>, controls: Option<Controls>)

  /** `if (error)`: null and the empty string are falsy. */
  predicate Truthy(error: Option<string>) {
    error.Some? && error.value != ""
  }

  /** `Math.max(1, currentPage - 1)`: the larger of the two. */
  function PreviousTarget(currentPage: int): (t: int)
    ensures t >= 1 && t >= currentPage - 1
    ensures t == 1 || t == currentPage - 1
  {
    if currentPage - 1 < 1 then 1 else currentPage - 1
  }

  /** `Math.min(totalPages, currentPage + 1)`: the smaller of the two. */
  function NextTarget(currentPage: int, totalPages: int): (t: int)
    ensures t <= totalPages && t <= currentPage + 1
    ensures t == totalPages || t == currentPage + 1
  {
    if currentPage + 1 < totalPages then currentPage + 1 else totalPages
  }

  /** The pagination bar, rendered only when there is more than one page. */
  function PaginationBar(currentPage: int, totalPages: int): (c: Option<Controls>)
    ensures c.Some? <==> totalPages > 1
    ensures c.Some? ==> c.value.currentPage == currentPage && c.value.totalPages == totalPages
  {
    if totalPages > 1 then
      Some(Controls(currentPage, totalPages,
                    PreviousTarget(currentPage), currentPage == 1,
                    NextTarget(currentPage, totalPages), currentPage == totalPages))
    else None
  }

  /** Within range, Previous and Next stay within range; an enabled button moves
      exactly one page, and a disabled one would request the page already shown. */
  lemma ControlsStayInRange(currentPage: int, totalPages: int)
    requires 1 <= currentPage <= totalPages && totalPages > 1
    ensures var c := PaginationBar(currentPage, totalPages).value;
      && 1 <= c.previousTarget <= totalPages && 1 <= c.nextTarget <= totalPages
      && (c.previousDisabled <==> currentPage == 1)
      && (c.nextDisabled <==> currentPage == totalPages)
      && (c.previousDisabled ==> c.previousTarget == currentPage)
      && (!c.previousDisabled ==> c.previousTarget == currentPage - 1)
      && (c.nextDisabled ==> c.nextTarget == currentPage)
      && (!c.nextDisabled ==> c.nextTarget == currentPage + 1)
  {
  }

  /** The component: loading beats error, error beats "no papers", and only then
      is the grid shown, holding exactly the given papers in the given order. */
  function Render(p: Props): (v: View)
    ensures v.Loading? <==> p.isLoading
    ensures v.Failed? <==> !p.isLoading && Truthy(p.error)
    ensures v.Failed? ==> v.message == p.error.value
    ensures v.NoResults? <==> !p.isLoading && !Truthy(p.error) && p.totalResults == 0
    ensures v.Grid? <==> !p.isLoading && !Truthy(p.error) && p.totalResults != 0
    ensures v.Grid? ==> v.cards == p.papers && v.options == SortOptions
                        && v.totalResults == p.totalResults && v.sortBy == p.sortBy
    ensures v.Grid? ==> (v.controls.Some? <==> p.totalPages > 1)
  {
    if p.isLoading then Loading
    else if Truthy(p.error) then Failed(p.error.value)
    else if p.totalResults == 0 then NoResults
    else Grid(p.totalResults, p.sortBy, SortOptions, p.papers, PaginationBar(p.currentPage, p.totalPages))
  }

  /** The selector offers four distinct values, and they select the four orders. */
  lemma SortOptionsSelectEachOrder()
    ensures |SortOptions| == 4
    ensures forall i, j :: 0 <= i < j < |SortOptions| ==> SortOptions[i] != SortOptions[j]
    ensures Sorting.KeyOf(SortOptions[0]) == Sorting.Relevance
    ensures Sorting.KeyOf(SortOptions[1]) == Sorting.DateNewest
    ensures Sorting.KeyOf(SortOptions[2]) == Sorting.DateOldest
    ensures Sorting.KeyOf(SortOptions[3]) == Sorting.TitleAZ
  {
  }
}
