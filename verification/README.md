# Academic paper recommender — a Dafny model of its core

The system is a small semantic search application for academic papers. A
React frontend takes a query, validates it, fetches results (mocked on the
results page, or from the server through a search service), sorts them by
relevance, date or title, and shows them six to a page. A FastAPI backend
exposes `/recommend` and `/health`, normalises query text, and validates and
formats its request and response models.

This project models that core as pure Dafny functions over immutable
datatypes and proves what each piece promises:

| file | module | models |
|---|---|---|
| `options.dfy` | `Options` | `Option` and `Result` |
| `seqs.dfy` | `Seqs` | order-preserving filter (`Array.prototype.filter`, list comprehensions) |
| `text.dfy` | `Text` | JavaScript `trim` and Python `strip` whitespace, ASCII lower-casing, `includes`, `join` |
| `numbers.dfy` | `Numbers` | `Math.round`, Python `int()` on a float, `str()` of an integer |
| `papers.dfy` | `Papers` | the card record the page renders |
| `sorting.dfy` | `Sorting` | the stable sort behind `Array.prototype.sort` and the four sort orders |
| `pagination.dfy` | `Pagination` | `ITEMS_PER_PAGE`, the page count and the page slice |
| `search_section.dfy` | `SearchSection` | the search box, Enter key and example tags |
| `results_list.dfy` | `ResultsList` | which state the results panel shows, and the pagination bar |
| `search_page.dfy` | `SearchPage` | validation, the mocked fetch, `handleSearch`, sorting and paging state |
| `session.dfy` | `Session` | the page and search box driven by a sequence of user events |
| `paper_api.dfy` | `PaperApi` | the frontend search service: request and response-to-card mapping |
| `theme.dfy` | `Theme` | the light/dark theme and its persistence |
| `text_utils.dfy` | `TextUtils` | `normalize_text` and its stop-word list |
| `schemas.dfy` | `Schemas` | the Pydantic request and response models |
| `server.dfy` | `Server` | the `/recommend` and `/health` handlers |

Behaviours of the code worth knowing:

- A page number is stored as given (`handlePageChange` does not clamp it). The
  Previous and Next buttons clamp the number they send, and that is the only
  clamping (`ResultsList.ControlsStayInRange`).
- Changing the sort order keeps the current page. Only a new valid search
  resets it to 1 (`SearchPage.SetSortBy`, `SearchPage.BeginSearch`).
- Searching for "all" under the default Relevance order puts papers 1, 3, 2,
  4, 5, 6 on the first page, not 1 to 6. Papers 1 and 3 both score 100 and
  lead in dataset order (`SearchPage.ShowAllFirstPage`).
- A blank query clears any error message already shown and stops there,
  without a new message (`SearchPage.BeginSearch`). A query of one or two
  characters shows "Please enter at least 3 characters." (`SearchPage.ValidateQuery`).
- `/recommend` passes `q` to the engine exactly as received. It does not go
  through `SearchQuery`, so it is neither stripped nor checked for being
  whitespace-only (`Server.RecommendEndpoint`).
- In `SearchQuery` the length bounds apply to the query before the validator
  strips it, so a stored query can be shorter than three characters
  (`Schemas.StoredQueryMayBeShort`).
- The server's explanation truncates `score * 100`. The card rounds it. The
  two numbers can differ by one (`Numbers.RoundIsTruncationOrNext`).

## Model

| member | source | states |
|---|---|---|
| Text.Strip | frontend/src/pages/SearchPage.tsx:40-41 | the trimmed string is an infix of the input with non-space ends; it is empty exactly when the input is all whitespace |
| Text.IsSpace | frontend/src/pages/SearchPage.tsx:40-41 | the definition itself is the statement: the whitespace set of JavaScript's `trim`, and, for the Python runtime, that of `str.strip` and `str.split` (backend/app/schemas.py:29-31, backend/app/text_utils.py:30); the two differ only in U+FEFF, U+001C..U+001F and U+0085 |
| Text.StripIdempotent | backend/app/schemas.py:29-31 | trimming a trimmed string changes nothing |
| Text.AsciiLower | frontend/src/pages/SearchPage.tsx:60 | lower-casing keeps the length and maps each character on its own |
| Text.LowerChar | backend/app/text_utils.py:24 | an ASCII upper-case letter moves to its lower-case partner (32 code points on); every other character is unchanged; no upper-case letter results |
| Text.AsciiLowerFixes | backend/app/text_utils.py:24 | lower-cased text has no upper-case letters, lower-casing it again changes nothing, and text already lower is fixed |
| Text.Contains | frontend/src/pages/SearchPage.tsx:64 | `includes` holds exactly when the needle occurs at some position |
| Text.JoinLength | frontend/src/api/papers.ts:53 | a join is as long as its parts plus one separator between each pair |
| Text.Join | frontend/src/api/papers.ts:53 | no parts join to "", one part to itself, and more parts begin with the first part and then the separator; `" ".join` of backend/app/text_utils.py:33 is the same operation |
| Text.JoinSnoc | frontend/src/api/papers.ts:53 | joining with one more part appends the separator and that part |
| Text.JoinChars | backend/app/text_utils.py:33 | every character of a join comes from a part or from the separator |
| Seqs.Filter | frontend/src/pages/SearchPage.tsx:63-67 | a filter keeps only elements that pass and never grows the list |
| Seqs.FilterSubseq | backend/app/text_utils.py:31 | a filter keeps the kept elements in their original order |
| Seqs.FilterMembers | frontend/src/pages/SearchPage.tsx:63-67 | an element is in the filtered list exactly when it is in the input and passes |
| Seqs.FilterCounts | frontend/src/pages/SearchPage.tsx:63-67 | a passing element keeps all its copies and a failing one keeps none |
| Seqs.FilterKeepsAll | frontend/src/pages/SearchPage.tsx:66 | when every element passes, the filter returns the list unchanged |
| Seqs.FilterAppend | backend/app/text_utils.py:31 | filtering a concatenation filters each half |
| Numbers.RoundHalfUp | frontend/src/api/papers.ts:58 | `Math.round` gives the integer within half a unit, halves rounded up |
| Numbers.TruncateTowardZero | backend/app/main.py:124 | `int()` drops the fraction toward zero, for either sign |
| Numbers.RoundIsTruncationOrNext | backend/app/main.py:124 | for a non-negative score the card's rounded percentage is the server's truncated one or one more |
| Numbers.NatToString | backend/app/main.py:125 | a natural number renders as decimal digits with no leading zero |
| Numbers.IntToString | backend/app/main.py:125 | `str` of an integer is non-empty and starts with "-" exactly for a negative number; `Numbers.IntToStringRoundTrip` reads it back |
| Numbers.IntToStringRoundTrip | backend/app/main.py:125 | the rendered confidence reads back as the same integer |
| Numbers.ParseNatToString | backend/app/main.py:125 | reading back the digits of a natural number gives that number |
| Sorting.Insert | frontend/src/pages/SearchPage.tsx:85-93 | insertion adds exactly the one element |
| Sorting.StableSort | frontend/src/pages/SearchPage.tsx:85-93 | the sort is a permutation of its input |
| Sorting.InsertSorted | frontend/src/pages/SearchPage.tsx:85-93 | inserting into a sorted list keeps it sorted under any total preorder |
| Sorting.StableSortSorted | frontend/src/pages/SearchPage.tsx:85-93 | the sorted list is in order |
| Sorting.StableSortTies | frontend/src/pages/SearchPage.tsx:85-93 | the sort is stable: elements that compare equal keep their relative order |
| Sorting.SortedIsFixed | frontend/src/pages/SearchPage.tsx:85-93 | a list already in order is returned unchanged |
| Sorting.StableSortIdempotent | frontend/src/pages/SearchPage.tsx:85-93 | sorting twice is sorting once |
| Sorting.StableOrderUnique | frontend/src/pages/SearchPage.tsx:85-93 | two sorted permutations that keep every tie group in the same order are equal |
| Sorting.KeyOf | frontend/src/pages/SearchPage.tsx:87-91 | the three named labels select their order and every other label falls to relevance |
| Sorting.Compare | frontend/src/pages/SearchPage.tsx:88-91 | for the date and relevance keys the sign says which paper goes first (newer, older, higher score) and zero means a tie; the title key defers to the supplied string comparison |
| Sorting.Precedes | frontend/src/pages/SearchPage.tsx:88-91 | a paper may stay before another exactly when it is at least as new, at least as old, not after it by title, or scores at least as high |
| Sorting.PrecedesIsPreorder | frontend/src/pages/SearchPage.tsx:88-91 | each comparator's "not after" relation is a total preorder, given a consistent title comparison |
| Sorting.SortResults | frontend/src/pages/SearchPage.tsx:85-93 | the sorted results are a permutation in year, title or score order as selected |
| Sorting.SortResultsStable | frontend/src/pages/SearchPage.tsx:85-93 | the chosen sort keeps ties in result order and sorting again changes nothing |
| Sorting.SortResultsUnique | frontend/src/pages/SearchPage.tsx:85-93 | any sorted, tie-preserving permutation of the results is exactly the page's sorted list |
| Pagination.TotalPages | frontend/src/pages/SearchPage.tsx:96 | the page count is the least that holds all results, six to a page, and zero only for no results |
| Pagination.SliceIndex | frontend/src/pages/SearchPage.tsx:100 | a slice bound is clamped into the list; a negative one counts back from the end and stops at 0 |
| Pagination.JsSlice | frontend/src/pages/SearchPage.tsx:100 | for ordered non-negative bounds the slice is the clamped subsequence, never longer than the bounds' span |
| Pagination.PageItems | frontend/src/pages/SearchPage.tsx:98-101 | a page holds at most six items, is the right window for a page from 1, is non-empty within range and empty past it; page 0 is empty and a negative page is the window counted back from the end |
| Pagination.NegativePageCountsFromEnd | frontend/src/pages/SearchPage.tsx:98-100 | with ten results, page 0 is empty, page -1 is the first four results and page -2 is empty |
| Pagination.PagesFromSuffix | frontend/src/pages/SearchPage.tsx:98-101 | pages from a given one onwards concatenate to the suffix of the results starting there |
| Pagination.PagesCoverResults | frontend/src/pages/SearchPage.tsx:98-101 | the pages, in order, concatenate to the whole sorted list |
| SearchSection.Edit | frontend/src/components/features/SearchSection.tsx:10 | typing replaces the box's text |
| SearchSection.SubmitQuery | frontend/src/components/features/SearchSection.tsx:12-17 | a query is forwarded, untrimmed, exactly when its trimmed text is non-empty and no search is running |
| SearchSection.KeyDown | frontend/src/components/features/SearchSection.tsx:19-23 | only the Enter key submits |
| SearchSection.TagClick | frontend/src/components/features/SearchSection.tsx:25-30 | a tag fills the box and is forwarded unless a search is running, in which case nothing changes |
| SearchSection.StripUnpadded | frontend/src/components/features/SearchSection.tsx:14 | text without surrounding whitespace is its own trim |
| SearchSection.ExampleQueriesAreLongEnough | frontend/src/components/features/SearchSection.tsx:32-37 | every example tag passes the page's three-character check |
| ResultsList.PaginationBar | frontend/src/components/features/ResultsList.tsx:118-139 | the bar appears exactly when there is more than one page |
| ResultsList.PreviousTarget | frontend/src/components/features/ResultsList.tsx:121 | Previous asks for the larger of 1 and the page before |
| ResultsList.NextTarget | frontend/src/components/features/ResultsList.tsx:133 | Next asks for the smaller of the page count and the page after |
| ResultsList.ControlsStayInRange | frontend/src/components/features/ResultsList.tsx:121-134 | within range, Previous and Next target pages in range, and each is disabled exactly at its end |
| ResultsList.Render | frontend/src/components/features/ResultsList.tsx:41-114 | loading wins, then a truthy error, then no results, otherwise the grid of the given cards |
| ResultsList.Truthy | frontend/src/components/features/ResultsList.tsx:52 | the definition itself is the statement: `if (error)` passes exactly for a present, non-empty message, since null and "" are falsy |
| ResultsList.SortOptionsSelectEachOrder | frontend/src/components/features/ResultsList.tsx:96-99 | the four options are distinct and select the four orders |
| SearchPage.ValidateQuery | frontend/src/pages/SearchPage.tsx:39-47 | blank, too short and valid are decided by the trimmed length, with 3 the minimum |
| SearchPage.MockFetch | frontend/src/pages/SearchPage.tsx:60-74 | a query containing "error" fails; "all" returns the whole dataset; otherwise the papers whose lower-cased title contains the lower-cased query, every copy, in dataset order |
| SearchPage.MatchesQuery | frontend/src/pages/SearchPage.tsx:63-67 | "all" and the empty query match every paper, and the ASCII case of a title never changes whether it matches |
| SearchPage.BeginSearch | frontend/src/pages/SearchPage.tsx:49-55 | the error is cleared; a short query sets the message and empties the results; a valid one starts loading on page 1 |
| SearchPage.CompleteSearch | frontend/src/pages/SearchPage.tsx:57-81 | loading ends; a failure sets the fetch message and empties the results; a success stores the fetched papers |
| SearchPage.HandleSearch | frontend/src/pages/SearchPage.tsx:49-82 | an invalid query stops after validation; a valid one completes the fetch |
| SearchPage.SearchOutcome | frontend/src/pages/SearchPage.tsx:49-82 | per case, what a finished search leaves: page 1, no loading, the failure message, or results drawn from the dataset |
| SearchPage.ShowAllListsEverything | frontend/src/pages/SearchPage.tsx:70-71 | searching "all" stores the whole dataset in its own order |
| SearchPage.RelevanceRanking | frontend/src/pages/SearchPage.tsx:91 | with two equal top scores, the relevance sort keeps those two in dataset order ahead of the rest by score |
| SearchPage.MockScores | frontend/src/pages/SearchPage.tsx:17-28 | the dataset's scores: papers 1 and 3 tie at the top, and papers 2 and 4 to 8 follow in descending order |
| SearchPage.FirstPageOfRanking | frontend/src/pages/SearchPage.tsx:85-101 | for such a ranking the first page is the first, third, second, fourth, fifth and sixth paper |
| SearchPage.ShowAllFirstPage | frontend/src/pages/SearchPage.tsx:17-101 | "all" under the default order shows papers 1, 3, 2, 4, 5, 6 on page 1 |
| SearchPage.HandlePageChange | frontend/src/pages/SearchPage.tsx:103-107 | the page becomes the requested number, unclamped, and nothing else changes |
| SearchPage.SetSortBy | frontend/src/pages/SearchPage.tsx:124 | choosing a sort order changes only the order, not the page |
| SearchPage.SortedResults | frontend/src/pages/SearchPage.tsx:85-93 | the sorted results are a permutation of the stored ones |
| SearchPage.PanelProps | frontend/src/pages/SearchPage.tsx:118-128 | the panel gets the full count, the page count, the current page's window of the sorted results (at most six cards drawn from the results), and the page's state |
| SearchPage.View | frontend/src/pages/SearchPage.tsx:118-128 | the spinner shows exactly while loading, the empty state exactly when idle with no error and no results, and the grid shows the result count, the sort order and the current page of the sorted results |
| SearchPage.PageIsPart | frontend/src/pages/SearchPage.tsx:98-101 | a page's cards are drawn from the sorted results |
| Session.Submit | frontend/src/components/features/SearchSection.tsx:14-15 | a forwarded query starts the page's search, and a valid one is recorded as in flight |
| Session.Step | frontend/src/pages/SearchPage.tsx:49-128 | the definition itself is the statement: one event, dispatched to the handler the page wires to it; `Session.StepChangesOnlyItsPart` states what each event may change |
| Session.StepChangesOnlyItsPart | frontend/src/pages/SearchPage.tsx:49-128 | typing changes only the box; while loading, typing and keys do nothing; a settle clears the pending query and does nothing without one; the sort selector changes only the sort order; the page buttons change only the page number |
| Session.PressPageButton | frontend/src/components/features/ResultsList.tsx:120-134 | the definition itself is the statement: a click on Previous or Next in the rendered view; `Session.PageButtonEffect` states its effect |
| Session.PageButtonEffect | frontend/src/components/features/ResultsList.tsx:120-134 | a page button changes only the page number; one the grid does not show, or shows disabled, does nothing, and an enabled one moves to its target |
| Session.StartSatisfiesInv | frontend/src/pages/SearchPage.tsx:31-37 | the initial state is consistent: not loading, page 1 |
| Session.SubmitPreservesInv | frontend/src/pages/SearchPage.tsx:49-55 | starting a search while idle keeps loading and the in-flight query in step |
| Session.SettlePreservesInv | frontend/src/pages/SearchPage.tsx:57-81 | a settling fetch keeps the page consistent |
| Session.SortPreservesInv | frontend/src/components/features/ResultsList.tsx:94 | choosing a sort order keeps the page consistent |
| Session.GridControlsMatchSession | frontend/src/components/features/ResultsList.tsx:121-134 | a grid's pagination bar counts the session's own results, appears only once loading is over, and both its targets are pages in range |
| Session.PageChangeKeepsInv | frontend/src/pages/SearchPage.tsx:103-104 | moving to a page in range while no search is pending keeps the invariant |
| Session.PreviousPreservesInv | frontend/src/components/features/ResultsList.tsx:120-122 | Previous keeps the page between 1 and the page count |
| Session.NextPreservesInv | frontend/src/components/features/ResultsList.tsx:132-134 | Next keeps the page between 1 and the page count |
| Session.TagPreservesInv | frontend/src/components/features/SearchSection.tsx:25-30 | clicking a tag keeps the page consistent |
| Session.StepPreservesInv | frontend/src/pages/SearchPage.tsx:49-128 | every user event keeps the page consistent: loading exactly while a valid query is in flight, and the page within range |
| Session.GridShowsAPageOfResults | frontend/src/components/features/ResultsList.tsx:104-114 | whenever the grid shows, its cards are the current page's window of the sorted results: between one and six of them, drawn from the results |
| Session.SettlingEndsLoading | frontend/src/pages/SearchPage.tsx:79-81 | a settled fetch always ends loading |
| PaperApi.SearchRequest | frontend/src/api/papers.ts:36-40 | the service calls `/recommend` with the query as given and a limit defaulting to 10 |
| PaperApi.DisplayYear | frontend/src/api/papers.ts:47 | the parsed year is used unless it is invalid or zero, in which case the current year is |
| PaperApi.AuthorLineShape | frontend/src/api/papers.ts:53 | no authors give an empty line, one author gives the name, and k authors add k - 1 separators |
| PaperApi.JoinAuthors | frontend/src/api/papers.ts:53 | the definition itself is the statement: the names joined with ", "; `PaperApi.AuthorLineShape` and `PaperApi.AuthorsRoundTrip` state its shape and its inverse |
| PaperApi.AuthorsRoundTrip | frontend/src/api/papers.ts:53 | for a non-empty list of names without commas, splitting the author line at ", " gives the author list back |
| PaperApi.CommaNamesAreAmbiguous | frontend/src/api/papers.ts:53 | with a comma inside a name, one author and two authors give the same line |
| PaperApi.ToCard | frontend/src/api/papers.ts:43-59 | a card carries the arXiv id, title, abstract, joined authors, display year and the score as a rounded percentage |
| PaperApi.ToCards | frontend/src/api/papers.ts:43 | one card per result, in the same order |
| PaperApi.ToCardsAppend | frontend/src/api/papers.ts:43 | mapping a concatenation maps each half |
| Theme.InitialIsDark | frontend/src/App.tsx:8-12 | a non-empty saved theme decides, "dark" meaning dark; otherwise the system preference |
| Theme.ThemeName | frontend/src/App.tsx:15-16 | dark is named "dark" and light "light" |
| Theme.ApplyTheme | frontend/src/App.tsx:14-17 | the effect writes the same name to the attribute and to storage: "dark" when dark and "light" otherwise |
| Theme.Toggle | frontend/src/App.tsx:19 | toggling flips the theme |
| Theme.ReloadRestoresTheme | frontend/src/App.tsx:8-17 | after the effect has run, a reload restores that theme whatever the system preference |
| Theme.ToggleTwiceRestores | frontend/src/App.tsx:14-19 | toggling twice restores the theme and the stored state |
| TextUtils.RemovePunctuation | backend/app/text_utils.py:27 | the result has no ASCII punctuation and keeps every other character, every copy of it, in order |
| TextUtils.IsPunctuation | backend/app/text_utils.py:27 | the definition itself is the statement: the 32 marks of `string.punctuation` as four ASCII ranges; `TextUtils.PunctuationCharacters` characterises them |
| TextUtils.PunctuationCharacters | backend/app/text_utils.py:27 | the marks removed are exactly the printable ASCII characters other than the space, the letters and the digits |
| TextUtils.Words | backend/app/text_utils.py:30 | splitting gives non-empty words without whitespace; run together, the words are the text with its whitespace removed, and only all-whitespace text has none |
| TextUtils.WordsSplitAtSpace | backend/app/text_utils.py:30 | the split cuts at every whitespace character: the words of the text are the words before it followed by the words after it |
| TextUtils.SingleWord | backend/app/text_utils.py:30 | a lone word splits into itself |
| TextUtils.Tokens | backend/app/text_utils.py:24-30 | every token is a word with no punctuation and no upper-case ASCII letter, and the tokens run together are the cleaned text without its whitespace |
| TextUtils.WordsUnwords | backend/app/text_utils.py:30-33 | splitting words joined by one space gives the words back |
| TextUtils.RunOfWord | backend/app/text_utils.py:30 | a word followed by whitespace or the end is split off whole |
| TextUtils.UnwordsSingleSpaced | backend/app/text_utils.py:33 | joining words with one space leaves no leading, trailing or doubled whitespace |
| TextUtils.GlueSingleSpaced | backend/app/text_utils.py:33 | a word, one space and single-spaced text starting with a word are again single-spaced |
| TextUtils.NormalizeText | backend/app/text_utils.py:12-33 | empty text stays empty; the result is single-spaced and its words are the text's tokens without stop words |
| TextUtils.KeptAreWords | backend/app/text_utils.py:30-31 | every kept token is a word that is not a stop word |
| TextUtils.NormalizeClean | backend/app/text_utils.py:24-27 | normalised text has no upper-case ASCII letters and no punctuation |
| TextUtils.NormalizeDropsStopWords | backend/app/text_utils.py:31 | no stop word survives, and the surviving words are the tokens in order |
| TextUtils.NormalizeIdempotent | backend/app/text_utils.py:12-33 | normalising normalised text changes nothing |
| TextUtils.KeepAll | backend/app/text_utils.py:27 | text without punctuation is unchanged by the punctuation removal |
| TextUtils.DropOne | backend/app/text_utils.py:27 | a lone punctuation mark is removed |
| TextUtils.LowerAppend | backend/app/text_utils.py:24 | lower-casing a concatenation lower-cases each half |
| TextUtils.RemovePunctuationGlue | backend/app/text_utils.py:27 | a punctuation mark between two clean pieces is removed and the pieces meet |
| TextUtils.PunctuationGluesWords | backend/app/text_utils.py:24-30 | two words joined by punctuation, such as "state-of", become one token |
| TextUtils.TrailingPunctuationIgnored | backend/app/text_utils.py:12-33 | trailing punctuation on a word does not change its tokens or its normal form |
| TextUtils.StopWordWithComma | backend/app/text_utils.py:27-31 | "the," normalises to the empty string: the comma goes first and then the stop word |
| TextUtils.StopWordWithMark | backend/app/text_utils.py:27-31 | any stop word followed by one punctuation mark normalises to the empty string |
| TextUtils.RemovePunctuationJoin | backend/app/text_utils.py:27 | removing the marks from clean words joined by one punctuation mark runs the words together into one word |
| TextUtils.CompoundIsOneToken | backend/app/text_utils.py:24-30 | lower-case words joined by a punctuation mark split into a single token, the words run together |
| TextUtils.HyphenatedTerm | backend/app/text_utils.py:24-30 | "state-of-the-art" is the single token "stateoftheart" |
| Schemas.ValidateQueryContent | backend/app/schemas.py:25-31 | a whitespace-only query is rejected with its message; otherwise the stripped query is stored |
| Schemas.ValidateIdempotent | backend/app/schemas.py:25-31 | validating an accepted query again accepts it unchanged |
| Schemas.MakeSearchQuery | backend/app/schemas.py:7-31 | accepted exactly when the raw query has 3 to 300 characters and is not blank and the limit, default 5, is 1 to 50; the stored query is stripped |
| Schemas.StoredQueryMayBeShort | backend/app/schemas.py:11-31 | "  a" passes the length check and is stored as "a" |
| Schemas.MakeHealthResponse | backend/app/schemas.py:65-70 | alerts default to none and every other field is stored as given |
| Server.Get | backend/app/main.py:129-135 | a lookup returns the stored value or the default when the key is absent |
| Server.Texts | backend/app/main.py:132 | a list of strings converts element by element |
| Server.FormatPaper | backend/app/main.py:128-136 | a paper converts exactly when its present fields have the right types; absent fields take "unknown", "Untitled", empty text and empty lists; present author and category lists are copied string by string |
| Server.WellTyped | backend/app/schemas.py:36-44 | the definition itself is the statement: each `PaperMetadata` field that is present has its declared type, a string or a list of strings; `Server.FormatPaper` succeeds exactly when it holds |
| Server.EmptyPaperDefaults | backend/app/main.py:129-135 | a paper with no fields becomes the all-defaults paper |
| Server.ExplanationCarriesConfidence | backend/app/main.py:124-125 | the explanation names the truncated percentage and reads it back |
| Server.Confidence | backend/app/main.py:124 | `int(score * 100)` truncates toward zero for either sign, and a score from 0 to 1 gives a percentage from 0 to 100 |
| Server.Explanation | backend/app/main.py:125 | the sentence opens with the fixed prefix and closes with the fixed suffix, with a minus sign after the prefix exactly for a negative confidence |
| Server.FormatResults | backend/app/main.py:118-142 | results format exactly when every paper is well typed, one item per result, in order, with score and explanation |
| Server.Recommend | backend/app/main.py:104-151 | 503 when the engine is not ready; 500 when the search raises or a paper is malformed; otherwise the body's results are the engine's results formatted one by one, with the engine's meta |
| Server.NotReadyIgnoresEngine | backend/app/main.py:105-109 | when the engine is not ready the answer does not depend on the engine |
| Server.RecommendEndpoint | backend/app/main.py:92-96 | a missing query, a query outside 3 to 300 characters or a limit outside 1 to 50 gets 422; otherwise the raw query reaches the handler with limit default 5 |
| Server.AiStatus | backend/app/main.py:169 | the AI status is "ready" exactly when the engine is ready |
| Server.ResourceCheck | backend/app/main.py:181-193 | a resource check never lowers the severity, keeps critical critical, and adds one alert when the usage is high |
| Server.Assess | backend/app/main.py:172-193 | critical exactly when CPU or memory exceeds 90; healthy exactly when ready with CPU at most 70 and memory at most 80; one alert per breached check: the engine alert first, then the CPU alert, then the memory alert last, with a critical alert replacing the high one |
| Server.EngineCheck | backend/app/main.py:176-178 | a ready engine changes nothing; otherwise the status becomes degraded and the engine alert is appended after the earlier alerts |
| Server.AssessMonotone | backend/app/main.py:172-193 | more CPU or memory, or an engine that is not ready, never makes the status better |
| Server.HealthCheck | backend/app/main.py:156-205 | the response carries the assessed status and alerts, the AI status, the version and the measured resources |

## Left out

- Unicode: lower-casing is ASCII-only. Python's `str.lower` and JavaScript's `toLowerCase` map other scripts too. String lengths count code points, while JavaScript's `.length` counts UTF-16 units.
- `localeCompare` is an abstract comparison `titleCompare`. It is assumed to be a total preorder, because locale collation is not part of this model.
- Floating point: scores, CPU and memory percentages are exact reals. `Math.round` and `int()` are modelled on reals. The `memory_gb` rounding is a plain parameter.
- `new Date(...)` parsing is a parameter `parseYear`. The current year is a parameter read once.
- The 1000 ms delay, React batching and overlapping `handleSearch` calls are left out. `Session` runs one search at a time and blocks a second while one is in flight, as the search box does.
- I/O: `localStorage`, `matchMedia`, `window.scrollTo`, the axios client and its base URL, and `psutil` are left out. Their values become parameters.
- The search engine (`logic.py`, `ai_core.py`) is not part of this model. `/recommend` takes it as a function parameter `search` that either raises or returns results and meta.
- The logging middleware, CORS setup, lifespan start-up, the root endpoint and the settings module are left out. They hold no logic the core depends on.
- Presentation components (cards and their save toggle, header, footer, buttons, icons, styling) are left out.
- The `useDebounce` hook is left out. It is timer scheduling, and no modelled component uses it.
- The arXiv download and embedding scripts, `config.py` and the environment check are left out. They run outside the request path.
- Server.FormatResults: only the paper fields' types are checked. A result item missing `paper` or `score` or holding a non-number score (a KeyError or TypeError in the loop) is not modelled. Those also end in the 500 response.
- Server.Recommend: the `meta` value is passed through untyped. A non-dict `meta` failing `SearchResponse` validation is not modelled.
- PaperApi.AuthorsRoundTrip: stated only for a non-empty list of names without commas. `PaperApi.CommaNamesAreAmbiguous` shows why commas break it; the empty list joins to "", which splits back to `[""]`, not `[]`.
