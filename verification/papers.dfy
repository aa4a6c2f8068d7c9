/** The paper record the user interface works with (`Paper` in
    frontend/src/pages/SearchPage.tsx and `UIPaper` in frontend/src/api/papers.ts). */
module Papers {

  /** The mock dataset numbers its papers; papers from the server carry arXiv ids. */
  datatype PaperId = NumericId(n: int) | TextId(s: string)

  datatype Paper = Paper(
    id: PaperId,
    title: string,
    authors: string,
    year: int,
    abstractText: string,
    relevanceScore: int
  )
}
