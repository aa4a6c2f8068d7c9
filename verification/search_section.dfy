/** The search box, its button, the Enter key and the example-query tags
    (frontend/src/components/features/SearchSection.tsx). */
module SearchSection {
  import opened Options
  import opened Text

  const ExampleQueries: seq<string> := [
    "machine learning for healthcare",
    "climate change prediction models",
    "natural language processing in education",
    "quantum computing algorithms"
  ]

  /** The component's own state: the text in the box. */
  datatype Box = Box(query: string)

  /** Typing into the box (`onChange`). */
  function Edit(box: Box, text: string): (b: Box)
    ensures b.query == text
  {
    Box(text)
  }

  /** The button's `handleSearch`: forwards the query, untrimmed, when it has
      non-whitespace content and no search is running. */
  function SubmitQuery(box: Box, isSearching: bool): (forwarded: Option<string>)
    ensures forwarded.Some? <==> Strip(JavaScript, box.query) != "" && !isSearching
    ensures forwarded.Some? ==> forwarded.value == box.query
  {
    if Strip(JavaScript, box.query) != "" && !isSearching then Some(box.query) else None
  }

  /** `handleKeyDown`: Enter behaves like the button, every other key does nothing. */
  function KeyDown(box: Box, key: string, isSearching: bool): (forwarded: Option<string>)
    ensures key == "Enter" ==> forwarded == SubmitQuery(box, isSearching)
    ensures key != "Enter" ==> forwarded == None
  {
    if key == "Enter" then SubmitQuery(box, isSearching) else None
  }

  /** `handleTagClick`: while idle, puts the tag in the box and forwards it as is;
      while searching, changes nothing. */
  function TagClick(box: Box, tag: string, isSearching: bool): (r: (Box, Option<string>))
    ensures isSearching ==> r == (box, None)
    ensures !isSearching ==> r.0.query == tag && r.1 == Some(tag)
  {
    if isSearching then (box, None) else (Box(tag), Some(tag))
  }

  /** Text with no whitespace at either end is its own trim. */
  lemma StripUnpadded(s: string)
    requires |s| > 0 && !IsSpace(JavaScript, s[0]) && !IsSpace(JavaScript, s[|s| - 1])
    ensures Strip(JavaScript, s) == s
  {
    assert LeadingSpace(JavaScript, s) == 0;
    assert TrailingSpace(JavaScript, s) == 0;
    assert s[0..|s|] == s;
  }

  /** Every example query passes the results page's three-character minimum. */
  lemma ExampleQueriesAreLongEnough()
    ensures forall i :: 0 <= i < |ExampleQueries| ==> |Strip(JavaScript, ExampleQueries[i])| >= 3
  {
    forall i | 0 <= i < |ExampleQueries|
      ensures |Strip(JavaScript, ExampleQueries[i])| >= 3
    {
      var q := ExampleQueries[i];
      assert |q| >= 3 && q[0] != ' ' && q[|q| - 1] != ' ';
      StripUnpadded(q);
    }
  }
}
