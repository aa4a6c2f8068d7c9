/** Stable sorting, as `Array.prototype.sort` with a comparator does it since
    ECMAScript 2019, and the four sort orders of the results page. */
module Sorting {
  import opened Papers

  // ---------------------------------------------------------------------------
  // A stable sort over any "may precede" relation
  // ---------------------------------------------------------------------------

  /** `le(a, b)` holds when the comparator allows `a` before `b` (`cmp(a, b) <= 0`).
      A consistent comparator makes this a total preorder. */
  ghost predicate TotalPreorder<T(!new)>(le: (T, T) -> bool) {
    && (forall a, b :: le(a, b) || le(b, a))
    && (forall a, b, c :: le(a, b) && le(b, c) ==> le(a, c))
  }

  predicate Sorted<T>(xs: seq<T>, le: (T, T) -> bool) {
    forall i, j :: 0 <= i < j < |xs| ==> le(xs[i], xs[j])
  }

  /** The elements of `xs` that compare equal to `x`, in order. Stability means a
      sort leaves this subsequence alone for every `x`. */
  function Ties<T>(xs: seq<T>, le: (T, T) -> bool, x: T): seq<T> {
    if |xs| == 0 then [] else TieOf(xs[0], le, x) + Ties(xs[1..], le, x)
  }

  function TieOf<T>(z: T, le: (T, T) -> bool, x: T): seq<T> {
    if le(x, z) && le(z, x) then [z] else []
  }

  /** Places `x` before the first element it may precede. */
  function Insert<T>(x: T, s: seq<T>, le: (T, T) -> bool): (r: seq<T>)
    ensures multiset(r) == multiset(s) + multiset{x}
  {
    if |s| == 0 then [x]
    else if le(x, s[0]) then [x] + s
    else
      assert s == [s[0]] + s[1..];
      [s[0]] + Insert(x, s[1..], le)
  }

  /** Insertion sort from the back: each element goes in front of the elements
      after it that it may precede, so equal elements keep their input order. */
  function StableSort<T>(xs: seq<T>, le: (T, T) -> bool): (r: seq<T>)
    ensures multiset(r) == multiset(xs)
  {
    if |xs| == 0 then []
    else
      assert xs == [xs[0]] + xs[1..];
      Insert(xs[0], StableSort(xs[1..], le), le)
  }

  lemma {:induction false} InsertSorted<T(!new)>(x: T, s: seq<T>, le: (T, T) -> bool)
    requires TotalPreorder(le) && Sorted(s, le)
    ensures Sorted(Insert(x, s, le), le)
    decreases |s|
  {
    if |s| > 0 && !le(x, s[0]) {
      var rest := Insert(x, s[1..], le);
      InsertSorted(x, s[1..], le);
      assert forall y :: y in rest ==> y == x || y in s[1..] by {
        forall y | y in rest ensures y == x || y in s[1..] {
          assert y in multiset(rest);
        }
      }
      assert forall j :: 0 <= j < |rest| ==> le(s[0], rest[j]) by {
        forall j | 0 <= j < |rest| ensures le(s[0], rest[j]) {
          assert rest[j] in rest;
          if rest[j] != x {
            var k :| 0 <= k < |s[1..]| && s[1..][k] == rest[j];
            assert s[k + 1] == rest[j];
          }
        }
      }
      var r := [s[0]] + rest;
      forall i, j | 0 <= i < j < |r| ensures le(r[i], r[j]) {
        if i == 0 {
          assert r[j] == rest[j - 1];
        } else {
          assert r[i] == rest[i - 1] && r[j] == rest[j - 1];
        }
      }
    }
  }

  /** The result of the sort is ordered. */
  lemma {:induction false} StableSortSorted<T(!new)>(xs: seq<T>, le: (T, T) -> bool)
    requires TotalPreorder(le)
    ensures Sorted(StableSort(xs, le), le)
    decreases |xs|
  {
    if |xs| > 0 {
      StableSortSorted(xs[1..], le);
      InsertSorted(xs[0], StableSort(xs[1..], le), le);
    }
  }

  lemma TiesAppend<T>(a: seq<T>, b: seq<T>, le: (T, T) -> bool, x: T)
    ensures Ties(a + b, le, x) == Ties(a, le, x) + Ties(b, le, x)
    decreases |a|
  {
    if |a| > 0 {
      assert (a + b)[1..] == a[1..] + b;
      TiesAppend(a[1..], b, le, x);
    } else {
      assert a + b == b;
    }
  }

  /** Inserting `y` keeps every tie class in the order it has in `[y] + s`. */
  lemma {:induction false} InsertTies<T(!new)>(y: T, s: seq<T>, le: (T, T) -> bool, x: T)
    requires TotalPreorder(le)
    ensures Ties(Insert(y, s, le), le, x) == Ties([y] + s, le, x)
    decreases |s|
  {
    if |s| > 0 && !le(y, s[0]) {
      var r := Insert(y, s[1..], le);
      InsertTies(y, s[1..], le, x);
      TiesCons(s[0], r, le, x);
      TiesCons(y, s[1..], le, x);
      TiesCons(y, s, le, x);
      TiesCons(s[0], s[1..], le, x);
      assert s == [s[0]] + s[1..];
      // y may not precede s[0], so by transitivity they are not both tied with x
      NotBothTied(y, s[0], le, x);
      SwapPastEmpty(TieOf(s[0], le, x), TieOf(y, le, x), Ties(s[1..], le, x));
    }
  }

  lemma SwapPastEmpty<T>(a: seq<T>, b: seq<T>, rest: seq<T>)
    requires a == [] || b == []
    ensures a + (b + rest) == b + (a + rest)
  {
    if b == [] {
      assert b + rest == rest;
    } else {
      assert a + rest == rest;
    }
  }

  lemma NotBothTied<T(!new)>(y: T, z: T, le: (T, T) -> bool, x: T)
    requires TotalPreorder(le) && !le(y, z)
    ensures TieOf(y, le, x) == [] || TieOf(z, le, x) == []
  {
  }

  lemma TiesCons<T>(z: T, r: seq<T>, le: (T, T) -> bool, x: T)
    ensures Ties([z] + r, le, x) == TieOf(z, le, x) + Ties(r, le, x)
  {
    assert ([z] + r)[1..] == r;
  }

  /** Stability: for every `x`, the elements tied with `x` appear in the output in
      the same order as in the input. */
  lemma {:induction false} StableSortTies<T(!new)>(xs: seq<T>, le: (T, T) -> bool, x: T)
    requires TotalPreorder(le)
    ensures Ties(StableSort(xs, le), le, x) == Ties(xs, le, x)
    decreases |xs|
  {
    if |xs| > 0 {
      StableSortTies(xs[1..], le, x);
      InsertTies(xs[0], StableSort(xs[1..], le), le, x);
      TiesAppend([xs[0]], StableSort(xs[1..], le), le, x);
      TiesAppend([xs[0]], xs[1..], le, x);
      assert xs == [xs[0]] + xs[1..];
    }
  }

  /** Sorting an ordered sequence returns it unchanged. */
  lemma {:induction false} SortedIsFixed<T>(xs: seq<T>, le: (T, T) -> bool)
    requires Sorted(xs, le)
    ensures StableSort(xs, le) == xs
    decreases |xs|
  {
    if |xs| > 0 {
      assert Sorted(xs[1..], le) by {
        forall i, j | 0 <= i < j < |xs[1..]| ensures le(xs[1..][i], xs[1..][j]) {
          assert xs[1..][i] == xs[i + 1] && xs[1..][j] == xs[j + 1];
        }
      }
      SortedIsFixed(xs[1..], le);
      assert xs == [xs[0]] + xs[1..];
      if |xs| > 1 {
        assert le(xs[0], xs[1]);
      }
    }
  }

  /** Sorting twice is sorting once. */
  lemma StableSortIdempotent<T(!new)>(xs: seq<T>, le: (T, T) -> bool)
    requires TotalPreorder(le)
    ensures StableSort(StableSort(xs, le), le) == StableSort(xs, le)
  {
    StableSortSorted(xs, le);
    SortedIsFixed(StableSort(xs, le), le);
  }

  lemma SortedTail<T>(a: seq<T>, le: (T, T) -> bool)
    requires |a| > 0 && Sorted(a, le)
    ensures Sorted(a[1..], le)
  {
    forall p, q | 0 <= p < q < |a[1..]| ensures le(a[1..][p], a[1..][q]) {
      assert a[1..][p] == a[p + 1] && a[1..][q] == a[q + 1];
    }
  }

  /** In a sorted sequence the head may precede every element. */
  lemma HeadPrecedes<T(!new)>(a: seq<T>, le: (T, T) -> bool, y: T)
    requires TotalPreorder(le) && Sorted(a, le) && y in a
    ensures le(a[0], y)
  {
    var i :| 0 <= i < |a| && a[i] == y;
    if i == 0 {
      assert le(y, y) || le(y, y);
    }
  }

  /** Two sorted permutations with the same tie classes start with the same element. */
  lemma SameHead<T(!new)>(a: seq<T>, b: seq<T>, le: (T, T) -> bool)
    requires TotalPreorder(le) && Sorted(a, le) && Sorted(b, le)
    requires |a| > 0 && multiset(a) == multiset(b)
    requires Ties(a, le, a[0]) == Ties(b, le, a[0])
    ensures |b| > 0 && a[0] == b[0]
  {
    var x := a[0];
    assert x in multiset(b);
    assert b[0] in multiset(a);
    HeadPrecedes(a, le, b[0]);
    HeadPrecedes(b, le, x);
    HeadOfTies(a, le, x);
    HeadOfTies(b, le, x);
  }

  lemma HeadOfTies<T(!new)>(a: seq<T>, le: (T, T) -> bool, x: T)
    requires TotalPreorder(le) && |a| > 0 && le(x, a[0]) && le(a[0], x)
    ensures |Ties(a, le, x)| > 0 && Ties(a, le, x)[0] == a[0]
  {
    TiesCons(a[0], a[1..], le, x);
    assert a == [a[0]] + a[1..];
  }

  /** Two ordered permutations of one another with the same tie classes, in the
      same order, are equal: a stable sort has exactly one possible result. */
  lemma {:induction false} StableOrderUnique<T(!new)>(a: seq<T>, b: seq<T>, le: (T, T) -> bool)
    requires TotalPreorder(le)
    requires Sorted(a, le) && Sorted(b, le)
    requires multiset(a) == multiset(b)
    requires forall x :: Ties(a, le, x) == Ties(b, le, x)
    ensures a == b
    decreases |a|
  {
    if |a| > 0 {
      SameHead(a, b, le);
      TailMultiset(a, b);
      SortedTail(a, le);
      SortedTail(b, le);
      forall y ensures Ties(a[1..], le, y) == Ties(b[1..], le, y) {
        TailTies(a, b, le, y);
      }
      StableOrderUnique(a[1..], b[1..], le);
    } else {
      assert |b| == |multiset(b)| == |multiset(a)| == 0;
    }
  }

  lemma TailMultiset<T>(a: seq<T>, b: seq<T>)
    requires |a| > 0 && |b| > 0 && a[0] == b[0] && multiset(a) == multiset(b)
    ensures multiset(a[1..]) == multiset(b[1..])
  {
    assert a == [a[0]] + a[1..] && b == [b[0]] + b[1..];
    assert multiset(a[1..]) == multiset(a) - multiset{a[0]};
    assert multiset(b[1..]) == multiset(b) - multiset{b[0]};
  }

  /** Dropping a common head keeps the tie classes equal. */
  lemma TailTies<T>(a: seq<T>, b: seq<T>, le: (T, T) -> bool, y: T)
    requires |a| > 0 && |b| > 0 && a[0] == b[0] && Ties(a, le, y) == Ties(b, le, y)
    ensures Ties(a[1..], le, y) == Ties(b[1..], le, y)
  {
    TiesCons(a[0], a[1..], le, y);
    TiesCons(b[0], b[1..], le, y);
    assert a == [a[0]] + a[1..] && b == [b[0]] + b[1..];
    var t := TieOf(a[0], le, y);
    assert Ties(a[1..], le, y) == (t + Ties(a[1..], le, y))[|t|..];
    assert Ties(b[1..], le, y) == (t + Ties(b[1..], le, y))[|t|..];
  }

  // ---------------------------------------------------------------------------
  // The results page's sort orders
  // ---------------------------------------------------------------------------

  datatype SortKey = Relevance | DateNewest | DateOldest | TitleAZ

  /** The `switch (sortBy)` of the results page: three labels select their order,
      every other string (including "Relevance") selects relevance. */
  function KeyOf(sortBy: string): (k: SortKey)
    ensures k == DateNewest <==> sortBy == "Date (Newest)"
    ensures k == DateOldest <==> sortBy == "Date (Oldest)"
    ensures k == TitleAZ <==> sortBy == "Title (A-Z)"
    ensures k == Relevance <==> sortBy !in {"Date (Newest)", "Date (Oldest)", "Title (A-Z)"}
  {
    if sortBy == "Date (Newest)" then DateNewest
    else if sortBy == "Date (Oldest)" then DateOldest
    else if sortBy == "Title (A-Z)" then TitleAZ
    else Relevance
  }

  /** The comparator passed to `sort` for each key; titles are compared with the
      caller-supplied `titleCompare`, standing for `String.prototype.localeCompare`. */
  function Compare(k: SortKey, titleCompare: (string, string) -> int, a: Paper, b: Paper): (r: int)
    ensures k == DateNewest ==> (r < 0 <==> a.year > b.year) && (r == 0 <==> a.year == b.year)
    ensures k == DateOldest ==> (r < 0 <==> a.year < b.year) && (r == 0 <==> a.year == b.year)
    ensures k == Relevance ==>
              (r < 0 <==> a.relevanceScore > b.relevanceScore) && (r == 0 <==> a.relevanceScore == b.relevanceScore)
    ensures k == TitleAZ ==> r == titleCompare(a.title, b.title)
  {
    match k
    case DateNewest => b.year - a.year
    case DateOldest => a.year - b.year
    case TitleAZ => titleCompare(a.title, b.title)
    case Relevance => b.relevanceScore - a.relevanceScore
  }

  /** `a` may stay before `b`: newer first, older first, by title, or higher score first. */
  function Precedes(k: SortKey, titleCompare: (string, string) -> int): (le: (Paper, Paper) -> bool)
    ensures k == DateNewest ==> forall a, b :: le(a, b) <==> a.year >= b.year
    ensures k == DateOldest ==> forall a, b :: le(a, b) <==> a.year <= b.year
    ensures k == TitleAZ ==> forall a, b :: le(a, b) <==> titleCompare(a.title, b.title) <= 0
    ensures k == Relevance ==> forall a, b :: le(a, b) <==> a.relevanceScore >= b.relevanceScore
  {
    (a: Paper, b: Paper) => Compare(k, titleCompare, a, b) <= 0
  }

  /** What the model assumes of `localeCompare`: it orders strings consistently. */
  ghost predicate ConsistentTitleOrder(titleCompare: (string, string) -> int) {
    TotalPreorder((s: string, t: string) => titleCompare(s, t) <= 0)
  }

  lemma PrecedesIsPreorder(k: SortKey, titleCompare: (string, string) -> int)
    requires ConsistentTitleOrder(titleCompare)
    ensures TotalPreorder(Precedes(k, titleCompare))
  {
    var le := Precedes(k, titleCompare);
    var tle := (s: string, t: string) => titleCompare(s, t) <= 0;
    if k == TitleAZ {
      forall a: Paper, b: Paper ensures le(a, b) || le(b, a) {
        assert tle(a.title, b.title) || tle(b.title, a.title);
      }
      forall a: Paper, b: Paper, c: Paper | le(a, b) && le(b, c) ensures le(a, c) {
        assert tle(a.title, b.title) && tle(b.title, c.title);
      }
    }
  }

  /** `sortedResults`: a sorted copy of the results, by the order `sortBy` names. */
  function SortResults(results: seq<Paper>, sortBy: string, titleCompare: (string, string) -> int): (r: seq<Paper>)
    requires ConsistentTitleOrder(titleCompare)
    ensures multiset(r) == multiset(results)
    ensures KeyOf(sortBy) == DateNewest ==> forall i, j :: 0 <= i < j < |r| ==> r[i].year >= r[j].year
    ensures KeyOf(sortBy) == DateOldest ==> forall i, j :: 0 <= i < j < |r| ==> r[i].year <= r[j].year
    ensures KeyOf(sortBy) == TitleAZ ==> forall i, j :: 0 <= i < j < |r| ==> titleCompare(r[i].title, r[j].title) <= 0
    ensures KeyOf(sortBy) == Relevance ==>
              forall i, j :: 0 <= i < j < |r| ==> r[i].relevanceScore >= r[j].relevanceScore
  {
    var k := KeyOf(sortBy);
    PrecedesIsPreorder(k, titleCompare);
    StableSortSorted(results, Precedes(k, titleCompare));
    StableSort(results, Precedes(k, titleCompare))
  }

  /** The sort is stable, idempotent, and the only ordered, tie-preserving
      permutation of its input. */
  lemma SortResultsStable(results: seq<Paper>, sortBy: string, titleCompare: (string, string) -> int, x: Paper)
    requires ConsistentTitleOrder(titleCompare)
    ensures Ties(SortResults(results, sortBy, titleCompare), Precedes(KeyOf(sortBy), titleCompare), x)
         == Ties(results, Precedes(KeyOf(sortBy), titleCompare), x)
    ensures SortResults(SortResults(results, sortBy, titleCompare), sortBy, titleCompare)
         == SortResults(results, sortBy, titleCompare)
  {
    var le := Precedes(KeyOf(sortBy), titleCompare);
    PrecedesIsPreorder(KeyOf(sortBy), titleCompare);
    StableSortTies(results, le, x);
    StableSortIdempotent(results, le);
  }

  lemma SortResultsUnique(results: seq<Paper>, sortBy: string, titleCompare: (string, string) -> int, r: seq<Paper>)
    requires ConsistentTitleOrder(titleCompare)
    requires multiset(r) == multiset(results)
    requires Sorted(r, Precedes(KeyOf(sortBy), titleCompare))
    requires forall x :: Ties(r, Precedes(KeyOf(sortBy), titleCompare), x)
                      == Ties(results, Precedes(KeyOf(sortBy), titleCompare), x)
    ensures r == SortResults(results, sortBy, titleCompare)
  {
    var le := Precedes(KeyOf(sortBy), titleCompare);
    PrecedesIsPreorder(KeyOf(sortBy), titleCompare);
    var s := SortResults(results, sortBy, titleCompare);
    StableSortSorted(results, le);
    forall x ensures Ties(r, le, x) == Ties(s, le, x) {
      StableSortTies(results, le, x);
    }
    StableOrderUnique(r, s, le);
  }
}
