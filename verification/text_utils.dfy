/** Query preprocessing on the server (backend/app/text_utils.py): lowercase,
    strip ASCII punctuation, split on whitespace, drop stop words, rejoin with
    single spaces. */
module TextUtils {
  import opened Text
  import Seqs

  /** The fixed stop-word list. */
  const StopWords: set<string> := {
    "a", "an", "the", "and", "or", "but", "if", "then", "else", "when",
    "at", "by", "for", "with", "about", "against", "between", "into",
    "through", "during", "before", "after", "above", "below", "to", "from",
    "up", "down", "in", "out", "on", "off", "over", "under", "again", "further"
  }

  /** Python's `string.punctuation`: the 32 printable ASCII characters that are
      neither letters, digits nor the space. */
  predicate IsPunctuation(c: char) {
    ('!' <= c <= '/') || (':' <= c <= '@') || ('[' <= c <= '`') || ('{' <= c <= '~')
  }

  /** The punctuation marks are exactly the printable ASCII characters other than
      the space, the letters and the digits. */
  lemma PunctuationCharacters()
    ensures forall c :: IsPunctuation(c) <==>
      && '!' <= c <= '~'
      && !('a' <= c <= 'z') && !('A' <= c <= 'Z') && !('0' <= c <= '9')
  {
  }

  predicate NoPunctuation(s: string) {
    forall i :: 0 <= i < |s| ==> !IsPunctuation(s[i])
  }

  function NotPunctuation(c: char): bool {
    !IsPunctuation(c)
  }

  /** `text.translate(str.maketrans("", "", string.punctuation))`. */
  function RemovePunctuation(s: string): (r: string)
    ensures NoPunctuation(r)
    ensures Seqs.IsSubseq(r, s)
    ensures forall c :: c in r <==> c in s && !IsPunctuation(c)
    ensures forall c :: multiset(r)[c] == if IsPunctuation(c) then 0 else multiset(s)[c]
  {
    var r := Seqs.Filter(s, NotPunctuation);
    Seqs.FilterSubseq(s, NotPunctuation);
    Seqs.FilterMembers(s, NotPunctuation);
    Seqs.FilterCounts(s, NotPunctuation);
    r
  }

  predicate IsWord(w: string) {
    |w| > 0 && forall i :: 0 <= i < |w| ==> !IsSpace(Python, w[i])
  }

  function NotSpace(c: char): bool {
    !IsSpace(Python, c)
  }

  /** Length of the run of non-whitespace characters that starts `s`. */
  function RunLength(s: string): (k: nat)
    ensures k <= |s|
    ensures forall i :: 0 <= i < k ==> !IsSpace(Python, s[i])
    ensures k < |s| ==> IsSpace(Python, s[k])
  {
    if |s| == 0 || IsSpace(Python, s[0]) then 0 else 1 + RunLength(s[1..])
  }

  /** `s.split()` with no separator: the maximal runs of non-whitespace. Every
      character that is not whitespace lands in exactly one word, in order, and
      only all-whitespace text has no words; `WordsSplitAtSpace`
      and `SingleWord` say where one word ends and the next begins. */
  function Words(s: string): (ws: seq<string>)
    ensures forall k :: 0 <= k < |ws| ==> IsWord(ws[k])
    ensures forall k, j :: 0 <= k < |ws| && 0 <= j < |ws[k]| ==> ws[k][j] in s
    ensures Concat(ws) == Seqs.Filter(s, NotSpace)
    ensures ws == [] <==> AllSpace(Python, s)
    decreases |s|
  {
    if |s| == 0 then []
    else if IsSpace(Python, s[0]) then
      assert AllSpace(Python, s) <==> AllSpace(Python, s[1..]) by {
        assert forall i :: 0 < i < |s| ==> s[i] == s[1..][i - 1];
      }
      Words(s[1..])
    else
      var n := RunLength(s);
      var rest := Words(s[n..]);
      assert forall k, j :: 0 <= k < |rest| && 0 <= j < |rest[k]| ==> rest[k][j] in s by {
        forall k, j | 0 <= k < |rest| && 0 <= j < |rest[k]|
          ensures rest[k][j] in s
        {
          assert rest[k][j] in s[n..];
        }
      }
      assert s == s[..n] + s[n..];
      Seqs.FilterAppend(s[..n], s[n..], NotSpace);
      Seqs.FilterKeepsAll(s[..n], NotSpace);
      assert ([s[..n]] + rest)[1..] == rest;
      [s[..n]] + rest
  }

  /** `split()` cuts at every whitespace character: the words of text with
      whitespace at some position are the words before it, then the words after. */
  lemma {:induction false} WordsSplitAtSpace(a: string, c: char, b: string)
    requires IsSpace(Python, c)
    ensures Words(a + [c] + b) == Words(a) + Words(b)
    decreases |a|
  {
    var s := a + [c] + b;
    if |a| == 0 {
      assert s[1..] == b;
    } else if IsSpace(Python, a[0]) {
      assert s[1..] == a[1..] + [c] + b;
      WordsSplitAtSpace(a[1..], c, b);
    } else {
      var m := RunLength(a);
      var n := RunLength(s);
      assert forall i :: 0 <= i < |a| ==> s[i] == a[i];
      assert s[|a|] == c;
      assert n == m;
      assert s[..n] == a[..m];
      assert s[n..] == a[m..] + [c] + b;
      WordsSplitAtSpace(a[m..], c, b);
    }
  }

  /** " ".join of words, the inverse of `Words` on lists of words. */
  function Unwords(ws: seq<string>): string {
    Join(ws, " ")
  }

  /** Splitting a single-space join of words gives the words back. */
  lemma {:induction false} WordsUnwords(ws: seq<string>)
    requires forall k :: 0 <= k < |ws| ==> IsWord(ws[k])
    ensures Words(Unwords(ws)) == ws
    decreases |ws|
  {
    if |ws| == 1 {
      RunOfWord(ws[0], "");
      assert ws[0] + "" == ws[0];
    } else if |ws| > 1 {
      var tail := " " + Unwords(ws[1..]);
      assert Unwords(ws) == ws[0] + tail;
      RunOfWord(ws[0], tail);
      assert (ws[0] + tail)[|ws[0]|..] == tail;
      assert tail[1..] == Unwords(ws[1..]);
      WordsUnwords(ws[1..]);
    }
  }

  /** A word followed by nothing or by whitespace is read as one run. */
  lemma RunOfWord(w: string, tail: string)
    requires IsWord(w)
    requires tail == [] || IsSpace(Python, tail[0])
    ensures RunLength(w + tail) == |w|
    ensures Words(w + tail) == [w] + Words(tail)
  {
    var s := w + tail;
    var n := RunLength(s);
    assert forall i :: 0 <= i < |w| ==> s[i] == w[i];
    assert tail != [] ==> s[|w|] == tail[0];
    assert n == |w|;
    assert s[..n] == w;
    assert s[n..] == tail;
  }

  /** Text as Python prints it after `" ".join`: no whitespace at either end,
      no whitespace other than the space, and never two spaces in a row. */
  predicate SingleSpaced(s: string) {
    forall i :: 0 <= i < |s| && IsSpace(Python, s[i]) ==>
      s[i] == ' ' && 0 < i < |s| - 1 && !IsSpace(Python, s[i + 1]) && !IsSpace(Python, s[i - 1])
  }

  lemma {:induction false} UnwordsSingleSpaced(ws: seq<string>)
    requires forall k :: 0 <= k < |ws| ==> IsWord(ws[k])
    ensures SingleSpaced(Unwords(ws))
    decreases |ws|
  {
    if |ws| > 1 {
      var rest := Unwords(ws[1..]);
      UnwordsSingleSpaced(ws[1..]);
      assert rest != [] && rest[0] == ws[1][0];
      assert Unwords(ws) == ws[0] + " " + rest;
      GlueSingleSpaced(ws[0], rest);
    }
  }

  /** A word, one space, then single-spaced text that starts with a word, is
      again single-spaced. */
  lemma GlueSingleSpaced(w: string, rest: string)
    requires IsWord(w) && SingleSpaced(rest)
    requires rest != [] && !IsSpace(Python, rest[0])
    ensures SingleSpaced(w + " " + rest)
  {
    var s := w + " " + rest;
    forall i | 0 <= i < |s| && IsSpace(Python, s[i])
      ensures s[i] == ' ' && 0 < i < |s| - 1 && !IsSpace(Python, s[i + 1]) && !IsSpace(Python, s[i - 1])
    {
      assert forall j :: 0 <= j < |w| ==> s[j] == w[j];
      assert i >= |w|;
      if i > |w| {
        assert s[i] == rest[i - |w| - 1];
        assert i - |w| - 1 > 0;
        assert s[i - 1] == rest[i - |w| - 2];
        assert s[i + 1] == rest[i - |w|];
      } else {
        assert s[i + 1] == rest[0];
        assert s[i - 1] == w[|w| - 1];
      }
    }
  }

  function IsKept(t: string): bool {
    t !in StopWords
  }

  /** The token pipeline of `normalize_text` for non-empty input: the words of
      the lowered text once its marks are gone. */
  function Tokens(text: string): (ts: seq<string>)
    ensures forall k :: 0 <= k < |ts| ==> IsWord(ts[k]) && NoPunctuation(ts[k]) && NoAsciiUpper(ts[k])
    ensures Concat(ts) == Seqs.Filter(RemovePunctuation(AsciiLower(text)), NotSpace)
  {
    var lowered := AsciiLower(text);
    var clean := RemovePunctuation(lowered);
    var ts := Words(clean);
    AsciiLowerFixes(text);
    assert forall k, j :: 0 <= k < |ts| && 0 <= j < |ts[k]| ==>
             !IsPunctuation(ts[k][j]) && !IsAsciiUpper(ts[k][j]) by {
      forall k, j | 0 <= k < |ts| && 0 <= j < |ts[k]|
        ensures !IsPunctuation(ts[k][j]) && !IsAsciiUpper(ts[k][j])
      {
        var c := ts[k][j];
        assert c in clean;
        assert c in lowered;
        var i :| 0 <= i < |lowered| && lowered[i] == c;
      }
    }
    ts
  }

  /** `normalize_text(text)`: the kept tokens, in order, separated by single spaces. */
  function NormalizeText(text: string): (r: string)
    ensures text == "" ==> r == ""
    ensures Words(r) == Seqs.Filter(Tokens(text), IsKept)
    ensures SingleSpaced(r)
  {
    if text == "" then ""
    else
      var kept := Seqs.Filter(Tokens(text), IsKept);
      KeptAreWords(text);
      WordsUnwords(kept);
      UnwordsSingleSpaced(kept);
      Unwords(kept)
  }

  lemma KeptAreWords(text: string)
    ensures forall k :: 0 <= k < |Seqs.Filter(Tokens(text), IsKept)| ==>
              IsWord(Seqs.Filter(Tokens(text), IsKept)[k])
  {
    var tokens := Tokens(text);
    var kept := Seqs.Filter(tokens, IsKept);
    Seqs.FilterMembers(tokens, IsKept);
    forall k | 0 <= k < |kept| ensures IsWord(kept[k]) {
      assert kept[k] in tokens;
    }
  }

  /** The output holds no ASCII capital and no ASCII punctuation. */
  lemma NormalizeClean(text: string)
    ensures NoAsciiUpper(NormalizeText(text)) && NoPunctuation(NormalizeText(text))
  {
    var r := NormalizeText(text);
    if text != "" {
      var lowered := AsciiLower(text);
      var tokens := Tokens(text);
      var kept := Seqs.Filter(tokens, IsKept);
      Seqs.FilterMembers(tokens, IsKept);
      assert r == Unwords(kept);
      forall i | 0 <= i < |r| ensures !IsAsciiUpper(r[i]) && !IsPunctuation(r[i]) {
        JoinChars(kept, " ", r[i]);
        if r[i] !in " " {
          var k :| 0 <= k < |kept| && r[i] in kept[k];
          var j :| 0 <= j < |kept[k]| && kept[k][j] == r[i];
          assert kept[k] in tokens;
          var m :| 0 <= m < |tokens| && tokens[m] == kept[k];
          assert r[i] in RemovePunctuation(lowered);
          assert r[i] in lowered;
        }
      }
    }
  }

  /** No token of the output is a stop word, and the surviving tokens keep the
      order they had in the lowercased, punctuation-free input. */
  lemma NormalizeDropsStopWords(text: string)
    ensures forall k :: 0 <= k < |Words(NormalizeText(text))| ==> Words(NormalizeText(text))[k] !in StopWords
    ensures Seqs.IsSubseq(Words(NormalizeText(text)), Tokens(text))
  {
    var ws := Words(NormalizeText(text));
    Seqs.FilterSubseq(Tokens(text), IsKept);
    forall k | 0 <= k < |ws| ensures ws[k] !in StopWords {
      assert IsKept(ws[k]);
    }
  }

  /** Normalising normalised text changes nothing. */
  lemma NormalizeIdempotent(text: string)
    ensures NormalizeText(NormalizeText(text)) == NormalizeText(text)
  {
    var r := NormalizeText(text);
    if r != "" {
      NormalizeClean(text);
      AsciiLowerFixes(r);
      KeepAll(r);
      var ws := Words(r);
      assert Tokens(r) == ws;
      Seqs.FilterKeepsAll(ws, IsKept);
      WordsUnwords(ws);
      var kept := Seqs.Filter(Tokens(text), IsKept);
      assert r == Unwords(kept);
    }
  }

  lemma KeepAll(s: string)
    requires NoPunctuation(s)
    ensures RemovePunctuation(s) == s
  {
    Seqs.FilterKeepsAll(s, NotPunctuation);
  }

  lemma DropOne(p: char)
    requires IsPunctuation(p)
    ensures RemovePunctuation([p]) == []
  {
  }

  lemma LowerWord(u: string)
    requires IsWord(u) && NoPunctuation(u)
    ensures IsWord(AsciiLower(u)) && NoPunctuation(AsciiLower(u))
  {
  }

  lemma LowerAppend(a: string, b: string)
    ensures AsciiLower(a + b) == AsciiLower(a) + AsciiLower(b)
  {
  }

  lemma RemovePunctuationGlue(lu: string, p: char, lv: string)
    requires NoPunctuation(lu) && NoPunctuation(lv) && IsPunctuation(p)
    ensures RemovePunctuation(lu + [p] + lv) == lu + lv
  {
    Seqs.FilterAppend(lu + [p], lv, NotPunctuation);
    Seqs.FilterAppend(lu, [p], NotPunctuation);
    KeepAll(lu);
    KeepAll(lv);
    DropOne(p);
    assert lu + [] == lu;
  }

  /** Punctuation is removed before splitting: two words joined by a punctuation
      mark ("state-of") become a single token ("stateof"). */
  lemma PunctuationGluesWords(u: string, p: char, v: string)
    requires IsWord(u) && NoPunctuation(u) && IsWord(v) && NoPunctuation(v) && IsPunctuation(p)
    ensures Tokens(u + [p] + v) == [AsciiLower(u) + AsciiLower(v)]
  {
    LowerGlue(u, p, v);
    LowerWord(u);
    LowerWord(v);
    var lu, lv := AsciiLower(u), AsciiLower(v);
    RemovePunctuationGlue(lu, p, lv);
    SingleWord(lu + lv);
  }

  lemma LowerGlue(u: string, p: char, v: string)
    requires IsPunctuation(p)
    ensures AsciiLower(u + [p] + v) == AsciiLower(u) + [p] + AsciiLower(v)
  {
    LowerAppend(u + [p], v);
    LowerAppend(u, [p]);
    assert AsciiLower([p]) == [p];
  }

  /** A lone word splits into itself. */
  lemma SingleWord(w: string)
    requires IsWord(w)
    ensures Words(w) == [w]
  {
    RunOfWord(w, "");
    assert w + "" == w;
  }

  /** "the," is a stop word once its comma is gone. */
  lemma StopWordWithComma()
    ensures NormalizeText("the,") == ""
  {
    LowercaseLetters("the");
    StopWordWithMark("the", ',');
    assert "the" + [','] == "the,";
  }

  /** A stop word followed by one punctuation mark normalises to nothing. */
  lemma StopWordWithMark(w: string, p: char)
    requires IsWord(w) && NoPunctuation(w) && NoAsciiUpper(w) && IsPunctuation(p)
    requires w in StopWords
    ensures NormalizeText(w + [p]) == ""
  {
    TrailingPunctuationIgnored(w, p);
    AsciiLowerFixes(w);
    var kept := Seqs.Filter(Tokens(w), IsKept);
    assert kept == [] by {
      assert Tokens(w) == [w];
      assert !IsKept(w);
    }
    assert NormalizeText(w) == Unwords(kept);
  }

  /** Words written together with nothing in between. */
  function Concat(ws: seq<string>): string {
    if |ws| == 0 then "" else ws[0] + Concat(ws[1..])
  }

  /** Removing the marks of a compound joined by one punctuation mark leaves its
      parts run together, which is again a word. */
  lemma {:induction false} RemovePunctuationJoin(ws: seq<string>, p: char)
    requires |ws| > 0 && IsPunctuation(p)
    requires forall k :: 0 <= k < |ws| ==> IsWord(ws[k]) && NoPunctuation(ws[k])
    ensures RemovePunctuation(Join(ws, [p])) == Concat(ws)
    ensures IsWord(Concat(ws))
    decreases |ws|
  {
    if |ws| == 1 {
      KeepAll(ws[0]);
      assert Concat(ws) == ws[0] + "";
    } else {
      var rest := Join(ws[1..], [p]);
      RemovePunctuationJoin(ws[1..], p);
      assert Join(ws, [p]) == (ws[0] + [p]) + rest;
      Seqs.FilterAppend(ws[0] + [p], rest, NotPunctuation);
      RemoveTrailingMark(ws[0], p);
      var c := Concat(ws);
      assert c == ws[0] + Concat(ws[1..]);
      forall i | 0 <= i < |c| ensures !IsSpace(Python, c[i]) {
        if i >= |ws[0]| {
          assert c[i] == Concat(ws[1..])[i - |ws[0]|];
        }
      }
    }
  }

  /** A compound such as "state-of-the-art", lower-case words joined by one
      punctuation mark, is a single token: the parts run together. */
  lemma CompoundIsOneToken(ws: seq<string>, p: char)
    requires |ws| > 0 && IsPunctuation(p)
    requires forall k :: 0 <= k < |ws| ==> IsWord(ws[k]) && NoPunctuation(ws[k]) && NoAsciiUpper(ws[k])
    ensures Tokens(Join(ws, [p])) == [Concat(ws)]
  {
    var j := Join(ws, [p]);
    JoinNoUpper(ws, p);
    AsciiLowerFixes(j);
    assert AsciiLower(j) == j;
    RemovePunctuationJoin(ws, p);
    SingleWord(Concat(ws));
  }

  /** Joining lower-case words with a punctuation mark adds no upper-case letter. */
  lemma JoinNoUpper(ws: seq<string>, p: char)
    requires IsPunctuation(p)
    requires forall k :: 0 <= k < |ws| ==> NoAsciiUpper(ws[k])
    ensures NoAsciiUpper(Join(ws, [p]))
  {
    var j := Join(ws, [p]);
    forall i | 0 <= i < |j| ensures !IsAsciiUpper(j[i]) {
      JoinChars(ws, [p], j[i]);
      if j[i] !in [p] {
        var k :| 0 <= k < |ws| && j[i] in ws[k];
        var n :| 0 <= n < |ws[k]| && ws[k][n] == j[i];
      }
    }
  }

  /** "state-of-the-art" is a single token. */
  lemma HyphenatedTerm()
    ensures Tokens("state-of-the-art") == ["stateoftheart"]
  {
    var ws := ["state", "of", "the", "art"];
    LowercaseLetters(ws[0]);
    LowercaseLetters(ws[1]);
    LowercaseLetters(ws[2]);
    LowercaseLetters(ws[3]);
    CompoundIsOneToken(ws, '-');
    StateOfTheArtJoin();
    StateOfTheArtConcat();
  }

  /** The parts of "state-of-the-art", joined by the hyphen. */
  lemma StateOfTheArtJoin()
    ensures Join(["state", "of", "the", "art"], "-") == "state-of-the-art"
  {
    var ws := ["state", "of", "the", "art"];
    assert Join(ws[2..], "-") == "the-art" by {
      assert ws[2..][1..] == ws[3..];
      assert Join(ws[3..], "-") == "art";
    }
    assert Join(ws[1..], "-") == "of-the-art" by {
      assert ws[1..][1..] == ws[2..];
    }
  }

  /** The parts of "state-of-the-art", run together. */
  lemma StateOfTheArtConcat()
    ensures Concat(["state", "of", "the", "art"]) == "stateoftheart"
  {
    var ws := ["state", "of", "the", "art"];
    assert Concat(ws[2..]) == "theart" by {
      assert Concat(ws[3..]) == "art";
    }
    assert Concat(ws[1..]) == "oftheart";
  }

  /** A non-empty run of lower-case ASCII letters is a clean word. */
  lemma LowercaseLetters(w: string)
    requires |w| > 0 && forall i :: 0 <= i < |w| ==> 'a' <= w[i] <= 'z'
    ensures IsWord(w) && NoPunctuation(w) && NoAsciiUpper(w)
  {
  }

  lemma RemoveTrailingMark(w: string, p: char)
    requires NoPunctuation(w) && IsPunctuation(p)
    ensures RemovePunctuation(w + [p]) == w
  {
    RemovePunctuationGlue(w, p, "");
    assert w + [p] + "" == w + [p];
    assert w + "" == w;
  }

  /** A word with a punctuation mark glued to its end ("the,") normalises like the
      bare word, so a stop word followed by a comma is still dropped. */
  lemma TrailingPunctuationIgnored(w: string, p: char)
    requires IsWord(w) && NoPunctuation(w) && IsPunctuation(p)
    ensures Tokens(w + [p]) == Tokens(w) == [AsciiLower(w)]
    ensures NormalizeText(w + [p]) == NormalizeText(w)
  {
    LowerAppend(w, [p]);
    assert AsciiLower([p]) == [p];
    LowerWord(w);
    var lw := AsciiLower(w);
    RemovePunctuationGlue(lw, p, "");
    assert lw + [p] + "" == lw + [p];
    assert lw + "" == lw;
    KeepAll(lw);
    RunOfWord(lw, "");
  }
}
