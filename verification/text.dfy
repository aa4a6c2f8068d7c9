/** String primitives of the two runtimes the system runs on: JavaScript in the
    browser and Python on the server. Only the parts the core relies on are
    modelled: whitespace trimming, ASCII case folding, substring search and
    joining with a separator. */
module Text {

  /** Whose notion of whitespace applies. */
  datatype Runtime = JavaScript | Python

  /** Whitespace for `String.prototype.trim` (ECMAScript WhiteSpace and
      LineTerminator) and for Python's `str.strip()`/`str.split()` (`str.isspace`).
      The two agree except for U+FEFF (JavaScript only) and U+001C..U+001F, U+0085
      (Python only). */
  predicate IsSpace(rt: Runtime, c: char) {
    || ('\t' <= c <= '\r')
    || c == ' ' || c == '\U{A0}' || c == '\U{1680}'
    || ('\U{2000}' <= c <= '\U{200A}')
    || c == '\U{2028}' || c == '\U{2029}' || c == '\U{202F}' || c == '\U{205F}' || c == '\U{3000}'
    || (rt == JavaScript && c == '\U{FEFF}')
    || (rt == Python && (('\U{1C}' <= c <= '\U{1F}') || c == '\U{85}'))
  }

  predicate AllSpace(rt: Runtime, s: string) {
    forall i :: 0 <= i < |s| ==> IsSpace(rt, s[i])
  }

  /** Number of leading whitespace characters. */
  function LeadingSpace(rt: Runtime, s: string): (k: nat)
    ensures k <= |s|
    ensures forall i :: 0 <= i < k ==> IsSpace(rt, s[i])
    ensures k < |s| ==> !IsSpace(rt, s[k])
  {
    if |s| == 0 || !IsSpace(rt, s[0]) then 0 else 1 + LeadingSpace(rt, s[1..])
  }

  /** Number of trailing whitespace characters. */
  function TrailingSpace(rt: Runtime, s: string): (k: nat)
    ensures k <= |s|
    ensures forall i :: |s| - k <= i < |s| ==> IsSpace(rt, s[i])
    ensures k < |s| ==> !IsSpace(rt, s[|s| - 1 - k])
  {
    if |s| == 0 || !IsSpace(rt, s[|s| - 1]) then 0 else 1 + TrailingSpace(rt, s[..|s| - 1])
  }

  /** `s.trim()` in JavaScript, `s.strip()` in Python: the infix of `s` left after
      removing whitespace from both ends. */
  function Strip(rt: Runtime, s: string): (r: string)
    ensures |r| <= |s|
    ensures r == [] <==> AllSpace(rt, s)
    ensures r != [] ==> !IsSpace(rt, r[0]) && !IsSpace(rt, r[|r| - 1])
    ensures exists i :: 0 <= i && i + |r| <= |s| && r == s[i..i + |r|]
                        && AllSpace(rt, s[..i]) && AllSpace(rt, s[i + |r|..])
  {
    var a := LeadingSpace(rt, s);
    if a == |s| then
      assert s[..0] == [] && s[0..] == s;
      []
    else
      var b := |s| - TrailingSpace(rt, s);
      assert AllSpace(rt, s[..a]);
      assert AllSpace(rt, s[b..]);
      assert s[a..b] == s[a..a + (b - a)];
      s[a..b]
  }

  /** Stripping twice is stripping once. */
  lemma StripIdempotent(rt: Runtime, s: string)
    ensures Strip(rt, Strip(rt, s)) == Strip(rt, s)
  {
    var r := Strip(rt, s);
    if r != [] {
      assert LeadingSpace(rt, r) == 0;
      assert TrailingSpace(rt, r) == 0;
      assert r[0..|r|] == r;
    }
  }

  predicate IsAsciiUpper(c: char) {
    'A' <= c <= 'Z'
  }

  function LowerChar(c: char): (d: char)
    ensures !IsAsciiUpper(d)
    ensures !IsAsciiUpper(c) ==> d == c
    ensures IsAsciiUpper(c) ==> d as int == c as int + 32
  {
    if IsAsciiUpper(c) then (c as int + 32) as char else c
  }

  /** `toLowerCase()` / `lower()` restricted to ASCII letters. */
  function AsciiLower(s: string): (r: string)
    ensures |r| == |s|
    ensures forall i :: 0 <= i < |s| ==> r[i] == LowerChar(s[i])
  {
    seq(|s|, i requires 0 <= i < |s| => LowerChar(s[i]))
  }

  predicate NoAsciiUpper(s: string) {
    forall i :: 0 <= i < |s| ==> !IsAsciiUpper(s[i])
  }

  /** Lowercasing leaves already-lowercase text alone, so it is idempotent. */
  lemma AsciiLowerFixes(s: string)
    ensures NoAsciiUpper(AsciiLower(s))
    ensures NoAsciiUpper(s) ==> AsciiLower(s) == s
    ensures AsciiLower(AsciiLower(s)) == AsciiLower(s)
  {
  }

  predicate OccursAt(s: string, t: string, i: int) {
    0 <= i && i + |t| <= |s| && s[i..i + |t|] == t
  }

  /** `s.includes(t)` / `t in s`: `t` occurs in `s` as a contiguous block. */
  function Contains(s: string, t: string): (b: bool)
    ensures b <==> exists i :: OccursAt(s, t, i)
    decreases |s|
  {
    if |t| > |s| then false
    else if s[..|t|] == t then
      assert OccursAt(s, t, 0);
      true
    else
      assert forall i :: i >= 1 ==> (OccursAt(s, t, i) <==> OccursAt(s[1..], t, i - 1)) by {
        forall i | i >= 1 {
          OccursShift(s, t, i);
        }
      }
      var rest := Contains(s[1..], t);
      if rest then
        var i :| OccursAt(s[1..], t, i);
        assert OccursAt(s, t, i + 1);
        true
      else
        assert !OccursAt(s, t, 0);
        false
  }

  lemma OccursShift(s: string, t: string, i: int)
    requires |s| > 0 && i >= 1
    ensures OccursAt(s, t, i) <==> OccursAt(s[1..], t, i - 1)
  {
    if i + |t| <= |s| {
      assert s[1..][i - 1..i - 1 + |t|] == s[i..i + |t|];
    }
  }

  /** `parts.join(sep)` / `sep.join(parts)`. */
  function Join(parts: seq<string>, sep: string): (r: string)
    ensures |parts| == 0 ==> r == ""
    ensures |parts| == 1 ==> r == parts[0]
    ensures |parts| > 1 ==> |r| >= |parts[0]| + |sep| && r[..|parts[0]| + |sep|] == parts[0] + sep
    decreases |parts|
  {
    if |parts| == 0 then ""
    else if |parts| == 1 then parts[0]
    else parts[0] + sep + Join(parts[1..], sep)
  }

  function TotalLength(parts: seq<string>): nat {
    if |parts| == 0 then 0 else |parts[0]| + TotalLength(parts[1..])
  }

  /** A join of k parts adds exactly k - 1 separators to the parts' own text. */
  lemma {:induction false} JoinLength(parts: seq<string>, sep: string)
    requires |parts| > 0
    ensures |Join(parts, sep)| == TotalLength(parts) + (|parts| - 1) * |sep|
    decreases |parts|
  {
    if |parts| > 1 {
      JoinLength(parts[1..], sep);
    }
  }

  /** Appending a part to a non-empty list appends the separator and the part. */
  lemma {:induction false} JoinSnoc(parts: seq<string>, last: string, sep: string)
    requires |parts| > 0
    ensures Join(parts + [last], sep) == Join(parts, sep) + sep + last
    decreases |parts|
  {
    if |parts| == 1 {
      assert parts + [last] == [parts[0], last];
      assert [parts[0], last][1..] == [last];
    } else {
      assert (parts + [last])[1..] == parts[1..] + [last];
      JoinSnoc(parts[1..], last, sep);
    }
  }

  /** Every character of a join comes from a part or from a separator. */
  lemma {:induction false} JoinChars(parts: seq<string>, sep: string, c: char)
    requires c in Join(parts, sep)
    ensures c in sep || exists k :: 0 <= k < |parts| && c in parts[k]
    decreases |parts|
  {
    if |parts| > 1 {
      var rest := Join(parts[1..], sep);
      assert Join(parts, sep) == parts[0] + sep + rest;
      if c !in parts[0] && c !in sep {
        assert c in rest;
        JoinChars(parts[1..], sep, c);
        var k :| 0 <= k < |parts[1..]| && c in parts[1..][k];
        assert c in parts[k + 1];
      }
    }
  }
}
