/**
 * The pieces of Python's `str` that the feed generators rely on: `isspace`,
 * `strip`, `split`, `join`, whitespace `split()`, `lower`, `title`, `in`
 * and `startswith`.
 */
module Strings {
  import opened Options

  /** Python's `str.isspace()` for one character: the characters `split()`, `strip()` and `\s` treat as whitespace. */
  predicate IsSpace(c: char) {
    ('\t' <= c <= '\r') || ('\U{1C}' <= c <= '\U{1F}') || c == ' ' || c == '\U{85}' || c == '\U{A0}'
    || c == '\U{1680}' || ('\U{2000}' <= c <= '\U{200A}') || c == '\U{2028}' || c == '\U{2029}'
    || c == '\U{202F}' || c == '\U{205F}' || c == '\U{3000}'
  }

  predicate AllSatisfy(s: string, p: char -> bool) {
    forall i :: 0 <= i < |s| ==> p(s[i])
  }

  /** How many leading characters of `s` satisfy `drop`. */
  function LeadingRun(s: string, drop: char -> bool): (n: nat)
    ensures n <= |s| && forall i :: 0 <= i < n ==> drop(s[i])
    ensures n == |s| || !drop(s[n])
  {
    if s == [] || !drop(s[0]) then 0 else 1 + LeadingRun(s[1..], drop)
  }

  /** How many trailing characters of `s` satisfy `drop`. */
  function TrailingRun(s: string, drop: char -> bool): (n: nat)
    ensures n <= |s| && forall i :: |s| - n <= i < |s| ==> drop(s[i])
    ensures n == |s| || !drop(s[|s| - n - 1])
  {
    if s == [] || !drop(s[|s| - 1]) then 0 else 1 + TrailingRun(s[..|s| - 1], drop)
  }

  /**
   * Python's `s.strip(chars)`: what is left once the characters satisfying
   * `drop` are removed from the start and then from the end.
   */
  function Trim(s: string, drop: char -> bool): (r: string)
    ensures r == [] || (!drop(r[0]) && !drop(r[|r| - 1]))
    ensures |r| <= |s|
  {
    var t := s[LeadingRun(s, drop)..];
    t[..|t| - TrailingRun(t, drop)]
  }

  /** What `Trim` removes is a prefix and a suffix made only of characters satisfying `drop`. */
  lemma TrimRemovesOnlyEnds(s: string, drop: char -> bool, k: nat)
    requires k == LeadingRun(s, drop)
    ensures k + |Trim(s, drop)| <= |s| && s[k..k + |Trim(s, drop)|] == Trim(s, drop)
    ensures AllSatisfy(s[..k], drop) && AllSatisfy(s[k + |Trim(s, drop)|..], drop)
  {
    var t := s[k..];
    var m := |t| - TrailingRun(t, drop);
    assert Trim(s, drop) == t[..m];
    assert s[k..k + m] == t[..m];
    assert forall i :: k + m <= i < |s| ==> s[i] == t[i - k];
  }

  /** Python's `s.strip()`. */
  function Strip(s: string): string {
    Trim(s, IsSpace)
  }

  lemma {:induction false} TrimUnchanged(s: string, drop: char -> bool)
    requires s == [] || (!drop(s[0]) && !drop(s[|s| - 1]))
    ensures Trim(s, drop) == s
  {
    assert LeadingRun(s, drop) == 0 && TrailingRun(s, drop) == 0;
    assert s[0..] == s && s[..|s|] == s;
  }

  /** Stripping twice strips no more than once. */
  lemma StripIdempotent(s: string)
    ensures Strip(Strip(s)) == Strip(s)
  {
    TrimUnchanged(Strip(s), IsSpace);
  }

  /** The position of the first `c` in `s`. */
  function IndexOfChar(s: string, c: char): (i: nat)
    requires c in s
    ensures i < |s| && s[i] == c && c !in s[..i]
  {
    if s[0] == c then 0 else 1 + IndexOfChar(s[1..], c)
  }

  lemma {:induction false} IndexOfCharAfter(a: string, b: string, c: char)
    requires c !in a && c in b
    ensures c in a + b && IndexOfChar(a + b, c) == |a| + IndexOfChar(b, c)
  {
    assert (a + b)[|a| + IndexOfChar(b, c)] == c;
    if a != [] {
      assert (a + b)[1..] == a[1..] + b;
      IndexOfCharAfter(a[1..], b, c);
    }
  }

  /** Python's `s.split(sep)` for a one-character separator. */
  function Split(s: string, sep: char): (parts: seq<string>)
    ensures |parts| >= 1
    ensures forall p :: p in parts ==> sep !in p
    decreases |s|
  {
    if sep !in s then [s]
    else
      var i := IndexOfChar(s, sep);
      [s[..i]] + Split(s[i + 1..], sep)
  }

  /** Python's `sep.join(parts)`. */
  function Join(parts: seq<string>, sep: string): string {
    if |parts| == 0 then []
    else if |parts| == 1 then parts[0]
    else parts[0] + sep + Join(parts[1..], sep)
  }

  /** Splitting and joining back with the same separator gives the original string. */
  lemma {:induction false} JoinSplit(s: string, sep: char)
    ensures Join(Split(s, sep), [sep]) == s
    decreases |s|
  {
    if sep in s {
      var i := IndexOfChar(s, sep);
      JoinSplit(s[i + 1..], sep);
      var rest := Split(s[i + 1..], sep);
      assert Split(s, sep)[1..] == rest;
      assert s == s[..i] + [sep] + s[i + 1..];
    }
  }

  /** Joining separator-free parts and splitting again gives the parts back. */
  lemma {:induction false} SplitJoin(parts: seq<string>, sep: char)
    requires |parts| >= 1
    requires forall p :: p in parts ==> sep !in p
    ensures Split(Join(parts, [sep]), sep) == parts
  {
    var head := parts[0];
    assert head in parts;
    if |parts| > 1 {
      var rest := parts[1..];
      assert forall p :: p in rest ==> p in parts;
      SplitJoin(rest, sep);
      assert Join(parts, [sep]) == head + ([sep] + Join(rest, [sep]));
      SplitAtFirst(Join(parts, [sep]), sep, head, Join(rest, [sep]));
    }
  }

  /** A separator-free head followed by the separator splits off as the first part. */
  lemma SplitAtFirst(s: string, sep: char, head: string, tail: string)
    requires sep !in head && s == head + ([sep] + tail)
    ensures Split(s, sep) == [head] + Split(tail, sep)
  {
    IndexOfCharAfter(head, [sep] + tail, sep);
    var i := IndexOfChar(s, sep);
    assert i == |head|;
    assert s[..i] == head;
    assert s[i + 1..] == tail;
  }

  /** A non-empty run of non-whitespace characters. */
  predicate IsWord(w: string) {
    w != [] && forall i :: 0 <= i < |w| ==> !IsSpace(w[i])
  }

  /** The length of the leading run of non-whitespace characters. */
  function WordEnd(s: string): (n: nat)
    ensures n <= |s|
    ensures forall i :: 0 <= i < n ==> !IsSpace(s[i])
    ensures n == |s| || IsSpace(s[n])
  {
    if s == [] || IsSpace(s[0]) then 0 else 1 + WordEnd(s[1..])
  }

  /** Python's `s.split()`: the maximal runs of non-whitespace characters, in order. */
  function Words(s: string): (ws: seq<string>)
    ensures forall w :: w in ws ==> IsWord(w)
    decreases |s|
  {
    if s == [] then []
    else if IsSpace(s[0]) then Words(s[1..])
    else
      var n := WordEnd(s);
      [s[..n]] + Words(s[n..])
  }

  /** Python's `" ".join(s.split())`: every whitespace run becomes one space, none at the ends. */
  function Collapse(s: string): string {
    Join(Words(s), " ")
  }

  /** The shape `Collapse` produces: whitespace only as single spaces between non-whitespace. */
  predicate Collapsed(s: string) {
    forall i :: 0 <= i < |s| && IsSpace(s[i]) ==>
      s[i] == ' ' && 0 < i < |s| - 1 && !IsSpace(s[i - 1]) && !IsSpace(s[i + 1])
  }

  lemma {:induction false} JoinWordsCollapsed(ws: seq<string>)
    requires forall w :: w in ws ==> IsWord(w)
    ensures Collapsed(Join(ws, " "))
    ensures ws != [] ==> Join(ws, " ") != [] && !IsSpace(Join(ws, " ")[0])
  {
    if |ws| == 1 {
      assert IsWord(ws[0]);
    } else if |ws| > 1 {
      JoinWordsCollapsed(ws[1..]);
      var w, rest := ws[0], Join(ws[1..], " ");
      assert IsWord(w);
      var s := Join(ws, " ");
      assert s == w + " " + rest;
      assert forall j :: 0 <= j < |w| ==> s[j] == w[j] && !IsSpace(s[j]);
      forall i | 0 <= i < |s| && IsSpace(s[i])
        ensures s[i] == ' ' && 0 < i < |s| - 1 && !IsSpace(s[i - 1]) && !IsSpace(s[i + 1])
      {
        if i == |w| {
          assert s[i - 1] == w[|w| - 1];
          assert s[i + 1] == rest[0];
        } else {
          assert s[i] == rest[i - |w| - 1];
          var j := i - |w| - 1;
          assert 0 < j < |rest| - 1;
          assert s[i - 1] == rest[j - 1] && s[i + 1] == rest[j + 1];
        }
      }
    }
  }

  /** The whitespace collapse always produces the `Collapsed` shape. */
  lemma CollapseIsCollapsed(s: string)
    ensures Collapsed(Collapse(s))
  {
    JoinWordsCollapsed(Words(s));
  }

  lemma {:induction false} WordsSkipSpaces(t: string, k: nat)
    requires k <= |t| && forall i :: 0 <= i < k ==> IsSpace(t[i])
    ensures Words(t) == Words(t[k..])
  {
    if k > 0 {
      assert t[1..][k - 1..] == t[k..];
      WordsSkipSpaces(t[1..], k - 1);
    }
  }

  /** Splitting a collapsed sequence of words gives the words back. */
  lemma {:induction false} WordsOfJoin(ws: seq<string>)
    requires forall w :: w in ws ==> IsWord(w)
    ensures Words(Join(ws, " ")) == ws
  {
    if |ws| == 1 {
      var w := ws[0];
      assert IsWord(w);
      assert WordEnd(w) == |w|;
      assert w[..|w|] == w && w[|w|..] == [];
      assert Words(w) == [w[..|w|]] + Words(w[|w|..]);
    } else if |ws| > 1 {
      var w, rest := ws[0], Join(ws[1..], " ");
      var s := Join(ws, " ");
      assert IsWord(w);
      assert s == w + " " + rest;
      assert forall j :: 0 <= j < |w| ==> s[j] == w[j] && !IsSpace(s[j]);
      assert IsSpace(s[|w|]);
      assert WordEnd(s) == |w|;
      assert s[..|w|] == w;
      assert s[|w|..][1..] == rest;
      WordsSkipSpaces(s[|w|..], 1);
      WordsOfJoin(ws[1..]);
    }
  }

  /** Collapsing whitespace twice is the same as collapsing it once. */
  lemma CollapseIdempotent(s: string)
    ensures Collapse(Collapse(s)) == Collapse(s)
  {
    WordsOfJoin(Words(s));
  }

  /** ASCII lower-casing of one character. */
  function LowerChar(c: char): char {
    if 'A' <= c <= 'Z' then (c as int + 32) as char else c
  }

  /** ASCII upper-casing of one character. */
  function UpperChar(c: char): char {
    if 'a' <= c <= 'z' then (c as int - 32) as char else c
  }

  /** Python's `s.lower()` on ASCII letters. */
  function Lower(s: string): (r: string)
    ensures |r| == |s|
  {
    seq(|s|, i requires 0 <= i < |s| => LowerChar(s[i]))
  }

  /** Python's `s.replace(old, new)` for single characters. */
  function ReplaceChar(s: string, from: char, to: char): (r: string)
    ensures |r| == |s|
  {
    seq(|s|, i requires 0 <= i < |s| => if s[i] == from then to else s[i])
  }

  predicate IsCased(c: char) {
    'A' <= c <= 'Z' || 'a' <= c <= 'z'
  }

  /**
   * Python's `s.title()` on ASCII letters: a letter that follows a letter is
   * lower-cased, any other letter is upper-cased; other characters are kept.
   */
  function TitleCase(s: string, afterLetter: bool): (r: string)
    ensures |r| == |s|
    ensures Lower(r) == Lower(s)
  {
    if s == [] then []
    else
      var c := s[0];
      var d := if !IsCased(c) then c else if afterLetter then LowerChar(c) else UpperChar(c);
      var r := [d] + TitleCase(s[1..], IsCased(c));
      assert Lower(r) == Lower(s) by {
        assert Lower(r)[0] == Lower(s)[0];
        assert Lower(r)[1..] == Lower(r[1..]) && Lower(s)[1..] == Lower(s[1..]);
      }
      r
  }

  /** Python's `sub in s`. */
  predicate MatchesAt(s: string, pat: string, j: nat) {
    j + |pat| <= |s| && s[j..j + |pat|] == pat
  }

  /** The first position at or after `from` where `pat` occurs in `s` (Python's `s.find(pat, from)`). */
  function FindFrom(s: string, pat: string, from: nat): (r: Option<nat>)
    ensures r.Some? ==> from <= r.value && MatchesAt(s, pat, r.value)
    ensures r.Some? ==> forall j :: from <= j < r.value ==> !MatchesAt(s, pat, j)
    ensures r.None? ==> forall j :: from <= j ==> !MatchesAt(s, pat, j)
    decreases |s| - from
  {
    if from + |pat| > |s| then None
    else if s[from..from + |pat|] == pat then Some(from)
    else FindFrom(s, pat, from + 1)
  }

  predicate Contains(s: string, pat: string) {
    FindFrom(s, pat, 0).Some?
  }

  predicate StartsWith(s: string, prefix: string) {
    MatchesAt(s, prefix, 0)
  }

  /** Python's `s.split(pat, 1)[1]`: what follows the first occurrence of `pat`. */
  function AfterFirst(s: string, pat: string): (r: string)
    requires Contains(s, pat)
    ensures exists k: nat :: MatchesAt(s, pat, k) && r == s[k + |pat|..]
                             && forall j :: 0 <= j < k ==> !MatchesAt(s, pat, j)
  {
    var k := FindFrom(s, pat, 0).value;
    s[k + |pat|..]
  }
}
