/** Character classes and the Python string operations the extractors rely on. */
module Strings {

  /** Python's `str.isspace()`: the characters `strip()`, `split()` and the regex class `\s` treat as whitespace. */
  predicate IsSpace(c: char) {
    || c == ' '
    || ('\t' <= c <= '\r')
    || ('\U{001C}' <= c <= '\U{001F}')
    || c == '\U{0085}' || c == '\U{00A0}' || c == '\U{1680}'
    || ('\U{2000}' <= c <= '\U{200A}')
    || c == '\U{2028}' || c == '\U{2029}' || c == '\U{202F}' || c == '\U{205F}' || c == '\U{3000}'
  }

  /** The line boundaries of Python's `str.splitlines()` ("\r\n" counts as one boundary). */
  predicate IsLineBreak(c: char) {
    || c == '\n' || c == '\r' || c == '\U{000B}' || c == '\U{000C}'
    || ('\U{001C}' <= c <= '\U{001E}')
    || c == '\U{0085}' || c == '\U{2028}' || c == '\U{2029}'
  }

  predicate NotLineBreak(c: char) { !IsLineBreak(c) }

  predicate NotSpace(c: char) { !IsSpace(c) }

  predicate IsDigit(c: char) { '0' <= c <= '9' }

  predicate IsAsciiLetter(c: char) { 'a' <= c <= 'z' || 'A' <= c <= 'Z' }

  /** The regex class `\w`, restricted to ASCII. */
  predicate IsWordChar(c: char) { IsAsciiLetter(c) || IsDigit(c) || c == '_' }

  /** Nothing but whitespace (Python: `not s.strip()`). */
  predicate IsBlank(s: string) {
    forall i :: 0 <= i < |s| ==> IsSpace(s[i])
  }

  /** No two adjacent ASCII spaces. */
  predicate NoDoubleSpace(s: string) {
    forall i :: 0 <= i < |s| - 1 ==> s[i] != ' ' || s[i + 1] != ' '
  }

  /** Number of leading characters of `s` that satisfy `p`. */
  function LeadingCount(s: string, p: char -> bool): (n: nat)
    ensures n <= |s|
    ensures forall i :: 0 <= i < n ==> p(s[i])
    ensures n < |s| ==> !p(s[n])
  {
    if |s| == 0 || !p(s[0]) then 0 else 1 + LeadingCount(s[1..], p)
  }

  /** `LeadingCount` is pinned down by its contract. */
  lemma {:induction false} LeadingCountExact(s: string, p: char -> bool, n: nat)
    requires n <= |s|
    requires forall i :: 0 <= i < n ==> p(s[i])
    requires n < |s| ==> !p(s[n])
    ensures LeadingCount(s, p) == n
    decreases n
  {
    if n > 0 {
      LeadingCountExact(s[1..], p, n - 1);
    }
  }

  /** Number of trailing characters of `s` that satisfy `p`. */
  function TrailingCount(s: string, p: char -> bool): (n: nat)
    ensures n <= |s|
    ensures forall i :: |s| - n <= i < |s| ==> p(s[i])
    ensures n < |s| ==> !p(s[|s| - 1 - n])
  {
    if |s| == 0 || !p(s[|s| - 1]) then 0 else 1 + TrailingCount(s[..|s| - 1], p)
  }

  /** `TrailingCount` is pinned down by its contract. */
  lemma {:induction false} TrailingCountExact(s: string, p: char -> bool, n: nat)
    requires n <= |s|
    requires forall i :: |s| - n <= i < |s| ==> p(s[i])
    requires n < |s| ==> !p(s[|s| - 1 - n])
    ensures TrailingCount(s, p) == n
    decreases n
  {
    if n > 0 {
      TrailingCountExact(s[..|s| - 1], p, n - 1);
    }
  }

  /** `r` is the slice of `s` starting at `lo`, and every character of `s` before or after that slice
      satisfies `drop`. */
  predicate TrimmedAt(s: string, r: string, lo: nat, drop: char -> bool) {
    && lo + |r| <= |s| && r == s[lo..lo + |r|]
    && (forall i :: 0 <= i < lo ==> drop(s[i]))
    && (forall i :: lo + |r| <= i < |s| ==> drop(s[i]))
  }

  /** Python's `s.strip(chars)`: drops the leading and trailing characters satisfying `drop`. */
  function TrimBy(s: string, drop: char -> bool): (r: string)
    ensures |r| <= |s|
    ensures r == [] <==> forall i :: 0 <= i < |s| ==> drop(s[i])
    ensures |r| > 0 ==> !drop(r[0]) && !drop(r[|r| - 1])
    ensures forall i :: 0 <= i < |r| ==> r[i] in s
  {
    var lo := LeadingCount(s, drop);
    var t := s[lo..];
    var r := t[..|t| - TrailingCount(t, drop)];
    assert forall i :: 0 <= i < |r| ==> r[i] == s[lo + i];
    r
  }

  /** Python's `s.strip()`. */
  function Strip(s: string): (r: string)
    ensures |r| <= |s|
    ensures r == [] <==> IsBlank(s)
    ensures |r| > 0 ==> !IsSpace(r[0]) && !IsSpace(r[|r| - 1])
  {
    TrimBy(s, IsSpace)
  }

  /** `TrimBy` removes exactly the leading and trailing characters satisfying `drop`: what is left is
      the slice of `s` between them. */
  lemma TrimBySlice(s: string, drop: char -> bool)
    ensures exists lo: nat :: TrimmedAt(s, TrimBy(s, drop), lo, drop)
  {
    var lo := LeadingCount(s, drop);
    var t := s[lo..];
    var k := TrailingCount(t, drop);
    var r := t[..|t| - k];
    assert TrimBy(s, drop) == r;
    assert |r| == |s| - lo - k;
    assert r == s[lo..lo + |r|];
    forall i | lo + |r| <= i < |s| ensures drop(s[i]) {
      assert s[i] == t[i - lo] && |t| - k <= i - lo;
    }
    assert TrimmedAt(s, r, lo, drop);
  }

  /** `strip()` removes exactly the leading and trailing whitespace: the result is the slice of `s`
      between them, empty exactly when `s` is blank, and otherwise neither starts nor ends with
      whitespace. */
  lemma StripSlice(s: string)
    ensures exists lo: nat :: TrimmedAt(s, Strip(s), lo, IsSpace)
    ensures Strip(s) == [] <==> IsBlank(s)
    ensures |Strip(s)| > 0 ==> !IsSpace(Strip(s)[0]) && !IsSpace(Strip(s)[|Strip(s)| - 1])
  {
    TrimBySlice(s, IsSpace);
    var lo: nat :| TrimmedAt(s, TrimBy(s, IsSpace), lo, IsSpace);
    assert TrimmedAt(s, Strip(s), lo, IsSpace);
  }

  /** A text that neither starts nor ends with whitespace is its own strip. */
  lemma StripUnchanged(v: string)
    requires |v| > 0 && !IsSpace(v[0]) && !IsSpace(v[|v| - 1])
    ensures Strip(v) == v
  {
    LeadingCountExact(v, IsSpace, 0);
    assert v[0..] == v;
    TrailingCountExact(v, IsSpace, 0);
  }

  /** A non-empty run of non-whitespace characters. */
  predicate IsWord(w: string) {
    |w| > 0 && forall i :: 0 <= i < |w| ==> NotSpace(w[i])
  }

  /** Python's `s.split()` with no separator: the maximal runs of non-whitespace characters. */
  function Words(s: string): (ws: seq<string>)
    ensures forall k :: 0 <= k < |ws| ==> IsWord(ws[k])
    decreases |s|
  {
    var lo := LeadingCount(s, IsSpace);
    if lo == |s| then []
    else
      var t := s[lo..];
      var n := LeadingCount(t, NotSpace);
      WordOfRun(t, n);
      var rest := t[n..];
      var ws := Words(rest);
      ConsWords(t[..n], ws);
      [t[..n]] + ws
  }

  /** A non-empty run of non-whitespace characters at the front of `t` is a word. */
  lemma WordOfRun(t: string, n: nat)
    requires 0 < |t| && NotSpace(t[0])
    requires n <= |t| && forall i :: 0 <= i < n ==> NotSpace(t[i])
    requires n < |t| ==> !NotSpace(t[n])
    ensures n > 0 && IsWord(t[..n])
  {
  }

  /** Putting a word in front of a list of words gives a list of words. */
  lemma ConsWords(w: string, ws: seq<string>)
    requires IsWord(w) && forall k :: 0 <= k < |ws| ==> IsWord(ws[k])
    ensures forall k :: 0 <= k < |[w] + ws| ==> IsWord(([w] + ws)[k])
  {
    assert forall k :: 0 <= k < |ws| ==> ([w] + ws)[k + 1] == ws[k];
  }

  /** A text has no words exactly when it is blank. */
  lemma WordsOfBlank(s: string)
    ensures Words(s) == [] <==> IsBlank(s)
  {
    var lo := LeadingCount(s, IsSpace);
    if lo < |s| {
      assert !IsSpace(s[lo]);
    }
  }

  /** Splitting words joined by single spaces gives the words back. */
  lemma {:induction false} WordsOfJoin(ws: seq<string>)
    requires forall k :: 0 <= k < |ws| ==> IsWord(ws[k])
    ensures Words(Join(ws, " ")) == ws
    decreases |ws|
  {
    if |ws| == 0 {
    } else if |ws| == 1 {
      WordsOfWord(ws[0]);
    } else {
      var w := ws[0];
      var rest := Join(ws[1..], " ");
      JoinCons(w, ws[1..], " ");
      assert ws == [w] + ws[1..];
      WordsOfJoin(ws[1..]);
      JoinStartsWithWord(ws[1..]);
      WordsOfWordThenRest(w, rest);
    }
  }

  /** A word on its own is one word. */
  lemma WordsOfWord(w: string)
    requires IsWord(w)
    ensures Words(w) == [w]
  {
    LeadingCountExact(w, IsSpace, 0);
    assert w[0..] == w;
    LeadingCountExact(w, NotSpace, |w|);
    assert w[..|w|] == w && w[|w|..] == [];
  }

  /** Words joined by spaces start with a character that is not whitespace. */
  lemma JoinStartsWithWord(ws: seq<string>)
    requires |ws| > 0 && forall k :: 0 <= k < |ws| ==> IsWord(ws[k])
    ensures |Join(ws, " ")| > 0 && NotSpace(Join(ws, " ")[0])
  {
    if |ws| > 1 {
      JoinCons(ws[0], ws[1..], " ");
      assert ws == [ws[0]] + ws[1..];
    }
  }

  /** A word, one space, and a text that starts with a non-whitespace character: the word comes first
      and the text's words follow. */
  lemma WordsOfWordThenRest(w: string, rest: string)
    requires IsWord(w) && |rest| > 0 && NotSpace(rest[0])
    ensures Words(w + " " + rest) == [w] + Words(rest)
  {
    var s := w + " " + rest;
    LeadingCountExact(s, IsSpace, 0);
    assert s[0..] == s;
    LeadingCountExact(s, NotSpace, |w|);
    assert s[..|w|] == w;
    var t := s[|w|..];
    assert t == [' '] + rest;
    LeadingCountExact(t, IsSpace, 1);
    assert t[1..] == rest;
    LeadingCountExact(rest, IsSpace, 0);
    assert rest[0..] == rest;
  }

  /** `split()` followed by `" ".join(...)` equals collapsing every whitespace run to one space and
      stripping: with `WordsOfJoin` and the fact that every element is a word, this fixes `Words` on
      every input. */
  lemma WordsJoinIsCollapsed(s: string)
    ensures Join(Words(s), " ") == Strip(ReplaceRuns(s, IsSpace, 1))
  {
    WordsOfBlank(s);
    if IsBlank(s) {
      BlankCollapse(s);
    } else {
      var tail := CollapseShape(s);
      JoinStartsWithWord(Words(s));
      JoinEndsWithWord(Words(s));
      StripPadded(if IsSpace(s[0]) then " " else [], Join(Words(s), " "), tail);
    }
  }

  /** A blank text collapses to nothing or to one space. */
  lemma BlankCollapse(s: string)
    requires IsBlank(s)
    ensures CollapseRuns(s, IsSpace, 1) == [] || CollapseRuns(s, IsSpace, 1) == " "
  {
    if |s| > 0 {
      CollapseLoneRun(s, IsSpace, 1);
    }
  }

  /** A word at the front of a text is kept as it is by the collapse. */
  lemma {:induction false} CollapseWordThen(w: string, rest: string)
    requires IsWord(w)
    ensures CollapseRuns(w + rest, IsSpace, 1) == w + CollapseRuns(rest, IsSpace, 1)
    decreases |w|
  {
    var s := w + rest;
    var q := CollapseRuns(rest, IsSpace, 1);
    assert CollapseRuns(s, IsSpace, 1) == [w[0]] + CollapseRuns(s[1..], IsSpace, 1) by {
      assert s[0] == w[0];
      CollapseRunsOfKept(s, IsSpace, 1);
    }
    if |w| == 1 {
      assert s[1..] == rest;
      assert w == [w[0]];
    } else {
      var v := w[1..];
      assert IsWord(v) by {
        assert forall i :: 0 <= i < |v| ==> v[i] == w[i + 1];
      }
      assert s[1..] == v + rest;
      CollapseWordThen(v, rest);
      assert [w[0]] + (v + q) == w + q by {
        assert w == [w[0]] + v;
      }
    }
  }

  /** A non-blank text collapses to its words joined by single spaces, preceded by one space when it
      starts with whitespace and followed by at most one space. */
  lemma {:induction false} CollapseShape(s: string) returns (tail: string)
    requires !IsBlank(s)
    ensures tail == [] || tail == " "
    ensures CollapseRuns(s, IsSpace, 1) == (if IsSpace(s[0]) then " " else []) + Join(Words(s), " ") + tail
    decreases |s|
  {
    var lead, w, rest := FirstWord(s);
    FirstWordCollapse(s, lead, w, rest);
    var lp := if IsSpace(s[0]) then " " else [];
    WordsOfBlank(rest);
    if IsBlank(rest) {
      BlankCollapse(rest);
      tail := CollapseRuns(rest, IsSpace, 1);
    } else {
      tail := CollapseShape(rest);
      JoinCons(w, Words(rest), " ");
      ShapeStep(CollapseRuns(s, IsSpace, 1), lp, w, CollapseRuns(rest, IsSpace, 1), Join(Words(rest), " "), tail, Join(Words(s), " "));
    }
  }

  /** The collapse of leading whitespace, a word and the rest: one space for the whitespace, if any,
      then the word, then the collapse of the rest. */
  lemma FirstWordCollapse(s: string, lead: string, w: string, rest: string)
    requires s == lead + (w + rest) && IsBlank(lead) && IsWord(w)
    ensures CollapseRuns(s, IsSpace, 1) == (if IsSpace(s[0]) then " " else []) + w + CollapseRuns(rest, IsSpace, 1)
  {
    assert IsSpace(s[0]) <==> lead != [] by {
      if lead == [] {
        assert s[0] == w[0];
      } else {
        assert s[0] == lead[0];
      }
    }
    CollapseWordThen(w, rest);
    CollapseLead(lead, w + rest);
  }

  /** The step of `CollapseShape`: the collapse of the rest starts with the space that joins the words. */
  lemma ShapeStep(q: string, lp: string, w: string, qr: string, j: string, tail: string, joined: string)
    requires q == lp + w + qr && qr == " " + j + tail && joined == w + " " + j
    ensures q == lp + joined + tail
  {
  }

  /** The leading whitespace, the first word and what follows it, of a non-blank text. */
  lemma FirstWord(s: string) returns (lead: string, w: string, rest: string)
    requires !IsBlank(s)
    ensures s == lead + (w + rest) && IsBlank(lead) && IsWord(w)
    ensures rest == [] || IsSpace(rest[0])
    ensures Words(s) == [w] + Words(rest)
  {
    var lo := LeadingCount(s, IsSpace);
    var t := s[lo..];
    var n := LeadingCount(t, NotSpace);
    WordsStep(s, lo, t, n);
    FirstWordParts(s, lo, t, n);
    lead, w, rest := s[..lo], t[..n], t[n..];
  }

  /** One unfolding of `Words` on a non-blank text. */
  lemma WordsStep(s: string, lo: nat, t: string, n: nat)
    requires !IsBlank(s) && lo == LeadingCount(s, IsSpace)
    requires lo <= |s| && t == s[lo..] && n == LeadingCount(t, NotSpace)
    ensures Words(s) == [t[..n]] + Words(t[n..])
  {
  }

  /** The pieces `Words` cuts a non-blank text into. */
  lemma FirstWordParts(s: string, lo: nat, t: string, n: nat)
    requires !IsBlank(s) && lo == LeadingCount(s, IsSpace)
    requires lo <= |s| && t == s[lo..] && n == LeadingCount(t, NotSpace)
    ensures n <= |t| && s == s[..lo] + (t[..n] + t[n..]) && IsBlank(s[..lo]) && IsWord(t[..n])
    ensures t[n..] == [] || IsSpace(t[n..][0])
  {
    assert lo < |s|;
    WordOfRun(t, n);
    CutAt(s, lo);
    CutAt(t, n);
    if n < |t| {
      assert t[n..][0] == t[n];
    }
  }

  /** A text is its part before position `k` followed by the part from `k` on. */
  lemma CutAt(s: string, k: nat)
    requires k <= |s|
    ensures s == s[..k] + s[k..]
  {
  }

  /** Leading whitespace before a non-whitespace character collapses to one space. */
  lemma CollapseLead(lead: string, x: string)
    requires IsBlank(lead) && |x| > 0 && NotSpace(x[0])
    ensures CollapseRuns(lead + x, IsSpace, 1) == (if lead == [] then [] else " ") + CollapseRuns(x, IsSpace, 1)
  {
    var s := lead + x;
    if lead != [] {
      LeadingCountExact(s, IsSpace, |lead|);
      CollapseRunsOfRun(s, IsSpace, 1, |lead|);
      assert s[|lead|..] == x;
    } else {
      assert s == x;
    }
  }

  /** Words joined by spaces end with a character that is not whitespace. */
  lemma {:induction false} JoinEndsWithWord(ws: seq<string>)
    requires |ws| > 0 && forall k :: 0 <= k < |ws| ==> IsWord(ws[k])
    ensures |Join(ws, " ")| > 0 && NotSpace(Join(ws, " ")[|Join(ws, " ")| - 1])
    decreases |ws|
  {
    if |ws| > 1 {
      assert forall k :: 0 <= k < |ws| - 1 ==> ws[1..][k] == ws[k + 1];
      JoinEndsWithWord(ws[1..]);
    }
  }

  /** Stripping whitespace padding from around a text with non-whitespace ends gives the text. */
  lemma StripPadded(lead: string, mid: string, trail: string)
    requires IsBlank(lead) && IsBlank(trail)
    requires |mid| > 0 && NotSpace(mid[0]) && NotSpace(mid[|mid| - 1])
    ensures Strip(lead + mid + trail) == mid
  {
    var s := lead + mid + trail;
    LeadingCountExact(s, IsSpace, |lead|);
    var t := s[|lead|..];
    assert t == mid + trail;
    TrailingCountExact(t, IsSpace, |trail|);
    assert t[..|t| - |trail|] == mid;
  }

  function LowerChar(c: char): char {
    if 'A' <= c <= 'Z' then (c as int + 32) as char else c
  }

  /** Python's `s.lower()`, restricted to ASCII letters. */
  function Lower(s: string): (r: string)
    ensures |r| == |s|
    ensures forall i :: 0 <= i < |s| ==> r[i] == LowerChar(s[i])
  {
    if |s| == 0 then [] else [LowerChar(s[0])] + Lower(s[1..])
  }

  /** Python's `needle in hay` for two strings. */
  predicate Contains(hay: string, needle: string)
    decreases |hay|
  {
    needle <= hay || (|hay| > 0 && Contains(hay[1..], needle))
  }

  /** Python's `sep.join(items)`. */
  function Join(items: seq<string>, sep: string): string {
    if |items| == 0 then []
    else if |items| == 1 then items[0]
    else items[0] + sep + Join(items[1..], sep)
  }

  /** A needle in the right part of a concatenation is in the whole. */
  lemma {:induction false} ContainsInSuffix(a: string, b: string, needle: string)
    requires Contains(b, needle)
    ensures Contains(a + b, needle)
    decreases |a|
  {
    if |a| > 0 {
      assert (a + b)[1..] == a[1..] + b;
      ContainsInSuffix(a[1..], b, needle);
    } else {
      assert a + b == b;
    }
  }

  /** Every item occurs in the items joined by any separator. */
  lemma {:induction false} JoinContainsItem(items: seq<string>, sep: string, i: nat)
    requires i < |items|
    ensures Contains(Join(items, sep), items[i])
    decreases |items|
  {
    if |items| == 1 || i == 0 {
      assert items[i] <= Join(items, sep);
    } else {
      JoinContainsItem(items[1..], sep, i - 1);
      ContainsInSuffix(items[0] + sep, Join(items[1..], sep), items[i]);
      assert Join(items, sep) == (items[0] + sep) + Join(items[1..], sep);
    }
  }

  function DigitChar(d: nat): (c: char)
    requires d < 10
    ensures IsDigit(c)
  {
    ('0' as int + d) as char
  }

  /** Python's `str(n)` for a non-negative integer. */
  function NatToString(n: nat): (s: string)
    ensures |s| > 0
    ensures forall i :: 0 <= i < |s| ==> IsDigit(s[i])
    ensures n > 0 ==> s[0] != '0'
  {
    if n < 10 then [DigitChar(n)] else NatToString(n / 10) + [DigitChar(n % 10)]
  }

  /** Reads back a string of decimal digits. */
  function ParseDigits(s: string): nat
    requires forall i :: 0 <= i < |s| ==> IsDigit(s[i])
  {
    if |s| == 0 then 0
    else
      var last := s[|s| - 1];
      assert IsDigit(last);
      10 * ParseDigits(s[..|s| - 1]) + (last as int - '0' as int)
  }

  /** `NatToString` is read back exactly: decimal rendering loses nothing. */
  lemma {:induction false} NatToStringRoundTrip(n: nat)
    ensures ParseDigits(NatToString(n)) == n
    decreases n
  {
    var s := NatToString(n);
    if n >= 10 {
      NatToStringRoundTrip(n / 10);
      assert s[..|s| - 1] == NatToString(n / 10);
    }
  }

  /** Replaces every maximal run of characters satisfying `inRun` that is at least `minLen` long by
      one space, and keeps shorter runs: Python's `re.sub(C{minLen,}, " ", s)` for a class C. */
  function ReplaceRuns(s: string, inRun: char -> bool, minLen: nat): (r: string)
    requires minLen >= 1
    ensures |r| <= |s|
    ensures forall i :: 0 <= i < |r| ==> r[i] == ' ' || r[i] in s
    ensures minLen == 1 ==> forall i :: 0 <= i < |r| ==> r[i] == ' ' || !inRun(r[i])
    ensures |s| > 0 && !inRun(s[0]) ==> |r| > 0 && r[0] == s[0]
    ensures inRun(' ') && minLen <= 2 ==> NoDoubleSpace(r)
  {
    CollapseRunsFacts(s, inRun, minLen);
    CollapseNoDoubleSpace(s, inRun, minLen);
    CollapseRuns(s, inRun, minLen)
  }

  /** A text that is a single run of class characters becomes one space when the run is at least
      `minLen` long, and is kept otherwise. */
  lemma ReplaceRunsLoneRun(s: string, inRun: char -> bool, minLen: nat)
    requires minLen >= 1 && |s| > 0 && forall i :: 0 <= i < |s| ==> inRun(s[i])
    ensures ReplaceRuns(s, inRun, minLen) == (if |s| >= minLen then " " else s)
  {
    CollapseLoneRun(s, inRun, minLen);
  }

  /** The left-to-right computation behind `ReplaceRuns`: a character outside the class is kept, and a
      leading run is replaced or kept before the rest is processed. */
  function CollapseRuns(s: string, inRun: char -> bool, minLen: nat): string
    requires minLen >= 1
    decreases |s|
  {
    if |s| == 0 then []
    else if !inRun(s[0]) then [s[0]] + CollapseRuns(s[1..], inRun, minLen)
    else
      var n := LeadingCount(s, inRun);
      (if n >= minLen then " " else s[..n]) + CollapseRuns(s[n..], inRun, minLen)
  }

  /** The contract of `ReplaceRuns`, by induction over the computation. */
  lemma {:induction false} CollapseRunsFacts(s: string, inRun: char -> bool, minLen: nat)
    requires minLen >= 1
    ensures var r := CollapseRuns(s, inRun, minLen);
      && |r| <= |s|
      && (forall i :: 0 <= i < |r| ==> r[i] == ' ' || r[i] in s)
      && (minLen == 1 ==> forall i :: 0 <= i < |r| ==> r[i] == ' ' || !inRun(r[i]))
      && (|s| > 0 && !inRun(s[0]) ==> |r| > 0 && r[0] == s[0])
    decreases |s|
  {
    if |s| == 0 {
    } else if !inRun(s[0]) {
      CollapseRunsFacts(s[1..], inRun, minLen);
      var rest := CollapseRuns(s[1..], inRun, minLen);
      assert forall i :: 0 <= i < |rest| ==> rest[i] == ' ' || rest[i] in s;
    } else {
      var n := LeadingCount(s, inRun);
      CollapseRunsFacts(s[n..], inRun, minLen);
      var rest := CollapseRuns(s[n..], inRun, minLen);
      assert forall i :: 0 <= i < |rest| ==> rest[i] == ' ' || rest[i] in s;
    }
  }

  /** When the space is in the class and runs of two are replaced, no two spaces end up adjacent. */
  lemma {:induction false} CollapseNoDoubleSpace(s: string, inRun: char -> bool, minLen: nat)
    requires minLen >= 1
    ensures inRun(' ') && minLen <= 2 ==> NoDoubleSpace(CollapseRuns(s, inRun, minLen))
    ensures |s| > 0 && !inRun(s[0]) ==> |CollapseRuns(s, inRun, minLen)| > 0 && CollapseRuns(s, inRun, minLen)[0] == s[0]
    decreases |s|
  {
    if |s| == 0 || !(inRun(' ') && minLen <= 2) {
    } else if !inRun(s[0]) {
      CollapseNoDoubleSpace(s[1..], inRun, minLen);
    } else {
      var n := LeadingCount(s, inRun);
      CollapseNoDoubleSpace(s[n..], inRun, minLen);
    }
  }

  /** A text that is one run is replaced by a space when the run is long enough and kept otherwise. */
  lemma CollapseLoneRun(s: string, inRun: char -> bool, minLen: nat)
    requires minLen >= 1 && |s| > 0 && forall i :: 0 <= i < |s| ==> inRun(s[i])
    ensures CollapseRuns(s, inRun, minLen) == (if |s| >= minLen then " " else s)
  {
    LeadingCountExact(s, inRun, |s|);
    assert s[..|s|] == s && s[|s|..] == [];
  }

  /** A character outside the class separates the runs on its two sides: the replacement works on
      each side on its own and keeps the character where it is. With `ReplaceRunsLoneRun`, this
      determines the result: the characters outside the class stay, in order, and each
      maximal run becomes one space when it is at least `minLen` long and is kept otherwise. */
  lemma ReplaceRunsSplit(a: string, c: char, b: string, inRun: char -> bool, minLen: nat)
    requires minLen >= 1 && !inRun(c)
    ensures ReplaceRuns(a + [c] + b, inRun, minLen) == ReplaceRuns(a, inRun, minLen) + [c] + ReplaceRuns(b, inRun, minLen)
  {
    CollapseRunsSplit(a, c, b, inRun, minLen);
  }

  /** `ReplaceRunsSplit` for the computation. */
  lemma {:induction false} CollapseRunsSplit(a: string, c: char, b: string, inRun: char -> bool, minLen: nat)
    requires minLen >= 1 && !inRun(c)
    ensures CollapseRuns(a + [c] + b, inRun, minLen) == CollapseRuns(a, inRun, minLen) + [c] + CollapseRuns(b, inRun, minLen)
    decreases |a|
  {
    var s := a + [c] + b;
    if |a| == 0 {
      SliceOfSplit(a, c, b, 0);
      assert s[1..] == b;
    } else if !inRun(a[0]) {
      CollapseRunsSplit(a[1..], c, b, inRun, minLen);
      SplitAfterKept(a, c, b, inRun, minLen);
    } else {
      var n := LeadingCount(s, inRun);
      RunStopsAt(a, c, b, inRun, n);
      CollapseRunsSplit(a[n..], c, b, inRun, minLen);
      SplitAfterRun(a, c, b, inRun, minLen, n);
    }
  }

  /** The step of the split for a text that starts with a character outside the class. */
  lemma SplitAfterKept(a: string, c: char, b: string, inRun: char -> bool, minLen: nat)
    requires minLen >= 1 && !inRun(c) && |a| > 0 && !inRun(a[0])
    requires CollapseRuns(a[1..] + [c] + b, inRun, minLen) == CollapseRuns(a[1..], inRun, minLen) + [c] + CollapseRuns(b, inRun, minLen)
    ensures CollapseRuns(a + [c] + b, inRun, minLen) == CollapseRuns(a, inRun, minLen) + [c] + CollapseRuns(b, inRun, minLen)
  {
    SliceOfSplit(a, c, b, 1);
    CollapseRunsOfKept(a + [c] + b, inRun, minLen);
    CollapseRunsOfKept(a, inRun, minLen);
    AppendShape([a[0]], CollapseRuns(a[1..], inRun, minLen), c, CollapseRuns(b, inRun, minLen));
  }

  /** The step of the split for a text that starts with a run of class characters of length `n`. */
  lemma SplitAfterRun(a: string, c: char, b: string, inRun: char -> bool, minLen: nat, n: nat)
    requires minLen >= 1 && !inRun(c) && |a| > 0 && inRun(a[0])
    requires n == LeadingCount(a + [c] + b, inRun) && n <= |a| && LeadingCount(a, inRun) == n
    requires CollapseRuns(a[n..] + [c] + b, inRun, minLen) == CollapseRuns(a[n..], inRun, minLen) + [c] + CollapseRuns(b, inRun, minLen)
    ensures CollapseRuns(a + [c] + b, inRun, minLen) == CollapseRuns(a, inRun, minLen) + [c] + CollapseRuns(b, inRun, minLen)
  {
    SliceOfSplit(a, c, b, n);
    var h := if n >= minLen then " " else a[..n];
    var x := CollapseRuns(a[n..], inRun, minLen);
    var y := CollapseRuns(b, inRun, minLen);
    CollapseRunsOfRun(a + [c] + b, inRun, minLen, n);
    assert CollapseRuns(a + [c] + b, inRun, minLen) == h + (x + [c] + y);
    CollapseRunsOfRun(a, inRun, minLen, n);
    assert CollapseRuns(a, inRun, minLen) == h + x;
    AppendShape(h, x, c, y);
  }

  /** Regrouping `h + (x + [c] + y)`. */
  lemma AppendShape(h: string, x: string, c: char, y: string)
    ensures h + (x + [c] + y) == h + x + [c] + y
  {
  }

  /** A text starting with a character outside the class keeps it and processes the rest. */
  lemma CollapseRunsOfKept(s: string, inRun: char -> bool, minLen: nat)
    requires minLen >= 1 && |s| > 0 && !inRun(s[0])
    ensures CollapseRuns(s, inRun, minLen) == [s[0]] + CollapseRuns(s[1..], inRun, minLen)
  {
  }

  /** The leading run of `a + [c] + b`, where `c` is outside the class, lies inside `a` and is `a`'s
      leading run. */
  lemma RunStopsAt(a: string, c: char, b: string, inRun: char -> bool, n: nat)
    requires !inRun(c) && n == LeadingCount(a + [c] + b, inRun)
    ensures n <= |a| && LeadingCount(a, inRun) == n
  {
    var s := a + [c] + b;
    assert s[|a|] == c;
    assert forall i :: 0 <= i < |a| ==> s[i] == a[i];
    LeadingCountExact(a, inRun, n);
  }

  /** The pieces of `a + [c] + b` around position `n` of `a`. */
  lemma SliceOfSplit(a: string, c: char, b: string, n: nat)
    requires n <= |a| || (|a| == 0 && n <= 1)
    ensures n <= |a| ==> (a + [c] + b)[n..] == a[n..] + [c] + b && (a + [c] + b)[..n] == a[..n]
    ensures |a| == 0 && n == 1 ==> (a + [c] + b)[n..] == b
    ensures |a| > 0 ==> (a + [c] + b)[0] == a[0]
    ensures |a| == 0 ==> (a + [c] + b)[0] == c
  {
  }

  /** A text starting with a run of class characters of length `n`: the run is replaced or kept, then
      the rest is processed. */
  lemma CollapseRunsOfRun(s: string, inRun: char -> bool, minLen: nat, n: nat)
    requires minLen >= 1 && |s| > 0 && inRun(s[0]) && n == LeadingCount(s, inRun)
    ensures CollapseRuns(s, inRun, minLen) == (if n >= minLen then " " else s[..n]) + CollapseRuns(s[n..], inRun, minLen)
  {
  }

  /** Python's `s.splitlines()`: the text between line boundaries, with no empty line after a final boundary. */
  function SplitLines(s: string): (lines: seq<string>)
    ensures forall k :: 0 <= k < |lines| ==> forall i :: 0 <= i < |lines[k]| ==> !IsLineBreak(lines[k][i])
    ensures lines == [] <==> s == []
    decreases |s|
  {
    if |s| == 0 then []
    else
      var n := LeadingCount(s, NotLineBreak);
      if n == |s| then [s]
      else
        var skip := if s[n] == '\r' && n + 1 < |s| && s[n + 1] == '\n' then 2 else 1;
        [s[..n]] + SplitLines(s[n + skip..])
  }

  /** Joining a line onto the front of a non-empty list of lines. */
  lemma JoinCons(head: string, tail: seq<string>, sep: string)
    requires tail != []
    ensures Join([head] + tail, sep) == head + sep + Join(tail, sep)
  {
    assert ([head] + tail)[1..] == tail;
  }

  /** A text is its part before position `n`, the character there, and the part after. */
  lemma SplitAround(s: string, n: nat)
    requires n < |s|
    ensures s == s[..n] + [s[n]] + s[n + 1..]
  {
    assert s[n..] == [s[n]] + s[n + 1..];
    assert s == s[..n] + s[n..];
  }

  /** For text whose only line boundary is "\n" and that does not end in one, joining the lines with
      "\n" gives the text back. */
  lemma {:induction false} SplitLinesJoin(s: string)
    requires forall i :: 0 <= i < |s| ==> !IsLineBreak(s[i]) || s[i] == '\n'
    requires |s| > 0 ==> s[|s| - 1] != '\n'
    ensures Join(SplitLines(s), "\n") == s
    decreases |s|
  {
    if |s| > 0 {
      var n := LeadingCount(s, NotLineBreak);
      if n < |s| {
        assert s[n] == '\n';
        assert n + 1 < |s|;
        var rest := s[n + 1..];
        assert SplitLines(s) == [s[..n]] + SplitLines(rest);
        SplitLinesJoin(rest);
        JoinCons(s[..n], SplitLines(rest), "\n");
        SplitAround(s, n);
      } else {
        assert SplitLines(s) == [s];
      }
    }
  }

  /** Splitting lines joined by "\n" gives them back, provided no line holds a line boundary and the
      last line is not empty. */
  lemma {:induction false} SplitLinesOfJoin(ls: seq<string>)
    requires forall k :: 0 <= k < |ls| ==> forall i :: 0 <= i < |ls[k]| ==> !IsLineBreak(ls[k][i])
    requires |ls| > 0 ==> ls[|ls| - 1] != []
    ensures SplitLines(Join(ls, "\n")) == ls
    decreases |ls|
  {
    if |ls| == 1 {
      LeadingCountExact(ls[0], NotLineBreak, |ls[0]|);
    } else if |ls| > 1 {
      var h := ls[0];
      var rest := Join(ls[1..], "\n");
      var s := h + "\n" + rest;
      assert Join(ls, "\n") == s;
      LeadingCountExact(s, NotLineBreak, |h|);
      assert s[..|h|] == h && s[|h| + 1..] == rest;
      SplitLinesOfJoin(ls[1..]);
    }
  }
}
